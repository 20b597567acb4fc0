/** The bootloader heap itself: headers and payloads share one word-addressed
    memory that every call updates in place (amssu-rcm/bdk/mem/heap.c). */
module Heap {
  import opened HeapBlocks

  const NULL: nat := 0

  // Byte offsets of the hnode_t fields behind the header address.
  const USED: nat := 0
  const SIZE: nat := 4
  const PREV: nat := 8
  const NEXT: nat := 12

  datatype Monitor = Monitor(total: nat, used: nat, nodesTotal: nat, nodesUsed: nat)

  /** The hnode_t at byte address a of memory m. */
  ghost predicate NodeAt(m: seq<nat>, a: nat, used: bool, size: nat, prev: nat, next: nat) {
    && a + HNODE <= |m|
    && m[a + USED] == (if used then 1 else 0)
    && m[a + SIZE] == size
    && m[a + PREV] == prev
    && m[a + NEXT] == next
  }

  function AddrOr(bs: seq<Block>, i: int): nat {
    if 0 <= i < |bs| then bs[i].addr else NULL
  }

  /** The header of block i is in memory, both links included. */
  ghost predicate NodeOk(m: seq<nat>, bs: seq<Block>, i: nat)
    requires i < |bs|
  {
    NodeAt(m, bs[i].addr, bs[i].used, bs[i].size, AddrOr(bs, i - 1), AddrOr(bs, i + 1))
  }

  ghost predicate Linked(m: seq<nat>, bs: seq<Block>) {
    forall i :: 0 <= i < |bs| ==> NodeOk(m, bs, i)
  }

  /** Memories m and n agree on every payload byte of the live block b. */
  ghost predicate PayloadSame(m: seq<nat>, n: seq<nat>, b: Block) {
    |m| == |n| && forall a :: b.Payload() <= a < b.Limit() && a < |m| ==> n[a] == m[a]
  }

  /** ... and of every live block of a list. */
  ghost predicate LiveKept(m: seq<nat>, n: seq<nat>, live: seq<Block>) {
    |m| == |n| && forall b :: b in live ==> PayloadSame(m, n, b)
  }

  /** What holds of every used block holds of the live ones. */
  lemma KeptLive(m: seq<nat>, n: seq<nat>, bs: seq<Block>)
    requires |m| == |n| && forall i {:trigger bs[i]} :: 0 <= i < |bs| && bs[i].used ==> PayloadSame(m, n, bs[i])
    ensures LiveKept(m, n, Live(bs))
  {
    forall b | b in Live(bs)
      ensures PayloadSame(m, n, b)
    {
      LiveElements(bs, b);
    }
  }

  /** Memory m is linked as bs, and n is m with a new tail linked to the last block. */
  ghost predicate TailWrite(m: seq<nat>, n: seq<nat>, bs: seq<Block>, start: nat, size: nat) {
    && Tiled(bs, start) && bs != []
    && |n| == |m| && NodeAt(n, End(bs, start), true, size, bs[|bs| - 1].addr, NULL)
    && n[bs[|bs| - 1].addr + NEXT] == End(bs, start)
    && (forall a :: 0 <= a < End(bs, start) && a != bs[|bs| - 1].addr + NEXT ==> n[a] == m[a])
  }

  lemma TailNode(m: seq<nat>, n: seq<nat>, bs: seq<Block>, start: nat, size: nat, i: nat)
    requires TailWrite(m, n, bs, start, size) && i < |bs| && NodeOk(m, bs, i)
    ensures NodeOk(n, bs + [Block(End(bs, start), size, true)], i) && PayloadSame(m, n, bs[i])
  {
    TiledOrdered(bs, start, i, |bs| - 1);
  }

  /** Writing a header behind the last block and linking to it appends a block. */
  lemma LinkTail(m: seq<nat>, n: seq<nat>, bs: seq<Block>, start: nat, size: nat)
    requires TailWrite(m, n, bs, start, size) && Linked(m, bs)
    ensures Linked(n, bs + [Block(End(bs, start), size, true)])
    ensures LiveKept(m, n, Live(bs))
  {
    var now := bs + [Block(End(bs, start), size, true)];
    forall i | 0 <= i < |now|
      ensures NodeOk(n, now, i)
    {
      if i < |bs| {
        assert NodeOk(m, bs, i);
        TailNode(m, n, bs, start, size, i);
      }
    }
    forall i | 0 <= i < |bs|
      ensures PayloadSame(m, n, bs[i])
    {
      assert NodeOk(m, bs, i);
      TailNode(m, n, bs, start, size, i);
    }
    KeptLive(m, n, bs);
  }

  /** Outside blocks k .. k + c and the back link of the block behind them, m and n agree. */
  ghost predicate LocalWrite(m: seq<nat>, n: seq<nat>, bs: seq<Block>, k: nat, c: nat)
    requires 0 < c && k + c <= |bs|
  {
    && |m| == |n|
    && (forall a :: 0 <= a < |m| && a < bs[k].addr ==> n[a] == m[a])
    && (forall a :: bs[k + c - 1].Limit() <= a < |m| && a != AddrOr(bs, k + c) + PREV ==> n[a] == m[a])
  }

  lemma SwapNode(m: seq<nat>, n: seq<nat>, bs: seq<Block>, k: nat, c: nat, fill: seq<Block>, start: nat, j: nat)
    requires Tiled(bs, start) && j < |bs| && NodeOk(m, bs, j)
    requires 0 < c && k + c <= |bs| && fill != [] && fill[0].addr == bs[k].addr
    requires LocalWrite(m, n, bs, k, c)
    requires j < k || k + c <= j
    requires j == k + c ==> bs[j].addr + PREV < |n| && n[bs[j].addr + PREV] == fill[|fill| - 1].addr
    ensures NodeOk(n, bs[..k] + fill + bs[k + c..], if j < k then j else j - c + |fill|)
    ensures PayloadSame(m, n, bs[j])
  {
    var now := bs[..k] + fill + bs[k + c..];
    if j < k {
      TiledOrdered(bs, start, j, k);
      assert now[j] == bs[j] && AddrOr(now, j - 1) == AddrOr(bs, j - 1);
      assert AddrOr(now, j + 1) == AddrOr(bs, j + 1);
    } else {
      var i := j - c + |fill|;
      assert now[i] == bs[j] && AddrOr(now, i + 1) == AddrOr(bs, j + 1);
      TiledOrdered(bs, start, k + c - 1, j);
      if j == k + c {
        assert now[i - 1] == fill[|fill| - 1];
      } else {
        assert now[i - 1] == bs[j - 1];
        TiledOrdered(bs, start, k + c, j);
      }
    }
  }

  /** Replacing the free blocks k .. k + c by `fill`, with the headers of `fill` and the
      back link of the block behind them rewritten and nothing else written outside. */
  lemma LinkSwap(m: seq<nat>, n: seq<nat>, bs: seq<Block>, k: nat, c: nat, fill: seq<Block>, start: nat)
    requires Tiled(bs, start) && Linked(m, bs)
    requires 0 < c && k + c <= |bs| && fill != [] && fill[0].addr == bs[k].addr
    requires forall i :: k <= i < k + c ==> !bs[i].used
    requires LocalWrite(m, n, bs, k, c)
    requires k + c < |bs| ==> NodeOk(m, bs, k + c) && n[bs[k + c].addr + PREV] == fill[|fill| - 1].addr
    requires var now := bs[..k] + fill + bs[k + c..];
      forall i :: k <= i < k + |fill| ==> NodeOk(n, now, i)
    ensures Linked(n, bs[..k] + fill + bs[k + c..])
    ensures LiveKept(m, n, Live(bs))
  {
    var now := bs[..k] + fill + bs[k + c..];
    forall i | 0 <= i < |now|
      ensures NodeOk(n, now, i)
    {
      if i < k || k + |fill| <= i {
        var j := if i < k then i else i - |fill| + c;
        assert NodeOk(m, bs, j);
        SwapNode(m, n, bs, k, c, fill, start, j);
      }
    }
    forall i | 0 <= i < |bs| && bs[i].used
      ensures PayloadSame(m, n, bs[i])
    {
      assert NodeOk(m, bs, i);
      SwapNode(m, n, bs, k, c, fill, start, i);
    }
    KeptLive(m, n, bs);
  }

  /** What handing out `request` bytes of the free block b writes. */
  ghost predicate Granted(m: seq<nat>, n: seq<nat>, b: Block, request: nat, prev: nat, next: nat)
    requires request <= b.size
  {
    var cut := Carve(b, request);
    && |m| == |n|
    && (forall a :: 0 <= a < |m| && a < b.addr ==> n[a] == m[a])
    && (forall a :: b.Limit() <= a < |m| && a != next + PREV ==> n[a] == m[a])
    && NodeAt(n, b.addr, true, cut[0].size, prev, if |cut| == 2 then cut[1].addr else next)
    && (|cut| == 2 ==> NodeAt(n, cut[1].addr, false, cut[1].size, b.addr, next))
    && (next != NULL ==> next + PREV < |m|)
    && (next != NULL ==> n[next + PREV] == if |cut| == 2 then cut[1].addr else m[next + PREV])
  }

  /** The headers that a grant writes. */
  lemma CarveNodes(m: seq<nat>, n: seq<nat>, bs: seq<Block>, k: nat, size: nat)
    requires k < |bs| && size <= bs[k].size
    requires Granted(m, n, bs[k], size, AddrOr(bs, k - 1), AddrOr(bs, k + 1))
    ensures var cut := Carve(bs[k], size); var now := bs[..k] + cut + bs[k + 1..];
      NodeOk(n, now, k) && (|cut| == 2 ==> NodeOk(n, now, k + 1))
  {
    var cut := Carve(bs[k], size);
    var now := bs[..k] + cut + bs[k + 1..];
    assert now[k] == cut[0] && (|cut| == 2 ==> now[k + 1] == cut[1]);
    assert AddrOr(now, k - 1) == AddrOr(bs, k - 1);
    assert AddrOr(now, k + |cut|) == AddrOr(bs, k + 1) by {
      if k + 1 < |bs| {
        assert now[k + |cut|] == bs[k + 1];
      }
    }
  }

  lemma LinkCarve(m: seq<nat>, n: seq<nat>, bs: seq<Block>, k: nat, size: nat, start: nat)
    requires 0 < start && Tiled(bs, start) && Linked(m, bs)
    requires k < |bs| && !bs[k].used && size <= bs[k].size
    requires Granted(m, n, bs[k], size, AddrOr(bs, k - 1), AddrOr(bs, k + 1))
    ensures Linked(n, Place(bs, k, start, size))
    ensures LiveKept(m, n, Live(bs))
  {
    CarveLocal(m, n, bs, k, size, start);
    CarveNodes(m, n, bs, k, size);
    LinkSwap(m, n, bs, k, 1, Carve(bs[k], size), start);
  }

  /** A grant writes nothing else but the back link of the next header. */
  lemma CarveLocal(m: seq<nat>, n: seq<nat>, bs: seq<Block>, k: nat, size: nat, start: nat)
    requires 0 < start && Tiled(bs, start) && Linked(m, bs)
    requires k < |bs| && size <= bs[k].size
    requires Granted(m, n, bs[k], size, AddrOr(bs, k - 1), AddrOr(bs, k + 1))
    ensures LocalWrite(m, n, bs, k, 1)
    ensures var cut := Carve(bs[k], size);
      k + 1 < |bs| ==> NodeOk(m, bs, k + 1) && n[bs[k + 1].addr + PREV] == cut[|cut| - 1].addr
  {
    if k + 1 < |bs| {
      TiledOrdered(bs, start, k, k + 1);
      assert NodeOk(m, bs, k + 1);
    }
  }

  /** What merging the node `next to` block a (block b) into a writes. */
  ghost predicate Absorbed(m: seq<nat>, n: seq<nat>, a: Block, b: Block, prev: nat, next: nat) {
    && |m| == |n|
    && (forall x :: 0 <= x < |m| && x < a.addr ==> n[x] == m[x])
    && (forall x :: b.addr <= x < |m| && x != next + PREV ==> n[x] == m[x])
    && NodeAt(n, a.addr, false, a.size + b.size + HNODE, prev, next)
    && (next != NULL ==> next + PREV < |m|)
    && (next != NULL ==> n[next + PREV] == a.addr)
  }

  /** The header that a merge writes. */
  lemma MergedNode(m: seq<nat>, n: seq<nat>, bs: seq<Block>, k: nat)
    requires k + 1 < |bs| && !bs[k].used
    requires Absorbed(m, n, bs[k], bs[k + 1], AddrOr(bs, k - 1), AddrOr(bs, k + 2))
    ensures NodeOk(n, Merge(bs, k), k)
  {
    var now := Merge(bs, k);
    assert AddrOr(now, k - 1) == AddrOr(bs, k - 1);
    assert AddrOr(now, k + 1) == AddrOr(bs, k + 2) by {
      if k + 2 < |bs| {
        assert now[k + 1] == bs[k + 2];
      }
    }
  }

  lemma LinkMerge(m: seq<nat>, n: seq<nat>, bs: seq<Block>, k: nat, start: nat)
    requires 0 < start && Tiled(bs, start) && Linked(m, bs)
    requires k + 1 < |bs| && !bs[k].used && !bs[k + 1].used
    requires Absorbed(m, n, bs[k], bs[k + 1], AddrOr(bs, k - 1), AddrOr(bs, k + 2))
    ensures Linked(n, Merge(bs, k))
    ensures LiveKept(m, n, Live(bs))
  {
    MergedNode(m, n, bs, k);
    MergeLocal(m, n, bs, k, start);
    LinkSwap(m, n, bs, k, 2, [Merged(bs[k], bs[k + 1])], start);
  }

  /** A merge writes nothing else but the back link of the next header. */
  lemma MergeLocal(m: seq<nat>, n: seq<nat>, bs: seq<Block>, k: nat, start: nat)
    requires 0 < start && Tiled(bs, start) && Linked(m, bs) && k + 1 < |bs|
    requires Absorbed(m, n, bs[k], bs[k + 1], AddrOr(bs, k - 1), AddrOr(bs, k + 2))
    ensures LocalWrite(m, n, bs, k, 2)
    ensures k + 2 < |bs| ==> NodeOk(m, bs, k + 2) && n[bs[k + 2].addr + PREV] == bs[k].addr
  {
    TiledOrdered(bs, start, k, k + 1);
    if k + 2 < |bs| {
      TiledOrdered(bs, start, k, k + 2);
      assert NodeOk(m, bs, k + 2);
    }
  }

  /** Clearing the used word of block k. */
  lemma LinkClear(m: seq<nat>, n: seq<nat>, bs: seq<Block>, k: nat, start: nat)
    requires Tiled(bs, start) && Linked(m, bs) && k < |bs| && bs[k].used
    requires bs[k].addr < |m| && n == m[bs[k].addr + USED := 0]
    ensures Linked(n, bs[k := bs[k].(used := false)])
    ensures LiveKept(m, n, Live(bs))
  {
    var now := bs[k := bs[k].(used := false)];
    Ordered(bs, start);
    forall i | 0 <= i < |now|
      ensures NodeOk(n, now, i)
    {
      assert NodeOk(m, bs, i);
    }
    forall b | b in Live(bs)
      ensures PayloadSame(m, n, b)
    {
      LiveElements(bs, b);
    }
  }

  /** Writes inside the payload of block k leave every header and every other payload alone,
      so a caller that stays in its block cannot damage the heap. */
  lemma PayloadWrites(m: seq<nat>, n: seq<nat>, bs: seq<Block>, k: nat, start: nat)
    requires Tiled(bs, start) && Linked(m, bs) && k < |bs| && |m| == |n|
    requires forall a :: 0 <= a < |m| && !(bs[k].Payload() <= a < bs[k].Limit()) ==> n[a] == m[a]
    ensures Linked(n, bs)
    ensures forall i {:trigger bs[i]} :: 0 <= i < |bs| && i != k ==> PayloadSame(m, n, bs[i])
  {
    Ordered(bs, start);
    forall i | 0 <= i < |bs|
      ensures NodeOk(n, bs, i) && (i != k ==> PayloadSame(m, n, bs[i]))
    {
      assert NodeOk(m, bs, i);
    }
  }

  class Heap {
    const mem: array<nat>       // a cell per byte address; an aligned word sits in the cell of its first byte
    const start: nat            // _heap.start, a byte address
    const defrag: bool          // false in a build with BDK_MALLOC_NO_DEFRAG
    var first: nat
    var last: nat
    ghost var blocks: seq<Block>

    /** The list part of the invariant: a tiling from the heap start that fits in memory. */
    ghost predicate Shape(bs: seq<Block>) {
      && Tiled(bs, start) && Aligned(bs) && End(bs, start) <= mem.Length
      && (defrag ==> NoAdjacentFree(bs))
    }

    ghost predicate Valid()
      reads this, mem
    {
      && 0 < start && start % 32 == 0 && mem.Length <= U32
      && Shape(blocks) && Linked(mem[..], blocks)
      && first == (if blocks == [] then NULL else start)
      && (!defrag && blocks != [] ==> last == blocks[|blocks| - 1].addr)
    }

    /** heap_init: no block yet. */
    constructor (memory: array<nat>, base: nat, defrag: bool)
      requires 0 < base <= memory.Length <= U32 && base % 32 == 0
      ensures Valid() && blocks == []
      ensures mem == memory && start == base && this.defrag == defrag
    {
      mem := memory;
      start := base;
      this.defrag := defrag;
      first := NULL;
      last := NULL;
      blocks := [];
    }

    /** Which block an aligned request goes to; |blocks| stands for appending. */
    ghost function Slot(size: nat): (k: nat)
      reads this
      ensures k <= |blocks|
      ensures k < |blocks| ==> defrag && !blocks[k].used && size <= blocks[k].size
    {
      if defrag then FirstFit(blocks, size) else |blocks|
    }

    /** A new tail still lies in memory (the program never checks this). */
    ghost predicate HasRoom(size: nat)
      reads this
    {
      Slot(size) == |blocks| ==> End(blocks, start) + HNODE + size <= mem.Length
    }

    /** _heap_alloc: serves malloc. */
    method Alloc(request: nat) returns (p: nat, ghost k: nat)
      requires Valid() && request < U32
      requires HasRoom(Align(request))
      modifies this, mem
      ensures Valid()
      ensures k == old(Slot(Align(request)))
      ensures blocks == Place(old(blocks), k, start, Align(request))
      ensures blocks[k].used && Align(request) <= blocks[k].size
      ensures p == blocks[k].Payload() && p % 32 == 0
      ensures LiveKept(old(mem[..]), mem[..], Live(old(blocks)))
    {
      var size := Align(request);
      AlignCovers(request);
      PlaceServes(Slot(size), size);
      k := Slot(size);
      if first == NULL {
        p := First(size);
        return;
      }
      var node := last;
      if defrag {
        var found;
        node, found := Search(size);
        if found {
          p := Take(node, size, k);
          return;
        }
      }
      p := Append(node, size);
    }

    lemma PlaceServes(k: nat, size: nat)
      requires Valid() && k == Slot(size) && size % 32 == 0
      ensures var r := Place(blocks, k, start, size);
        k < |r| && r[k].used && size <= r[k].size && r[k].Payload() % 32 == 0
    {
      PlaceKeeps(blocks, k, start, size);
      assert OnLine(Place(blocks, k, start, size)[k]);
    }

    method First(size: nat) returns (p: nat)
      requires Valid() && first == NULL && size % 32 == 0 && start + HNODE + size <= mem.Length
      modifies this, mem
      ensures Valid() && blocks == [Block(start, size, true)]
      ensures p == start + HNODE
    {
      mem[start + USED] := 1;
      mem[start + SIZE] := size;
      mem[start + PREV] := NULL;
      mem[start + NEXT] := NULL;
      first := start;
      last := start;
      blocks := [Block(start, size, true)];
      p := start + HNODE;
    }

    /** The walk along `next` for the first free node that is large enough. */
    method Search(size: nat) returns (node: nat, found: bool)
      requires Valid() && blocks != []
      ensures var k := FirstFit(blocks, size);
        && found == (k < |blocks|)
        && node == blocks[if found then k else |blocks| - 1].addr
    {
      node, found := first, false;
      ghost var i := 0;
      while true
        invariant 0 <= i < |blocks| && node == blocks[i].addr
        invariant i <= FirstFit(blocks, size)
        decreases |blocks| - i
      {
        SlotBounds(blocks, i);
        if mem[node + USED] == 0 && size <= mem[node + SIZE] {
          return node, true;
        }
        if mem[node + NEXT] == NULL {
          break;
        }
        node := mem[node + NEXT];
        i := i + 1;
      }
    }

    /** The free node at block k is handed out, split when enough is left over. */
    method Take(node: nat, size: nat, ghost k: nat) returns (p: nat)
      requires Valid() && defrag && size % 32 == 0
      requires k < |blocks| && node == blocks[k].addr && !blocks[k].used && size <= blocks[k].size
      modifies this, mem
      ensures Valid() && blocks == Place(old(blocks), k, start, size)
      ensures p == node + HNODE
      ensures LiveKept(old(mem[..]), mem[..], Live(old(blocks)))
    {
      SlotBounds(blocks, k);
      Grant(node, size, blocks[k], AddrOr(blocks, k - 1), AddrOr(blocks, k + 1));
      LinkCarve(old(mem[..]), mem[..], blocks, k, size, start);
      PlaceShape(blocks, k, size);
      blocks := Place(blocks, k, start, size);
      p := node + HNODE;
    }

    /** The header writes of Take, for a free node b between headers at prev and next. */
    method Grant(node: nat, request: nat, ghost b: Block, ghost prev: nat, ghost next: nat)
      requires node == b.addr && request <= b.size && b.Limit() <= mem.Length
      requires NodeAt(mem[..], node, false, b.size, prev, next)
      requires next == NULL || next == b.Limit() <= mem.Length - HNODE
      modifies mem
      ensures Granted(old(mem[..]), mem[..], b, request, prev, next)
    {
      var size := request;
      var left := mem[node + SIZE] - size;
      if left >= HNODE * 4 {
        SplitOff(node, node + HNODE + size, left, next);
      } else {
        size := size + left;
      }
      mem[node + SIZE] := size;
      mem[node + USED] := 1;
    }

    /** The remainder of `left` bytes becomes a free node behind `node`. */
    method SplitOff(node: nat, split: nat, left: nat, ghost next: nat)
      requires node + HNODE <= split && HNODE <= left && split + left <= mem.Length && mem[node + NEXT] == next
      requires next == NULL || next == split + left <= mem.Length - HNODE
      modifies mem
      ensures NodeAt(mem[..], split, false, left - HNODE, node, next) && mem[node + NEXT] == split
      ensures next != NULL ==> mem[next + PREV] == split
      ensures forall a :: 0 <= a < split && a != node + NEXT ==> mem[a] == old(mem[a])
      ensures forall a :: split + left <= a < mem.Length && a != next + PREV ==> mem[a] == old(mem[a])
    {
      mem[split + SIZE] := left - HNODE;
      mem[split + USED] := 0;
      mem[split + NEXT] := mem[node + NEXT];
      if mem[split + NEXT] != NULL {
        mem[mem[split + NEXT] + PREV] := split;
      }
      mem[split + PREV] := node;
      mem[node + NEXT] := split;
    }

    /** Where the headers at and around block k lie. */
    lemma SlotBounds(bs: seq<Block>, k: nat)
      requires Tiled(bs, start) && End(bs, start) <= mem.Length && Linked(mem[..], bs) && k < |bs|
      ensures NodeOk(mem[..], bs, k) && start <= bs[k].addr && bs[k].Limit() <= mem.Length
      ensures k + 1 < |bs| ==> bs[k].Limit() == bs[k + 1].addr && bs[k + 1].Limit() <= mem.Length
      ensures k + 1 < |bs| ==> NodeOk(mem[..], bs, k + 1)
      ensures k > 0 ==> bs[k - 1].Limit() == bs[k].addr && start <= bs[k - 1].addr && NodeOk(mem[..], bs, k - 1)
    {
      Ordered(bs, start);
      assert k + 1 < |bs| ==> Meets(bs, k);
      assert k > 0 ==> Meets(bs, k - 1);
    }

    lemma PlaceShape(bs: seq<Block>, k: nat, size: nat)
      requires Shape(bs) && size % 32 == 0 && start % 32 == 0
      requires k <= |bs| && (k < |bs| ==> !bs[k].used && size <= bs[k].size)
      requires k == |bs| ==> End(bs, start) + HNODE + size <= mem.Length
      ensures Shape(Place(bs, k, start, size))
    {
      PlaceKeeps(bs, k, start, size);
      if defrag {
        PlaceNoAdjacentFree(bs, k, start, size);
      }
    }

    /** A new tail behind the last node. */
    method Append(node: nat, size: nat) returns (p: nat)
      requires Valid() && size % 32 == 0
      requires blocks != [] && node == blocks[|blocks| - 1].addr
      requires End(blocks, start) + HNODE + size <= mem.Length
      modifies this, mem
      ensures Valid() && blocks == Place(old(blocks), |old(blocks)|, start, size)
      ensures p == End(old(blocks), start) + HNODE
      ensures LiveKept(old(mem[..]), mem[..], Live(old(blocks)))
    {
      ghost var m, was, now := mem[..], blocks, Place(blocks, |blocks|, start, size);
      SlotBounds(blocks, |blocks| - 1);
      var split := AddTail(node, size, blocks[|blocks| - 1].size);
      assert now == was + [Block(End(was, start), size, true)];
      assert Linked(mem[..], now) && LiveKept(m, mem[..], Live(was)) by {
        LinkTail(m, mem[..], was, start, size);
      }
      assert Shape(now) by {
        PlaceShape(was, |was|, size);
      }
      last := split;
      blocks := now;
      p := split + HNODE;
    }

    /** The header writes of Append. */
    method AddTail(node: nat, size: nat, ghost nodeSize: nat) returns (split: nat)
      requires node + HNODE + nodeSize + HNODE <= mem.Length && mem[node + SIZE] == nodeSize
      modifies mem
      ensures split == node + HNODE + nodeSize
      ensures NodeAt(mem[..], split, true, size, node, NULL) && mem[node + NEXT] == split
      ensures forall a :: 0 <= a < split && a != node + NEXT ==> mem[a] == old(mem[a])
    {
      split := node + HNODE + mem[node + SIZE];
      mem[split + USED] := 1;
      mem[split + SIZE] := size;
      mem[split + PREV] := node;
      mem[split + NEXT] := NULL;
      mem[node + NEXT] := split;
    }

    /** free: pointers below the heap start are ignored. */
    method Free(buf: nat, ghost k: nat)
      requires Valid()
      requires buf >= start ==> k < |blocks| && blocks[k].used && buf == blocks[k].Payload()
      modifies this, mem
      ensures Valid()
      ensures buf < start ==> blocks == old(blocks) && mem[..] == old(mem[..])
      ensures buf >= start ==>
        blocks == var cleared := old(blocks)[k := old(blocks)[k].(used := false)];
                  if defrag then Coalesce(cleared) else cleared
      ensures LiveKept(old(mem[..]), mem[..], Live(blocks))
    {
      if buf >= start {
        var node := buf - HNODE;
        SlotBounds(blocks, k);
        ClearKeeps(blocks, k, start);
        mem[node + USED] := 0;
        LinkClear(old(mem[..]), mem[..], blocks, k, start);
        blocks := blocks[k := blocks[k].(used := false)];
        assert LiveKept(old(mem[..]), mem[..], Live(blocks));
        if defrag {
          ghost var cleared := blocks;
          Sweep();
          CoalesceKeeps(cleared, start);
        }
      }
    }

    /** The pass of _heap_free over all nodes: each free node joins a free predecessor. */
    method Sweep()
      requires defrag && 0 < start && start % 32 == 0 && mem.Length <= U32
      requires Tiled(blocks, start) && Aligned(blocks) && End(blocks, start) <= mem.Length
      requires Linked(mem[..], blocks) && blocks != [] && first == start
      modifies mem, `blocks
      ensures Valid() && blocks == Coalesce(old(blocks))
      ensures LiveKept(old(mem[..]), mem[..], Live(blocks))
    {
      ghost var was := blocks;
      var node := first;
      ghost var i: nat := 0;
      while node != NULL
        invariant Sweeping(i, node) && End(blocks, start) == End(was, start) && Live(blocks) == Live(was)
        invariant LiveKept(old(mem[..]), mem[..], Live(was))
        decreases |blocks| - i
      {
        node, i := Visit(node, i);
      }
      if i < |blocks| {
        TiledOrdered(blocks, start, i, i);
        assert false;
      }
      SweptIsCoalesced(blocks, was, start);
    }

    /** The pass stands at block i (or behind the last one), with blocks before it swept. */
    ghost predicate Sweeping(i: nat, node: nat)
      reads this, mem
    {
      && 0 < start && Tiled(blocks, start) && Aligned(blocks) && End(blocks, start) <= mem.Length
      && Linked(mem[..], blocks) && blocks != []
      && PairsSwept(blocks, i) && node == AddrOr(blocks, i)
    }

    /** One round of the pass. */
    method Visit(node: nat, ghost i: nat) returns (next: nat, ghost j: nat)
      requires node != NULL && Sweeping(i, node)
      modifies mem, `blocks
      ensures Sweeping(j, next)
      ensures |blocks| - j == |old(blocks)| - i - 1
      ensures End(blocks, start) == End(old(blocks), start) && Live(blocks) == Live(old(blocks))
      ensures LiveKept(old(mem[..]), mem[..], Live(blocks))
    {
      SlotBounds(blocks, i);
      if mem[node + USED] == 0 && mem[node + PREV] != NULL && mem[mem[node + PREV] + USED] == 0 {
        MergePrefix(blocks, i - 1);
        Join(node, i - 1);
        j := i;
      } else {
        j := i + 1;
      }
      next := mem[node + NEXT];
    }

    /** One merge: the free node of block k + 1 joins the free block k; its own header stays readable. */
    method Join(node: nat, ghost k: nat)
      requires 0 < start && Tiled(blocks, start) && Aligned(blocks) && End(blocks, start) <= mem.Length
      requires Linked(mem[..], blocks) && k + 1 < |blocks| && node == blocks[k + 1].addr
      requires !blocks[k].used && !blocks[k + 1].used
      modifies mem, `blocks
      ensures blocks == Merge(old(blocks), k)
      ensures Tiled(blocks, start) && Aligned(blocks) && End(blocks, start) == End(old(blocks), start)
      ensures Linked(mem[..], blocks) && Live(blocks) == Live(old(blocks))
      ensures LiveKept(old(mem[..]), mem[..], Live(blocks))
      ensures node + HNODE <= mem.Length && mem[node + NEXT] == AddrOr(old(blocks), k + 2)
    {
      MergeKeeps(blocks, k, start);
      PairBounds(blocks, k);
      Absorb(node, blocks[k], blocks[k + 1], AddrOr(blocks, k - 1), AddrOr(blocks, k + 2));
      LinkMerge(old(mem[..]), mem[..], blocks, k, start);
      blocks := Merge(blocks, k);
    }

    lemma PairBounds(bs: seq<Block>, k: nat)
      requires Tiled(bs, start) && End(bs, start) <= mem.Length && Linked(mem[..], bs) && k + 1 < |bs|
      ensures NodeOk(mem[..], bs, k) && NodeOk(mem[..], bs, k + 1)
      ensures bs[k].Limit() == bs[k + 1].addr && bs[k + 1].Limit() <= mem.Length
      ensures k + 2 < |bs| ==> bs[k + 1].Limit() == bs[k + 2].addr && bs[k + 2].Limit() <= mem.Length
    {
      SlotBounds(bs, k);
      SlotBounds(bs, k + 1);
    }

    /** The header writes of one merge: node b joins its predecessor a. */
    method Absorb(node: nat, ghost a: Block, ghost b: Block, ghost prev: nat, ghost next: nat)
      requires a.Limit() == b.addr == node && b.Limit() <= mem.Length
      requires NodeAt(mem[..], a.addr, false, a.size, prev, node)
      requires NodeAt(mem[..], node, false, b.size, a.addr, next)
      requires next == NULL || next == b.Limit() <= mem.Length - HNODE
      modifies mem
      ensures Absorbed(old(mem[..]), mem[..], a, b, prev, next)
    {
      var before := mem[node + PREV];
      mem[before + SIZE] := mem[before + SIZE] + mem[node + SIZE] + HNODE;
      mem[before + NEXT] := mem[node + NEXT];
      if mem[node + NEXT] != NULL {
        mem[mem[node + NEXT] + PREV] := before;
      }
    }

    /** zalloc; calloc is ZeroAlloc((num * size) % U32). */
    method ZeroAlloc(request: nat) returns (p: nat, ghost k: nat)
      requires Valid() && request < U32
      requires HasRoom(Align(request))
      modifies this, mem
      ensures Valid()
      ensures k == old(Slot(Align(request)))
      ensures blocks == Place(old(blocks), k, start, Align(request))
      ensures p == blocks[k].Payload() && p + Align(request) <= mem.Length
      ensures forall a :: p <= a < p + Align(request) ==> mem[a] == 0
      ensures LiveKept(old(mem[..]), mem[..], Live(old(blocks)))
    {
      ghost var was := blocks;
      ghost var size := Align(request);
      AlignCovers(request);
      PlaceKeeps(was, Slot(size), start, size);
      p, k := Alloc(request);
      ghost var m := mem[..];
      TiledOrdered(blocks, start, k, k);
      Clear(p, Align(request));
      PayloadWrites(m, mem[..], blocks, k, start);
      ClearedLive(was, k, size, m, mem[..]);
    }

    /** memset(p, 0, size). */
    method Clear(p: nat, size: nat)
      requires p + size <= mem.Length
      modifies mem
      ensures forall a :: p <= a < p + size ==> mem[a] == 0
      ensures forall a :: 0 <= a < mem.Length && !(p <= a < p + size) ==> mem[a] == old(mem[a])
    {
      for a := p to p + size
        invariant forall x :: p <= x < a ==> mem[x] == 0
        invariant forall x :: 0 <= x < mem.Length && !(p <= x < a) ==> mem[x] == old(mem[x])
      {
        mem[a] := 0;
      }
    }

    /** The blocks that were live before an allocation are live after it, elsewhere. */
    lemma ClearedLive(bs: seq<Block>, k: nat, size: nat, m: seq<nat>, n: seq<nat>)
      requires Shape(bs) && size % 32 == 0 && start % 32 == 0 && |m| == |n|
      requires k <= |bs| && (k < |bs| ==> !bs[k].used && size <= bs[k].size)
      requires var now := Place(bs, k, start, size);
        forall i {:trigger now[i]} :: 0 <= i < |now| && i != k ==> PayloadSame(m, n, now[i])
      ensures LiveKept(m, n, Live(bs))
    {
      var now := Place(bs, k, start, size);
      forall b | b in Live(bs)
        ensures PayloadSame(m, n, b)
      {
        LiveElements(bs, b);
        var i :| 0 <= i < |bs| && bs[i] == b;
        var j := if i < k then i else i + |now| - |bs|;
        assert now[j] == b;
      }
    }

    /** heap_monitor; the program dereferences the first node unconditionally. */
    method Stats() returns (mon: Monitor)
      requires Valid() && first != NULL
      ensures mon.total == End(blocks, start) - start
      ensures mon.used == LiveTotal(blocks) && mon.total - mon.used == FreeTotal(blocks)
      ensures mon.nodesTotal == |blocks| && mon.nodesUsed == |Live(blocks)|
    {
      var total, used, count, nodesUsed := 0, 0, 0, 0;
      var node := first;
      while true
        invariant 0 <= total && 0 <= count < |blocks| && node == blocks[count].addr
        invariant total + used == Total(blocks[..count]) && used == LiveTotal(blocks[..count])
        invariant nodesUsed == |Live(blocks[..count])|
        decreases |blocks| - count
      {
        SlotBounds(blocks, count);
        CountOne(blocks, count);
        if mem[node + USED] != 0 {
          nodesUsed := nodesUsed + 1;
          used := used + mem[node + SIZE] + HNODE;
        } else {
          total := total + mem[node + SIZE] + HNODE;
        }
        count := count + 1;
        if mem[node + NEXT] == NULL {
          break;
        }
        node := mem[node + NEXT];
      }
      assert blocks[..count] == blocks;
      TotalSplits(blocks, start);
      TotalSpans(blocks, start);
      return Monitor(total + used, used, count, nodesUsed);
    }
  }
}
