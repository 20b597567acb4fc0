/** The block list of the bootloader heap as a value: what a list of in-band
    headers means, and the laws that hold of it (amssu-rcm/bdk/mem/heap.c). */
module HeapBlocks {
  const HNODE: nat := 32              // sizeof(hnode_t)
  const U32: nat := 0x1_0000_0000

  /** A header at byte address `addr`, followed by `size` payload bytes. */
  datatype Block = Block(addr: nat, size: nat, used: bool) {
    function Payload(): nat { addr + HNODE }
    function Limit(): nat { addr + HNODE + size }
  }

  /** ALIGN(size, sizeof(hnode_t)), computed in 32-bit unsigned arithmetic. */
  function Align(size: nat): nat {
    (size + 31) % U32 / 32 * 32
  }

  /** The aligned size covers the request exactly when the addition does not wrap. */
  lemma AlignCovers(size: nat)
    requires size < U32
    ensures Align(size) % 32 == 0 && Align(size) < U32
    ensures size <= Align(size) <==> size <= 0xFFFF_FFE0
    ensures size <= Align(size) ==> Align(size) < size + 32
  {
  }

  function End(bs: seq<Block>, start: nat): nat {
    if bs == [] then start else bs[|bs| - 1].Limit()
  }

  ghost predicate Meets(bs: seq<Block>, i: nat)
    requires i + 1 < |bs|
  {
    bs[i].Limit() == bs[i + 1].addr
  }

  /** The blocks follow each other from `start` with no gap and no overlap. */
  ghost predicate Tiled(bs: seq<Block>, start: nat) {
    && (bs != [] ==> bs[0].addr == start)
    && (forall i :: 0 <= i < |bs| - 1 ==> Meets(bs, i))
  }

  ghost predicate OnLine(b: Block) {
    b.addr % 32 == 0 && b.size % 32 == 0
  }

  lemma LineSum(a: nat, b: nat)
    requires a % 32 == 0 && b % 32 == 0
    ensures (a + HNODE + b) % 32 == 0
  {
    assert a + HNODE + b == 32 * (a / 32 + 1 + b / 32);
  }

  ghost predicate Aligned(bs: seq<Block>) {
    forall i {:trigger OnLine(bs[i])} :: 0 <= i < |bs| ==> OnLine(bs[i])
  }

  ghost predicate OneUsed(bs: seq<Block>, i: nat)
    requires i + 1 < |bs|
  {
    bs[i].used || bs[i + 1].used
  }

  ghost predicate NoAdjacentFree(bs: seq<Block>) {
    forall i :: 0 <= i < |bs| - 1 ==> OneUsed(bs, i)
  }

  /** Two tilings that meet make one tiling, and conversely. */
  lemma TiledConcat(a: seq<Block>, b: seq<Block>, start: nat)
    ensures Tiled(a + b, start) <==> Tiled(a, start) && Tiled(b, End(a, start))
    ensures End(a + b, start) == End(b, End(a, start))
  {
    var c := a + b;
    if Tiled(c, start) {
      forall i | 0 <= i < |a| - 1
        ensures Meets(a, i)
      {
        assert Meets(c, i);
      }
      forall i | 0 <= i < |b| - 1
        ensures Meets(b, i)
      {
        assert Meets(c, |a| + i);
      }
      if a != [] && b != [] {
        assert Meets(c, |a| - 1);
      }
    } else if Tiled(a, start) && Tiled(b, End(a, start)) {
      forall i | 0 <= i < |c| - 1
        ensures Meets(c, i)
      {
        if i + 1 < |a| {
          assert Meets(a, i);
        } else if |a| <= i {
          assert Meets(b, i - |a|);
        }
      }
    }
  }

  lemma TiledInit(bs: seq<Block>, start: nat)
    requires Tiled(bs, start) && bs != []
    ensures var init := bs[..|bs| - 1];
      Tiled(init, start) && End(init, start) == bs[|bs| - 1].addr
  {
    var init := bs[..|bs| - 1];
    assert bs == init + [bs[|bs| - 1]];
    TiledConcat(init, [bs[|bs| - 1]], start);
  }

  lemma {:induction false} TiledOrdered(bs: seq<Block>, start: nat, i: nat, j: nat)
    requires Tiled(bs, start) && i <= j < |bs|
    ensures start <= bs[i].addr && bs[j].Limit() <= End(bs, start)
    ensures i < j ==> bs[i].Limit() <= bs[j].addr
    decreases |bs|
  {
    var init := bs[..|bs| - 1];
    TiledInit(bs, start);
    if j < |bs| - 1 {
      TiledOrdered(init, start, i, j);
    } else if i < j {
      TiledOrdered(init, start, i, j - 1);
      assert Meets(bs, j - 1);
      assert init[j - 1] == bs[j - 1];
    } else if i > 0 {
      TiledOrdered(init, start, i - 1, i - 1);
    }
  }

  /** The ordering facts for all pairs at once. */
  lemma Ordered(bs: seq<Block>, start: nat)
    requires Tiled(bs, start)
    ensures forall i, j :: 0 <= i < j < |bs| ==> bs[i].Limit() <= bs[j].addr
    ensures forall i :: 0 <= i < |bs| ==> start <= bs[i].addr && bs[i].Limit() <= End(bs, start)
  {
    forall i, j | 0 <= i < j < |bs|
      ensures bs[i].Limit() <= bs[j].addr
    {
      TiledOrdered(bs, start, i, j);
    }
    forall i | 0 <= i < |bs|
      ensures start <= bs[i].addr && bs[i].Limit() <= End(bs, start)
    {
      TiledOrdered(bs, start, i, i);
    }
  }

  /** The live blocks, in address order. */
  function Live(bs: seq<Block>): seq<Block> {
    if bs == [] then [] else (if bs[0].used then [bs[0]] else []) + Live(bs[1..])
  }

  lemma {:induction false} LiveConcat(a: seq<Block>, b: seq<Block>)
    ensures Live(a + b) == Live(a) + Live(b)
  {
    if a == [] {
      assert a + b == b;
    } else {
      var head := if a[0].used then [a[0]] else [];
      assert (a + b)[0] == a[0] && (a + b)[1..] == a[1..] + b;
      LiveConcat(a[1..], b);
      assert head + (Live(a[1..]) + Live(b)) == (head + Live(a[1..])) + Live(b);
    }
  }

  lemma {:induction false} LiveElements(bs: seq<Block>, b: Block)
    ensures b in Live(bs) <==> b in bs && b.used
  {
    if bs != [] {
      LiveElements(bs[1..], b);
      assert bs == [bs[0]] + bs[1..];
    }
  }

  lemma {:induction false} LiveFree(bs: seq<Block>)
    requires forall i :: 0 <= i < |bs| ==> !bs[i].used
    ensures Live(bs) == []
  {
    if bs != [] {
      LiveFree(bs[1..]);
    }
  }

  function Total(bs: seq<Block>): nat {
    if bs == [] then 0 else Total(bs[..|bs| - 1]) + HNODE + bs[|bs| - 1].size
  }

  function LiveTotal(bs: seq<Block>): nat {
    if bs == [] then 0
    else LiveTotal(bs[..|bs| - 1]) + if bs[|bs| - 1].used then HNODE + bs[|bs| - 1].size else 0
  }

  lemma {:induction false} TotalSpans(bs: seq<Block>, start: nat)
    requires Tiled(bs, start)
    ensures Total(bs) == End(bs, start) - start
  {
    if bs != [] {
      TiledInit(bs, start);
      TotalSpans(bs[..|bs| - 1], start);
    }
  }

  function FreeTotal(bs: seq<Block>): nat {
    if bs == [] then 0
    else FreeTotal(bs[..|bs| - 1]) + if bs[|bs| - 1].used then 0 else HNODE + bs[|bs| - 1].size
  }

  /** All bytes between start and end belong to live or to free blocks, headers included. */
  lemma {:induction false} TotalSplits(bs: seq<Block>, start: nat)
    requires Tiled(bs, start)
    ensures LiveTotal(bs) + FreeTotal(bs) == End(bs, start) - start
  {
    if bs != [] {
      TiledInit(bs, start);
      TotalSplits(bs[..|bs| - 1], start);
    }
  }

  /** The totals of one more block. */
  lemma CountOne(bs: seq<Block>, i: nat)
    requires i < |bs|
    ensures var b, next := bs[i], bs[..i + 1];
      && Total(next) == Total(bs[..i]) + HNODE + b.size
      && LiveTotal(next) == LiveTotal(bs[..i]) + (if b.used then HNODE + b.size else 0)
      && |Live(next)| == |Live(bs[..i])| + if b.used then 1 else 0
  {
    var next := bs[..i + 1];
    assert next[..i] == bs[..i];
    assert Live(next) == Live(bs[..i]) + Live([bs[i]]) by {
      LiveConcat(bs[..i], [bs[i]]);
      assert next == bs[..i] + [bs[i]];
    }
    assert |Live([bs[i]])| == if bs[i].used then 1 else 0 by {
      assert [bs[i]][1..] == [];
      assert Live([]) == [];
    }
  }

  // ---------------------------------------------------------------- allocation

  /** The first free block that holds `size` bytes, or |bs|. */
  function FirstFit(bs: seq<Block>, size: nat): (k: nat)
    ensures k <= |bs|
    ensures forall i :: 0 <= i < k ==> bs[i].used || bs[i].size < size
    ensures k < |bs| ==> !bs[k].used && size <= bs[k].size
  {
    if bs == [] then 0
    else if !bs[0].used && size <= bs[0].size then 0
    else 1 + FirstFit(bs[1..], size)
  }

  /** A remainder of at least four headers becomes a free block of its own. */
  predicate Splits(b: Block, size: nat) {
    size + 4 * HNODE <= b.size
  }

  function Carve(b: Block, size: nat): seq<Block>
    requires size <= b.size
  {
    if Splits(b, size)
    then [Block(b.addr, size, true), Block(b.addr + HNODE + size, b.size - size - HNODE, false)]
    else [Block(b.addr, b.size, true)]
  }

  /** The list after `size` aligned bytes are handed out of block k, or appended when k is |bs|. */
  function Place(bs: seq<Block>, k: nat, start: nat, size: nat): seq<Block>
    requires k <= |bs| && (k < |bs| ==> size <= bs[k].size)
  {
    if k < |bs| then bs[..k] + Carve(bs[k], size) + bs[k + 1..]
    else bs + [Block(End(bs, start), size, true)]
  }

  /** The largest request is served behind any list, with an empty block. */
  lemma AlignWraps(bs: seq<Block>, start: nat)
    ensures Align(0xFFFF_FFFF) == 0
    ensures Place(bs, |bs|, start, Align(0xFFFF_FFFF)) == bs + [Block(End(bs, start), 0, true)]
  {
  }

  function After(bs: seq<Block>, k: nat): seq<Block> {
    if k < |bs| then bs[k + 1..] else []
  }

  lemma LiveHead(a: Block, rest: seq<Block>)
    requires a.used && forall i :: 0 <= i < |rest| ==> !rest[i].used
    ensures Live([a] + rest) == [a]
  {
    LiveFree(rest);
    assert ([a] + rest)[1..] == rest;
  }

  lemma RestOnLine(b: Block, size: nat)
    requires OnLine(b) && size % 32 == 0 && size + HNODE <= b.size
    ensures OnLine(Block(b.addr + HNODE + size, b.size - size - HNODE, false))
  {
    LineSum(b.addr, size);
    assert b.size - size - HNODE == 32 * (b.size / 32 - size / 32 - 1);
  }

  lemma CarveKeeps(b: Block, size: nat)
    requires !b.used && size <= b.size && OnLine(b) && size % 32 == 0
    ensures var cut := Carve(b, size);
      && Tiled(cut, b.addr) && End(cut, b.addr) == b.Limit() && Aligned(cut)
      && Live(cut) == [cut[0]] && cut[0].used && size <= cut[0].size
  {
    var cut := Carve(b, size);
    assert cut == [cut[0]] + cut[1..];
    assert Live(cut) == [cut[0]] by {
      LiveHead(cut[0], cut[1..]);
    }
    if Splits(b, size) {
      RestOnLine(b, size);
    }
  }

  /** A grant replaces a free block by a live one, and maybe a free rest. */
  lemma GrantKeeps(bs: seq<Block>, k: nat, start: nat, size: nat)
    requires Tiled(bs, start) && Aligned(bs) && start % 32 == 0 && size % 32 == 0
    requires k < |bs| && !bs[k].used && size <= bs[k].size
    ensures var r := Place(bs, k, start, size);
      && Tiled(r, start) && Aligned(r) && End(r, start) == End(bs, start)
      && k < |r| && r[k].used && size <= r[k].size
      && Live(r) == Live(bs[..k]) + [r[k]] + Live(bs[k + 1..])
  {
    var pre, rest, cut := bs[..k], bs[k + 1..], Carve(bs[k], size);
    var r := pre + cut + rest;
    assert bs == pre + [bs[k]] + rest;
    assert OnLine(bs[k]);
    CarveKeeps(bs[k], size);
    assert r[k] == cut[0];
    assert Tiled(r, start) && End(r, start) == End(bs, start) by {
      Swap(pre, [bs[k]], cut, rest, start);
    }
    assert Aligned(r) by {
      SwapAligned(pre, [bs[k]], cut, rest);
    }
    assert Live(r) == Live(pre) + [r[k]] + Live(rest) by {
      LiveConcat3(pre, cut, rest);
    }
  }

  /** Allocation adds one live block between its neighbours, keeps the tiling, and
      moves the end only when it appends. */
  lemma PlaceKeeps(bs: seq<Block>, k: nat, start: nat, size: nat)
    requires Tiled(bs, start) && Aligned(bs) && start % 32 == 0 && size % 32 == 0
    requires k <= |bs| && (k < |bs| ==> !bs[k].used && size <= bs[k].size)
    ensures var r := Place(bs, k, start, size);
      && Tiled(r, start) && Aligned(r)
      && k < |r| && r[k].used && size <= r[k].size
      && Live(r) == Live(bs[..k]) + [r[k]] + Live(After(bs, k))
      && End(r, start) == if k < |bs| then End(bs, start) else End(bs, start) + HNODE + size
  {
    if k < |bs| {
      GrantKeeps(bs, k, start, size);
    } else {
      AppendKeeps(bs, start, size);
      assert bs[..k] == bs;
    }
  }

  lemma EndOnLine(bs: seq<Block>, start: nat)
    requires Aligned(bs) && start % 32 == 0
    ensures End(bs, start) % 32 == 0
  {
    if bs != [] {
      var b := bs[|bs| - 1];
      assert OnLine(b);
      LineSum(b.addr, b.size);
      assert End(bs, start) == b.addr + HNODE + b.size;
    }
  }

  lemma AppendKeeps(bs: seq<Block>, start: nat, size: nat)
    requires Tiled(bs, start) && Aligned(bs) && start % 32 == 0 && size % 32 == 0
    ensures var r := Place(bs, |bs|, start, size);
      Tiled(r, start) && Aligned(r) && End(r, start) == End(bs, start) + HNODE + size && Live(r) == Live(bs) + [r[|bs|]]
  {
    var tail := Block(End(bs, start), size, true);
    var r := bs + [tail];
    assert Aligned(r) by {
      EndOnLine(bs, start);
      assert OnLine(tail);
      AlignedConcat(bs, [tail]);
    }
    assert Tiled(r, start) && End(r, start) == tail.Limit() by {
      TiledConcat(bs, [tail], start);
    }
    assert Live(r) == Live(bs) + [tail] by {
      assert [tail][1..] == [];
      LiveConcat(bs, [tail]);
    }
  }

  /** Allocation never creates two free neighbours. */
  lemma PlaceNoAdjacentFree(bs: seq<Block>, k: nat, start: nat, size: nat)
    requires NoAdjacentFree(bs)
    requires k <= |bs| && (k < |bs| ==> !bs[k].used && size <= bs[k].size)
    ensures NoAdjacentFree(Place(bs, k, start, size))
  {
    var r := Place(bs, k, start, size);
    if k < |bs| {
      var cut := Carve(bs[k], size);
      forall i | 0 <= i < |r| - 1
        ensures OneUsed(r, i)
      {
        assert k > 0 ==> OneUsed(bs, k - 1);
        assert k + 1 < |bs| ==> OneUsed(bs, k);
        if i + 1 < k {
          assert OneUsed(bs, i);
        } else if i + 1 >= k + |cut| {
          var j := i - |cut| + 1;
          assert r[i + 1] == bs[j + 1];
          assert OneUsed(bs, j);
          assert i >= k + |cut| ==> r[i] == bs[j];
        }
      }
    } else {
      forall i | 0 <= i < |r| - 1
        ensures OneUsed(r, i)
      {
        assert i + 1 < |bs| ==> OneUsed(bs, i);
      }
    }
  }

  lemma LiveConcat3(a: seq<Block>, b: seq<Block>, c: seq<Block>)
    ensures Live(a + b + c) == Live(a) + Live(b) + Live(c)
  {
    LiveConcat(a + b, c);
    LiveConcat(a, b);
  }

  lemma AlignedConcat(a: seq<Block>, b: seq<Block>)
    ensures Aligned(a + b) <==> Aligned(a) && Aligned(b)
  {
    if Aligned(a + b) {
      forall i | 0 <= i < |a|
        ensures OnLine(a[i])
      {
        assert OnLine((a + b)[i]);
      }
      forall i | 0 <= i < |b|
        ensures OnLine(b[i])
      {
        assert OnLine((a + b)[|a| + i]);
      }
    }
  }

  /** Replacing a stretch of blocks by another that covers the same bytes. */
  lemma Swap(pre: seq<Block>, cut: seq<Block>, fill: seq<Block>, rest: seq<Block>, start: nat)
    requires Tiled(pre + cut + rest, start) && cut != [] && fill != []
    requires Tiled(fill, cut[0].addr) && End(fill, cut[0].addr) == cut[|cut| - 1].Limit()
    ensures Tiled(pre + fill + rest, start)
    ensures End(pre + fill + rest, start) == End(pre + cut + rest, start)
  {
    TiledConcat(pre + cut, rest, start);
    TiledConcat(pre, cut, start);
    TiledConcat(pre + fill, rest, start);
    TiledConcat(pre, fill, start);
  }

  lemma SwapAligned(pre: seq<Block>, cut: seq<Block>, fill: seq<Block>, rest: seq<Block>)
    requires Aligned(pre + cut + rest) && Aligned(fill)
    ensures Aligned(pre + fill + rest)
  {
    AlignedConcat(pre + cut, rest);
    AlignedConcat(pre, cut);
    AlignedConcat(pre, fill);
    AlignedConcat(pre + fill, rest);
  }

  // ---------------------------------------------------------------- free

  /** A remainder of 128 bytes or more becomes a free block directly behind the granted one, less its
      header of 32 bytes; a smaller one stays with it. */
  lemma PlaceExact(bs: seq<Block>, k: nat, start: nat, size: nat)
    requires k < |bs| && size <= bs[k].size
    ensures var r, b := Place(bs, k, start, size), bs[k];
      r == bs[..k] + (if b.size - size < 128 then [Block(b.addr, b.size, true)]
                      else [Block(b.addr, size, true), Block(b.addr + 32 + size, b.size - size - 32, false)])
        + bs[k + 1..]
  {
  }

  /** Two blocks under the first header. */
  function Merged(a: Block, b: Block): Block {
    a.(size := a.size + b.size + HNODE)
  }

  /** The list with blocks k and k + 1 merged. */
  function Merge(bs: seq<Block>, k: nat): seq<Block>
    requires k + 1 < |bs|
  {
    bs[..k] + [Merged(bs[k], bs[k + 1])] + bs[k + 2..]
  }

  lemma MergeKeeps(bs: seq<Block>, k: nat, start: nat)
    requires Tiled(bs, start) && Aligned(bs) && k + 1 < |bs| && !bs[k].used && !bs[k + 1].used
    ensures var r := Merge(bs, k);
      && Tiled(r, start) && Aligned(r) && Live(r) == Live(bs) && End(r, start) == End(bs, start)
  {
    PairParts(bs, k);
    assert Meets(bs, k) && OnLine(bs[k]) && OnLine(bs[k + 1]);
    MergeParts(bs[..k], bs[k], bs[k + 1], bs[k + 2..], start);
  }

  lemma PairParts(bs: seq<Block>, k: nat)
    requires k + 1 < |bs|
    ensures bs == bs[..k] + [bs[k], bs[k + 1]] + bs[k + 2..]
  {
  }

  /** Two free blocks that meet between other blocks, merged. */
  lemma MergeParts(pre: seq<Block>, a: Block, b: Block, rest: seq<Block>, start: nat)
    requires var bs := pre + [a, b] + rest; Tiled(bs, start) && Aligned(bs)
    requires !a.used && !b.used && a.Limit() == b.addr && OnLine(a) && OnLine(b)
    ensures var bs, r := pre + [a, b] + rest, pre + [Merged(a, b)] + rest;
      && Tiled(r, start) && Aligned(r) && Live(r) == Live(bs) && End(r, start) == End(bs, start)
  {
    assert Aligned([Merged(a, b)]) by {
      OneOnLine(a, b);
    }
    SwapAligned(pre, [a, b], [Merged(a, b)], rest);
    Swap(pre, [a, b], [Merged(a, b)], rest, start);
    LiveConcat3(pre, [a, b], rest);
    LiveConcat3(pre, [Merged(a, b)], rest);
    LiveFree([a, b]);
    LiveFree([Merged(a, b)]);
  }

  lemma OneOnLine(a: Block, b: Block)
    requires OnLine(a) && OnLine(b)
    ensures OnLine(Merged(a, b))
  {
    LineSum(a.size, b.size);
  }

  /** The first i blocks hold no two free neighbours. */
  ghost predicate PairsSwept(bs: seq<Block>, i: nat) {
    i <= |bs| && forall j :: 0 <= j < i - 1 ==> OneUsed(bs, j)
  }

  lemma MergePrefix(bs: seq<Block>, k: nat)
    requires k + 1 < |bs| && !bs[k].used && PairsSwept(bs, k + 1)
    ensures PairsSwept(Merge(bs, k), k + 1)
  {
    forall j | 0 <= j < k
      ensures OneUsed(Merge(bs, k), j)
    {
      assert OneUsed(bs, j);
    }
  }

  /** Clearing `used` removes exactly that block from the live ones. */
  lemma ClearKeeps(bs: seq<Block>, k: nat, start: nat)
    requires Tiled(bs, start) && Aligned(bs) && k < |bs| && bs[k].used
    ensures var r := bs[k := bs[k].(used := false)];
      && Tiled(r, start) && Aligned(r) && End(r, start) == End(bs, start)
      && Live(r) == Live(bs[..k]) + Live(bs[k + 1..])
      && Live(bs) == Live(bs[..k]) + [bs[k]] + Live(bs[k + 1..])
      && (forall b :: b in Live(r) ==> b in Live(bs))
  {
    var pre, rest, one := bs[..k], bs[k + 1..], [bs[k].(used := false)];
    var r := bs[k := one[0]];
    assert r == pre + one + rest;
    assert bs == pre + [bs[k]] + rest;
    assert Tiled(r, start) && End(r, start) == End(bs, start) by {
      Swap(pre, [bs[k]], one, rest, start);
    }
    assert Aligned(r) by {
      assert OnLine(bs[k]) && OnLine(one[0]);
      SwapAligned(pre, [bs[k]], one, rest);
    }
    LiveConcat3(pre, [bs[k]], rest);
    LiveConcat3(pre, one, rest);
    assert one[1..] == [] && [bs[k]][1..] == [];
  }

  /** Merging every run of free neighbours, as a plain recursion. */
  function Coalesce(bs: seq<Block>): seq<Block>
    decreases |bs|
  {
    if |bs| < 2 then bs
    else if !bs[0].used && !bs[1].used then Coalesce(Merge(bs, 0))
    else [bs[0]] + Coalesce(bs[1..])
  }

  lemma {:induction false} CoalesceKeeps(bs: seq<Block>, start: nat)
    requires Tiled(bs, start) && Aligned(bs)
    ensures var r := Coalesce(bs);
      && Tiled(r, start) && Aligned(r) && NoAdjacentFree(r)
      && Live(r) == Live(bs) && End(r, start) == End(bs, start)
      && (bs != [] ==> r != [] && (r[0].used <==> bs[0].used))
    decreases |bs|
  {
    if |bs| >= 2 {
      if !bs[0].used && !bs[1].used {
        MergeKeeps(bs, 0, start);
        CoalesceKeeps(Merge(bs, 0), start);
      } else {
        var rest := bs[1..];
        var r := Coalesce(rest);
        assert bs == [bs[0]] + rest;
        TiledConcat([bs[0]], rest, start);
        forall i | 0 <= i < |rest|
          ensures OnLine(rest[i])
        {
          assert OnLine(bs[i + 1]);
        }
        CoalesceKeeps(rest, bs[0].Limit());
        TiledConcat([bs[0]], r, start);
        LiveConcat([bs[0]], rest);
        LiveConcat([bs[0]], r);
        forall i | 0 <= i < |r|
          ensures OneUsed([bs[0]] + r, i)
        {
          assert i > 0 ==> OneUsed(r, i - 1);
        }
        assert OnLine(bs[0]);
      }
    }
  }

  lemma LiveAfter(bs: seq<Block>, start: nat)
    requires Tiled(bs, start)
    ensures forall i :: 0 <= i < |Live(bs)| ==> start <= Live(bs)[i].addr
  {
    forall i | 0 <= i < |Live(bs)|
      ensures start <= Live(bs)[i].addr
    {
      LiveElements(bs, Live(bs)[i]);
      Ordered(bs, start);
    }
  }

  /** A list with no free neighbours is determined by its live blocks and its end:
      the heap after a free does not depend on the order of earlier calls. */
  lemma {:induction false} Canonical(a: seq<Block>, b: seq<Block>, start: nat)
    requires Tiled(a, start) && Tiled(b, start)
    requires NoAdjacentFree(a) && NoAdjacentFree(b)
    requires Live(a) == Live(b) && End(a, start) == End(b, start)
    ensures a == b
  {
    if a == [] || b == [] {
      Ordered(a, start);
      Ordered(b, start);
    } else {
      var next := a[0].Limit();
      TailTiled(a, start);
      TailTiled(b, start);
      LiveAfter(a[1..], a[0].Limit());
      LiveAfter(b[1..], b[0].Limit());
      SameHead(a, b, start);
      assert Live(a[1..]) == Live(b[1..]) by {
        if a[0].used {
          assert Live(a)[1..] == Live(a[1..]) && Live(b)[1..] == Live(b[1..]);
        } else {
          assert Live(a) == Live(a[1..]) && Live(b) == Live(b[1..]);
        }
      }
      Canonical(a[1..], b[1..], next);
      assert a == [a[0]] + a[1..] && b == [b[0]] + b[1..];
    }
  }

  lemma TailTiled(a: seq<Block>, start: nat)
    requires Tiled(a, start) && a != []
    ensures Tiled(a[1..], a[0].Limit()) && End(a[1..], a[0].Limit()) == End(a, start)
    ensures NoAdjacentFree(a) ==> NoAdjacentFree(a[1..])
  {
    forall i | 0 <= i < |a[1..]| - 1
      ensures Meets(a[1..], i)
    {
      assert Meets(a, i + 1);
    }
    if |a| > 1 {
      assert Meets(a, 0);
    }
    if NoAdjacentFree(a) {
      forall i | 0 <= i < |a[1..]| - 1
        ensures OneUsed(a[1..], i)
      {
        assert OneUsed(a, i + 1);
      }
    }
  }

  lemma SameHead(a: seq<Block>, b: seq<Block>, start: nat)
    requires Tiled(a, start) && Tiled(b, start) && a != [] && b != []
    requires NoAdjacentFree(a) && NoAdjacentFree(b)
    requires Live(a) == Live(b) && End(a, start) == End(b, start)
    requires forall i :: 0 <= i < |Live(a[1..])| ==> a[0].Limit() <= Live(a[1..])[i].addr
    requires forall i :: 0 <= i < |Live(b[1..])| ==> b[0].Limit() <= Live(b[1..])[i].addr
    ensures a[0] == b[0]
  {
    assert a[0].used ==> Live(a)[0] == a[0];
    assert b[0].used ==> Live(b)[0] == b[0];
    if !a[0].used && !b[0].used {
      assert |a| > 1 ==> OneUsed(a, 0);
      assert |b| > 1 ==> OneUsed(b, 0);
      assert |a| > 1 ==> Live(a)[0] == a[1] && Meets(a, 0);
      assert |b| > 1 ==> Live(b)[0] == b[1] && Meets(b, 0);
      assert |a| == 1 ==> a[1..] == [] && Live(a) == [];
      assert |b| == 1 ==> b[1..] == [] && Live(b) == [];
    }
  }

  /** The one-pass result is the recursively merged list. */
  lemma SweptIsCoalesced(bs: seq<Block>, was: seq<Block>, start: nat)
    requires Tiled(bs, start) && PairsSwept(bs, |bs|)
    requires Tiled(was, start) && Aligned(was)
    requires Live(bs) == Live(was) && End(bs, start) == End(was, start)
    ensures bs == Coalesce(was) && NoAdjacentFree(bs)
  {
    CoalesceKeeps(was, start);
    Canonical(bs, Coalesce(was), start);
  }
}
