/** Whole runs of the bootloader heap: any legal sequence of malloc and free, in both builds
    (amssu-rcm/bdk/mem/heap.c). */
module HeapRuns {
  import opened HeapBlocks
  import H = Heap

  /** free takes the pointer that malloc has returned. */
  datatype Call = Malloc(size: nat) | Free(p: nat)

  /** Where the heap lies and how it was built. */
  datatype Build = Build(start: nat, limit: nat, defrag: bool) {
    /** Where malloc(size) puts its block; |bs| is behind the last one. */
    function Slot(bs: seq<Block>, size: nat): (k: nat)
      ensures k <= |bs| && (k < |bs| ==> !bs[k].used && Align(size) <= bs[k].size)
    {
      if defrag then FirstFit(bs, Align(size)) else |bs|
    }

    /** A caller frees only what it holds; what lies below the heap start is ignored. A new tail
        lies below `limit`, the top of memory. */
    predicate Legal(bs: seq<Block>, c: Call) {
      match c
      case Malloc(size) => size < U32 && (Slot(bs, size) == |bs| ==> End(bs, start) + HNODE + Align(size) <= limit)
      case Free(p) => p < start || Holder(bs, p) < |bs|
    }

    function Step(bs: seq<Block>, c: Call): seq<Block>
      requires Legal(bs, c)
    {
      match c
      case Malloc(size) => Place(bs, Slot(bs, size), start, Align(size))
      case Free(p) =>
        if p < start then bs
        else
          var k := Holder(bs, p);
          var cleared := bs[k := bs[k].(used := false)];
          if defrag then Coalesce(cleared) else cleared
    }

    ghost predicate LegalRun(bs: seq<Block>, calls: seq<Call>)
      decreases |calls|
    {
      calls == [] || (Legal(bs, calls[0]) && LegalRun(Step(bs, calls[0]), calls[1..]))
    }

    ghost function Run(bs: seq<Block>, calls: seq<Call>): seq<Block>
      requires LegalRun(bs, calls)
      decreases |calls|
    {
      if calls == [] then bs else Run(Step(bs, calls[0]), calls[1..])
    }

    /** The list part of the invariant. */
    ghost predicate Sound(bs: seq<Block>) {
      && Tiled(bs, start) && Aligned(bs) && start % 32 == 0 && End(bs, start) <= limit
      && (defrag ==> NoAdjacentFree(bs))
    }

    // -------------------------------------------------------------- what callers hold

    /** The block that malloc(size) hands out. */
    function Granted(bs: seq<Block>, size: nat): Block {
      var k := Slot(bs, size);
      if k < |bs| then Carve(bs[k], Align(size))[0] else Block(End(bs, start), Align(size), true)
    }

    /** What a call gives to its caller or takes from him. */
    function Held(held: set<Block>, bs: seq<Block>, c: Call): set<Block>
      requires Legal(bs, c)
    {
      match c
      case Malloc(size) => held + {Granted(bs, size)}
      case Free(p) => if p < start then held else held - {bs[Holder(bs, p)]}
    }

    /** The blocks given out and not freed, when `held` were held before the calls. */
    ghost function Handles(held: set<Block>, bs: seq<Block>, calls: seq<Call>): set<Block>
      requires LegalRun(bs, calls)
      decreases |calls|
    {
      if calls == [] then held else Handles(Held(held, bs, calls[0]), Step(bs, calls[0]), calls[1..])
    }

    /** Block b is held before, between and after the calls. */
    ghost predicate Throughout(b: Block, bs: seq<Block>, calls: seq<Call>)
      requires LegalRun(bs, calls)
      decreases |calls|
    {
      b in Live(bs) && (calls != [] ==> Throughout(b, Step(bs, calls[0]), calls[1..]))
    }
  }

  /** The live block whose payload is at p, or |bs|. */
  function Holder(bs: seq<Block>, p: nat): (k: nat)
    ensures k <= |bs| && (k < |bs| ==> bs[k].used && bs[k].Payload() == p)
  {
    if bs == [] || (bs[0].used && bs[0].Payload() == p) then 0 else 1 + Holder(bs[1..], p)
  }

  function LiveSet(bs: seq<Block>): set<Block> {
    set b | b in Live(bs)
  }

  /** Aligned, inside memory, and apart from each other. */
  ghost predicate Disjoint(held: set<Block>, start: nat, limit: nat) {
    && (forall b :: b in held ==> b.Payload() % 32 == 0 && start <= b.addr && b.Limit() <= limit)
    && (forall b, c :: b in held && c in held && b != c ==> b.Limit() <= c.addr || c.Limit() <= b.addr)
  }

  lemma LiveIsDisjoint(bs: seq<Block>, start: nat, limit: nat)
    requires Tiled(bs, start) && Aligned(bs) && End(bs, start) <= limit
    ensures Disjoint(LiveSet(bs), start, limit)
  {
    Ordered(bs, start);
    forall b | b in LiveSet(bs)
      ensures b in bs && b.Payload() % 32 == 0
    {
      LiveElements(bs, b);
      var i :| 0 <= i < |bs| && bs[i] == b;
      assert OnLine(bs[i]);
    }
  }

  // ---------------------------------------------------------------- one call

  /** An allocation makes its block live and keeps all that were: it is none of them, is large
      enough, and in the build that reuses blocks moves the end only if no free one is. */
  lemma MallocKeeps(h: Build, bs: seq<Block>, size: nat)
    requires h.Sound(bs) && h.Legal(bs, Malloc(size))
    ensures var r, g := h.Step(bs, Malloc(size)), h.Granted(bs, size);
      && h.Sound(r)
      && Align(size) <= g.size && g.Payload() % 32 == 0 && g !in LiveSet(bs) && LiveSet(r) == LiveSet(bs) + {g}
      && (h.defrag && End(r, h.start) != End(bs, h.start) ==>
            forall i :: 0 <= i < |bs| ==> bs[i].used || bs[i].size < Align(size))
  {
    var k := h.Slot(bs, size);
    var r := h.Step(bs, Malloc(size));
    PlaceKeeps(bs, k, h.start, Align(size));
    if h.defrag {
      PlaceNoAdjacentFree(bs, k, h.start, Align(size));
    }
    assert r[k] == h.Granted(bs, size) && OnLine(r[k]);
    LiveAround(bs, k);
    NotLive(bs, k, h.start, r[k]);
  }

  /** The block is the first free one that is large enough, in the build that reuses blocks, and else
      a new one at the end. Less than 128 bytes are wasted unless the request wraps around. */
  lemma MallocExact(h: Build, bs: seq<Block>, size: nat, k: nat)
    requires h.Legal(bs, Malloc(size)) && k <= |bs| && size <= 0xFFFF_FFE0
    requires forall i :: 0 <= i < k ==> !h.defrag || bs[i].used || bs[i].size < size
    requires k < |bs| ==> h.defrag && !bs[k].used && size <= bs[k].size
    requires forall i :: 0 <= i < |bs| ==> bs[i].size % 32 == 0
    ensures var g := h.Granted(bs, size);
      && size <= g.size && g.used && g.addr == (if k < |bs| then bs[k].addr else End(bs, h.start))
      && (k == |bs| ==> g.size < size + 32)
      && (k < |bs| ==> g.size < size + 160 && g.size <= bs[k].size)
  {
    AlignCovers(size);
    forall i | 0 <= i < |bs|
      ensures size <= bs[i].size <==> Align(size) <= bs[i].size
    {
      Rounded(size, Align(size), bs[i].size);
    }
  }

  /** A multiple of 32 that covers a size covers it rounded up. */
  lemma Rounded(size: nat, aligned: nat, n: nat)
    requires size <= aligned < size + 32 && aligned % 32 == 0 && n % 32 == 0
    ensures size <= n <==> aligned <= n
  {
  }

  lemma Parts(bs: seq<Block>, k: nat)
    requires k < |bs|
    ensures bs == bs[..k] + [bs[k]] + bs[k + 1..]
  {
  }

  lemma LiveSkip(pre: seq<Block>, b: Block, rest: seq<Block>)
    requires !b.used
    ensures Live(pre + [b] + rest) == Live(pre) + Live(rest)
  {
    LiveConcat3(pre, [b], rest);
    LiveFree([b]);
    assert Live(pre) + [] == Live(pre);
  }

  lemma LiveAround(bs: seq<Block>, k: nat)
    requires k <= |bs| && (k < |bs| ==> !bs[k].used)
    ensures Live(bs) == Live(bs[..k]) + Live(After(bs, k))
  {
    if k < |bs| {
      Parts(bs, k);
      LiveSkip(bs[..k], bs[k], bs[k + 1..]);
    } else {
      assert bs[..k] == bs && After(bs, k) == [];
    }
  }

  lemma NotLive(bs: seq<Block>, k: nat, start: nat, g: Block)
    requires Tiled(bs, start) && k <= |bs| && (k < |bs| ==> !bs[k].used)
    requires g.addr == if k < |bs| then bs[k].addr else End(bs, start)
    ensures g !in Live(bs)
  {
    Ordered(bs, start);
    LiveElements(bs, g);
  }

  /** A free makes exactly the freed block no longer live, and leaves the end; without merging it
      leaves every block where and as large as it was. */
  lemma FreeKeeps(h: Build, bs: seq<Block>, p: nat)
    requires h.Sound(bs) && h.Legal(bs, Free(p)) && p >= h.start
    ensures var r, k := h.Step(bs, Free(p)), Holder(bs, p);
      && h.Sound(r) && End(r, h.start) == End(bs, h.start) && LiveSet(r) == LiveSet(bs) - {bs[k]}
      && (!h.defrag ==> |r| == |bs| && forall i :: 0 <= i < |bs| ==> r[i].addr == bs[i].addr && r[i].size == bs[i].size)
  {
    var k := Holder(bs, p);
    ClearKeeps(bs, k, h.start);
    CoalesceKeeps(bs[k := bs[k].(used := false)], h.start);
    var pre, rest := bs[..k], bs[k + 1..];
    assert bs[k] !in Live(pre) && bs[k] !in Live(rest) by {
      Ordered(bs, h.start);
      LiveElements(pre, bs[k]);
      LiveElements(rest, bs[k]);
    }
  }

  /** Every legal call keeps the invariant of the list, and the live blocks are those held. */
  lemma StepKeeps(h: Build, bs: seq<Block>, c: Call)
    requires h.Sound(bs) && h.Legal(bs, c)
    ensures h.Sound(h.Step(bs, c)) && LiveSet(h.Step(bs, c)) == h.Held(LiveSet(bs), bs, c)
  {
    match c
    case Malloc(size) => MallocKeeps(h, bs, size);
    case Free(p) =>
      if p >= h.start {
        FreeKeeps(h, bs, p);
      }
  }

  // ---------------------------------------------------------------- any number of calls

  /** Whatever the calls, the list tiles memory, no two neighbours are free if the build merges,
      and the live blocks are exactly those given out and not freed, each where it was given,
      aligned and apart. */
  lemma {:induction false} RunKeeps(h: Build, bs: seq<Block>, calls: seq<Call>)
    requires h.Sound(bs) && h.LegalRun(bs, calls)
    ensures var r := h.Run(bs, calls);
      && h.Sound(r)
      && LiveSet(r) == h.Handles(LiveSet(bs), bs, calls)
      && Disjoint(LiveSet(r), h.start, h.limit)
    decreases |calls|
  {
    if calls == [] {
      LiveIsDisjoint(bs, h.start, h.limit);
    } else {
      StepKeeps(h, bs, calls[0]);
      RunKeeps(h, h.Step(bs, calls[0]), calls[1..]);
    }
  }

  function Of(heap: H.Heap): Build
    reads heap
  {
    Build(heap.start, heap.mem.Length, heap.defrag)
  }

  /** The program on memory makes every run as specified, and leaves the bytes of every block that
      is held throughout. */
  method Play(heap: H.Heap, calls: seq<Call>)
    requires heap.Valid() && Of(heap).LegalRun(heap.blocks, calls)
    modifies heap, heap.mem
    ensures heap.Valid() && heap.blocks == Of(heap).Run(old(heap.blocks), calls)
    ensures forall b :: Of(heap).Throughout(b, old(heap.blocks), calls) ==>
      H.PayloadSame(old(heap.mem[..]), heap.mem[..], b)
    decreases |calls|
  {
    if calls == [] {
      return;
    }
    ghost var h, m := Of(heap), heap.mem[..];
    PlayOne(heap, calls[0]);
    ghost var n, mid := heap.mem[..], heap.blocks;
    assert mid == h.Step(old(heap.blocks), calls[0]);
    Play(heap, calls[1..]);
    forall b | h.Throughout(b, old(heap.blocks), calls)
      ensures H.PayloadSame(m, heap.mem[..], b)
    {
      HeldBetween(h, b, old(heap.blocks), calls);
      assert H.PayloadSame(m, n, b) && H.PayloadSame(n, heap.mem[..], b);
    }
  }

  lemma HeldBetween(h: Build, b: Block, bs: seq<Block>, calls: seq<Call>)
    requires calls != [] && h.LegalRun(bs, calls) && h.Throughout(b, bs, calls)
    ensures var mid := h.Step(bs, calls[0]);
      b in Live(bs) && b in Live(mid) && h.Throughout(b, mid, calls[1..])
  {
    var mid := h.Step(bs, calls[0]);
    assert h.Throughout(b, mid, calls[1..]);
  }

  method PlayOne(heap: H.Heap, c: Call)
    requires heap.Valid() && Of(heap).Legal(heap.blocks, c)
    modifies heap, heap.mem
    ensures heap.Valid() && heap.blocks == Of(heap).Step(old(heap.blocks), c)
    ensures forall b :: b in Live(old(heap.blocks)) && b in Live(heap.blocks) ==>
      H.PayloadSame(old(heap.mem[..]), heap.mem[..], b)
  {
    match c {
      case Malloc(size) =>
        var p, k := heap.Alloc(size);
      case Free(p) =>
        heap.Free(p, Holder(heap.blocks, p));
    }
  }
}
