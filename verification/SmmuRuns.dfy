/** Whole runs of the SMMU driver: any number of domains and of smmu_map calls between them. */
module SmmuRuns {
  import opened SmmuTables
  import opened SmmuFlat

  datatype Call = Init | Map(dir: nat, v0: nat, p0: nat, pages: nat, attr: nat)
  datatype State = State(mem: seq<Word>, layout: Layout)

  /** What smmu_init_domain and smmu_map promise. */
  ghost predicate Does(s: State, c: Call, t: State) {
    match c
    case Init =>
      && Maps(s.mem, s.layout) && s.layout.top < PAGES
      && t.layout == WithDir(s.layout) && Maps(t.mem, t.layout)
      && OthersSame(s.mem, t.mem, s.layout, s.layout.top)
      && (forall r, i :: 0 <= r < COUNT && 0 <= i < COUNT ==>
            Walk(t.mem, s.layout.top, r, i) == Entry(COUNT * r + i, NONE))
    case Map(d, v0, p0, pages, attr) =>
      AfterMap(s.mem, s.layout, t.mem, t.layout, d, v0, p0, pages, attr)
  }

  /** states[i + 1] is what call i makes of states[i]. */
  ghost predicate Trace(states: seq<State>, calls: seq<Call>) {
    && |states| == |calls| + 1
    && (forall i :: 0 <= i < |calls| ==> Does(states[i], calls[i], states[i + 1]))
  }

  /** The flat map of domain d: the last call that assigned the page decides. */
  function Replay(calls: seq<Call>, d: nat, r: nat, i: nat): Entry {
    if calls == [] then Entry(COUNT * r + i, NONE)
    else
      var c := calls[|calls| - 1];
      var rest := Replay(calls[..|calls| - 1], d, r, i);
      if c.Init? || c.dir != d then rest
      else match Mapped(c.v0, c.p0, c.pages, c.attr, COUNT * r + i) case Some(e) => e case None => rest
  }

  /** The 4 MB regions of domain d that any call touched. */
  function Touched(calls: seq<Call>, d: nat): set<nat> {
    if calls == [] then {}
    else
      var c := calls[|calls| - 1];
      Touched(calls[..|calls| - 1], d) + if c.Map? && c.dir == d then Regions(c.v0, c.pages) else {}
  }

  /** Domain d translates every page as its calls say, and its tables are those of the regions
      they touched. */
  ghost predicate DomainOk(s: State, calls: seq<Call>, d: nat)
    requires |s.mem| == WORDS && d < PAGES
  {
    && Pristine(s.mem, s.layout, d) && TablesOf(s.layout, d) == Touched(calls, d)
    && (forall r, i :: 0 <= r < COUNT && 0 <= i < COUNT ==> Walk(s.mem, d, r, i) == Replay(calls, d, r, i))
  }

  ghost predicate Refines(s: State, calls: seq<Call>) {
    && Maps(s.mem, s.layout)
    && (forall i :: 0 <= i < |calls| && calls[i].Map? ==> calls[i].dir in s.layout.dirs)
    && (forall d :: d in s.layout.dirs ==> DomainOk(s, calls, d))
  }

  lemma ReplayMore(calls: seq<Call>, c: Call, d: nat, r: nat, i: nat)
    ensures Replay(calls + [c], d, r, i) ==
      if c.Init? || c.dir != d then Replay(calls, d, r, i)
      else match Mapped(c.v0, c.p0, c.pages, c.attr, COUNT * r + i)
        case Some(e) => e
        case None => Replay(calls, d, r, i)
  {
    assert (calls + [c])[..|calls|] == calls;
  }

  lemma TouchedMore(calls: seq<Call>, c: Call, d: nat)
    ensures Touched(calls + [c], d)
      == Touched(calls, d) + if c.Map? && c.dir == d then Regions(c.v0, c.pages) else {}
  {
    assert (calls + [c])[..|calls|] == calls;
  }

  /** The domain that is mapped in. */
  lemma MapOwn(s: State, calls: seq<Call>, c: Call, t: State)
    requires c.Map? && Does(s, c, t) && DomainOk(s, calls, c.dir)
    ensures DomainOk(t, calls + [c], c.dir)
  {
    var d, next := c.dir, calls + [c];
    assert TablesOf(t.layout, d) == Touched(next, d) by {
      MapTables(s.mem, s.layout, t.mem, t.layout, d, c.v0, c.p0, c.pages, c.attr);
      TouchedMore(calls, c, d);
    }
    MapIsFlat(s.mem, s.layout, t.mem, t.layout, d, c.v0, c.p0, c.pages, c.attr);
    forall r, i | 0 <= r < COUNT && 0 <= i < COUNT
      ensures Walk(t.mem, d, r, i) == Replay(next, d, r, i)
    {
      ReplayMore(calls, c, d, r, i);
      assert Walk(s.mem, d, r, i) == Replay(calls, d, r, i);
    }
  }

  /** Any other. */
  lemma MapOther(s: State, calls: seq<Call>, c: Call, t: State, d: nat)
    requires c.Map? && Does(s, c, t) && d in s.layout.dirs && d != c.dir
    requires Pristine(s.mem, s.layout, c.dir) && DomainOk(s, calls, d)
    ensures DomainOk(t, calls + [c], d)
  {
    var next := calls + [c];
    assert TablesOf(t.layout, d) == Touched(next, d) by {
      MapTables(s.mem, s.layout, t.mem, t.layout, c.dir, c.v0, c.p0, c.pages, c.attr);
      TouchedMore(calls, c, d);
    }
    assert SameWalks(s.mem, t.mem, d, -1) && Pristine(t.mem, t.layout, d) by {
      MapIsFlat(s.mem, s.layout, t.mem, t.layout, c.dir, c.v0, c.p0, c.pages, c.attr);
    }
    forall r, i | 0 <= r < COUNT && 0 <= i < COUNT
      ensures Walk(t.mem, d, r, i) == Replay(next, d, r, i)
    {
      ReplayMore(calls, c, d, r, i);
      assert Walk(s.mem, d, r, i) == Replay(calls, d, r, i);
    }
  }

  lemma MapRefines(s: State, calls: seq<Call>, c: Call, t: State)
    requires c.Map? && Refines(s, calls) && Does(s, c, t)
    ensures Refines(t, calls + [c])
  {
    forall d | d in t.layout.dirs
      ensures DomainOk(t, calls + [c], d)
    {
      assert DomainOk(s, calls, d) && DomainOk(s, calls, c.dir);
      if d == c.dir {
        MapOwn(s, calls, c, t);
      } else {
        MapOther(s, calls, c, t, d);
      }
    }
  }

  /** Calls for other domains leave a domain as it was created. */
  lemma {:induction false} NoCalls(calls: seq<Call>, d: nat, r: nat, i: nat)
    requires forall k :: 0 <= k < |calls| && calls[k].Map? ==> calls[k].dir != d
    ensures Replay(calls, d, r, i) == Entry(COUNT * r + i, NONE) && Touched(calls, d) == {}
  {
    if calls != [] {
      NoCalls(calls[..|calls| - 1], d, r, i);
    }
  }

  lemma InitDomain(s: State, calls: seq<Call>, t: State, d: nat)
    requires Refines(s, calls) && Does(s, Init, t) && d in t.layout.dirs
    ensures d < PAGES && DomainOk(t, calls + [Init], d)
  {
    if d == s.layout.top {
      NewDomain(s, calls, t);
    } else {
      OldDomain(s, calls, t, d);
    }
    InitMore(t, calls, d);
  }

  /** A creation assigns no page. */
  lemma InitMore(t: State, calls: seq<Call>, d: nat)
    requires |t.mem| == WORDS && d < PAGES && DomainOk(t, calls, d)
    ensures DomainOk(t, calls + [Init], d)
  {
    TouchedMore(calls, Init, d);
    forall r, i | 0 <= r < COUNT && 0 <= i < COUNT
      ensures Walk(t.mem, d, r, i) == Replay(calls + [Init], d, r, i)
    {
      ReplayMore(calls, Init, d, r, i);
      assert Walk(t.mem, d, r, i) == Replay(calls, d, r, i);
    }
  }

  lemma OldDomain(s: State, calls: seq<Call>, t: State, d: nat)
    requires Refines(s, calls) && Does(s, Init, t) && d in s.layout.dirs
    ensures d < PAGES && DomainOk(t, calls, d)
  {
    assert DomainOk(s, calls, d) && SameWalks(s.mem, t.mem, d, -1);
    assert TablesOf(t.layout, d) == TablesOf(s.layout, d);
  }

  lemma NewDomain(s: State, calls: seq<Call>, t: State)
    requires Refines(s, calls) && Does(s, Init, t)
    ensures s.layout.top < PAGES && DomainOk(t, calls, s.layout.top)
  {
    var d := s.layout.top;
    NoCalls(calls, d, 0, 0);
    assert TablesOf(t.layout, d) == {};
    forall r, i | 0 <= r < COUNT && 0 <= i < COUNT
      ensures Walk(t.mem, d, r, i) == Replay(calls, d, r, i)
    {
      NoCalls(calls, d, r, i);
    }
  }

  lemma InitRefines(s: State, calls: seq<Call>, t: State)
    requires Refines(s, calls) && Does(s, Init, t)
    ensures Refines(t, calls + [Init])
  {
    forall d | d in t.layout.dirs
      ensures DomainOk(t, calls + [Init], d)
    {
      InitDomain(s, calls, t, d);
    }
  }

  lemma StepRefines(s: State, calls: seq<Call>, c: Call, t: State)
    requires Refines(s, calls) && Does(s, c, t)
    ensures Refines(t, calls + [c]) && t.layout.base == s.layout.base && t.layout.other == s.layout.other
  {
    if c.Init? {
      InitRefines(s, calls, t);
    } else {
      MapRefines(s, calls, c, t);
    }
  }

  /** The driver before its first call: smmu_reset_heap. */
  ghost predicate Reset(s: State) {
    |s.mem| == WORDS && s.layout.base <= PAGES && s.layout == Layout(s.layout.base, s.layout.base, {}, map[], {})
  }

  /** After any run from the reset state every domain translates every page as the flat map of
      its own calls says, and its tables are exactly those of the regions its calls touched. */
  lemma {:induction false} RunRefines(states: seq<State>, calls: seq<Call>)
    requires Trace(states, calls) && Reset(states[0])
    ensures Refines(states[|calls|], calls)
    ensures states[|calls|].layout.base == states[0].layout.base && states[|calls|].layout.other == {}
    decreases |calls|
  {
    if calls != [] {
      var n := |calls| - 1;
      TracePrefix(states, calls);
      RunRefines(states[..n + 1], calls[..n]);
      assert Does(states[n], calls[n], states[n + 1]);
      StepRefines(states[n], calls[..n], calls[n], states[n + 1]);
      assert calls[..n] + [calls[n]] == calls;
    }
  }

  /** The pages taken from the heap are one per directory and one per table, and no domain
      has more than 1024 tables: each uses 1 plus the number of regions it touched. */
  lemma RunUses(states: seq<State>, calls: seq<Call>)
    requires Trace(states, calls) && Reset(states[0])
    ensures var l := states[|calls|].layout;
      && l.top - states[0].layout.base == |l.dirs| + |l.tables|
      && (forall d :: d in l.dirs ==> TablesOf(l, d) == Touched(calls, d) && |Touched(calls, d)| <= COUNT)
  {
    RunRefines(states, calls);
    TouchedBounded(states[|calls|], calls);
  }

  /** And no run puts a 4 MB entry in the way of the next call: all it needs is room for the
      tables that are missing. */
  lemma OnlyRoomMissing(states: seq<State>, calls: seq<Call>, d: nat, regions: set<nat>)
    requires Trace(states, calls) && Reset(states[0])
    requires d in states[|calls|].layout.dirs
    ensures |states[|calls|].mem| == WORDS && d < PAGES
    ensures var s := states[|calls|];
      CanMap(s.mem, s.layout, d, regions) <==> s.layout.top + |Missing(s.layout, d, regions)| <= PAGES
  {
    RunRefines(states, calls);
    var s := states[|calls|];
    assert DomainOk(s, calls, d);
    forall r | 0 <= r < COUNT
      ensures Tabled(s.mem, s.layout, d, r)
    {
      assert PdeOk(s.mem, s.layout, d, r) && Walk(s.mem, d, r, 0) == Walk(s.mem, d, r, 0);
    }
  }

  lemma TracePrefix(states: seq<State>, calls: seq<Call>)
    requires Trace(states, calls) && calls != []
    ensures Trace(states[..|calls|], calls[..|calls| - 1])
  {
    forall i | 0 <= i < |calls| - 1
      ensures Does(states[..|calls|][i], calls[..|calls| - 1][i], states[..|calls|][i + 1])
    {
      assert Does(states[i], calls[i], states[i + 1]);
    }
  }

  lemma TouchedBounded(s: State, calls: seq<Call>)
    requires Refines(s, calls)
    ensures forall d :: d in s.layout.dirs ==> |Touched(calls, d)| <= COUNT
  {
    forall d | d in s.layout.dirs
      ensures |Touched(calls, d)| <= COUNT
    {
      forall r | r in TablesOf(s.layout, d)
        ensures r < COUNT
      {
        HasTable(s.layout, d, r);
      }
      SubsetSize(TablesOf(s.layout, d), COUNT);
    }
  }
}
