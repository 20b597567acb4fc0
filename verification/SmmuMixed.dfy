/** Runs of the SMMU driver that mix 4 KB and 4 MB mappings. */
module SmmuMixed {
  import opened SmmuTables
  import opened SmmuFlat
  import opened SmmuRuns

  datatype Op = Small(call: Call) | Huge(dir: nat, r0: nat, q0: nat, regions: nat, attr: nat)

  /** What the calls promise, and what smmu_map demands. */
  ghost predicate DoesOp(s: State, op: Op, t: State) {
    if op.Huge? then
      AfterHuge(s.mem, s.layout, t.mem, t.layout, op.dir, op.r0, op.q0, op.regions, op.attr)
    else
      && Does(s, op.call, t)
      && (op.call.Map? ==> CanMap(s.mem, s.layout, op.call.dir, Regions(op.call.v0, op.call.pages)))
  }

  ghost predicate Trace(states: seq<State>, ops: seq<Op>) {
    && |states| == |ops| + 1
    && (forall i :: 0 <= i < |ops| ==> DoesOp(states[i], ops[i], states[i + 1]))
  }

  predicate In(op: Op, d: nat) {
    if op.Huge? then op.dir == d else op.call.Map? && op.call.dir == d
  }

  /** The regions with a table after one more call: a 4 KB mapping makes tables, a 4 MB entry
      drops one. */
  function NextTables(before: set<nat>, op: Op): set<nat>
    requires op.Small? ==> op.call.Map?
  {
    if op.Huge? then before - HugeRegions(op.r0, op.regions) else before + Regions(op.call.v0, op.call.pages)
  }

  /** The entry of page i of region r after one more call; `bare` says that it had no table. A 4 KB
      mapping also gives up what a 4 MB entry without permissions said about its region. */
  function NextEntry(was: Entry, bare: bool, op: Op, r: nat, i: nat): Entry
    requires op.Small? ==> op.call.Map?
  {
    if op.Huge? then ExpectedHuge(was, op.r0, op.q0, op.regions, op.attr, r, i)
    else Expected(was, bare, op.call.v0, op.call.p0, op.call.pages, op.call.attr, r, i)
  }

  /** The regions of domain d that have a table. */
  function Tables(ops: seq<Op>, d: nat): set<nat> {
    if ops == [] then {}
    else if In(ops[|ops| - 1], d) then NextTables(Tables(ops[..|ops| - 1], d), ops[|ops| - 1])
    else Tables(ops[..|ops| - 1], d)
  }

  /** The translation of page i of region r in domain d. */
  function Translation(ops: seq<Op>, d: nat, r: nat, i: nat): Entry {
    if ops == [] then Entry(COUNT * r + i, NONE)
    else
      var op, before := ops[|ops| - 1], ops[..|ops| - 1];
      var was, bare := Translation(before, d, r, i), r !in Tables(before, d);
      if In(op, d) then NextEntry(was, bare, op, r, i) else was
  }

  ghost predicate DomainIs(s: State, ops: seq<Op>, d: nat)
    requires |s.mem| == WORDS && d < PAGES
  {
    && (forall r :: (d, r) in s.layout.tables <==> r in Tables(ops, d))
    && (forall r, i :: 0 <= r < COUNT && 0 <= i < COUNT ==> Walk(s.mem, d, r, i) == Translation(ops, d, r, i))
  }

  ghost predicate Follows(s: State, ops: seq<Op>) {
    && Maps(s.mem, s.layout)
    && (forall d, k :: 0 <= k < |ops| && In(ops[k], d) ==> d in s.layout.dirs)
    && (forall d :: d in s.layout.dirs ==> DomainIs(s, ops, d))
  }

  // ---------------------------------------------------------------- one call

  lemma MoreTables(ops: seq<Op>, op: Op, d: nat)
    ensures Tables(ops + [op], d) == if In(op, d) then NextTables(Tables(ops, d), op) else Tables(ops, d)
  {
    assert (ops + [op])[..|ops|] == ops;
  }

  lemma MoreTranslation(ops: seq<Op>, op: Op, d: nat, r: nat, i: nat, bare: bool)
    requires bare == (r !in Tables(ops, d))
    ensures Translation(ops + [op], d, r, i) ==
      if In(op, d) then NextEntry(Translation(ops, d, r, i), bare, op, r, i) else Translation(ops, d, r, i)
  {
    assert (ops + [op])[..|ops|] == ops;
  }

  /** The domain that is mapped in. */
  lemma OwnIs(s: State, ops: seq<Op>, op: Op, t: State, d: nat)
    requires DoesOp(s, op, t) && In(op, d) && Maps(s.mem, s.layout) && d in s.layout.dirs && DomainIs(s, ops, d)
    ensures |t.mem| == WORDS && DomainIs(t, ops + [op], d)
  {
    forall r
      ensures (d, r) in t.layout.tables <==> r in Tables(ops + [op], d)
    {
      MoreTables(ops, op, d);
    }
    forall r, i | 0 <= r < COUNT && 0 <= i < COUNT
      ensures Walk(t.mem, d, r, i) == Translation(ops + [op], d, r, i)
    {
      MoreTranslation(ops, op, d, r, i, r !in Tables(ops, d));
      assert Walk(s.mem, d, r, i) == Translation(ops, d, r, i);
    }
  }

  /** Any other. */
  lemma OtherIs(s: State, ops: seq<Op>, op: Op, t: State, d: nat)
    requires DoesOp(s, op, t) && !In(op, d) && Maps(s.mem, s.layout) && d in s.layout.dirs && DomainIs(s, ops, d)
    ensures |t.mem| == WORDS && DomainIs(t, ops + [op], d)
  {
    assert SameWalks(s.mem, t.mem, d, -1);
    forall r
      ensures (d, r) in t.layout.tables <==> r in Tables(ops + [op], d)
    {
      MoreTables(ops, op, d);
    }
    forall r, i | 0 <= r < COUNT && 0 <= i < COUNT
      ensures Walk(t.mem, d, r, i) == Translation(ops + [op], d, r, i)
    {
      MoreTranslation(ops, op, d, r, i, r !in Tables(ops, d));
      assert Walk(s.mem, d, r, i) == Translation(ops, d, r, i);
    }
  }

  lemma {:induction false} NoOps(ops: seq<Op>, d: nat, r: nat, i: nat)
    requires forall k :: 0 <= k < |ops| ==> !In(ops[k], d)
    ensures Tables(ops, d) == {} && Translation(ops, d, r, i) == Entry(COUNT * r + i, NONE)
  {
    if ops != [] {
      NoOps(ops[..|ops| - 1], d, r, i);
    }
  }

  /** A new domain. */
  lemma NewIs(s: State, ops: seq<Op>, t: State)
    requires Follows(s, ops) && Does(s, Init, t)
    ensures |t.mem| == WORDS && DomainIs(t, ops + [Small(Init)], s.layout.top)
  {
    var d, op := s.layout.top, Small(Init);
    assert d !in s.layout.dirs;
    forall k | 0 <= k < |ops|
      ensures !In(ops[k], d)
    {
      assert In(ops[k], d) ==> d in s.layout.dirs;
    }
    MoreTables(ops, op, d);
    NoOps(ops, d, 0, 0);
    forall r, i | 0 <= r < COUNT && 0 <= i < COUNT
      ensures Walk(t.mem, d, r, i) == Translation(ops + [op], d, r, i)
    {
      MoreTranslation(ops, op, d, r, i, r !in Tables(ops, d));
      NoOps(ops, d, r, i);
    }
  }

  lemma StepFollows(s: State, ops: seq<Op>, op: Op, t: State)
    requires Follows(s, ops) && DoesOp(s, op, t)
    ensures Follows(t, ops + [op])
  {
    forall d | d in t.layout.dirs
      ensures DomainIs(t, ops + [op], d)
    {
      if d !in s.layout.dirs {
        NewIs(s, ops, t);
      } else if In(op, d) {
        OwnIs(s, ops, op, t, d);
      } else {
        OtherIs(s, ops, op, t, d);
      }
    }
    forall d, k | 0 <= k < |ops + [op]| && In((ops + [op])[k], d)
      ensures d in t.layout.dirs
    {
      if k < |ops| {
        assert In(ops[k], d);
      }
    }
  }

  // ---------------------------------------------------------------- whole runs

  lemma TraceStart(states: seq<State>, ops: seq<Op>)
    requires Trace(states, ops) && ops != []
    ensures Trace(states[..|ops|], ops[..|ops| - 1])
  {
    var n := |ops| - 1;
    forall i | 0 <= i < n
      ensures DoesOp(states[..n + 1][i], ops[..n][i], states[..n + 1][i + 1])
    {
      assert DoesOp(states[i], ops[i], states[i + 1]);
    }
  }

  /** After any run of both kinds of mapping every domain translates every page as its calls say. */
  lemma {:induction false} RunFollows(states: seq<State>, ops: seq<Op>)
    requires Trace(states, ops) && Reset(states[0])
    ensures Follows(states[|ops|], ops)
    decreases |ops|
  {
    if ops != [] {
      var n := |ops| - 1;
      TraceStart(states, ops);
      RunFollows(states[..n + 1], ops[..n]);
      assert DoesOp(states[n], ops[n], states[n + 1]);
      StepFollows(states[n], ops[..n], ops[n], states[n + 1]);
      assert ops[..n] + [ops[n]] == ops;
    }
  }

  // ---------------------------------------------------------------- the flat map

  /** The flat map: the last call that assigned the page decides. */
  function Latest(ops: seq<Op>, d: nat, r: nat, i: nat): Entry {
    if ops == [] then Entry(COUNT * r + i, NONE)
    else
      var op, was := ops[|ops| - 1], Latest(ops[..|ops| - 1], d, r, i);
      if !In(op, d) then was
      else if op.Huge? then ExpectedHuge(was, op.r0, op.q0, op.regions, op.attr, r, i)
      else match Mapped(op.call.v0, op.call.p0, op.call.pages, op.call.attr, COUNT * r + i)
        case Some(e) => e
        case None => was
  }

  /** 4 MB mappings grant something. */
  predicate Grants(op: Op) {
    op.Huge? ==> PermOf(op.attr) != NONE
  }

  /** A region without table is as smmu_init_domain left it, or holds a 4 MB entry that grants
      something, which keeps smmu_map out. */
  ghost predicate Clear(ops: seq<Op>, d: nat, r: nat) {
    r in Tables(ops, d)
    || (forall i :: 0 <= i < COUNT ==> Translation(ops, d, r, i) == Entry(COUNT * r + i, NONE))
    || (forall i :: 0 <= i < COUNT ==> Translation(ops, d, r, i).perm != NONE)
  }

  /** smmu_map may use region r: then it has a table or grants nothing. */
  ghost predicate Open(ops: seq<Op>, op: Op, d: nat, r: nat) {
    op.Small? && In(op, d) && r in Regions(op.call.v0, op.call.pages) && r !in Tables(ops, d) ==>
      Translation(ops, d, r, 0).perm == NONE
  }

  /** The call that follows is one that smmu_map can serve. */
  lemma CallIsOpen(s: State, ops: seq<Op>, op: Op, t: State, d: nat, r: nat)
    requires Follows(s, ops) && DoesOp(s, op, t) && r < COUNT
    ensures Open(ops, op, d, r)
  {
    if op.Small? && In(op, d) && r in Regions(op.call.v0, op.call.pages) && r !in Tables(ops, d) {
      assert d in s.layout.dirs && DomainIs(s, ops, d) && PdeOk(s.mem, s.layout, d, r);
      assert Tabled(s.mem, s.layout, d, r);
      assert Walk(s.mem, d, r, 0) == Translation(ops, d, r, 0);
    }
  }

  lemma LatestMore(ops: seq<Op>, op: Op, d: nat, r: nat, i: nat)
    requires Clear(ops, d, r) && Open(ops, op, d, r) && i < COUNT
    requires Translation(ops, d, r, i) == Latest(ops, d, r, i)
    ensures Translation(ops + [op], d, r, i) == Latest(ops + [op], d, r, i)
  {
    assert (ops + [op])[..|ops|] == ops;
  }

  lemma ClearMore(ops: seq<Op>, op: Op, d: nat, r: nat)
    requires Clear(ops, d, r) && Grants(op) && r < COUNT
    ensures Clear(ops + [op], d, r)
  {
    MoreTables(ops, op, d);
    forall i | 0 <= i < COUNT && r !in Tables(ops + [op], d)
      ensures if op.Huge? && In(op, d) && r in HugeRegions(op.r0, op.regions)
        then Translation(ops + [op], d, r, i).perm != NONE
        else Translation(ops + [op], d, r, i) == Translation(ops, d, r, i)
    {
      MoreTranslation(ops, op, d, r, i, r !in Tables(ops, d));
      assert (COUNT * r + i) / COUNT == r;
      if op.Huge? {
        MappedHugeRegions(op.r0, op.q0, op.regions, op.attr, COUNT * r + i);
      } else if In(op, d) {
        if Mapped(op.call.v0, op.call.p0, op.call.pages, op.call.attr, COUNT * r + i).Some? {
          MappedTouches(op.call.v0, op.call.p0, op.call.pages, op.call.attr, r, i);
        }
      }
    }
  }

  /** If all 4 MB mappings grant something, a run of both kinds is a flat map too: for every page
      the last call that assigned it decides. */
  lemma {:induction false} LatestWins(states: seq<State>, ops: seq<Op>, d: nat, r: nat)
    requires Trace(states, ops) && Reset(states[0]) && r < COUNT
    requires forall k :: 0 <= k < |ops| ==> Grants(ops[k])
    ensures Clear(ops, d, r) && forall i :: 0 <= i < COUNT ==> Translation(ops, d, r, i) == Latest(ops, d, r, i)
    decreases |ops|
  {
    if ops != [] {
      var n := |ops| - 1;
      TraceStart(states, ops);
      RunFollows(states[..n + 1], ops[..n]);
      LatestWins(states[..n + 1], ops[..n], d, r);
      assert DoesOp(states[n], ops[n], states[n + 1]);
      CallIsOpen(states[n], ops[..n], ops[n], states[n + 1], d, r);
      assert ops[..n] + [ops[n]] == ops;
      ClearMore(ops[..n], ops[n], d, r);
      forall i | 0 <= i < COUNT
        ensures Translation(ops, d, r, i) == Latest(ops, d, r, i)
      {
        LatestMore(ops[..n], ops[n], d, r, i);
      }
    }
  }
}
