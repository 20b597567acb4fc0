/** What smmu_map and smmu_map_huge mean: assignments to a flat map from virtual page
    to page frame and permissions, the last one winning when addresses wrap. */
module SmmuFlat {
  import opened Options
  import opened SmmuTables

  /** The entry that mapping n pages from virtual page v0 to frame p0 leaves at page v, if any. */
  function Mapped(v0: nat, p0: nat, n: nat, attr: nat, v: nat): Option<Entry> {
    if n == 0 then None
    else if (v0 + n - 1) % PAGES == v then Some(Entry((p0 + n - 1) % FRAMES, PermOf(attr)))
    else Mapped(v0, p0, n - 1, attr, v)
  }

  /** The same for n regions of 4 MB, from region r0 to 4 MB frame q0. */
  function MappedHuge(r0: nat, q0: nat, n: nat, attr: nat, v: nat): Option<Entry> {
    if n == 0 then None
    else if (r0 + n - 1) % COUNT == v / COUNT
    then Some(Entry((q0 + n - 1) % 0x1000 * COUNT + v % COUNT, PermOf(attr)))
    else MappedHuge(r0, q0, n - 1, attr, v)
  }

  /** The 4 MB regions that n pages from v0 touch. */
  function Regions(v0: nat, n: nat): set<nat> {
    if n == 0 then {} else Regions(v0, n - 1) + {(v0 + n - 1) % PAGES / COUNT}
  }

  /** The n regions from r0 on. */
  function HugeRegions(r0: nat, n: nat): set<nat> {
    if n == 0 then {} else HugeRegions(r0, n - 1) + {(r0 + n - 1) % COUNT}
  }

  /** A 4 MB mapping maps the pages of just these regions. */
  lemma {:induction false} MappedHugeRegions(r0: nat, q0: nat, n: nat, attr: nat, v: nat)
    ensures MappedHuge(r0, q0, n, attr, v).Some? <==> v / COUNT in HugeRegions(r0, n)
    ensures MappedHuge(r0, q0, n, attr, v).Some? ==> MappedHuge(r0, q0, n, attr, v).value.perm == PermOf(attr)
  {
    if n > 0 {
      MappedHugeRegions(r0, q0, n - 1, attr, v);
    }
  }

  /** Without wrap-around the map is the plain one: page v0 + i goes to frame p0 + i. */
  lemma {:induction false} MappedPlain(v0: nat, p0: nat, n: nat, attr: nat, v: nat)
    requires v0 + n <= PAGES
    ensures Mapped(v0, p0, n, attr, v) ==
      if v0 <= v < v0 + n then Some(Entry((p0 + (v - v0)) % FRAMES, PermOf(attr))) else None
  {
    if n > 0 {
      MappedPlain(v0, p0, n - 1, attr, v);
    }
  }

  /** ... and touches the regions from that of its first page to that of its last. */
  lemma {:induction false} RegionsPlain(v0: nat, n: nat, r: nat)
    requires v0 + n <= PAGES
    ensures r in Regions(v0, n) <==> n > 0 && v0 / COUNT <= r <= (v0 + n - 1) / COUNT
  {
    if n > 1 {
      RegionsPlain(v0, n - 1, r);
    }
  }

  lemma {:induction false} SubsetSize(s: set<nat>, n: nat)
    requires forall r :: r in s ==> r < n
    ensures |s| <= n
  {
    if n > 0 {
      SubsetSize(s - {n - 1}, n - 1);
      assert n - 1 in s ==> |s - {n - 1}| == |s| - 1;
      assert n - 1 !in s ==> s - {n - 1} == s;
    }
  }

  /** Pages k of the last 4 MB: only the region they lie in changes. */
  lemma {:induction false} MappedRegion(r0: nat, q0: nat, n: nat, k: nat, attr: nat, v: nat)
    requires v < PAGES && k <= COUNT
    ensures Mapped(COUNT * r0, COUNT * q0, COUNT * n + k, attr, v) ==
      if v / COUNT == (r0 + n) % COUNT && v % COUNT < k
      then Some(Entry((q0 + n) % 0x1000 * COUNT + v % COUNT, PermOf(attr)))
      else Mapped(COUNT * r0, COUNT * q0, COUNT * n, attr, v)
    decreases k
  {
    if k > 0 {
      MappedRegion(r0, q0, n, k - 1, attr, v);
      PageOfRegion(r0 + n, k - 1);
      FrameOfRegion(q0 + n, k - 1);
      assert COUNT * r0 + (COUNT * n + k) - 1 == COUNT * (r0 + n) + (k - 1);
      assert COUNT * q0 + (COUNT * n + k) - 1 == COUNT * (q0 + n) + (k - 1);
    }
  }

  lemma PageOfRegion(r: nat, k: nat)
    requires k < COUNT
    ensures (COUNT * r + k) % PAGES == COUNT * (r % COUNT) + k
  {
    var a, b := r / COUNT, r % COUNT;
    assert r == COUNT * a + b;
    assert COUNT * r + k == PAGES * a + (COUNT * b + k);
    assert (PAGES * a + (COUNT * b + k)) % PAGES == COUNT * b + k;
  }

  lemma FrameOfRegion(q: nat, k: nat)
    requires k < COUNT
    ensures (COUNT * q + k) % FRAMES == q % 0x1000 * COUNT + k
  {
    var a, b := q / 0x1000, q % 0x1000;
    assert q == 0x1000 * a + b;
    assert COUNT * q + k == FRAMES * a + (COUNT * b + k);
    assert (FRAMES * a + (COUNT * b + k)) % FRAMES == COUNT * b + k;
  }

  /** n huge regions and 1024 * n small pages at the same 4 MB aligned addresses are one map. */
  lemma {:induction false} HugeIsPages(r0: nat, q0: nat, n: nat, attr: nat, v: nat)
    requires v < PAGES
    ensures MappedHuge(r0, q0, n, attr, v) == Mapped(COUNT * r0, COUNT * q0, COUNT * n, attr, v)
  {
    if n > 0 {
      HugeIsPages(r0, q0, n - 1, attr, v);
      MappedRegion(r0, q0, n - 1, COUNT, attr, v);
      assert COUNT * (n - 1) + COUNT == COUNT * n;
    }
  }

  // ---------------------------------------------------------------- refinement

  /** What page i of region r must translate to after n pages were mapped, when it was `was`
      before and `bare` says that the region had no table: mapped pages as asked, the other
      pages of a new table to themselves without permissions, everything else as before. */
  function Expected(was: Entry, bare: bool, v0: nat, p0: nat, n: nat, attr: nat, r: nat, i: nat): Entry {
    match Mapped(v0, p0, n, attr, COUNT * r + i)
    case Some(e) => e
    case None => if bare && r in Regions(v0, n) then Entry(COUNT * r + i, NONE) else was
  }

  /** State (n, k) is what mapping `count` pages in domain d makes of state (m, l). */
  ghost predicate AfterMap(m: seq<Word>, l: Layout, n: seq<Word>, k: Layout,
                           d: nat, v0: nat, p0: nat, count: nat, attr: nat)
  {
    && Maps(m, l) && Maps(n, k) && d in l.dirs
    && k.base == l.base && k.dirs == l.dirs && k.other == l.other
    && (forall e, r :: (e, r) in k.tables <==> (e, r) in l.tables || (e == d && r in Regions(v0, count)))
    && (forall j :: j in l.tables ==> j in k.tables && k.tables[j] == l.tables[j])
    && OthersSame(m, n, l, d)
    && (forall r, i :: 0 <= r < COUNT && 0 <= i < COUNT ==>
          Walk(n, d, r, i) == Expected(Walk(m, d, r, i), (d, r) !in l.tables, v0, p0, count, attr, r, i))
  }

  /** The effect of finding or creating the table of region r. */
  ghost predicate GotTable(m: seq<Word>, l: Layout, n: seq<Word>, k: Layout, d: nat, r: nat) {
    && Maps(m, l) && Maps(n, k) && d in l.dirs && r < COUNT && (d, r) in k.tables
    && if (d, r) in l.tables then n == m && k == l
       else
         && k == Hung(l, d, r) && OthersSame(m, n, l, d) && SameWalks(m, n, d, r)
         && (forall i :: 0 <= i < COUNT ==> Walk(n, d, r, i) == Entry(COUNT * r + i, NONE))
  }

  /** The arguments of one smmu_map call, in pages. */
  datatype Run = Run(v0: nat, p0: nat, pages: nat, attr: nat) {
    /** The loop variables before round i. */
    ghost predicate Here(va: nat, pa: nat, i: nat) {
      && va < 0x1_0000_0000 && va / 0x1000 == (v0 + i) % PAGES
      && pa < 0x1_0000_0000_0000_0000 && pa / 0x1000 % FRAMES == (p0 + i) % FRAMES
    }
  }

  lemma MapStart(m: seq<Word>, l: Layout, d: nat, run: Run, va: nat, pa: nat)
    requires Maps(m, l) && d in l.dirs
    requires va < 0x1_0000_0000 && pa < 0x1_0000_0000_0000_0000
    requires run.v0 == va / 0x1000 && run.p0 == pa / 0x1000
    ensures AfterMap(m, l, m, l, d, run.v0, run.p0, 0, run.attr) && run.Here(va, pa, 0)
  {
  }

  /** Which entry round i writes, and that the next addresses are in step. */
  lemma RunPage(run: Run, va: nat, pa: nat, i: nat) returns (r: nat, index: nat)
    requires run.Here(va, pa, i) && i < run.pages
    ensures r == va / 0x40_0000 && index == va / 0x1000 % COUNT
    ensures r < COUNT && r in Regions(run.v0, run.pages) && COUNT * r + index == (run.v0 + i) % PAGES
    ensures run.Here((va + 0x1000) % 0x1_0000_0000, (pa + 0x1000) % 0x1_0000_0000_0000_0000, i + 1)
  {
    r, index := va / 0x40_0000, va / 0x1000 % COUNT;
    PageOf(va);
    RegionsHas(run.v0, run.pages, i);
    NextAddress(va, run.v0 + i);
    NextFrame(pa, run.p0 + i);
  }

  /** The touched regions that still lack a table. */
  function Missing(l: Layout, d: nat, regions: set<nat>): set<nat> {
    set r | r in regions && (d, r) !in l.tables
  }

  /** Region r of a domain has a table, or grants nothing and can be given one. */
  ghost predicate Tabled(m: seq<Word>, l: Layout, d: nat, r: nat)
    requires |m| == WORDS && d < PAGES && r < COUNT
  {
    (d, r) in l.tables || At(m, d, r).attr == NONE
  }

  /** What the caller of smmu_map owes: no 4 MB entry in the way, and pages for new tables. */
  ghost predicate CanMap(m: seq<Word>, l: Layout, d: nat, regions: set<nat>)
    requires |m| == WORDS && d < PAGES
  {
    && (forall r :: r in regions && r < COUNT ==> Tabled(m, l, d, r))
    && l.top + |Missing(l, d, regions)| <= PAGES
  }

  lemma CanMapHere(m: seq<Word>, l: Layout, d: nat, regions: set<nat>, r: nat)
    requires |m| == WORDS && d < PAGES && CanMap(m, l, d, regions) && r in regions && r < COUNT
    ensures Tabled(m, l, d, r) && ((d, r) in l.tables || l.top < PAGES)
  {
    if (d, r) !in l.tables {
      assert r in Missing(l, d, regions);
    }
  }

  lemma CanMapStep(m: seq<Word>, l: Layout, z: seq<Word>, k: Layout, d: nat, regions: set<nat>, r: nat)
    requires |m| == |z| == WORDS && d < PAGES && CanMap(m, l, d, regions) && r in regions && r < COUNT
    requires if (d, r) in l.tables then k == l else k == Hung(l, d, r)
    requires forall q :: 0 <= q < COUNT && q != r ==> At(z, d, q) == At(m, d, q)
    ensures CanMap(z, k, d, regions)
  {
    if (d, r) !in l.tables {
      assert Missing(l, d, regions) == Missing(k, d, regions) + {r};
    }
    forall q | q in regions && q < COUNT
      ensures Tabled(z, k, d, q)
    {
      assert Tabled(m, l, d, q);
    }
  }

  lemma {:induction false} RegionsHas(v0: nat, n: nat, i: nat)
    requires i < n
    ensures (v0 + i) % PAGES / COUNT in Regions(v0, n)
  {
    if i < n - 1 {
      RegionsHas(v0, n - 1, i);
    }
  }

  lemma PageOf(va: nat)
    requires va < 0x1_0000_0000
    ensures va / 0x40_0000 == va / 0x1000 / COUNT < COUNT
    ensures COUNT * (va / 0x40_0000) + va / 0x1000 % COUNT == va / 0x1000
  {
  }

  lemma NextAddress(va: nat, v: nat)
    requires va < 0x1_0000_0000 && va / 0x1000 == v % PAGES
    ensures (va + 0x1000) % 0x1_0000_0000 / 0x1000 == (v + 1) % PAGES
  {
    assert (va + 0x1000) / 0x1000 == v % PAGES + 1;
  }

  lemma NextFrame(pa: nat, p: nat)
    requires pa < 0x1_0000_0000_0000_0000 && pa / 0x1000 % FRAMES == p % FRAMES
    ensures (pa + 0x1000) % 0x1_0000_0000_0000_0000 / 0x1000 % FRAMES == (p + 1) % FRAMES
  {
    assert (pa + 0x1000) / 0x1000 == pa / 0x1000 + 1;
    var next := pa + 0x1000;
    if next >= 0x1_0000_0000_0000_0000 {
      assert pa / 0x1000 == 0xF_FFFF_FFFF_FFFF;
      assert next % 0x1_0000_0000_0000_0000 < 0x1000;
    }
  }

  /** Creating a table is two writes: the page beyond the top, then the directory entry. */
  lemma HungFrom(m: seq<Word>, n: seq<Word>, z: seq<Word>, l: Layout, d: nat, r: nat)
    requires Maps(m, l) && Maps(n, l) && d in l.dirs && r < COUNT && (d, r) !in l.tables
    requires forall e :: e in l.dirs ==> SameWalks(m, n, e, -1)
    requires Maps(z, Hung(l, d, r)) && OthersSame(n, z, l, d) && SameWalks(n, z, d, r)
    requires forall i :: 0 <= i < COUNT ==> Walk(z, d, r, i) == Entry(COUNT * r + i, NONE)
    ensures GotTable(m, l, z, Hung(l, d, r), d, r)
  {
    forall e, q, i | e in l.dirs && 0 <= q < COUNT && 0 <= i < COUNT && (e != d || q != r)
      ensures Walk(z, e, q, i) == Walk(m, e, q, i)
    {
      assert SameWalks(m, n, e, -1);
      assert e != d ==> SameWalks(n, z, e, -1);
    }
  }

  /** One round of the mapping loop. */
  lemma MapStep(m0: seq<Word>, l0: Layout, m: seq<Word>, l: Layout, n: seq<Word>, k: Layout,
                d: nat, v0: nat, p0: nat, count: nat, attr: nat, r: nat, i: nat, w: Word)
    requires AfterMap(m0, l0, m, l, d, v0, p0, count, attr)
    requires GotTable(m, l, n, k, d, r) && i < COUNT && COUNT * r + i == (v0 + count) % PAGES
    requires w.Frame() == (p0 + count) % FRAMES && w.attr == PermOf(attr)
    ensures AfterMap(m0, l0, Put(n, k.tables[(d, r)], i, w), k, d, v0, p0, count + 1, attr)
  {
    var z := Put(n, k.tables[(d, r)], i, w);
    assert Maps(z, k) && OthersSame(m0, z, l0, d) by {
      PteWrite(n, k, d, r, i, w);
      OthersChain(m0, m, n, z, l0, l, k, d, r);
    }
    RegionsMore(v0, count, r, i);
    forall q, j | 0 <= q < COUNT && 0 <= j < COUNT
      ensures Walk(z, d, q, j) == Expected(Walk(m0, d, q, j), (d, q) !in l0.tables, v0, p0, count + 1, attr, q, j)
    {
      MapStepAt(m0, l0, m, l, n, k, d, v0, p0, count, attr, r, i, w, q, j);
    }
  }

  lemma RegionsMore(v0: nat, count: nat, r: nat, i: nat)
    requires i < COUNT && COUNT * r + i == (v0 + count) % PAGES
    ensures Regions(v0, count + 1) == Regions(v0, count) + {r}
  {
    assert (COUNT * r + i) / COUNT == r;
  }

  lemma MapStepAt(m0: seq<Word>, l0: Layout, m: seq<Word>, l: Layout, n: seq<Word>, k: Layout,
                  d: nat, v0: nat, p0: nat, count: nat, attr: nat, r: nat, i: nat, w: Word, q: nat, j: nat)
    requires AfterMap(m0, l0, m, l, d, v0, p0, count, attr)
    requires GotTable(m, l, n, k, d, r) && i < COUNT && COUNT * r + i == (v0 + count) % PAGES
    requires w.Frame() == (p0 + count) % FRAMES && w.attr == PermOf(attr)
    requires q < COUNT && j < COUNT
    ensures Walk(Put(n, k.tables[(d, r)], i, w), d, q, j)
      == Expected(Walk(m0, d, q, j), (d, q) !in l0.tables, v0, p0, count + 1, attr, q, j)
  {
    var z := Put(n, k.tables[(d, r)], i, w);
    var was, now, bare := Walk(m0, d, q, j), Walk(m, d, q, j), (d, q) !in l0.tables;
    assert Walk(z, d, q, j) == if q == r && j == i then Entry(w.Frame(), w.attr) else Walk(n, d, q, j) by {
      PteWrite(n, k, d, r, i, w);
    }
    assert now == Expected(was, bare, v0, p0, count, attr, q, j);
    assert Walk(n, d, q, j) ==
      if q == r && bare && r !in Regions(v0, count) then Entry(COUNT * q + j, NONE) else now by {
      assert (d, q) in l.tables <==> !bare || q in Regions(v0, count);
    }
    StepEntry(was, now, bare, v0, p0, count, attr, r, i, q, j);
  }

  /** ... including what the caller owes for the rounds to come. */
  lemma MapRound(m0: seq<Word>, l0: Layout, m: seq<Word>, l: Layout, n: seq<Word>, z: seq<Word>, k: Layout,
                 d: nat, run: Run, count: nat, r: nat, i: nat, w: Word)
    requires AfterMap(m0, l0, m, l, d, run.v0, run.p0, count, run.attr)
    requires CanMap(m, l, d, Regions(run.v0, run.pages)) && r in Regions(run.v0, run.pages)
    requires GotTable(m, l, n, k, d, r) && i < COUNT && COUNT * r + i == (run.v0 + count) % PAGES
    requires w.Frame() == (run.p0 + count) % FRAMES && w.attr == PermOf(run.attr)
    requires z == Put(n, k.tables[(d, r)], i, w)
    requires forall q :: 0 <= q < COUNT && q != r ==> At(z, d, q) == At(m, d, q)
    ensures AfterMap(m0, l0, z, k, d, run.v0, run.p0, count + 1, run.attr)
    ensures CanMap(z, k, d, Regions(run.v0, run.pages))
  {
    MapStep(m0, l0, m, l, n, k, d, run.v0, run.p0, count, run.attr, r, i, w);
    CanMapStep(m, l, z, k, d, Regions(run.v0, run.pages), r);
  }

  lemma OthersChain(m0: seq<Word>, m: seq<Word>, n: seq<Word>, z: seq<Word>,
                    l0: Layout, l: Layout, k: Layout, d: nat, r: nat)
    requires |m0| == |m| == |n| == |z| == WORDS && Owned(l0) && Owned(l) && Owned(k)
    requires l.dirs == l0.dirs == k.dirs
    requires OthersSame(m0, m, l0, d) && (n == m || OthersSame(m, n, l, d)) && OthersSame(n, z, k, d)
    ensures OthersSame(m0, z, l0, d)
  {
    forall e, q, j | e in l0.dirs && e != d && 0 <= q < COUNT && 0 <= j < COUNT
      ensures Walk(z, e, q, j) == Walk(m0, e, q, j)
    {
      assert SameWalks(m0, m, e, -1) && SameWalks(n, z, e, -1);
      assert n != m ==> SameWalks(m, n, e, -1);
    }
  }

  /** How the expected entry of page j of region q moves when page i of region r is mapped next. */
  lemma StepEntry(was: Entry, now: Entry, bare: bool, v0: nat, p0: nat, n: nat, attr: nat,
                  r: nat, i: nat, q: nat, j: nat)
    requires i < COUNT && j < COUNT && COUNT * r + i == (v0 + n) % PAGES
    requires now == Expected(was, bare, v0, p0, n, attr, q, j)
    ensures Expected(was, bare, v0, p0, n + 1, attr, q, j) ==
      if q == r && j == i then Entry((p0 + n) % FRAMES, PermOf(attr))
      else if q == r && bare && r !in Regions(v0, n) then Entry(COUNT * q + j, NONE)
      else now
  {
    assert COUNT * q + j == COUNT * r + i <==> q == r && j == i;
    assert (v0 + (n + 1) - 1) % PAGES / COUNT == r;
    assert Regions(v0, n + 1) == Regions(v0, n) + {r};
    if Mapped(v0, p0, n, attr, COUNT * q + j).Some? {
      MappedTouches(v0, p0, n, attr, q, j);
    }
  }

  /** A page is mapped only in a touched region. */
  lemma {:induction false} MappedTouches(v0: nat, p0: nat, n: nat, attr: nat, r: nat, i: nat)
    requires i < COUNT && Mapped(v0, p0, n, attr, COUNT * r + i).Some?
    ensures r in Regions(v0, n)
  {
    if (v0 + n - 1) % PAGES == COUNT * r + i {
      assert (COUNT * r + i) / COUNT == r;
    } else {
      MappedTouches(v0, p0, n - 1, attr, r, i);
    }
  }

  /** State (n, k) is what mapping `count` 4 MB regions in domain d makes of state (m, l). */
  ghost predicate AfterHuge(m: seq<Word>, l: Layout, n: seq<Word>, k: Layout,
                            d: nat, r0: nat, q0: nat, count: nat, attr: nat)
  {
    && Maps(m, l) && Maps(n, k) && d in l.dirs
    && k.base == l.base && k.top == l.top && k.dirs == l.dirs
    && (forall e, r :: (e, r) in k.tables <==> (e, r) in l.tables && !(e == d && r in HugeRegions(r0, count)))
    && OthersSame(m, n, l, d)
    && (forall r, i :: 0 <= r < COUNT && 0 <= i < COUNT ==>
          Walk(n, d, r, i) == ExpectedHuge(Walk(m, d, r, i), r0, q0, count, attr, r, i))
  }

  /** The arguments of one smmu_map_huge call, in 4 MB units. */
  datatype HugeRun = HugeRun(r0: nat, q0: nat) {
    /** The loop variables before round i. */
    ghost predicate Here(va: nat, pa: nat, i: nat) {
      && va < 0x1_0000_0000 && va / 0x40_0000 == (r0 + i) % COUNT
      && pa < 0x1_0000_0000_0000_0000 && pa / 0x40_0000 % 0x1000 == (q0 + i) % 0x1000
    }

    lemma Next(va: nat, pa: nat, i: nat)
      requires Here(va, pa, i)
      ensures Here((va + 0x40_0000) % 0x1_0000_0000, (pa + 0x40_0000) % 0x1_0000_0000_0000_0000, i + 1)
    {
      NextRegion(va, r0 + i);
      NextHugeFrame(pa, q0 + i);
    }
  }

  lemma HugeStart(m: seq<Word>, l: Layout, d: nat, run: HugeRun, va: nat, pa: nat, attr: nat)
    requires Maps(m, l) && d in l.dirs
    requires va < 0x1_0000_0000 && pa < 0x1_0000_0000_0000_0000
    requires run.r0 == va / 0x40_0000 && run.q0 == pa / 0x40_0000
    ensures AfterHuge(m, l, m, l, d, run.r0, run.q0, 0, attr) && run.Here(va, pa, 0)
  {
  }

  lemma NextRegion(va: nat, r: nat)
    requires va < 0x1_0000_0000 && va / 0x40_0000 == r % COUNT
    ensures (va + 0x40_0000) % 0x1_0000_0000 / 0x40_0000 == (r + 1) % COUNT
  {
    assert (va + 0x40_0000) / 0x40_0000 == r % COUNT + 1;
  }

  lemma NextHugeFrame(pa: nat, q: nat)
    requires pa < 0x1_0000_0000_0000_0000 && pa / 0x40_0000 % 0x1000 == q % 0x1000
    ensures (pa + 0x40_0000) % 0x1_0000_0000_0000_0000 / 0x40_0000 % 0x1000 == (q + 1) % 0x1000
  {
    assert (pa + 0x40_0000) / 0x40_0000 == pa / 0x40_0000 + 1;
    var next := pa + 0x40_0000;
    if next >= 0x1_0000_0000_0000_0000 {
      assert pa / 0x40_0000 == 0x3FF_FFFF_FFFF;
      assert next % 0x1_0000_0000_0000_0000 < 0x40_0000;
    }
  }

  function ExpectedHuge(was: Entry, r0: nat, q0: nat, n: nat, attr: nat, r: nat, i: nat): Entry {
    match MappedHuge(r0, q0, n, attr, COUNT * r + i)
    case Some(e) => e
    case None => was
  }

  /** One round of the 4 MB loop. */
  lemma HugeStep(m0: seq<Word>, l0: Layout, m: seq<Word>, l: Layout,
                 d: nat, r0: nat, q0: nat, count: nat, attr: nat, r: nat, w: Word)
    requires AfterHuge(m0, l0, m, l, d, r0, q0, count, attr)
    requires r == (r0 + count) % COUNT && w.next == 0
    requires w.mid == (q0 + count) % 0x1000 && w.attr == PermOf(attr)
    ensures AfterHuge(m0, l0, Put(m, d, r, w), Unhung(l, d, r), d, r0, q0, count + 1, attr)
  {
    var z, k := Put(m, d, r, w), Unhung(l, d, r);
    assert k.base == l.base && k.top == l.top && k.dirs == l.dirs;
    assert Maps(z, k) && OthersSame(m0, z, l0, d) by {
      HugeWrite(m, l, d, r, w);
      OthersChain(m0, m, m, z, l0, l, l, d, r);
    }
    HugeTables(l0, l, d, r0, count, r);
    forall q, j | 0 <= q < COUNT && 0 <= j < COUNT
      ensures Walk(z, d, q, j) == ExpectedHuge(Walk(m0, d, q, j), r0, q0, count + 1, attr, q, j)
    {
      HugeStepAt(m0, l0, m, l, d, r0, q0, count, attr, r, w, q, j);
    }
  }

  lemma HugeTables(l0: Layout, l: Layout, d: nat, r0: nat, count: nat, r: nat)
    requires Owned(l) && r == (r0 + count) % COUNT
    requires forall e, q :: (e, q) in l.tables <==>
      (e, q) in l0.tables && !(e == d && q in HugeRegions(r0, count))
    ensures forall e, q :: (e, q) in Unhung(l, d, r).tables <==>
      (e, q) in l0.tables && !(e == d && q in HugeRegions(r0, count + 1))
  {
    var done, next := HugeRegions(r0, count), HugeRegions(r0, count + 1);
    assert next == done + {r};
    DropTable(l0, l, d, r, done, next);
  }

  lemma DropTable(l0: Layout, l: Layout, d: nat, r: nat, done: set<nat>, next: set<nat>)
    requires Owned(l) && next == done + {r}
    requires forall e, q :: (e, q) in l.tables <==> (e, q) in l0.tables && !(e == d && q in done)
    ensures forall e, q :: (e, q) in Unhung(l, d, r).tables <==> (e, q) in l0.tables && !(e == d && q in next)
  {
    UnhungOwned(l, d, r);
    forall e, q
      ensures (e, q) in Unhung(l, d, r).tables <==> (e, q) in l0.tables && !(e == d && q in next)
    {
      assert (e, q) in l.tables <==> (e, q) in l0.tables && !(e == d && q in done);
    }
  }

  lemma HugeStepAt(m0: seq<Word>, l0: Layout, m: seq<Word>, l: Layout,
                   d: nat, r0: nat, q0: nat, count: nat, attr: nat, r: nat, w: Word, q: nat, j: nat)
    requires AfterHuge(m0, l0, m, l, d, r0, q0, count, attr) && q < COUNT && j < COUNT
    requires r == (r0 + count) % COUNT && w.next == 0
    requires w.mid == (q0 + count) % 0x1000 && w.attr == PermOf(attr)
    ensures Walk(Put(m, d, r, w), d, q, j) == ExpectedHuge(Walk(m0, d, q, j), r0, q0, count + 1, attr, q, j)
  {
    assert (COUNT * q + j) / COUNT == q && (COUNT * q + j) % COUNT == j;
    if q == r {
      assert Walk(Put(m, d, r, w), d, q, j) == Entry(w.mid * COUNT + j, w.attr) by {
        HugeWrite(m, l, d, r, w);
      }
    } else {
      HugeElsewhere(m, l, d, r, w, d, q, j);
      assert Walk(m, d, q, j) == ExpectedHuge(Walk(m0, d, q, j), r0, q0, count, attr, q, j);
    }
  }

  /** A region touched by whole-region mapping is mapped as a whole. */
  lemma {:induction false} TouchedIsMapped(r0: nat, q0: nat, n: nat, k: nat, attr: nat, r: nat, i: nat)
    requires r < COUNT && i < COUNT && k <= COUNT && r in Regions(COUNT * r0, COUNT * n + k)
    ensures MappedHuge(r0, q0, n, attr, COUNT * r + i).Some? || (k > 0 && r == (r0 + n) % COUNT)
    decreases n, k
  {
    assert (COUNT * r + i) / COUNT == r;
    if k > 0 {
      PageOfRegion(r0 + n, k - 1);
      assert COUNT * r0 + (COUNT * n + k) - 1 == COUNT * (r0 + n) + (k - 1);
      assert (COUNT * ((r0 + n) % COUNT) + (k - 1)) / COUNT == (r0 + n) % COUNT;
      if r in Regions(COUNT * r0, COUNT * n + (k - 1)) {
        TouchedIsMapped(r0, q0, n, k - 1, attr, r, i);
      }
    } else if n > 0 {
      assert COUNT * (n - 1) + COUNT == COUNT * n;
      TouchedIsMapped(r0, q0, n - 1, COUNT, attr, r, i);
    }
  }

  /** Mapping n regions with 4 MB entries and mapping 1024 * n pages translate every page alike. */
  lemma HugeEqualsPages(was: Entry, bare: bool, r0: nat, q0: nat, n: nat, attr: nat, r: nat, i: nat)
    requires r < COUNT && i < COUNT
    ensures ExpectedHuge(was, r0, q0, n, attr, r, i) ==
      Expected(was, bare, COUNT * r0, COUNT * q0, COUNT * n, attr, r, i)
  {
    HugeIsPages(r0, q0, n, attr, COUNT * r + i);
    if r in Regions(COUNT * r0, COUNT * n) {
      TouchedIsMapped(r0, q0, n, 0, attr, r, i);
    }
  }

  /** So after either call, from the same state, every page of every domain translates alike. */
  lemma SameTranslations(m: seq<Word>, l: Layout, n: seq<Word>, k: Layout, z: seq<Word>, y: Layout,
                         d: nat, r0: nat, q0: nat, regions: nat, attr: nat)
    requires AfterMap(m, l, n, k, d, COUNT * r0, COUNT * q0, COUNT * regions, attr)
    requires AfterHuge(m, l, z, y, d, r0, q0, regions, attr)
    ensures forall e, r, i :: e in l.dirs && 0 <= r < COUNT && 0 <= i < COUNT ==> Walk(n, e, r, i) == Walk(z, e, r, i)
  {
    forall e, r, i | e in l.dirs && 0 <= r < COUNT && 0 <= i < COUNT
      ensures Walk(n, e, r, i) == Walk(z, e, r, i)
    {
      if e == d {
        HugeEqualsPages(Walk(m, d, r, i), (d, r) !in l.tables, r0, q0, regions, attr, r, i);
      } else {
        assert SameWalks(m, n, e, -1) && SameWalks(m, z, e, -1);
      }
    }
  }

  // ---------------------------------------------------------------- what a caller gets

  /** Page v of domain d leads to frame p0 + (v - v0) with just these attributes. */
  ghost predicate Gives(m: seq<Word>, d: nat, v0: nat, p0: nat, attr: nat, v: nat)
    requires |m| == WORDS && d < PAGES && v0 <= v < PAGES
  {
    var e := Walk(m, d, v / 0x400, v % 0x400);
    e.frame == (p0 + (v - v0)) % 0x40_0000 && Flags(e.perm) == attr % 8
  }

  /** All pages of a mapping do, if it does not wrap. */
  ghost predicate GivesAll(m: seq<Word>, d: nat, v0: nat, p0: nat, count: nat, attr: nat)
    requires |m| == WORDS && d < PAGES
  {
    v0 + count <= PAGES ==> forall v :: v0 <= v < v0 + count ==> Gives(m, d, v0, p0, attr, v)
  }

  lemma PageGives(was: Entry, bare: bool, v0: nat, p0: nat, count: nat, attr: nat, r: nat, i: nat)
    requires v0 + count <= PAGES && v0 <= COUNT * r + i < v0 + count
    ensures var e := Expected(was, bare, v0, p0, count, attr, r, i);
      e.frame == (p0 + (COUNT * r + i - v0)) % FRAMES && Flags(e.perm) == attr % 8
  {
    MappedPlain(v0, p0, count, attr, COUNT * r + i);
    StoredFlags(attr);
  }

  lemma SplitPage(v: nat)
    requires v < PAGES
    ensures v / COUNT < COUNT && v % COUNT < COUNT && COUNT * (v / COUNT) + v % COUNT == v
  {
  }

  lemma PageExpected(m: seq<Word>, l: Layout, n: seq<Word>, k: Layout,
                     d: nat, v0: nat, p0: nat, count: nat, attr: nat, r: nat, i: nat)
    requires AfterMap(m, l, n, k, d, v0, p0, count, attr) && r < COUNT && i < COUNT
    ensures Walk(n, d, r, i) == Expected(Walk(m, d, r, i), (d, r) !in l.tables, v0, p0, count, attr, r, i)
  {
  }

  lemma HugeExpected(m: seq<Word>, l: Layout, n: seq<Word>, k: Layout,
                     d: nat, r0: nat, q0: nat, regions: nat, attr: nat, r: nat, i: nat)
    requires AfterHuge(m, l, n, k, d, r0, q0, regions, attr) && r < COUNT && i < COUNT
    ensures Walk(n, d, r, i) == Expected(Walk(m, d, r, i), true, COUNT * r0, COUNT * q0, COUNT * regions, attr, r, i)
  {
    HugeEqualsPages(Walk(m, d, r, i), true, r0, q0, regions, attr, r, i);
  }

  lemma GivesIf(n: seq<Word>, d: nat, v0: nat, p0: nat, count: nat, attr: nat, v: nat, was: Entry, bare: bool)
    requires |n| == WORDS && d < PAGES && v0 <= v < v0 + count <= PAGES
    requires Walk(n, d, v / COUNT, v % COUNT) == Expected(was, bare, v0, p0, count, attr, v / COUNT, v % COUNT)
    ensures Gives(n, d, v0, p0, attr, v)
  {
    SplitPage(v);
    PageGives(was, bare, v0, p0, count, attr, v / COUNT, v % COUNT);
  }

  lemma MapGivesAt(m: seq<Word>, l: Layout, n: seq<Word>, k: Layout,
                   d: nat, v0: nat, p0: nat, count: nat, attr: nat, r: nat, i: nat, v: nat)
    requires AfterMap(m, l, n, k, d, v0, p0, count, attr) && v0 <= v < v0 + count <= PAGES
    requires r < COUNT && i < COUNT && r == v / COUNT && i == v % COUNT
    ensures Gives(n, d, v0, p0, attr, v)
  {
    PageExpected(m, l, n, k, d, v0, p0, count, attr, r, i);
    GivesIf(n, d, v0, p0, count, attr, v, Walk(m, d, r, i), (d, r) !in l.tables);
  }

  lemma HugeGivesAt(m: seq<Word>, l: Layout, n: seq<Word>, k: Layout,
                    d: nat, r0: nat, q0: nat, regions: nat, attr: nat, r: nat, i: nat, v: nat)
    requires AfterHuge(m, l, n, k, d, r0, q0, regions, attr)
    requires COUNT * r0 <= v < COUNT * r0 + COUNT * regions <= PAGES
    requires r < COUNT && i < COUNT && r == v / COUNT && i == v % COUNT
    ensures Gives(n, d, COUNT * r0, COUNT * q0, attr, v)
  {
    HugeExpected(m, l, n, k, d, r0, q0, regions, attr, r, i);
    GivesIf(n, d, COUNT * r0, COUNT * q0, COUNT * regions, attr, v, Walk(m, d, r, i), true);
  }

  /** Every page gets its frame and the attributes asked for. */
  lemma MapGives(m: seq<Word>, l: Layout, n: seq<Word>, k: Layout,
                 d: nat, v0: nat, p0: nat, count: nat, attr: nat)
    requires AfterMap(m, l, n, k, d, v0, p0, count, attr)
    ensures |n| == WORDS && d < PAGES && GivesAll(n, d, v0, p0, count, attr)
  {
    forall v | v0 <= v < v0 + count <= PAGES
      ensures Gives(n, d, v0, p0, attr, v)
    {
      SplitPage(v);
      MapGivesAt(m, l, n, k, d, v0, p0, count, attr, v / COUNT, v % COUNT, v);
    }
  }

  /** The same for 4 MB mappings, seen as mappings of their pages. */
  lemma HugeGives(m: seq<Word>, l: Layout, n: seq<Word>, k: Layout,
                  d: nat, r0: nat, q0: nat, regions: nat, attr: nat)
    requires AfterHuge(m, l, n, k, d, r0, q0, regions, attr)
    ensures |n| == WORDS && d < PAGES && GivesAll(n, d, 0x400 * r0, 0x400 * q0, 0x400 * regions, attr)
  {
    forall v | 0x400 * r0 <= v < 0x400 * r0 + 0x400 * regions <= PAGES
      ensures Gives(n, d, 0x400 * r0, 0x400 * q0, attr, v)
    {
      SplitPage(v);
      HugeGivesAt(m, l, n, k, d, r0, q0, regions, attr, v / COUNT, v % COUNT, v);
    }
  }

  // ---------------------------------------------------------------- whole domains

  /** Regions of domain d without a table still map every page to itself, without
      permissions: so smmu_init_domain leaves them. */
  ghost predicate Pristine(m: seq<Word>, l: Layout, d: nat)
    requires |m| == WORDS && d < PAGES
  {
    forall r, i :: 0 <= r < COUNT && 0 <= i < COUNT && (d, r) !in l.tables ==>
      Walk(m, d, r, i) == Entry(COUNT * r + i, NONE)
  }

  /** smmu_map is an assignment to the flat map: the pages asked for get their frame and
      permissions, and every other page of every domain translates as before, the
      neighbours in a region whose table was only just created included. */
  lemma MapIsFlat(m: seq<Word>, l: Layout, n: seq<Word>, k: Layout,
                  d: nat, v0: nat, p0: nat, count: nat, attr: nat)
    requires AfterMap(m, l, n, k, d, v0, p0, count, attr) && Pristine(m, l, d)
    ensures Pristine(n, k, d)
    ensures forall r, i :: 0 <= r < COUNT && 0 <= i < COUNT ==>
      Walk(n, d, r, i) ==
      match Mapped(v0, p0, count, attr, COUNT * r + i) case Some(e) => e case None => Walk(m, d, r, i)
    ensures forall e :: e in l.dirs && e != d ==> SameWalks(m, n, e, -1)
    ensures forall e :: e in l.dirs && e != d && Pristine(m, l, e) ==> Pristine(n, k, e)
  {
    forall r, i | 0 <= r < COUNT && 0 <= i < COUNT && (d, r) !in k.tables
      ensures Walk(n, d, r, i) == Entry(COUNT * r + i, NONE)
    {
      if Mapped(v0, p0, count, attr, COUNT * r + i).Some? {
        MappedTouches(v0, p0, count, attr, r, i);
      }
      assert (d, r) !in l.tables;
    }
    forall e, r, i |
      e in l.dirs && e != d && Pristine(m, l, e) && 0 <= r < COUNT && 0 <= i < COUNT && (e, r) !in k.tables
      ensures Walk(n, e, r, i) == Entry(COUNT * r + i, NONE)
    {
      assert SameWalks(m, n, e, -1) && (e, r) !in l.tables;
    }
  }

  /** The regions of domain d that have a table. */
  ghost function TablesOf(l: Layout, d: nat): set<nat> {
    set k | k in l.tables && k.0 == d :: k.1
  }

  /** A mapping call takes one page for each touched region that had no table, and no other. */
  lemma MapUses(m: seq<Word>, l: Layout, n: seq<Word>, k: Layout,
                d: nat, v0: nat, p0: nat, count: nat, attr: nat)
    requires AfterMap(m, l, n, k, d, v0, p0, count, attr)
    ensures k.top == l.top + |Missing(l, d, Regions(v0, count))|
  {
    var added := Missing(l, d, Regions(v0, count));
    forall x | true
      ensures x in k.tables.Keys <==> x in l.tables.Keys || (x.0 == d && x.1 in added)
    {
      assert x == (x.0, x.1);
    }
    KeysGrow(k.tables.Keys, l.tables.Keys, d, added);
    assert |k.tables| == |k.tables.Keys| && |l.tables| == |l.tables.Keys|;
  }

  /** The tables of a domain are those of the regions its calls have touched, at most 1024. */
  lemma MapTables(m: seq<Word>, l: Layout, n: seq<Word>, k: Layout,
                  d: nat, v0: nat, p0: nat, count: nat, attr: nat)
    requires AfterMap(m, l, n, k, d, v0, p0, count, attr)
    ensures TablesOf(k, d) == TablesOf(l, d) + Regions(v0, count) && |TablesOf(k, d)| <= COUNT
    ensures forall e :: e != d ==> TablesOf(k, e) == TablesOf(l, e)
  {
    forall e, r
      ensures r in TablesOf(k, e) <==> r in TablesOf(l, e) || (e == d && r in Regions(v0, count))
    {
      HasTable(k, e, r);
      HasTable(l, e, r);
    }
    forall r | r in TablesOf(k, d)
      ensures r < COUNT
    {
      HasTable(k, d, r);
    }
    SubsetSize(TablesOf(k, d), COUNT);
  }

  lemma HasTable(l: Layout, d: nat, r: nat)
    ensures r in TablesOf(l, d) <==> (d, r) in l.tables
  {
    assert (d, r).0 == d && (d, r).1 == r;
    if r in TablesOf(l, d) {
      var k :| k in l.tables && k.0 == d && k.1 == r;
      assert k == (d, r);
    }
  }

  lemma {:induction false} KeysGrow(big: set<(nat, nat)>, small: set<(nat, nat)>, d: nat, added: set<nat>)
    requires forall x :: x in big <==> x in small || (x.0 == d && x.1 in added)
    requires forall r :: r in added ==> (d, r) !in small
    ensures |big| == |small| + |added|
    decreases |added|
  {
    if added == {} {
      assert big == small;
    } else {
      var r :| r in added;
      forall x | true
        ensures x in big - {(d, r)} <==> x in small || (x.0 == d && x.1 in added - {r})
      {
        assert x == (x.0, x.1);
      }
      KeysGrow(big - {(d, r)}, small, d, added - {r});
      assert big == (big - {(d, r)}) + {(d, r)};
    }
  }
}
