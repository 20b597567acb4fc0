/** Two-level SMMU page tables as they lie in memory, and the translation that the
    hardware reads out of them (amssu-rcm/bdk/mem/smmu.c, amssu-rcm/bdk/mem/smmu.h). */
module SmmuTables {
  const COUNT: nat := 0x400           // entries of a directory or a table
  const PAGES: nat := 0x10_0000       // 4 KB pages of a 32-bit address space
  const FRAMES: nat := 0x40_0000      // values of a 22-bit page number
  const WORDS: nat := 0x4000_0000     // 32-bit words of memory

  type bits10 = x: nat | x < 0x400
  type bits12 = x: nat | x < 0x1000
  type bits6 = x: nat | x < 0x40
  type bits1 = x: nat | x < 2

  /** The 3-bit attr field: SMMU_NS, SMMU_WRITE, SMMU_READ. */
  datatype Perm = Perm(ns: bool, write: bool, read: bool) {
    function Both(p: Perm): Perm { Perm(ns && p.ns, write && p.write, read && p.read) }
  }

  const ALL := Perm(true, true, true)
  const NONE := Perm(false, false, false)

  /** The value a 3-bit field takes when `attr` is stored in it. */
  function PermOf(attr: nat): Perm {
    Perm(attr % 2 == 1, attr / 2 % 2 == 1, attr / 4 % 2 == 1)
  }

  const SMMU_NS: nat := 1
  const SMMU_WRITE: nat := 2
  const SMMU_READ: nat := 4

  /** The attribute number that stands for these permissions. */
  function Flags(p: Perm): nat {
    (if p.ns then SMMU_NS else 0) + (if p.write then SMMU_WRITE else 0) + (if p.read then SMMU_READ else 0)
  }

  /** An attribute number keeps its meaning when it is stored: the lower three bits. */
  lemma StoredFlags(attr: nat)
    ensures Flags(PermOf(attr)) == attr % 8
  {
    var rest, n := attr / 8, attr % 8;
    LowBits(rest, n, attr);
  }

  lemma LowBits(rest: nat, n: nat, attr: nat)
    requires attr == 8 * rest + n && n < 8
    ensures attr % 2 == n % 2 && attr / 2 % 2 == n / 2 % 2 && attr / 4 % 2 == n / 4
  {
    assert attr == 2 * (4 * rest) + n;
    assert attr / 2 == 2 * (2 * rest) + n / 2;
    assert attr / 4 == 2 * rest + n / 4;
  }

  /** The permissions of a new table or directory, and those of an entry that names a table. */
  lemma NoneAndAll()
    ensures Flags(NONE) == 0 && Flags(ALL) == 7
  {
  }

  /** A 32-bit word cut where the fields of the overlaid entry types begin and end.
      tbl.table and pte.page are bits 0-21, huge.page is bits 10-21. */
  datatype Word = Word(low: bits10, mid: bits12, rsvd: bits6, next: bits1, attr: Perm) {
    function Frame(): nat { mid * COUNT + low }
    function WithFrame(v: nat): Word { this.(low := v % 0x400, mid := v / 0x400 % 0x1000) }
    function WithHuge(v: nat): Word { this.(mid := v % 0x1000) }
  }

  const ZERO := Word(0, 0, 0, 0, NONE)

  lemma FrameLaw(w: Word, v: nat)
    ensures w.WithFrame(v).Frame() == v % FRAMES
  {
    assert v % FRAMES == v / 0x400 % 0x1000 * 0x400 + v % 0x400;
  }

  /** The word as a number. */
  function Value(w: Word): nat {
    w.low + 0x400 * w.mid + 0x40_0000 * w.rsvd + 0x1000_0000 * w.next + 0x2000_0000 * Flags(w.attr)
  }

  /** The fields lie where the header has them: table and page in bits 0 to 21, the page of a
      4 MB entry in bits 10 to 21, next in bit 28, the attributes in bits 29 to 31. */
  lemma FieldLaw(w: Word)
    ensures Value(w) < 0x1_0000_0000
    ensures Value(w) % 0x40_0000 == w.Frame() && Value(w) / 0x400 % 0x1000 == w.mid
    ensures Value(w) / 0x1000_0000 % 2 == w.next && Value(w) / 0x2000_0000 == Flags(w.attr)
  {
    var f := Flags(w.attr);
    assert Value(w) / 0x2000_0000 == f;
    assert Value(w) / 0x1000_0000 == w.next + 2 * f;
    assert Value(w) / 0x400 == w.mid + 0x1000 * (w.rsvd + 0x40 * w.next + 0x80 * f);
  }

  /** Word i of page p. */
  function At(m: seq<Word>, p: nat, i: nat): Word
    requires |m| == WORDS && p < PAGES && i < COUNT
  {
    m[COUNT * p + i]
  }

  function Put(m: seq<Word>, p: nat, i: nat, w: Word): (n: seq<Word>)
    requires |m| == WORDS && p < PAGES && i < COUNT
    ensures |n| == WORDS && At(n, p, i) == w
    ensures forall q, j {:trigger At(n, q, j)} ::
      0 <= q < PAGES && 0 <= j < COUNT && (q != p || j != i) ==> At(n, q, j) == At(m, q, j)
  {
    m[COUNT * p + i := w]
  }

  /** What a translation yields: a page frame and the permissions on it. */
  datatype Entry = Entry(frame: nat, perm: Perm)

  /** The table walk of the hardware, in the directory at page d, for page i of 4 MB region r. */
  function Walk(m: seq<Word>, d: nat, r: nat, i: nat): Entry
    requires |m| == WORDS && d < PAGES && r < COUNT && i < COUNT
  {
    var pde := At(m, d, r);
    if pde.next == 0 then Entry(pde.mid * COUNT + i, pde.attr)
    else if pde.Frame() < PAGES then
      var pte := At(m, pde.Frame(), i);
      Entry(pte.Frame(), pde.attr.Both(pte.attr))
    else Entry(0, NONE)
  }

  // ---------------------------------------------------------------- who owns which page

  /** The pages handed out between `base` and `top`: directories, the table behind
      directory entry (d, r), and everything else. */
  datatype Layout = Layout(base: nat, top: nat, dirs: set<nat>, tables: map<(nat, nat), nat>, other: set<nat>)

  ghost predicate Owned(l: Layout) {
    && l.base <= l.top <= PAGES
    && (forall d :: d in l.dirs ==> l.base <= d < l.top)
    && (forall p :: p in l.other ==> l.base <= p < l.top && p !in l.dirs)
    && (forall k :: k in l.tables ==> k.0 in l.dirs && k.1 < COUNT)
    && (forall k :: k in l.tables ==>
          l.base <= l.tables[k] < l.top && l.tables[k] !in l.dirs && l.tables[k] !in l.other)
    && (forall j, k :: j in l.tables && k in l.tables && j != k ==> l.tables[j] != l.tables[k])
    && l.top - l.base == |l.dirs| + |l.tables| + |l.other|
  }

  ghost predicate PdeOk(m: seq<Word>, l: Layout, d: nat, r: nat)
    requires |m| == WORDS && d < PAGES && r < COUNT
  {
    var pde := At(m, d, r);
    if (d, r) in l.tables then pde.next == 1 && pde.attr == ALL && pde.Frame() == l.tables[(d, r)]
    else pde.next == 0
  }

  /** Memory agrees with the layout. */
  ghost predicate Maps(m: seq<Word>, l: Layout) {
    |m| == WORDS && Owned(l) && forall d, r :: d in l.dirs && 0 <= r < COUNT ==> PdeOk(m, l, d, r)
  }

  /** All translations of domain d agree in m and n, outside region `but`. */
  ghost predicate SameWalks(m: seq<Word>, n: seq<Word>, d: nat, but: int)
    requires |m| == |n| == WORDS && d < PAGES
  {
    forall r, i :: 0 <= r < COUNT && 0 <= i < COUNT && r != but ==> Walk(n, d, r, i) == Walk(m, d, r, i)
  }

  /** ... and so do those of every other domain. */
  ghost predicate OthersSame(m: seq<Word>, n: seq<Word>, l: Layout, d: nat)
    requires |m| == |n| == WORDS && Owned(l)
  {
    forall e :: e in l.dirs && e != d ==> SameWalks(m, n, e, -1)
  }

  // ---------------------------------------------------------------- effect of single writes

  /** Writing entry i of the table behind (d, r) changes one page of one domain. */
  lemma PteWrite(m: seq<Word>, l: Layout, d: nat, r: nat, i: nat, w: Word)
    requires Maps(m, l) && (d, r) in l.tables && i < COUNT
    ensures var n := Put(m, l.tables[(d, r)], i, w);
      && Maps(n, l) && OthersSame(m, n, l, d) && SameWalks(m, n, d, r)
      && (forall j :: 0 <= j < COUNT ==>
            Walk(n, d, r, j) == if j == i then Entry(w.Frame(), w.attr) else Walk(m, d, r, j))
  {
    var t := l.tables[(d, r)];
    var n := Put(m, t, i, w);
    forall e, q | e in l.dirs && 0 <= q < COUNT
      ensures PdeOk(n, l, e, q)
    {
      assert PdeOk(m, l, e, q);
    }
    forall e, q, j | e in l.dirs && 0 <= q < COUNT && 0 <= j < COUNT
      ensures Walk(n, e, q, j) ==
        if e == d && q == r && j == i then Entry(w.Frame(), w.attr) else Walk(m, e, q, j)
    {
      assert PdeOk(m, l, e, q);
    }
  }

  /** Page t is a table of region r that maps every page to itself without permissions. */
  ghost predicate Identity(m: seq<Word>, t: nat, r: nat)
    requires |m| == WORDS && t < PAGES
  {
    forall i :: 0 <= i < COUNT ==> At(m, t, i).Frame() == COUNT * r + i && At(m, t, i).attr == NONE
  }

  function Hung(l: Layout, d: nat, r: nat): Layout {
    l.(top := l.top + 1, tables := l.tables[(d, r) := l.top])
  }

  lemma HungOwned(l: Layout, d: nat, r: nat)
    requires Owned(l) && l.top < PAGES && d in l.dirs && r < COUNT && (d, r) !in l.tables
    ensures Owned(Hung(l, d, r))
  {
    assert |Hung(l, d, r).tables| == |l.tables| + 1;
  }

  /** Hanging a permission-less identity table into an entry without a table. */
  lemma HangTable(m: seq<Word>, l: Layout, d: nat, r: nat, w: Word)
    requires Maps(m, l) && l.top < PAGES && d in l.dirs && r < COUNT && (d, r) !in l.tables
    requires Identity(m, l.top, r) && w.Frame() == l.top && w.next == 1 && w.attr == ALL
    ensures var n := Put(m, d, r, w);
      && Maps(n, Hung(l, d, r)) && OthersSame(m, n, l, d) && SameWalks(m, n, d, r)
      && (forall i :: 0 <= i < COUNT ==> Walk(n, d, r, i) == Entry(COUNT * r + i, NONE))
  {
    var n := Put(m, d, r, w);
    var k := Hung(l, d, r);
    HungOwned(l, d, r);
    forall e, q | e in k.dirs && 0 <= q < COUNT
      ensures PdeOk(n, k, e, q)
    {
      assert PdeOk(m, l, e, q);
    }
    forall e, q, i | e in l.dirs && 0 <= q < COUNT && 0 <= i < COUNT && (e != d || q != r)
      ensures Walk(n, e, q, i) == Walk(m, e, q, i)
    {
      assert PdeOk(m, l, e, q);
    }
    forall i | 0 <= i < COUNT
      ensures Walk(n, d, r, i) == Entry(COUNT * r + i, NONE)
    {
      assert At(n, l.top, i) == At(m, l.top, i);
    }
  }

  function Unhung(l: Layout, d: nat, r: nat): Layout {
    if (d, r) in l.tables
    then l.(tables := l.tables - {(d, r)}, other := l.other + {l.tables[(d, r)]})
    else l
  }

  lemma UnhungOwned(l: Layout, d: nat, r: nat)
    requires Owned(l)
    ensures var k := Unhung(l, d, r);
      && Owned(k) && k.dirs == l.dirs && k.top == l.top
      && (forall e, q :: (e, q) in k.tables <==> (e, q) in l.tables && (e, q) != (d, r))
      && (forall e, q :: (e, q) in k.tables ==> k.tables[(e, q)] == l.tables[(e, q)])
  {
    if (d, r) in l.tables {
      var k := Unhung(l, d, r);
      assert k.tables.Keys == l.tables.Keys - {(d, r)};
      assert |k.tables| == |k.tables.Keys| == |l.tables.Keys| - 1;
      assert l.tables[(d, r)] !in l.other;
    }
  }

  /** A 4 MB entry replaces whatever the directory entry held; a table there is lost. */
  lemma HugeWrite(m: seq<Word>, l: Layout, d: nat, r: nat, w: Word)
    requires Maps(m, l) && d in l.dirs && r < COUNT && w.next == 0
    ensures var n := Put(m, d, r, w);
      && Maps(n, Unhung(l, d, r)) && OthersSame(m, n, l, d) && SameWalks(m, n, d, r)
      && (forall i :: 0 <= i < COUNT ==> Walk(n, d, r, i) == Entry(w.mid * COUNT + i, w.attr))
  {
    var n := Put(m, d, r, w);
    UnhungOwned(l, d, r);
    HugeMaps(m, l, Unhung(l, d, r), d, r, w);
    forall e, q, i | e in l.dirs && 0 <= q < COUNT && 0 <= i < COUNT && (e != d || q != r)
      ensures Walk(n, e, q, i) == Walk(m, e, q, i)
    {
      HugeElsewhere(m, l, d, r, w, e, q, i);
    }
  }

  lemma HugeElsewhere(m: seq<Word>, l: Layout, d: nat, r: nat, w: Word, e: nat, q: nat, i: nat)
    requires Maps(m, l) && d in l.dirs && r < COUNT && e in l.dirs && q < COUNT && i < COUNT && (e != d || q != r)
    ensures Walk(Put(m, d, r, w), e, q, i) == Walk(m, e, q, i)
  {
    assert PdeOk(m, l, e, q);
  }

  lemma HugeMaps(m: seq<Word>, l: Layout, k: Layout, d: nat, r: nat, w: Word)
    requires Maps(m, l) && Owned(k) && k.dirs == l.dirs && d in l.dirs && r < COUNT && w.next == 0
    requires forall e, q :: (e, q) in k.tables <==> (e, q) in l.tables && (e, q) != (d, r)
    requires forall e, q :: (e, q) in k.tables ==> k.tables[(e, q)] == l.tables[(e, q)]
    ensures Maps(Put(m, d, r, w), k)
  {
    forall e, q | e in k.dirs && 0 <= q < COUNT
      ensures PdeOk(Put(m, d, r, w), k, e, q)
    {
      assert PdeOk(m, l, e, q);
    }
  }

  function WithDir(l: Layout): Layout {
    l.(top := l.top + 1, dirs := l.dirs + {l.top})
  }

  /** A directory whose entries grant nothing becomes a domain of its own. */
  lemma NewDirectory(m: seq<Word>, n: seq<Word>, l: Layout)
    requires Maps(m, l) && |n| == WORDS && l.top < PAGES
    requires forall p, i {:trigger At(n, p, i)} :: 0 <= p < l.top && 0 <= i < COUNT ==> At(n, p, i) == At(m, p, i)
    requires forall r :: 0 <= r < COUNT ==> At(n, l.top, r) == Word(0, r, 0, 0, NONE)
    ensures Maps(n, WithDir(l)) && OthersSame(m, n, l, l.top)
    ensures forall r, i :: 0 <= r < COUNT && 0 <= i < COUNT ==> Walk(n, l.top, r, i) == Entry(COUNT * r + i, NONE)
  {
    var k := WithDir(l);
    assert l.top !in l.dirs;
    Untouched(m, n, l);
    forall e, q | e in k.dirs && 0 <= q < COUNT
      ensures PdeOk(n, k, e, q)
    {
      if e != l.top {
        assert PdeOk(n, l, e, q);
      }
    }
  }

  /** The pages from `page` to `page + num - 1`. */
  function Span(page: nat, num: nat): (s: set<nat>)
    ensures forall p :: p in s <==> page <= p < page + num
    ensures |s| == num
  {
    if num == 0 then {} else Span(page, num - 1) + {page + num - 1}
  }

  /** Writes to pages from the top on change no translation. */
  lemma Untouched(m: seq<Word>, n: seq<Word>, l: Layout)
    requires Maps(m, l) && |n| == WORDS
    requires forall p, i {:trigger At(n, p, i)} :: 0 <= p < l.top && 0 <= i < COUNT ==> At(n, p, i) == At(m, p, i)
    ensures Maps(n, l)
    ensures forall d :: d in l.dirs ==> SameWalks(m, n, d, -1)
  {
    forall d, r | d in l.dirs && 0 <= r < COUNT
      ensures PdeOk(n, l, d, r)
    {
      assert PdeOk(m, l, d, r);
    }
    forall d, r, i | d in l.dirs && 0 <= r < COUNT && 0 <= i < COUNT
      ensures Walk(n, d, r, i) == Walk(m, d, r, i)
    {
      assert PdeOk(m, l, d, r);
    }
  }

  /** Pages handed out to other code belong to nobody's tables. */
  lemma GivenMaps(m: seq<Word>, l: Layout, num: nat)
    requires Maps(m, l) && l.top + num <= PAGES
    ensures Maps(m, Given(l, num))
  {
    GivenOwned(l, num);
    forall d, r | d in l.dirs && 0 <= r < COUNT
      ensures PdeOk(m, Given(l, num), d, r)
    {
      assert PdeOk(m, l, d, r);
    }
  }

  lemma GivenOwned(l: Layout, num: nat)
    requires Owned(l) && l.top + num <= PAGES
    ensures Owned(Given(l, num))
  {
    assert l.other !! Span(l.top, num);
  }

  function Given(l: Layout, num: nat): Layout {
    l.(top := l.top + num, other := l.other + Span(l.top, num))
  }
}
