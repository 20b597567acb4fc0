/** The SMMU driver: page tables written in place in physical memory, with a bump
    allocator for table pages (amssu-rcm/bdk/mem/smmu.c). Pages are named by number;
    the pointers of the program are these numbers times 4096. */
module Smmu {
  import opened SmmuTables
  import opened SmmuFlat

  const HEAP_PAGE: nat := 0x9_2000      // SMMU_HEAP_ADDR / SZ_PAGE
  const ADDRESSES: nat := 0x1_0000_0000 // 32-bit device addresses
  const WIDE: nat := 0x1_0000_0000_0000_0000

  class Smmu {
    const mem: array<Word>
    var heap: nat             // smmu_heap
    ghost var layout: Layout

    ghost predicate Valid()
      reads this, mem
    {
      mem.Length == WORDS && heap == layout.top && Maps(mem[..], layout)
    }

    constructor (memory: array<Word>)
      requires memory.Length == WORDS
      ensures Valid() && mem == memory
      ensures layout == Layout(HEAP_PAGE, HEAP_PAGE, {}, map[], {})
    {
      mem := memory;
      heap := HEAP_PAGE;
      layout := Layout(HEAP_PAGE, HEAP_PAGE, {}, map[], {});
    }

    /** The clearing and bumping part of smmu_page_zalloc. */
    method Bump(num: nat) returns (page: nat)
      requires mem.Length == WORDS && heap + num <= PAGES
      modifies mem, `heap
      ensures page == old(heap) && heap == page + num
      ensures forall a :: COUNT * page <= a < COUNT * (page + num) ==> mem[a] == ZERO
      ensures forall a :: 0 <= a < WORDS && !(COUNT * page <= a < COUNT * (page + num)) ==> mem[a] == old(mem[a])
    {
      page := heap;
      for a := COUNT * page to COUNT * (page + num)
        modifies mem
        invariant forall x :: COUNT * page <= x < a ==> mem[x] == ZERO
        invariant forall x :: 0 <= x < WORDS && !(COUNT * page <= x < a) ==> mem[x] == old(mem[x])
      {
        mem[a] := ZERO;
      }
      heap := heap + num;
    }

    /** smmu_page_zalloc for a caller outside this file: the pages are nobody's tables. */
    method PageZalloc(num: nat) returns (page: nat)
      requires Valid() && heap + num <= PAGES
      modifies this, mem
      ensures Valid() && page == old(heap)
      ensures layout == Given(old(layout), num)
      ensures forall p, i :: page <= p < page + num && 0 <= i < COUNT ==> At(mem[..], p, i) == ZERO
      ensures forall d :: d in layout.dirs ==> SameWalks(old(mem[..]), mem[..], d, -1)
    {
      page := Bump(num);
      Untouched(old(mem[..]), mem[..], layout);
      GivenMaps(mem[..], layout, num);
      layout := Given(layout, num);
    }

    /** _smmu_pdir_alloc: every entry names its own 4 MB region, without permissions. */
    method PdirAlloc() returns (dir: nat)
      requires mem.Length == WORDS && heap < PAGES
      modifies mem, `heap
      ensures dir == old(heap) && heap == dir + 1
      ensures forall r :: 0 <= r < COUNT ==> At(mem[..], dir, r) == Word(0, r, 0, 0, NONE)
      ensures forall a :: 0 <= a < COUNT * dir ==> mem[a] == old(mem[a])
    {
      dir := Bump(1);
      for r := 0 to COUNT
        modifies mem
        invariant forall a :: 0 <= a < r ==> At(mem[..], dir, a) == Word(0, a, 0, 0, NONE)
        invariant forall a :: COUNT * dir + r <= a < COUNT * dir + COUNT ==> mem[a] == ZERO
        invariant forall a :: 0 <= a < COUNT * dir ==> mem[a] == old(mem[a])
      {
        mem[COUNT * dir + r] := mem[COUNT * dir + r].WithHuge(r);
      }
    }

    /** smmu_init_domain: a directory in which no entry grants anything. */
    method InitDomain() returns (dir: nat)
      requires Valid() && heap < PAGES
      modifies this, mem
      ensures Valid() && dir == old(heap)
      ensures layout == WithDir(old(layout))
      ensures forall r, i :: 0 <= r < COUNT && 0 <= i < COUNT ==> Walk(mem[..], dir, r, i) == Entry(COUNT * r + i, NONE)
      ensures OthersSame(old(mem[..]), mem[..], old(layout), dir)
    {
      dir := PdirAlloc();
      NewDirectory(old(mem[..]), mem[..], layout);
      layout := WithDir(layout);
    }

    /** The table page that _smmu_get_pte creates: every page to itself, without permissions. */
    method PtblAlloc(pdn: nat) returns (table: nat)
      requires mem.Length == WORDS && heap < PAGES && pdn < COUNT
      modifies mem, `heap
      ensures table == old(heap) && heap == table + 1
      ensures Identity(mem[..], table, pdn)
      ensures forall a :: 0 <= a < COUNT * table ==> mem[a] == old(mem[a])
    {
      table := Bump(1);
      for pn := 0 to COUNT
        modifies mem
        invariant forall i :: 0 <= i < pn ==> At(mem[..], table, i) == ZERO.WithFrame(COUNT * pdn + i)
        invariant forall a :: COUNT * table + pn <= a < COUNT * table + COUNT ==> mem[a] == ZERO
        invariant forall a :: 0 <= a < COUNT * table ==> mem[a] == old(mem[a])
      {
        ghost var m := mem[..];
        assert mem[COUNT * table + pn] == ZERO;
        mem[COUNT * table + pn] := mem[COUNT * table + pn].WithFrame(COUNT * pdn + pn);
        assert mem[..] == Put(m, table, pn, ZERO.WithFrame(COUNT * pdn + pn));
      }
      forall i | 0 <= i < COUNT
        ensures At(mem[..], table, i).Frame() == COUNT * pdn + i && At(mem[..], table, i).attr == NONE
      {
        FrameLaw(ZERO, COUNT * pdn + i);
      }
    }

    /** The directory entry points to a table and grants everything. */
    method SetTable(dir: nat, pdn: nat, table: nat) returns (ghost w: Word)
      requires mem.Length == WORDS && dir < PAGES && pdn < COUNT && table < PAGES
      modifies mem
      ensures mem[..] == Put(old(mem[..]), dir, pdn, w)
      ensures w.Frame() == table && w.next == 1 && w.attr == ALL
    {
      var a := COUNT * dir + pdn;
      FrameLaw(mem[a], table);
      mem[a] := mem[a].WithFrame(table);
      mem[a] := mem[a].(next := 1);
      mem[a] := mem[a].(attr := ALL);
      w := mem[a];
    }

    /** _smmu_get_pte: where the entry of address iova, in region pdn, lies. */
    method GetPte(dir: nat, iova: nat, ghost pdn: nat) returns (table: nat, index: nat)
      requires Valid() && dir in layout.dirs && iova < ADDRESSES && pdn == iova / 0x40_0000
      requires Tabled(mem[..], layout, dir, pdn)
      requires (dir, pdn) in layout.tables || heap < PAGES
      modifies this, mem
      ensures Valid() && index == iova / 0x1000 % COUNT
      ensures GotTable(old(mem[..]), old(layout), mem[..], layout, dir, pdn)
      ensures table == layout.tables[(dir, pdn)]
      ensures forall r :: 0 <= r < COUNT && r != pdn ==> At(mem[..], dir, r) == At(old(mem[..]), dir, r)
    {
      var r := iova / 0x40_0000;
      ghost var m := mem[..];
      assert PdeOk(m, layout, dir, pdn);
      if mem[COUNT * dir + r].attr != NONE {
        table := mem[COUNT * dir + r].Frame();
      } else {
        table := PtblAlloc(r);
        ghost var n := mem[..];
        Untouched(m, n, layout);
        ghost var w := SetTable(dir, r, table);
        HangTable(n, layout, dir, r, w);
        HungFrom(m, n, mem[..], layout, dir, r);
        layout := Hung(layout, dir, r);
      }
      index := iova / 0x1000 % COUNT;
    }

    /** pte->page and pte->attr are written. */
    method SetPage(table: nat, index: nat, frame: nat, attr: nat) returns (ghost w: Word)
      requires mem.Length == WORDS && table < PAGES && index < COUNT
      modifies mem
      ensures mem[..] == Put(old(mem[..]), table, index, w)
      ensures w.Frame() == frame % FRAMES && w.attr == PermOf(attr)
    {
      var a := COUNT * table + index;
      FrameLaw(mem[a], frame);
      mem[a] := mem[a].WithFrame(frame);
      mem[a] := mem[a].(attr := PermOf(attr));
      w := mem[a];
    }

    /** The state before round i of smmu_map, which started in (m0, l0). */
    ghost predicate Mapping(m0: seq<Word>, l0: Layout, dir: nat, run: Run, i: nat)
      reads this, mem
    {
      && Valid() && AfterMap(m0, l0, mem[..], layout, dir, run.v0, run.p0, i, run.attr)
      && CanMap(mem[..], layout, dir, Regions(run.v0, run.pages))
    }

    /** One round of smmu_map, which fills in the entry of page i of region r. */
    method MapEntry(dir: nat, va: nat, frame: nat, attr: nat, ghost r: nat, ghost i: nat,
                    ghost m0: seq<Word>, ghost l0: Layout, ghost run: Run, ghost round: nat)
      requires Mapping(m0, l0, dir, run, round)
      requires va < ADDRESSES && r == va / 0x40_0000 && i == va / 0x1000 % COUNT
      requires r < COUNT && r in Regions(run.v0, run.pages) && COUNT * r + i == (run.v0 + round) % PAGES
      requires frame % FRAMES == (run.p0 + round) % FRAMES && attr == run.attr
      modifies this, mem
      ensures Mapping(m0, l0, dir, run, round + 1)
    {
      ghost var m, l := mem[..], layout;
      CanMapHere(m, l, dir, Regions(run.v0, run.pages), r);
      ghost var n, w := FillEntry(dir, va, frame, attr, r);
      MapRound(m0, l0, m, l, n, mem[..], layout, dir, run, round, r, i, w);
    }

    /** The two statements of the loop body: find the entry, write it. */
    method FillEntry(dir: nat, va: nat, frame: nat, attr: nat, ghost r: nat) returns (ghost n: seq<Word>, ghost w: Word)
      requires Valid() && dir in layout.dirs && va < ADDRESSES && r == va / 0x40_0000
      requires Tabled(mem[..], layout, dir, r)
      requires (dir, r) in layout.tables || heap < PAGES
      modifies this, mem
      ensures Valid() && GotTable(old(mem[..]), old(layout), n, layout, dir, r)
      ensures mem[..] == Put(n, layout.tables[(dir, r)], va / 0x1000 % COUNT, w)
      ensures w.Frame() == frame % FRAMES && w.attr == PermOf(attr)
      ensures forall q :: 0 <= q < COUNT && q != r ==> At(mem[..], dir, q) == At(old(mem[..]), dir, q)
    {
      var table, index := GetPte(dir, va, r);
      n := mem[..];
      w := SetPage(table, index, frame, attr);
      PteWrite(n, layout, dir, r, index, w);
    }

    /** ... with its addresses, and the addresses of the next round. */
    method MapPage(dir: nat, iova: nat, iopa: nat, attr: nat,
                   ghost m0: seq<Word>, ghost l0: Layout, ghost run: Run, ghost i: nat) returns (va: nat, pa: nat)
      requires Mapping(m0, l0, dir, run, i) && i < run.pages && attr == run.attr
      requires run.Here(iova, iopa, i)
      modifies this, mem
      ensures Mapping(m0, l0, dir, run, i + 1)
      ensures run.Here(va, pa, i + 1)
    {
      ghost var r, index := RunPage(run, iova, iopa, i);
      MapEntry(dir, iova, iopa / 0x1000, attr, r, index, m0, l0, run, i);
      va := (iova + 0x1000) % ADDRESSES;
      pa := (iopa + 0x1000) % WIDE;
    }

    /** smmu_map: 4 KB pages from iova to iopa; addresses wrap at 32 and 64 bits. */
    method Map(dir: nat, iova: nat, iopa: nat, pages: nat, attr: nat)
      requires Valid() && dir in layout.dirs && iova < ADDRESSES && iopa < WIDE
      requires CanMap(mem[..], layout, dir, Regions(iova / 0x1000, pages))
      modifies this, mem
      ensures Valid()
      ensures AfterMap(old(mem[..]), old(layout), mem[..], layout, dir, iova / 0x1000, iopa / 0x1000, pages, attr)
      ensures GivesAll(mem[..], dir, iova / 0x1000, iopa / 0x1000, pages, attr)
    {
      var va: nat, pa: nat := iova, iopa;
      ghost var run := Run(iova / 0x1000, iopa / 0x1000, pages, attr);
      MapStart(mem[..], layout, dir, run, iova, iopa);
      for i := 0 to pages
        invariant Mapping(old(mem[..]), old(layout), dir, run, i) && run.Here(va, pa, i)
      {
        va, pa := MapPage(dir, va, pa, attr, old(mem[..]), old(layout), run, i);
      }
      MapGives(old(mem[..]), old(layout), mem[..], layout, dir, run.v0, run.p0, pages, attr);
    }

    /** huge.page, huge.next and huge.attr are written. */
    method SetHuge(dir: nat, pdn: nat, frame: nat, attr: nat) returns (ghost w: Word)
      requires mem.Length == WORDS && dir < PAGES && pdn < COUNT
      modifies mem
      ensures mem[..] == Put(old(mem[..]), dir, pdn, w)
      ensures w.mid == frame % 0x1000 && w.next == 0 && w.attr == PermOf(attr)
    {
      var a := COUNT * dir + pdn;
      mem[a] := mem[a].WithHuge(frame);
      mem[a] := mem[a].(next := 0);
      mem[a] := mem[a].(attr := PermOf(attr));
      w := mem[a];
    }

    /** smmu_map_huge: 4 MB regions from iova to iopa. */
    method MapHuge(dir: nat, iova: nat, iopa: nat, regions: nat, attr: nat)
      requires Valid() && dir in layout.dirs && iova < ADDRESSES && iopa < WIDE
      modifies this, mem
      ensures Valid()
      ensures AfterHuge(old(mem[..]), old(layout), mem[..], layout,
                        dir, iova / 0x40_0000, iopa / 0x40_0000, regions, attr)
      ensures GivesAll(mem[..], dir, 0x400 * (iova / 0x40_0000), 0x400 * (iopa / 0x40_0000), 0x400 * regions, attr)
    {
      var va: nat, pa: nat := iova, iopa;
      ghost var run := HugeRun(iova / 0x40_0000, iopa / 0x40_0000);
      HugeStart(mem[..], layout, dir, run, va, pa, attr);
      for i := 0 to regions
        invariant Valid() && run.Here(va, pa, i)
        invariant AfterHuge(old(mem[..]), old(layout), mem[..], layout, dir, run.r0, run.q0, i, attr)
      {
        va, pa := MapRegion(dir, va, pa, attr, old(mem[..]), old(layout), run, i);
      }
      HugeGives(old(mem[..]), old(layout), mem[..], layout, dir, run.r0, run.q0, regions, attr);
    }

    /** One round of smmu_map_huge. */
    method MapRegion(dir: nat, iova: nat, iopa: nat, attr: nat,
                     ghost m0: seq<Word>, ghost l0: Layout, ghost run: HugeRun, ghost i: nat) returns (va: nat, pa: nat)
      requires Valid() && AfterHuge(m0, l0, mem[..], layout, dir, run.r0, run.q0, i, attr) && run.Here(iova, iopa, i)
      modifies this, mem
      ensures Valid() && AfterHuge(m0, l0, mem[..], layout, dir, run.r0, run.q0, i + 1, attr) && run.Here(va, pa, i + 1)
    {
      run.Next(iova, iopa, i);
      MapHugeEntry(dir, iova / 0x40_0000, iopa / 0x40_0000, attr, m0, l0, run, i);
      va := (iova + 0x40_0000) % ADDRESSES;
      pa := (iopa + 0x40_0000) % WIDE;
    }

    /** The three statements of the loop body: the entry of region i is written. */
    method MapHugeEntry(dir: nat, pdn: nat, frame: nat, attr: nat,
                        ghost m0: seq<Word>, ghost l0: Layout, ghost run: HugeRun, ghost i: nat)
      requires Valid() && AfterHuge(m0, l0, mem[..], layout, dir, run.r0, run.q0, i, attr)
      requires pdn == (run.r0 + i) % COUNT && frame % 0x1000 == (run.q0 + i) % 0x1000
      modifies mem, `layout
      ensures Valid() && AfterHuge(m0, l0, mem[..], layout, dir, run.r0, run.q0, i + 1, attr)
    {
      ghost var m, l := mem[..], layout;
      ghost var w := SetHuge(dir, pdn, frame, attr);
      ghost var n := Put(m, dir, pdn, w);
      assert AfterHuge(m0, l0, n, Unhung(l, dir, pdn), dir, run.r0, run.q0, i + 1, attr) by {
        HugeStep(m0, l0, m, l, dir, run.r0, run.q0, i, attr, pdn, w);
      }
      layout := Unhung(layout, dir, pdn);
      assert mem[..] == n;
    }
  }
}
