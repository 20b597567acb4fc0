/** The list of emulated systems, counted in one pass and filled in a second
    (amssu-rcm/source/tools.c). */
module Emunand {
  import opened Options

  const MAX_EMUNANDS: nat := 12

  datatype Entry = Entry(name: string, path: string)
  datatype KeyValue = KeyValue(key: string, val: string)
  datatype Section = Section(choice: bool, name: string, kvs: seq<KeyValue>)

  /** The default entry, and the sections of the file and of the folder if they can be read. */
  datatype Sources = Sources(default: Option<string>, file: Option<seq<Section>>, folder: Option<seq<Section>>)

  type Probe = string -> bool

  // ---------------------------------------------------------------- the specification

  function OfKey(name: string, kv: KeyValue, probe: Probe): seq<Entry> {
    if kv.key == "emupath" && probe(kv.val) then [Entry(name, kv.val)] else []
  }

  function OfKeys(name: string, kvs: seq<KeyValue>, probe: Probe): seq<Entry> {
    if kvs == [] then [] else OfKeys(name, kvs[..|kvs| - 1], probe) + OfKey(name, kvs[|kvs| - 1], probe)
  }

  function OfSection(sec: Section, probe: Probe): seq<Entry> {
    if sec.choice then OfKeys(sec.name, sec.kvs, probe) else []
  }

  /** The probed emupath entries of the choice sections, in order. */
  function OfSections(secs: seq<Section>, probe: Probe): seq<Entry> {
    if secs == [] then [] else OfSections(secs[..|secs| - 1], probe) + OfSection(secs[|secs| - 1], probe)
  }

  function OfList(secs: Option<seq<Section>>, probe: Probe): seq<Entry> {
    if secs.Some? then OfSections(secs.value, probe) else []
  }

  function Default(s: Sources): seq<Entry> {
    if s.default.Some? then [Entry("default_config", s.default.value)] else []
  }

  /** All entries, cut to the first twelve. */
  function Wanted(s: Sources, probe: Probe): seq<Entry> {
    Cut(Default(s) + Listed(s, probe))
  }

  /** The entries of both files. */
  function Listed(s: Sources, probe: Probe): seq<Entry> {
    OfList(s.file, probe) + OfList(s.folder, probe)
  }

  lemma Assoc(a: seq<Entry>, b: seq<Entry>, c: seq<Entry>)
    ensures a + b + c == a + (b + c)
  {
  }

  function Cut(es: seq<Entry>): (c: seq<Entry>)
    ensures c <= es && |c| == if |es| < MAX_EMUNANDS then |es| else MAX_EMUNANDS
  {
    if |es| < MAX_EMUNANDS then es else es[..MAX_EMUNANDS]
  }

  /** The count after n more entries: it is not raised beyond the limit. */
  function Counted(count: nat, n: nat): (c: nat)
    ensures count <= c
  {
    if count >= MAX_EMUNANDS then count
    else if count + n < MAX_EMUNANDS then count + n else MAX_EMUNANDS
  }

  lemma CutMore(have: seq<Entry>, more: seq<Entry>, e: Entry)
    ensures Cut(have + more + [e]) == if |have + more| < MAX_EMUNANDS then have + more + [e] else Cut(have + more)
  {
  }

  /** The array has the size of the filled list exactly when the count started at 0, or when it
      started low enough and there are at least twelve entries; it is never too small. */
  lemma SizeFits(start: nat, s: Sources, probe: Probe)
    ensures var d, n := |Default(s)|, |Listed(s, probe)|;
      var size := Counted(start + d, n);
      && |Wanted(s, probe)| <= size
      && (|Wanted(s, probe)| == size <==> start == 0 || (start + d <= MAX_EMUNANDS && MAX_EMUNANDS <= d + n))
  {
  }

  /** A second build without a release of the list in between: one entry too many. */
  lemma SizeTooLarge(probe: Probe)
    ensures var s := Sources(None, None, None);
      |Wanted(s, probe)| == 0 && Counted(1 + |Default(s)|, |Listed(s, probe)|) == 1
  {
  }

  // ---------------------------------------------------------------- which entries, and in which order

  /** Key k of a section names a place that exists. */
  predicate Names(sec: Section, k: nat, probe: Probe)
    requires k < |sec.kvs|
  {
    sec.choice && sec.kvs[k].key == "emupath" && probe(sec.kvs[k].val)
  }

  /** The number of such keys in front of key k of section s. */
  function Before(secs: seq<Section>, s: nat, k: nat, probe: Probe): nat
    requires if s < |secs| then k <= |secs[s].kvs| else s == |secs| && k == 0
    decreases s, k
  {
    if k > 0 then Before(secs, s, k - 1, probe) + if Names(secs[s], k - 1, probe) then 1 else 0
    else if s > 0 then Before(secs, s - 1, |secs[s - 1].kvs|, probe)
    else 0
  }

  lemma {:induction false} BeforeIs(secs: seq<Section>, s: nat, k: nat, probe: Probe)
    requires if s < |secs| then k <= |secs[s].kvs| else s == |secs| && k == 0
    ensures Before(secs, s, k, probe) == |OfSections(secs[..s], probe)|
      + if k > 0 && secs[s].choice then |OfKeys(secs[s].name, secs[s].kvs[..k], probe)| else 0
    decreases s, k
  {
    if k > 0 {
      BeforeIs(secs, s, k - 1, probe);
      OfKeysMore(secs[s].name, secs[s].kvs, k - 1, probe);
      assert secs[s].kvs[..0] == [];
    } else if s > 0 {
      var kvs := secs[s - 1].kvs;
      BeforeIs(secs, s - 1, |kvs|, probe);
      OfSectionsMore(secs, s - 1, probe);
      assert kvs[..|kvs|] == kvs;
    }
  }

  /** Each such key gives one entry, with the name of its section and its own value, behind those
      of the keys in front of it; there are no others. */
  lemma ListedInOrder(secs: seq<Section>, probe: Probe)
    ensures |OfSections(secs, probe)| == Before(secs, |secs|, 0, probe)
    ensures forall s, k {:trigger Names(secs[s], k, probe)} ::
      0 <= s < |secs| && 0 <= k < |secs[s].kvs| && Names(secs[s], k, probe) ==>
        && Before(secs, s, k, probe) < |OfSections(secs, probe)|
        && OfSections(secs, probe)[Before(secs, s, k, probe)] == Entry(secs[s].name, secs[s].kvs[k].val)
  {
    BeforeIs(secs, |secs|, 0, probe);
    assert secs[..|secs|] == secs;
    forall s, k | 0 <= s < |secs| && 0 <= k < |secs[s].kvs| && Names(secs[s], k, probe)
      ensures Before(secs, s, k, probe) < |OfSections(secs, probe)|
      ensures OfSections(secs, probe)[Before(secs, s, k, probe)] == Entry(secs[s].name, secs[s].kvs[k].val)
    {
      ListedAt(secs, s, k, probe);
    }
  }

  lemma ListedAt(secs: seq<Section>, s: nat, k: nat, probe: Probe)
    requires s < |secs| && k < |secs[s].kvs| && Names(secs[s], k, probe)
    ensures Before(secs, s, k, probe) < |OfSections(secs, probe)|
    ensures OfSections(secs, probe)[Before(secs, s, k, probe)] == Entry(secs[s].name, secs[s].kvs[k].val)
  {
    var name, kvs := secs[s].name, secs[s].kvs;
    var front := OfKeys(name, kvs[..k], probe);
    BeforeIs(secs, s, k, probe);
    OfSectionsMore(secs, s, probe);
    OfKeysMore(name, kvs, k, probe);
    assert kvs[..0] == [];
    assert OfKeys(name, kvs, probe)[|front|] == Entry(name, kvs[k].val);
    assert OfSections(secs[..s + 1], probe)[|OfSections(secs[..s], probe)| + |front|] == Entry(name, kvs[k].val);
  }

  /** First the default entry, then those of the file, then those of the folder: twelve at most. */
  lemma WantedIs(s: Sources, probe: Probe)
    ensures var all := (if s.default.Some? then [Entry("default_config", s.default.value)] else [])
      + (if s.file.Some? then OfSections(s.file.value, probe) else [])
      + (if s.folder.Some? then OfSections(s.folder.value, probe) else []);
      Wanted(s, probe) == if |all| <= 12 then all else all[..12]
  {
    Assoc(Default(s), OfList(s.file, probe), OfList(s.folder, probe));
  }

  function Upto(n: nat): (s: seq<nat>)
    ensures |s| == n && forall i :: 0 <= i < n ==> s[i] == i
  {
    seq(n, i => i)
  }

  // ---------------------------------------------------------------- the code

  class Emunands {
    var count: nat
    var list: array?<Entry>
    ghost var written: seq<nat>

    constructor ()
      ensures count == 0 && list == null && written == []
    {
      count, list, written := 0, null, [];
    }

    /** The entries stored so far. */
    ghost function Contents(): seq<Entry>
      requires list != null && count <= list.Length
      reads this, list
    {
      list[..count]
    }

    /** One entry is counted, and stored unless only counting. */
    method Add(e: Entry, countOnly: bool)
      requires !countOnly ==> list != null && count < list.Length
      modifies `count, `written, list
      ensures count == old(count) + 1
      ensures countOnly ==> written == old(written) && (list != null ==> list[..] == old(list[..]))
      ensures !countOnly ==> list != null && count <= list.Length && Contents() == old(Contents()) + [e]
      ensures !countOnly ==> written == old(written) + [old(count)]
    {
      if !countOnly {
        list[count] := e;
        written := written + [count];
      }
      count := count + 1;
    }

    /** Behind the entries `have`, the entries es were counted, or stored as far as they go:
        the passes agree. */
    ghost predicate Progress(have: seq<Entry>, es: seq<Entry>, countOnly: bool)
      reads this, list
    {
      && count == Counted(|have|, |es|)
      && (!countOnly ==>
            && |have| <= MAX_EMUNANDS
            && list != null && count <= list.Length && Contents() == Cut(have + es) && written == Upto(count))
    }

    /** The next entry, which is there and below the limit. */
    method AddNext(e: Entry, countOnly: bool, ghost have: seq<Entry>, ghost es: seq<Entry>)
      requires Progress(have, es, countOnly) && count < MAX_EMUNANDS && Room(have, |es| + 1, countOnly)
      modifies `count, `written, list
      ensures Progress(have, es + [e], countOnly)
    {
      CutMore(have, es, e);
      assert have + (es + [e]) == have + es + [e];
      Add(e, countOnly);
      assert !countOnly ==> Upto(count) == Upto(old(count)) + [old(count)];
    }

    /** Beyond the limit nothing changes. */
    lemma Full(e: Entry, countOnly: bool, have: seq<Entry>, es: seq<Entry>)
      requires Progress(have, es, countOnly) && count >= MAX_EMUNANDS
      ensures Progress(have, es + [e], countOnly)
    {
      CutMore(have, es, e);
      assert have + (es + [e]) == have + es + [e];
    }

    /** One key of a choice section. */
    method BuildKey(name: string, kv: KeyValue, countOnly: bool, probe: Probe,
                    ghost have: seq<Entry>, ghost es: seq<Entry>)
      requires Progress(have, es, countOnly) && Room(have, |es + OfKey(name, kv, probe)|, countOnly)
      modifies `count, `written, list
      ensures Progress(have, es + OfKey(name, kv, probe), countOnly)
    {
      assert es + [] == es;
      if kv.key == "emupath" && count < MAX_EMUNANDS {
        if probe(kv.val) {
          AddNext(Entry(name, kv.val), countOnly, have, es);
        }
      } else if kv.key == "emupath" && probe(kv.val) {
        Full(Entry(name, kv.val), countOnly, have, es);
      }
    }

    /** There is room for all the entries that may come. */
    ghost predicate Room(have: seq<Entry>, n: nat, countOnly: bool)
      reads this
    {
      !countOnly ==> list != null && Counted(|have|, n) <= list.Length
    }

    /** The keys of one choice section. */
    method BuildSection(sec: Section, countOnly: bool, probe: Probe, ghost have: seq<Entry>, ghost es: seq<Entry>)
      requires Progress(have, es, countOnly) && Room(have, |es + OfKeys(sec.name, sec.kvs, probe)|, countOnly)
      modifies `count, `written, list
      ensures Progress(have, es + OfKeys(sec.name, sec.kvs, probe), countOnly)
    {
      ghost var all := es;
      assert es + [] == es && sec.kvs[..|sec.kvs|] == sec.kvs;
      for k := 0 to |sec.kvs|
        invariant all == es + OfKeys(sec.name, sec.kvs[..k], probe) && Progress(have, all, countOnly)
      {
        ghost var more := OfKey(sec.name, sec.kvs[k], probe);
        assert all + more == es + OfKeys(sec.name, sec.kvs[..k + 1], probe)
          && |all + more| <= |es + OfKeys(sec.name, sec.kvs, probe)| by {
          OfKeysMore(sec.name, sec.kvs, k, probe);
          Assoc(es, OfKeys(sec.name, sec.kvs[..k], probe), more);
        }
        BuildKey(sec.name, sec.kvs[k], countOnly, probe, have, all);
        all := all + more;
      }
    }

    /** emunand_list_build */
    method ListBuild(secs: seq<Section>, countOnly: bool, probe: Probe, ghost have: seq<Entry>, ghost es: seq<Entry>)
      requires Progress(have, es, countOnly) && Room(have, |es + OfSections(secs, probe)|, countOnly)
      modifies `count, `written, list
      ensures Progress(have, es + OfSections(secs, probe), countOnly)
    {
      ghost var all := es;
      assert es + [] == es && secs[..|secs|] == secs;
      for k := 0 to |secs|
        invariant all == es + OfSections(secs[..k], probe) && Progress(have, all, countOnly)
      {
        ghost var more := OfSection(secs[k], probe);
        assert all + more == es + OfSections(secs[..k + 1], probe)
          && |all + more| <= |es + OfSections(secs, probe)| by {
          OfSectionsMore(secs, k, probe);
          Assoc(es, OfSections(secs[..k], probe), more);
        }
        if secs[k].choice {
          BuildSection(secs[k], countOnly, probe, have, all);
        } else {
          assert all + more == all;
        }
        all := all + more;
      }
    }

    /** Both files, as far as they can be read. */
    method Pass(s: Sources, countOnly: bool, probe: Probe, ghost have: seq<Entry>)
      requires Progress(have, [], countOnly) && Room(have, |Listed(s, probe)|, countOnly)
      modifies `count, `written, list
      ensures Progress(have, Listed(s, probe), countOnly)
    {
      ghost var es := OfList(s.file, probe);
      assert [] + es == es && es + [] == es;
      if s.file.Some? {
        ListBuild(s.file.value, countOnly, probe, have, []);
      }
      if s.folder.Some? {
        ListBuild(s.folder.value, countOnly, probe, have, es);
      }
    }

    /** The counting pass. */
    method CountAll(s: Sources, probe: Probe)
      modifies `count, `written, list
      ensures count == Counted(old(count) + |Default(s)|, |Listed(s, probe)|)
    {
      if s.default.Some? {
        count := count + 1;
      }
      Pass(s, true, probe, seq(count, _ => Entry("", "")));
    }

    /** The filling pass. */
    method FillAll(s: Sources, probe: Probe)
      requires list != null && |Wanted(s, probe)| <= list.Length
      modifies `count, `written, list
      ensures count <= list.Length && Contents() == Wanted(s, probe) && written == Upto(count)
    {
      count := 0;
      written := [];
      if s.default.Some? {
        Add(Entry("default_config", s.default.value), false);
      }
      assert Default(s) + [] == Default(s) && Contents() == Default(s);
      Pass(s, false, probe, Default(s));
    }

    /** build_emunand_list; the files and the probes do not change in between. The filled list
        has exactly the wanted entries, each index written once and in order, and the array is
        as large as the counting pass made it. */
    method Build(s: Sources, probe: Probe)
      modifies this, list
      ensures list != null && fresh(list) && count <= list.Length
      ensures Contents() == Wanted(s, probe) && written == Upto(count)
      ensures list.Length == Counted(old(count) + |Default(s)|, |Listed(s, probe)|)
    {
      CountAll(s, probe);
      SizeFits(old(count), s, probe);
      list := new Entry[count](_ => Entry("", ""));
      FillAll(s, probe);
    }

    /** emunand_list_free */
    method Free()
      modifies this
      ensures if old(list) == null then count == old(count) else count == 0
      ensures list == null
    {
      if list == null {
        return;
      }
      list := null;
      count := 0;
    }
  }

  lemma {:induction false} OfKeysMore(name: string, kvs: seq<KeyValue>, k: nat, probe: Probe)
    requires k < |kvs|
    ensures OfKeys(name, kvs[..k + 1], probe) == OfKeys(name, kvs[..k], probe) + OfKey(name, kvs[k], probe)
    ensures OfKeys(name, kvs[..k + 1], probe) <= OfKeys(name, kvs, probe)
    decreases |kvs| - k
  {
    assert kvs[..k + 1][..k] == kvs[..k];
    if k + 1 < |kvs| {
      OfKeysMore(name, kvs, k + 1, probe);
    } else {
      assert kvs[..k + 1] == kvs;
    }
  }

  lemma {:induction false} OfSectionsMore(secs: seq<Section>, k: nat, probe: Probe)
    requires k < |secs|
    ensures OfSections(secs[..k + 1], probe) == OfSections(secs[..k], probe) + OfSection(secs[k], probe)
    ensures OfSections(secs[..k + 1], probe) <= OfSections(secs, probe)
    decreases |secs| - k
  {
    assert secs[..k + 1][..k] == secs[..k];
    if k + 1 < |secs| {
      OfSectionsMore(secs, k + 1, probe);
    } else {
      assert secs[..k + 1] == secs;
    }
  }
}
