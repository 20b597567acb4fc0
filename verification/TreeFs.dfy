/** The file system under the folder copy and delete routine of amssu-rcm/source/tools.c:
    a FAT volume as a map from paths to files and directories. */
module TreeFs {
  type Byte = x: nat | x < 256
  type Path = seq<string>

  /** A directory is a row of slots; "" is a free one, left behind by a deleted entry, so
      that a cursor into the row stays good while entries are deleted. */
  datatype Node = File(data: seq<Byte>) | Dir(slots: seq<string>)
  type Tree = map<Path, Node>

  predicate Live(name: string) {
    name != "" && name != "." && name != ".."
  }

  ghost predicate NodeOk(fs: Tree, p: Path)
    requires p in fs
  {
    && (forall i {:trigger p[i]} :: 0 <= i < |p| ==> Live(p[i]))
    && (p != [] ==> Lists(fs, p[..|p| - 1], p[|p| - 1]))
    && SlotsOk(fs, p)
  }

  ghost predicate SlotsOk(fs: Tree, p: Path)
    requires p in fs
  {
    fs[p].Dir? ==>
      && (forall j :: 0 <= j < |fs[p].slots| && Live(fs[p].slots[j]) ==> p + [fs[p].slots[j]] in fs)
      && (forall i, j :: 0 <= i < j < |fs[p].slots| && Live(fs[p].slots[i]) ==> fs[p].slots[i] != fs[p].slots[j])
  }

  /** Directory d has an entry called n. */
  ghost predicate Lists(fs: Tree, d: Path, n: string) {
    d in fs && fs[d].Dir? && n in fs[d].slots
  }

  /** Entries and nodes correspond, and names are unique in a directory. */
  ghost predicate Proper(fs: Tree) {
    forall p {:trigger NodeOk(fs, p)} :: p in fs ==> NodeOk(fs, p)
  }

  lemma Parent(fs: Tree, p: Path)
    requires Proper(fs) && p in fs && p != []
    ensures var up, name := p[..|p| - 1], p[|p| - 1];
      Lists(fs, up, name) && Live(name) && p == up + [name]
  {
    assert NodeOk(fs, p);
  }

  /** Every ancestor of a node is a directory that lists the next one. */
  lemma {:induction false} Ancestors(fs: Tree, a: Path, p: Path)
    requires Proper(fs) && p in fs && a <= p
    ensures a in fs
    ensures a < p ==> Lists(fs, a, p[|a|]) && Live(p[|a|]) && a + [p[|a|]] in fs && a + [p[|a|]] <= p
    decreases |p|
  {
    if |a| == |p| {
      assert a == p;
    } else {
      var up := p[..|p| - 1];
      Parent(fs, p);
      if |a| == |up| {
        assert a == up;
      } else {
        assert a <= up && up[|a|] == p[|a|];
        Ancestors(fs, a, up);
        assert a + [p[|a|]] <= up;
      }
    }
  }

  // ---------------------------------------------------------------- removal

  function Freed(n: Node, p: Path, gone: set<Path>): Node {
    match n
    case File(_) => n
    case Dir(s) => Dir(seq(|s|, i requires 0 <= i < |s| => if p + [s[i]] in gone then "" else s[i]))
  }

  /** The tree without the nodes in `gone`, their slots free. */
  function Purge(fs: Tree, gone: set<Path>): Tree {
    map p | p in fs && p !in gone :: Freed(fs[p], p, gone)
  }

  lemma PurgeTwice(fs: Tree, a: set<Path>, b: set<Path>)
    ensures Purge(Purge(fs, a), b) == Purge(fs, a + b)
  {
    forall p | p in fs && p !in a && p !in b
      ensures Freed(Freed(fs[p], p, a), p, b) == Freed(fs[p], p, a + b)
    {
    }
  }

  lemma PurgeNothing(fs: Tree)
    ensures Purge(fs, {}) == fs
  {
    forall p | p in fs
      ensures Freed(fs[p], p, {}) == fs[p]
    {
    }
  }

  /** A directory without entries. */
  predicate Empty(n: Node) {
    n.Dir? && forall j :: 0 <= j < |n.slots| ==> !Live(n.slots[j])
  }

  /** f_unlink succeeds on files and on empty directories other than the volume root. */
  predicate Removable(fs: Tree, p: Path) {
    p in fs && p != [] && (fs[p].File? || Empty(fs[p]))
  }

  // ---------------------------------------------------------------- creation

  /** What f_mkdir or a creating f_open does for a path that does not exist yet. */
  function Made(fs: Tree, p: Path, n: Node): Tree
    requires p != [] && p[..|p| - 1] in fs && fs[p[..|p| - 1]].Dir?
  {
    var up := p[..|p| - 1];
    fs[up := Dir(fs[up].slots + [p[|p| - 1]])][p := n]
  }

  predicate Creatable(fs: Tree, p: Path) {
    p != [] && p !in fs && p[..|p| - 1] in fs && fs[p[..|p| - 1]].Dir?
  }

  lemma MadeProper(fs: Tree, p: Path, n: Node)
    requires Proper(fs) && Creatable(fs, p) && Live(p[|p| - 1]) && (n.File? || n == Dir([]))
    ensures Proper(Made(fs, p, n))
  {
    var up, name := p[..|p| - 1], p[|p| - 1];
    assert p == up + [name];
    assert NodeOk(fs, up);
    assert name !in fs[up].slots;
    forall q | q in Made(fs, p, n)
      ensures NodeOk(Made(fs, p, n), q)
    {
      if q == p {
        forall i | 0 <= i < |p|
          ensures Live(p[i])
        {
          assert i < |up| ==> p[i] == up[i];
        }
      } else {
        MadeOther(fs, p, n, q);
      }
    }
  }

  lemma MadeOther(fs: Tree, p: Path, n: Node, q: Path)
    requires Creatable(fs, p) && p[|p| - 1] !in fs[p[..|p| - 1]].slots
    requires q in fs && q != p && NodeOk(fs, q)
    ensures NodeOk(Made(fs, p, n), q)
  {
    if q != [] {
      assert Lists(fs, q[..|q| - 1], q[|q| - 1]);
      assert Lists(Made(fs, p, n), q[..|q| - 1], q[|q| - 1]);
    }
    MadeSlots(fs, p, n, q);
  }

  lemma MadeSlots(fs: Tree, p: Path, n: Node, q: Path)
    requires Creatable(fs, p) && p[|p| - 1] !in fs[p[..|p| - 1]].slots
    requires q in fs && SlotsOk(fs, q)
    ensures SlotsOk(Made(fs, p, n), q)
  {
    var up := p[..|p| - 1];
    assert p == up + [p[|p| - 1]];
    if fs[q].Dir? && q == up {
      var s := Made(fs, p, n)[q].slots;
      assert s == fs[q].slots + [p[|p| - 1]];
      forall j | 0 <= j < |s| && Live(s[j])
        ensures q + [s[j]] in Made(fs, p, n)
      {
        if j < |fs[q].slots| {
          assert s[j] == fs[q].slots[j];
        }
      }
    }
  }

  /** What storing a file does: a new entry, or new contents for an existing one. */
  function Stored(fs: Tree, p: Path, data: seq<Byte>): Tree
    requires p in fs || Creatable(fs, p)
  {
    if p in fs then fs[p := File(data)] else Made(fs, p, File(data))
  }

  /** The new file has the data; a new entry stands behind the others in its directory; and nothing
      else changes. */
  lemma StoredIs(fs: Tree, p: Path, data: seq<Byte>)
    requires p in fs || Creatable(fs, p)
    ensures var r := Stored(fs, p, data);
      && p in r && r[p] == File(data)
      && (forall q :: q in r <==> q in fs || q == p)
      && (forall q :: q in fs && q != p && (p in fs || q != p[..|p| - 1]) ==> r[q] == fs[q])
      && (p !in fs ==> r[p[..|p| - 1]] == Dir(fs[p[..|p| - 1]].slots + [p[|p| - 1]]))
  {
  }

  lemma StoredProper(fs: Tree, p: Path, data: seq<Byte>)
    requires Proper(fs) && p != [] && Live(p[|p| - 1])
    requires Creatable(fs, p) || (p in fs && fs[p].File?)
    ensures Proper(Stored(fs, p, data))
  {
    if p in fs {
      var r := Stored(fs, p, data);
      forall q | q in r
        ensures NodeOk(r, q)
      {
        assert NodeOk(fs, q);
        if q != [] {
          assert Lists(fs, q[..|q| - 1], q[|q| - 1]);
          assert q[..|q| - 1] != p;
        }
      }
    } else {
      MadeProper(fs, p, File(data));
    }
  }
}
