/** Delete mode of f_cp_or_rm_rf (amssu-rcm/source/tools.c) against recursive removal. */
module TreeRemove {
  import opened TreeFs
  import opened TreeWalk

  /** A directory the walk never opens: 12 or more levels below the root. */
  ghost predicate TooDeep(fs: Tree, root: Path, q: Path) {
    IsDir(fs, q) && root <= q && |root| + MAX_STACK_DEPTH <= |q|
  }

  /** What survives: directories that are too deep, all inside them, and all that leads to them. */
  ghost predicate Spared(fs: Tree, root: Path, p: Path) {
    p == [] || exists q :: TooDeep(fs, root, q) && (p <= q || q <= p)
  }

  /** Recursive removal of `root` up to the depth limit. */
  ghost function Doomed(fs: Tree, root: Path): set<Path> {
    set p | p in fs && root <= p && !Spared(fs, root, p)
  }

  ghost function Gone(fs: Tree, root: Path, seen: set<Path>): set<Path> {
    set p | p in seen && !Spared(fs, root, p)
  }

  /** No directory is 12 or more levels below the root. */
  ghost predicate Shallow(fs: Tree, root: Path) {
    forall p :: IsDir(fs, p) && root <= p ==> |p| < |root| + 12
  }

  /** The whole tree goes exactly if it is shallow. */
  lemma ShallowTreesGo(fs: Tree, root: Path)
    requires Proper(fs) && root != []
    ensures Doomed(fs, root) == Subtree(fs, root) <==> Shallow(fs, root)
  {
    if Shallow(fs, root) {
      forall p | p in Subtree(fs, root)
        ensures !Spared(fs, root, p)
      {
        if q :| TooDeep(fs, root, q) && (p <= q || q <= p) {
          assert false;
        }
      }
    } else {
      var q :| IsDir(fs, q) && root <= q && |q| >= |root| + MAX_STACK_DEPTH;
      DeepTreesStay(fs, root, q);
    }
  }

  /** If it is not, neither the deep directory goes nor anything that leads to it. */
  lemma DeepTreesStay(fs: Tree, root: Path, q: Path)
    requires TooDeep(fs, root, q)
    ensures q in Subtree(fs, root) && forall p :: p <= q ==> p !in Doomed(fs, root)
  {
    forall p | p <= q
      ensures Spared(fs, root, p)
    {
      assert TooDeep(fs, root, q) && p <= q;
    }
  }

  // ---------------------------------------------------------------- what that means

  /** Node p goes: it is under the root, and neither inside a directory 12 or more levels down nor
      on the way to one. The volume root never goes. */
  ghost predicate Goes(fs: Tree, root: Path, p: Path) {
    && p in fs && p != [] && root <= p
    && forall q :: q in fs && fs[q].Dir? && root <= q && |root| + 12 <= |q| ==> !(p <= q) && !(q <= p)
  }

  /** The volume `now` is fs without the nodes that go: every file that stays is as it was, and of
      a directory that stays exactly the slots of what goes are free. */
  ghost predicate Removed(fs: Tree, now: Tree, root: Path) {
    && (forall p :: p in now <==> p in fs && !Goes(fs, root, p))
    && (forall p :: p in now && fs[p].File? ==> now[p] == fs[p])
    && (forall p :: p in now && fs[p].Dir? ==>
          && now[p].Dir? && |now[p].slots| == |fs[p].slots|
          && forall i :: 0 <= i < |fs[p].slots| ==>
               now[p].slots[i] == if Goes(fs, root, p + [fs[p].slots[i]]) then "" else fs[p].slots[i])
  }

  lemma GoesIsDoomed(fs: Tree, root: Path, p: Path)
    ensures Goes(fs, root, p) <==> p in Doomed(fs, root)
  {
    if p in Doomed(fs, root) {
      forall q | q in fs && fs[q].Dir? && root <= q && |root| + 12 <= |q|
        ensures !(p <= q) && !(q <= p)
      {
        assert TooDeep(fs, root, q);
      }
    }
    if Goes(fs, root, p) && Spared(fs, root, p) {
      var q :| TooDeep(fs, root, q) && (p <= q || q <= p);
      assert false;
    }
  }

  lemma PurgeRemoves(fs: Tree, root: Path)
    ensures Removed(fs, Purge(fs, Doomed(fs, root)), root)
  {
    var now := Purge(fs, Doomed(fs, root));
    forall p
      ensures p in now <==> p in fs && !Goes(fs, root, p)
    {
      GoesIsDoomed(fs, root, p);
    }
    forall p, i | p in now && fs[p].Dir? && 0 <= i < |fs[p].slots|
      ensures now[p].slots[i] == if Goes(fs, root, p + [fs[p].slots[i]]) then "" else fs[p].slots[i]
    {
      GoesIsDoomed(fs, root, p + [fs[p].slots[i]]);
    }
  }

  lemma HolderOf(root: Path, p: Path, name: string)
    requires !(root <= p) && root <= p + [name]
    ensures root == p + [name] && root[..|root| - 1] == p
  {
  }

  /** So nothing changes but under the root and, one slot, in the directory that holds it. */
  lemma RemovedElsewhere(fs: Tree, now: Tree, root: Path, p: Path)
    requires Removed(fs, now, root) && p in fs && !(root <= p) && (root != [] ==> p != root[..|root| - 1])
    ensures p in now && now[p] == fs[p]
  {
    if fs[p].Dir? {
      forall i | 0 <= i < |fs[p].slots|
        ensures now[p].slots[i] == fs[p].slots[i]
      {
        if root <= p + [fs[p].slots[i]] {
          HolderOf(root, p, fs[p].slots[i]);
        }
      }
    }
  }

  function Nested(k: nat): (p: Path)
    ensures |p| == k
  {
    seq(k, _ => "d")
  }

  /** Empty directories, each in the one before, down to level n. */
  function Chain(n: nat): Tree {
    map p | p in (set k: nat | k <= n :: Nested(k)) :: Dir(if |p| < n then ["d"] else [])
  }

  /** Deleting the uppermost of thirteen nested directories leaves all of them. */
  lemma ChainStays()
    ensures Proper(Chain(13)) && IsDir(Chain(13), Nested(1))
    ensures forall k :: 1 <= k <= 13 ==> Nested(k) in Chain(13) && Nested(k) !in Doomed(Chain(13), Nested(1))
  {
    var fs := Chain(13);
    forall k: nat | k <= 13
      ensures Nested(k) in fs && Nested(k) <= Nested(13)
    {
      assert Nested(13)[..k] == Nested(k);
    }
    ChainIsProper(13);
    assert Nested(1) <= Nested(13);
    DeepTreesStay(fs, Nested(1), Nested(13));
  }

  lemma ChainIsProper(n: nat)
    ensures Proper(Chain(n))
  {
    var fs := Chain(n);
    forall p | p in fs
      ensures NodeOk(fs, p)
    {
      var k: nat :| k <= n && p == Nested(k);
      if k > 0 {
        assert p[..k - 1] == Nested(k - 1);
      }
      if k < n {
        assert p + ["d"] == Nested(k + 1);
      }
    }
  }

  lemma FileSubtree(fs: Tree, c: Path)
    requires Proper(fs) && c in fs && fs[c].File?
    ensures Subtree(fs, c) == {c}
  {
    forall p | p in Subtree(fs, c)
      ensures p == c
    {
      Ancestors(fs, c, p);
    }
  }

  lemma FileNotSpared(fs: Tree, root: Path, c: Path)
    requires Proper(fs) && c in fs && fs[c].File? && Below(root, c) && |c| <= |root| + MAX_STACK_DEPTH
    ensures !Spared(fs, root, c)
  {
    FileSubtree(fs, c);
    forall q | TooDeep(fs, root, q)
      ensures !(c <= q) && !(q <= c)
    {
      assert q in Subtree(fs, c) ==> q == c;
    }
  }

  /** An entry in a directory that is not too deep is spared only if the directory is. */
  lemma SparedUp(fs: Tree, root: Path, d: Path, p: Path)
    requires root <= d <= p && |d| < |root| + MAX_STACK_DEPTH && p != [] && Spared(fs, root, p)
    ensures Spared(fs, root, d)
  {
    var q :| TooDeep(fs, root, q) && (p <= q || q <= p);
    assert d <= q;
  }

  /** A file is passed and unlinked. */
  lemma GoneFile(fs: Tree, root: Path, seen: set<Path>, c: Path)
    requires Proper(fs) && c in fs && fs[c].File? && Below(root, c) && |c| <= |root| + MAX_STACK_DEPTH
    ensures Gone(fs, root, seen + Subtree(fs, c)) == Gone(fs, root, seen) + {c}
  {
    FileSubtree(fs, c);
    FileNotSpared(fs, root, c);
  }

  /** A directory that is too deep is passed and nothing happens. */
  lemma GoneDeep(fs: Tree, root: Path, seen: set<Path>, c: Path)
    requires TooDeep(fs, root, c)
    ensures Gone(fs, root, seen + Subtree(fs, c)) == Gone(fs, root, seen)
  {
    forall p | p in Subtree(fs, c)
      ensures Spared(fs, root, p)
    {
    }
  }

  /** A node that is not gone keeps its kind. */
  lemma PurgeKeeps(fs: Tree, gone: set<Path>, p: Path)
    requires p in fs && p !in gone
    ensures p in Purge(fs, gone) && Purge(fs, gone)[p].Dir? == fs[p].Dir? && Purge(fs, gone)[p] == Freed(fs[p], p, gone)
  {
  }

  /** Behind the cursor the deletions so far have changed no slot, so that f_readdir on the
      current volume yields what it would yield on the original one. */
  lemma SlotsAhead(fs: Tree, root: Path, stack: seq<Frame>, seen: set<Path>, i: nat)
    requires Walking(fs, root, stack, seen) && stack != []
    requires var f := Top(stack); f.path in fs && fs[f.path].Dir? && f.pos <= i < |fs[f.path].slots|
    ensures var f := Top(stack); var now := Purge(fs, Gone(fs, root, seen));
      && f.path in now && now[f.path].Dir? && |now[f.path].slots| == |fs[f.path].slots|
      && now[f.path].slots[i] == fs[f.path].slots[i]
  {
    var f := Top(stack);
    TopFacts(fs, root, stack, seen);
    assert Settled(fs, f, true, seen, i);
    var d := Kid(fs, f.path, i);
    assert d[|d| - 1] == fs[f.path].slots[i];
    assert d in fs ==> NodeOk(fs, d);
  }

  lemma OpenNow(fs: Tree, root: Path, stack: seq<Frame>, seen: set<Path>)
    requires Walking(fs, root, stack, seen) && stack != []
    ensures var f := Top(stack); var now := Purge(fs, Gone(fs, root, seen));
      && IsDir(fs, f.path) && IsDir(now, f.path)
      && f.pos <= |now[f.path].slots| == |fs[f.path].slots|
      && now[f.path] == Freed(fs[f.path], f.path, Gone(fs, root, seen))
  {
    TopFacts(fs, root, stack, seen);
  }

  lemma ReadsEntry(fs: Tree, root: Path, stack: seq<Frame>, seen: set<Path>, j: nat)
    requires Walking(fs, root, stack, seen) && stack != []
    requires Yields(Purge(fs, Gone(fs, root, seen)), Top(stack), j)
    ensures Yields(fs, Top(stack), j)
    ensures fs[Top(stack).path].slots[j] == Purge(fs, Gone(fs, root, seen))[Top(stack).path].slots[j]
  {
    var f := Top(stack);
    OpenNow(fs, root, stack, seen);
    forall i: nat | f.pos <= i <= j
      ensures fs[f.path].slots[i] == Purge(fs, Gone(fs, root, seen))[f.path].slots[i]
    {
      SlotsAhead(fs, root, stack, seen, i);
    }
  }

  lemma ReadsEnd(fs: Tree, root: Path, stack: seq<Frame>, seen: set<Path>)
    requires Walking(fs, root, stack, seen) && stack != []
    requires AtEnd(Purge(fs, Gone(fs, root, seen)), Top(stack))
    ensures AtEnd(fs, Top(stack))
  {
    var f := Top(stack);
    OpenNow(fs, root, stack, seen);
    forall i: nat | f.pos <= i < |fs[f.path].slots|
      ensures fs[f.path].slots[i] == ""
    {
      SlotsAhead(fs, root, stack, seen, i);
    }
  }

  /** A finished directory is empty now, and so removable, exactly when it is not spared. */
  lemma EmptyNow(fs: Tree, root: Path, stack: seq<Frame>, seen: set<Path>)
    requires Walking(fs, root, stack, seen) && stack != [] && AtEnd(fs, Top(stack))
    ensures var c := Top(stack).path;
      Removable(Purge(fs, Gone(fs, root, seen)), c) <==> !Spared(fs, root, c)
  {
    var c := Top(stack).path;
    var gone := Gone(fs, root, seen);
    OpenNow(fs, root, stack, seen);
    if Spared(fs, root, c) {
      if c != [] {
        var i := SparedEntry(fs, root, stack, seen);
        assert Live(Freed(fs[c], c, gone).slots[i]);
      }
    } else {
      forall i: nat | i < |fs[c].slots|
        ensures !Live(Freed(fs[c], c, gone).slots[i])
      {
        if Live(fs[c].slots[i]) {
          AllGone(fs, root, stack, seen, i);
        }
      }
    }
  }

  lemma SparedEntry(fs: Tree, root: Path, stack: seq<Frame>, seen: set<Path>) returns (i: nat)
    requires Walking(fs, root, stack, seen) && stack != [] && Top(stack).path != [] && Spared(fs, root, Top(stack).path)
    ensures var c := Top(stack).path;
      IsDir(fs, c) && i < |fs[c].slots| && Live(fs[c].slots[i]) && Spared(fs, root, Kid(fs, c, i))
  {
    var c := Top(stack).path;
    assert IsDir(fs, c) && |c| < |root| + MAX_STACK_DEPTH by {
      TopFacts(fs, root, stack, seen);
    }
    var q :| TooDeep(fs, root, q) && (c <= q || q <= c);
    Ancestors(fs, c, q);
    i :| 0 <= i < |fs[c].slots| && fs[c].slots[i] == q[|c|];
    assert TooDeep(fs, root, q) && Kid(fs, c, i) <= q;
  }

  lemma AllGone(fs: Tree, root: Path, stack: seq<Frame>, seen: set<Path>, i: nat)
    requires Walking(fs, root, stack, seen) && stack != [] && AtEnd(fs, Top(stack))
    requires i < |fs[Top(stack).path].slots| && Live(fs[Top(stack).path].slots[i]) && !Spared(fs, root, Top(stack).path)
    ensures Kid(fs, Top(stack).path, i) in Gone(fs, root, seen)
  {
    var c := Top(stack).path;
    var d := Kid(fs, c, i);
    TopFacts(fs, root, stack, seen);
    assert d in fs;
    AllBelow(fs, root, stack, seen, d);
    if Spared(fs, root, d) {
      SparedUp(fs, root, c, d);
    }
  }

  lemma GoneDir(fs: Tree, root: Path, seen: set<Path>, c: Path)
    ensures Gone(fs, root, seen + {c}) == Gone(fs, root, seen) + if Spared(fs, root, c) then {} else {c}
  {
  }
}
