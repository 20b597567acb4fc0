/** The walk with an explicit stack of open directories in f_cp_or_rm_rf
    (amssu-rcm/source/tools.c): what the stack stands for at every moment. */
module TreeWalk {
  import opened TreeFs

  const MAX_STACK_DEPTH: nat := 12

  /** An open directory and the position of its cursor. */
  datatype Frame = Frame(path: Path, pos: nat)

  predicate Below(root: Path, p: Path) {
    root <= p && root != p
  }

  function Subtree(fs: Tree, p: Path): set<Path> {
    set q | q in fs && p <= q
  }

  ghost predicate IsDir(fs: Tree, p: Path) {
    p in fs && fs[p].Dir?
  }

  /** The path of entry i of directory p. */
  function Kid(fs: Tree, p: Path, i: nat): Path
    requires p in fs && fs[p].Dir? && i < |fs[p].slots|
  {
    p + [fs[p].slots[i]]
  }

  // ---------------------------------------------------------------- the walk

  /** Entry i of open directory f: before the cursor finished with, or the next open
      directory; from the cursor on untouched. */
  ghost predicate Settled(fs: Tree, f: Frame, last: bool, seen: set<Path>, i: nat)
    requires IsDir(fs, f.path) && i < |fs[f.path].slots|
  {
    Live(fs[f.path].slots[i]) ==>
      if i < f.pos then Kid(fs, f.path, i) in seen || (!last && i == f.pos - 1) else Kid(fs, f.path, i) !in seen
  }

  ghost predicate FrameOk(fs: Tree, root: Path, f: Frame, k: nat, last: bool, seen: set<Path>) {
    && root <= f.path && |f.path| == |root| + k
    && IsDir(fs, f.path) && f.path !in seen && f.pos <= |fs[f.path].slots|
    && (forall i :: 0 <= i < |fs[f.path].slots| ==> Settled(fs, f, last, seen, i))
  }

  ghost predicate Follows(fs: Tree, f: Frame, g: Frame) {
    IsDir(fs, f.path) && 0 < f.pos <= |fs[f.path].slots| && g.path == Kid(fs, f.path, f.pos - 1)
  }

  /** The directories on the stack. */
  ghost function Open(stack: seq<Frame>): set<Path> {
    if stack == [] then {} else Open(stack[..|stack| - 1]) + {stack[|stack| - 1].path}
  }

  ghost predicate StackOk(fs: Tree, root: Path, stack: seq<Frame>, seen: set<Path>) {
    && |stack| <= MAX_STACK_DEPTH
    && (forall k :: 0 <= k < |stack| ==> FrameAt(fs, root, stack, k, seen))
    && (forall k :: 0 <= k < |stack| - 1 ==> FollowsAt(fs, stack, k))
  }

  ghost predicate FrameAt(fs: Tree, root: Path, stack: seq<Frame>, k: nat, seen: set<Path>)
    requires k < |stack|
  {
    FrameOk(fs, root, stack[k], k, k == |stack| - 1, seen)
  }

  ghost predicate FollowsAt(fs: Tree, stack: seq<Frame>, k: nat)
    requires k + 1 < |stack|
  {
    Follows(fs, stack[k], stack[k + 1])
  }

  /** What the walk has finished with: a downward closed part of the tree that hangs off the stack. */
  ghost predicate SeenOk(fs: Tree, root: Path, open: set<Path>, seen: set<Path>) {
    && (forall p :: p in seen ==> p in fs && Below(root, p))
    && (forall p, q :: p in seen && q in fs && p <= q ==> q in seen)
    && (forall p :: p in seen ==> p[..|p| - 1] in seen + open)
  }

  ghost predicate Walking(fs: Tree, root: Path, stack: seq<Frame>, seen: set<Path>) {
    Proper(fs) && StackOk(fs, root, stack, seen) && SeenOk(fs, root, Open(stack), seen)
  }

  /** Entries not reached yet: with the stack depth the measure of the loop. */
  ghost function Todo(fs: Tree, root: Path, stack: seq<Frame>, seen: set<Path>): set<Path> {
    (set p | p in fs && Below(root, p)) - seen - Open(stack)
  }

  /** The entry that f_readdir yields: slot j, the first used one at or behind the cursor. */
  ghost predicate Yields(fs: Tree, f: Frame, j: nat) {
    && IsDir(fs, f.path) && f.pos <= j < |fs[f.path].slots| && fs[f.path].slots[j] != ""
    && forall i :: f.pos <= i < j ==> fs[f.path].slots[i] == ""
  }

  ghost predicate AtEnd(fs: Tree, f: Frame) {
    IsDir(fs, f.path) && forall i :: f.pos <= i < |fs[f.path].slots| ==> fs[f.path].slots[i] == ""
  }

  // ---------------------------------------------------------------- one frame at a time

  lemma PassOuter(fs: Tree, root: Path, f: Frame, k: nat, seen: set<Path>, c: Path)
    requires FrameOk(fs, root, f, k, false, seen) && |f.path| + 1 < |c|
    ensures FrameOk(fs, root, f, k, false, seen + Subtree(fs, c))
  {
    forall i | 0 <= i < |fs[f.path].slots|
      ensures Settled(fs, f, false, seen + Subtree(fs, c), i)
    {
      assert Settled(fs, f, false, seen, i);
    }
  }

  lemma PassTop(fs: Tree, root: Path, f: Frame, k: nat, seen: set<Path>, j: nat)
    requires FrameOk(fs, root, f, k, true, seen) && Yields(fs, f, j) && SlotsOk(fs, f.path)
    requires Live(fs[f.path].slots[j])
    ensures FrameOk(fs, root, f.(pos := j + 1), k, true, seen + Subtree(fs, Kid(fs, f.path, j)))
  {
    var c := Kid(fs, f.path, j);
    var g := f.(pos := j + 1);
    forall i | 0 <= i < |fs[f.path].slots|
      ensures Settled(fs, g, true, seen + Subtree(fs, c), i)
    {
      assert Settled(fs, f, true, seen, i);
      var d := Kid(fs, f.path, i);
      if d in Subtree(fs, c) {
        assert d == c;
        assert d[|f.path|] == c[|f.path|];
      }
    }
  }

  lemma PassDot(fs: Tree, root: Path, f: Frame, k: nat, seen: set<Path>, j: nat)
    requires FrameOk(fs, root, f, k, true, seen) && Yields(fs, f, j) && !Live(fs[f.path].slots[j])
    ensures FrameOk(fs, root, f.(pos := j + 1), k, true, seen)
  {
    var g := f.(pos := j + 1);
    forall i | 0 <= i < |fs[f.path].slots|
      ensures Settled(fs, g, true, seen, i)
    {
      assert Settled(fs, f, true, seen, i);
    }
  }

  lemma PushTop(fs: Tree, root: Path, f: Frame, k: nat, seen: set<Path>, j: nat)
    requires FrameOk(fs, root, f, k, true, seen) && Yields(fs, f, j)
    ensures FrameOk(fs, root, f.(pos := j + 1), k, false, seen)
  {
    var g := f.(pos := j + 1);
    forall i | 0 <= i < |fs[f.path].slots|
      ensures Settled(fs, g, false, seen, i)
    {
      assert Settled(fs, f, true, seen, i);
    }
  }

  /** A newly opened directory: nothing below it has been seen. */
  lemma PushNew(fs: Tree, root: Path, c: Path, k: nat, open: set<Path>, seen: set<Path>)
    requires SeenOk(fs, root, open, seen) && IsDir(fs, c) && c !in seen && c !in open
    requires root <= c && |c| == |root| + k
    ensures FrameOk(fs, root, Frame(c, 0), k, true, seen)
  {
    forall i | 0 <= i < |fs[c].slots|
      ensures Settled(fs, Frame(c, 0), true, seen, i)
    {
      var d := Kid(fs, c, i);
      assert d[..|d| - 1] == c;
    }
  }

  lemma PopOuter(fs: Tree, root: Path, f: Frame, k: nat, last: bool, seen: set<Path>, c: Path)
    requires FrameOk(fs, root, f, k, false, seen) && c !in seen && |f.path| < |c|
    requires last ==> Follows(fs, f, Frame(c, 0)) && SlotsOk(fs, f.path)
    requires !last ==> |f.path| + 1 < |c|
    ensures FrameOk(fs, root, f, k, last, seen + {c})
  {
    forall i | 0 <= i < |fs[f.path].slots|
      ensures Settled(fs, f, last, seen + {c}, i)
    {
      assert Settled(fs, f, false, seen, i);
      if last && Kid(fs, f.path, i) == c && i != f.pos - 1 {
        assert c[|f.path|] == fs[f.path].slots[i] == fs[f.path].slots[f.pos - 1];
      }
    }
  }

  // ---------------------------------------------------------------- moves of the walk

  /** The cursor of the last frame moves to j + 1. */
  function Advance(stack: seq<Frame>, j: nat): seq<Frame>
    requires stack != []
  {
    stack[..|stack| - 1] + [stack[|stack| - 1].(pos := j + 1)]
  }

  function Top(stack: seq<Frame>): Frame
    requires stack != []
  {
    stack[|stack| - 1]
  }

  lemma OpenAdvance(stack: seq<Frame>, j: nat)
    requires stack != []
    ensures Open(Advance(stack, j)) == Open(stack)
  {
    assert Advance(stack, j)[..|stack| - 1] == stack[..|stack| - 1];
  }

  lemma {:induction false} OpenLengths(fs: Tree, root: Path, stack: seq<Frame>, c: Path)
    requires forall k {:trigger stack[k]} :: 0 <= k < |stack| ==> |stack[k].path| < |c|
    ensures c !in Open(stack)
  {
    if stack != [] {
      OpenLengths(fs, root, stack[..|stack| - 1], c);
    }
  }

  /** The last open directory and the lengths of all of them. */
  lemma TopFacts(fs: Tree, root: Path, stack: seq<Frame>, seen: set<Path>)
    requires Walking(fs, root, stack, seen) && stack != []
    ensures var f := Top(stack);
      FrameOk(fs, root, f, |stack| - 1, true, seen) && NodeOk(fs, f.path) && f.path in Open(stack)
    ensures forall k {:trigger stack[k]} :: 0 <= k < |stack| ==> |stack[k].path| == |root| + k
  {
    assert FrameAt(fs, root, stack, |stack| - 1, seen);
    forall k | 0 <= k < |stack|
      ensures |stack[k].path| == |root| + k
    {
      assert FrameAt(fs, root, stack, k, seen);
    }
  }

  /** A yielded entry lies below the root, is unseen and not open. */
  lemma Child(fs: Tree, root: Path, stack: seq<Frame>, seen: set<Path>, j: nat)
    requires Walking(fs, root, stack, seen) && stack != [] && Yields(fs, Top(stack), j)
    requires Live(fs[Top(stack).path].slots[j])
    ensures var c := Kid(fs, Top(stack).path, j);
      && c in fs && Below(root, c) && c !in seen && |c| == |root| + |stack|
      && c !in Open(stack) && c[..|c| - 1] == Top(stack).path
  {
    TopFacts(fs, root, stack, seen);
    assert Settled(fs, Top(stack), true, seen, j);
    OpenLengths(fs, root, stack, Kid(fs, Top(stack).path, j));
  }

  lemma SubtreeParents(fs: Tree, c: Path)
    requires Proper(fs) && c in fs && c != []
    ensures forall p :: p in Subtree(fs, c) ==> p[..|p| - 1] in Subtree(fs, c) || p[..|p| - 1] == c[..|c| - 1]
  {
    forall p | p in Subtree(fs, c)
      ensures p[..|p| - 1] in Subtree(fs, c) || p[..|p| - 1] == c[..|c| - 1]
    {
      if |p| == |c| {
        assert p == c;
      } else {
        Parent(fs, p);
        assert c <= p[..|p| - 1];
      }
    }
  }

  lemma PassStack(fs: Tree, root: Path, stack: seq<Frame>, seen: set<Path>, j: nat)
    requires Walking(fs, root, stack, seen) && stack != [] && Yields(fs, Top(stack), j)
    requires Live(fs[Top(stack).path].slots[j])
    ensures StackOk(fs, root, Advance(stack, j), seen + Subtree(fs, Kid(fs, Top(stack).path, j)))
  {
    var n := |stack| - 1;
    var c := Kid(fs, Top(stack).path, j);
    var next := Advance(stack, j);
    TopFacts(fs, root, stack, seen);
    PassTop(fs, root, Top(stack), n, seen, j);
    forall k | 0 <= k < |next|
      ensures FrameAt(fs, root, next, k, seen + Subtree(fs, c))
    {
      if k < n {
        assert FrameAt(fs, root, stack, k, seen);
        PassOuter(fs, root, stack[k], k, seen, c);
      }
    }
    AdvanceFollows(fs, stack, j);
  }

  lemma AdvanceFollows(fs: Tree, stack: seq<Frame>, j: nat)
    requires stack != [] && forall k :: 0 <= k < |stack| - 1 ==> FollowsAt(fs, stack, k)
    ensures forall k :: 0 <= k < |stack| - 1 ==> FollowsAt(fs, Advance(stack, j), k)
  {
    forall k | 0 <= k < |stack| - 1
      ensures FollowsAt(fs, Advance(stack, j), k)
    {
      assert FollowsAt(fs, stack, k);
    }
  }

  /** The cursor passes an entry that is finished with: a file, or a directory too deep to open. */
  lemma Pass(fs: Tree, root: Path, stack: seq<Frame>, seen: set<Path>, j: nat)
    requires Walking(fs, root, stack, seen) && stack != [] && Yields(fs, Top(stack), j)
    requires Live(fs[Top(stack).path].slots[j])
    ensures var c := Kid(fs, Top(stack).path, j);
      && Walking(fs, root, Advance(stack, j), seen + Subtree(fs, c))
      && Open(Advance(stack, j)) == Open(stack)
      && Todo(fs, root, Advance(stack, j), seen + Subtree(fs, c)) < Todo(fs, root, stack, seen)
  {
    var c := Kid(fs, Top(stack).path, j);
    Child(fs, root, stack, seen, j);
    TopFacts(fs, root, stack, seen);
    PassStack(fs, root, stack, seen, j);
    OpenAdvance(stack, j);
    SubtreeParents(fs, c);
    assert c in Todo(fs, root, stack, seen);
  }

  /** The cursor passes "." or "..". */
  lemma Skip(fs: Tree, root: Path, stack: seq<Frame>, seen: set<Path>, j: nat)
    requires Walking(fs, root, stack, seen) && stack != [] && Yields(fs, Top(stack), j)
    requires !Live(fs[Top(stack).path].slots[j])
    ensures Walking(fs, root, Advance(stack, j), seen) && Open(Advance(stack, j)) == Open(stack)
  {
    var next := Advance(stack, j);
    TopFacts(fs, root, stack, seen);
    PassDot(fs, root, Top(stack), |stack| - 1, seen, j);
    OpenAdvance(stack, j);
    forall k | 0 <= k < |next|
      ensures FrameAt(fs, root, next, k, seen)
    {
      assert FrameAt(fs, root, stack, k, seen);
    }
    AdvanceFollows(fs, stack, j);
  }

  lemma PushStack(fs: Tree, root: Path, stack: seq<Frame>, seen: set<Path>, j: nat)
    requires Walking(fs, root, stack, seen) && stack != [] && |stack| < MAX_STACK_DEPTH
    requires Yields(fs, Top(stack), j) && Live(fs[Top(stack).path].slots[j])
    requires IsDir(fs, Kid(fs, Top(stack).path, j))
    ensures StackOk(fs, root, Advance(stack, j) + [Frame(Kid(fs, Top(stack).path, j), 0)], seen)
  {
    var n := |stack| - 1;
    var c := Kid(fs, Top(stack).path, j);
    var next := Advance(stack, j) + [Frame(c, 0)];
    Child(fs, root, stack, seen, j);
    TopFacts(fs, root, stack, seen);
    forall k | 0 <= k < |next|
      ensures FrameAt(fs, root, next, k, seen)
    {
      if k < n {
        assert FrameAt(fs, root, stack, k, seen) && next[k] == stack[k];
      } else if k == n {
        PushTop(fs, root, Top(stack), n, seen, j);
        assert next[n] == Top(stack).(pos := j + 1);
      } else {
        PushNew(fs, root, c, n + 1, Open(stack), seen);
        assert next[n + 1] == Frame(c, 0);
      }
    }
    AdvanceFollows(fs, stack, j);
    forall k | 0 <= k < |next| - 1
      ensures FollowsAt(fs, next, k)
    {
      if k < n {
        assert FollowsAt(fs, Advance(stack, j), k);
      }
    }
  }

  lemma PushSeen(fs: Tree, root: Path, open: set<Path>, seen: set<Path>, c: Path)
    requires SeenOk(fs, root, open, seen)
    ensures SeenOk(fs, root, open + {c}, seen)
  {
    forall p | p in seen
      ensures p[..|p| - 1] in seen + (open + {c})
    {
      assert p[..|p| - 1] in seen + open;
    }
  }

  lemma OpenPush(stack: seq<Frame>, j: nat, f: Frame)
    requires stack != []
    ensures Open(Advance(stack, j) + [f]) == Open(stack) + {f.path}
  {
    OpenAdvance(stack, j);
    var next := Advance(stack, j) + [f];
    assert next[..|next| - 1] == Advance(stack, j);
  }

  lemma LessTodo(fs: Tree, root: Path, stack: seq<Frame>, next: seq<Frame>, seen: set<Path>, c: Path)
    requires Open(next) == Open(stack) + {c} && c in fs && Below(root, c) && c !in seen && c !in Open(stack)
    ensures Todo(fs, root, next, seen) < Todo(fs, root, stack, seen)
  {
    assert c in Todo(fs, root, stack, seen) && c !in Todo(fs, root, next, seen);
  }

  /** A directory below is opened. */
  lemma Push(fs: Tree, root: Path, stack: seq<Frame>, seen: set<Path>, j: nat)
    requires Walking(fs, root, stack, seen) && stack != [] && |stack| < MAX_STACK_DEPTH
    requires Yields(fs, Top(stack), j) && Live(fs[Top(stack).path].slots[j])
    requires IsDir(fs, Kid(fs, Top(stack).path, j))
    ensures var c := Kid(fs, Top(stack).path, j); var next := Advance(stack, j) + [Frame(c, 0)];
      && Walking(fs, root, next, seen) && Open(next) == Open(stack) + {c}
      && Todo(fs, root, next, seen) < Todo(fs, root, stack, seen)
  {
    var c := Kid(fs, Top(stack).path, j);
    var next := Advance(stack, j) + [Frame(c, 0)];
    Child(fs, root, stack, seen, j);
    assert StackOk(fs, root, next, seen) by {
      PushStack(fs, root, stack, seen, j);
    }
    OpenPush(stack, j, Frame(c, 0));
    assert SeenOk(fs, root, Open(next), seen) by {
      PushSeen(fs, root, Open(stack), seen, c);
    }
    LessTodo(fs, root, stack, next, seen, c);
  }

  /** At the end of a directory all below it has been seen. */
  lemma AllBelow(fs: Tree, root: Path, stack: seq<Frame>, seen: set<Path>, p: Path)
    requires Walking(fs, root, stack, seen) && stack != [] && AtEnd(fs, Top(stack))
    requires p in fs && Below(Top(stack).path, p)
    ensures p in seen
  {
    var d := Top(stack).path;
    TopFacts(fs, root, stack, seen);
    Ancestors(fs, d, p);
    var i :| 0 <= i < |fs[d].slots| && fs[d].slots[i] == p[|d|];
    assert Settled(fs, Top(stack), true, seen, i);
    assert Kid(fs, d, i) == d + [p[|d|]];
  }

  lemma PopFrame(fs: Tree, root: Path, stack: seq<Frame>, seen: set<Path>, k: nat)
    requires Walking(fs, root, stack, seen) && k + 1 < |stack|
    ensures FrameOk(fs, root, stack[k], k, k == |stack| - 2, seen + {Top(stack).path})
  {
    var f, c := stack[k], Top(stack).path;
    assert c !in seen && |c| == |root| + |stack| - 1 by {
      TopFacts(fs, root, stack, seen);
    }
    assert FrameOk(fs, root, f, k, false, seen) by {
      assert FrameAt(fs, root, stack, k, seen);
    }
    if k == |stack| - 2 {
      assert Follows(fs, f, Frame(c, 0)) by {
        assert FollowsAt(fs, stack, k);
      }
      assert SlotsOk(fs, f.path) by {
        assert NodeOk(fs, f.path);
      }
      PopOuter(fs, root, f, k, true, seen, c);
    } else {
      PopOuter(fs, root, f, k, false, seen, c);
    }
  }

  lemma PopStack(fs: Tree, root: Path, stack: seq<Frame>, seen: set<Path>)
    requires Walking(fs, root, stack, seen) && |stack| > 1
    ensures StackOk(fs, root, stack[..|stack| - 1], seen + {Top(stack).path})
  {
    var c := Top(stack).path;
    var next := stack[..|stack| - 1];
    forall k | 0 <= k < |next|
      ensures FrameAt(fs, root, next, k, seen + {c})
    {
      PopFrame(fs, root, stack, seen, k);
      assert next[k] == stack[k];
    }
    forall k | 0 <= k < |next| - 1
      ensures FollowsAt(fs, next, k)
    {
      assert FollowsAt(fs, stack, k);
    }
  }

  lemma PopParent(fs: Tree, root: Path, stack: seq<Frame>, seen: set<Path>)
    requires Walking(fs, root, stack, seen) && |stack| > 1
    ensures var c := Top(stack).path;
      c in fs && Below(root, c) && c !in seen && c[..|c| - 1] == stack[|stack| - 2].path
  {
    TopFacts(fs, root, stack, seen);
    assert FollowsAt(fs, stack, |stack| - 2);
  }

  /** A finished directory other than the root is closed. */
  lemma Pop(fs: Tree, root: Path, stack: seq<Frame>, seen: set<Path>)
    requires Walking(fs, root, stack, seen) && |stack| > 1 && AtEnd(fs, Top(stack))
    ensures var c := Top(stack).path; var next := stack[..|stack| - 1];
      && Walking(fs, root, next, seen + {c}) && Open(stack) == Open(next) + {c}
      && Todo(fs, root, next, seen + {c}) == Todo(fs, root, stack, seen)
  {
    var c := Top(stack).path;
    var next := stack[..|stack| - 1];
    PopStack(fs, root, stack, seen);
    PopParent(fs, root, stack, seen);
    TopOpen(next);
    assert Top(next) == stack[|stack| - 2];
    forall q | q in fs && c <= q
      ensures q in seen + {c}
    {
      if q != c {
        AllBelow(fs, root, stack, seen, q);
      }
    }
    PopSeen(fs, root, Open(next), seen, c);
  }

  lemma PopSeen(fs: Tree, root: Path, open: set<Path>, seen: set<Path>, c: Path)
    requires SeenOk(fs, root, open + {c}, seen) && c in fs && Below(root, c)
    requires c[..|c| - 1] in open
    requires forall q :: q in fs && c <= q ==> q in seen + {c}
    ensures SeenOk(fs, root, open, seen + {c})
  {
  }

  lemma TopOpen(stack: seq<Frame>)
    requires stack != []
    ensures Top(stack).path in Open(stack)
  {
  }

  /** The walk starts at the root with nothing seen. */
  lemma Begin(fs: Tree, root: Path)
    requires Proper(fs) && IsDir(fs, root)
    ensures Walking(fs, root, [Frame(root, 0)], {})
  {
    PushNew(fs, root, root, 0, {}, {});
  }
}
