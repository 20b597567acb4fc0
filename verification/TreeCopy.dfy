/** Copy mode of f_cp_or_rm_rf (amssu-rcm/source/tools.c) against recursive copying. */
module TreeCopy {
  import opened Options
  import opened TreeFs
  import opened TreeWalk
  import opened TreeRemove

  /** A node without the order of its slots. */
  datatype Content = Folder | Data(bytes: seq<Byte>)

  function ContentOf(n: Node): Content {
    match n case Dir(_) => Folder case File(d) => Data(d)
  }

  function View(fs: Tree, p: Path): Option<Content> {
    if p in fs then Some(ContentOf(fs[p])) else None
  }

  function Dest(src: Path, dst: Path, p: Path): Path
    requires src <= p
  {
    dst + p[|src|..]
  }

  function Source(src: Path, dst: Path, p: Path): Path
    requires dst <= p
  {
    src + p[|dst|..]
  }

  lemma DestSource(src: Path, dst: Path, p: Path)
    requires src <= p
    ensures Source(src, dst, Dest(src, dst, p)) == p
  {
  }

  lemma SourceDest(src: Path, dst: Path, p: Path)
    requires dst <= p
    ensures Dest(src, dst, Source(src, dst, p)) == p
  {
  }

  /** Everything below `root` that is not inside a directory the walk never opens, nor is one. */
  ghost function Copied(fs: Tree, root: Path): set<Path> {
    Reached(fs, root, Subtree(fs, root))
  }

  ghost predicate InDeep(fs: Tree, root: Path, p: Path) {
    exists q :: TooDeep(fs, root, q) && q <= p
  }

  ghost function Reached(fs: Tree, root: Path, paths: set<Path>): set<Path> {
    set p | p in paths && !InDeep(fs, root, p)
  }

  /** Everything is copied exactly if the tree is shallow. */
  lemma ShallowTreesCopied(fs: Tree, root: Path)
    ensures Copied(fs, root) == Subtree(fs, root) <==> Shallow(fs, root)
  {
    if Shallow(fs, root) {
      forall p | p in Subtree(fs, root)
        ensures !InDeep(fs, root, p)
      {
        if q :| TooDeep(fs, root, q) && q <= p {
          assert false;
        }
      }
    } else {
      var q :| IsDir(fs, q) && root <= q && |q| >= |root| + MAX_STACK_DEPTH;
      assert TooDeep(fs, root, q) && q in Subtree(fs, root) && InDeep(fs, root, q);
    }
  }

  /** What path p holds once the nodes `done` below src have been copied to dst. */
  function Wanted(fs: Tree, src: Path, dst: Path, done: set<Path>, p: Path): Option<Content> {
    if dst <= p && Source(src, dst, p) in done && Source(src, dst, p) in fs
    then Some(ContentOf(fs[Source(src, dst, p)]))
    else View(fs, p)
  }

  /** Neither folder is inside the other, and what the destination holds already has the right kind. */
  ghost predicate Compatible(fs: Tree, src: Path, dst: Path) {
    && !(src <= dst) && !(dst <= src) && Live(dst[|dst| - 1])
    && (Creatable(fs, dst) || IsDir(fs, dst))
    && (forall p :: p in fs && src <= p && Dest(src, dst, p) in fs ==> fs[Dest(src, dst, p)].Dir? == fs[p].Dir?)
  }

  /** A path that a copy to dst leaves alone: not under dst, and not the directory in which dst is
      created. */
  predicate Apart(fs: Tree, dst: Path, p: Path) {
    !(dst <= p) && (dst in fs || dst == [] || p != dst[..|dst| - 1])
  }

  /** Directory p of fs is still there and has at most got more entries, behind the old ones. */
  predicate Extended(fs: Tree, now: Tree, p: Path)
    requires p in fs && fs[p].Dir?
  {
    p in now && now[p].Dir? && fs[p].slots <= now[p].slots
  }

  /** The volume while `done` has been copied: as wanted, the source untouched. */
  ghost predicate Copying(fs: Tree, now: Tree, src: Path, dst: Path, done: set<Path>) {
    && Proper(now)
    && (forall p :: View(now, p) == Wanted(fs, src, dst, done, p))
    && (forall p :: p in fs && src <= p ==> p in now && now[p] == fs[p])
    && (forall p {:trigger Apart(fs, dst, p)} :: p in fs && Apart(fs, dst, p) ==> p in now && now[p] == fs[p])
    && (forall p {:trigger Extended(fs, now, p)} :: p in fs && fs[p].Dir? ==> Extended(fs, now, p))
    && (forall p :: p in done ==> p in fs && src <= p)
  }

  lemma SourceApart(src: Path, dst: Path, p: Path, q: Path)
    requires !(src <= dst) && !(dst <= src) && src <= p && dst <= q
    ensures p != q && !(src <= q) && !(dst <= p)
  {
  }

  /** From `now` to `next` only path t gets new contents, and nothing below src changes at all. */
  ghost predicate OnlyNew(now: Tree, next: Tree, t: Path, content: Content, src: Path) {
    && View(next, t) == Some(content)
    && (forall p :: p != t ==> View(next, p) == View(now, p))
    && (forall p :: p in now && src <= p ==> p in next && next[p] == now[p])
    && (forall p :: p in now && Apart(now, t, p) ==> p in next && next[p] == now[p])
    && (forall p :: p in now && now[p].Dir? ==> Extended(now, next, p))
  }

  lemma WantedOne(fs: Tree, src: Path, dst: Path, done: set<Path>, c: Path, p: Path)
    requires c in fs && src <= c
    ensures Wanted(fs, src, dst, done + {c}, p) ==
      if p == Dest(src, dst, c) then Some(ContentOf(fs[c])) else Wanted(fs, src, dst, done, p)
  {
    DestSource(src, dst, c);
    if dst <= p {
      SourceDest(src, dst, p);
    }
  }

  /** One more node c of the source exists at its destination. */
  lemma CopyOne(fs: Tree, now: Tree, next: Tree, src: Path, dst: Path, done: set<Path>, c: Path)
    requires Copying(fs, now, src, dst, done) && Compatible(fs, src, dst)
    requires c in fs && src <= c && Proper(next)
    requires OnlyNew(now, next, Dest(src, dst, c), ContentOf(fs[c]), src)
    ensures Copying(fs, next, src, dst, done + {c})
  {
    forall p
      ensures View(next, p) == Wanted(fs, src, dst, done + {c}, p)
    {
      ViewAt(fs, now, src, dst, done, p);
      WantedOne(fs, src, dst, done, c, p);
    }
    assert dst in fs ==> Extended(fs, now, dst);
    forall p | p in fs && Apart(fs, dst, p)
      ensures p in next && next[p] == fs[p]
    {
      ApartOne(fs, now, dst, Dest(src, dst, c), p);
    }
    forall p | p in fs && fs[p].Dir?
      ensures Extended(fs, next, p)
    {
      assert Extended(fs, now, p) && Extended(now, next, p);
    }
  }

  lemma ApartOne(fs: Tree, now: Tree, dst: Path, t: Path, p: Path)
    requires dst <= t && Apart(fs, dst, p) && (dst in fs ==> dst in now)
    ensures Apart(now, t, p)
  {
    assert t != dst && t != [] ==> dst <= t[..|t| - 1];
  }

  lemma ViewAt(fs: Tree, now: Tree, src: Path, dst: Path, done: set<Path>, p: Path)
    requires Copying(fs, now, src, dst, done)
    ensures View(now, p) == Wanted(fs, src, dst, done, p)
  {
  }

  lemma DestParts(src: Path, dst: Path, d: Path, c: Path)
    requires src <= d && c != [] && c[..|c| - 1] == d
    ensures src <= c
    ensures var t := Dest(src, dst, c); t != [] && t[..|t| - 1] == Dest(src, dst, d) && t[|t| - 1] == c[|c| - 1]
  {
    assert c == d + [c[|c| - 1]];
  }

  /** c is an entry of the copied directory d that has not been copied yet. */
  ghost predicate NextUp(fs: Tree, src: Path, done: set<Path>, d: Path, c: Path) {
    && d in done && IsDir(fs, d) && src <= d
    && c in fs && src <= c && c !in done && c != [] && c[..|c| - 1] == d && Live(c[|c| - 1])
  }

  /** What a destination path holds before its source is copied, and that it can be created. */
  lemma Ready(fs: Tree, now: Tree, src: Path, dst: Path, done: set<Path>, d: Path, c: Path)
    requires Copying(fs, now, src, dst, done) && Compatible(fs, src, dst)
    requires NextUp(fs, src, done, d, c)
    ensures src <= c
    ensures var t := Dest(src, dst, c);
      && t != [] && t[|t| - 1] == c[|c| - 1] && !(src <= t) && !(src <= t[..|t| - 1])
      && (Creatable(now, t) || (t in now && now[t].Dir? == fs[c].Dir?))
  {
    DestParts(src, dst, d, c);
    var t := Dest(src, dst, c);
    var up := Dest(src, dst, d);
    SourceApart(src, dst, c, t);
    SourceApart(src, dst, d, up);
    assert View(now, up) == Some(Folder) by {
      DestSource(src, dst, d);
      ViewAt(fs, now, src, dst, done, up);
    }
    assert View(now, t) == View(fs, t) by {
      DestSource(src, dst, c);
      ViewAt(fs, now, src, dst, done, t);
    }
  }

  lemma MadeViews(now: Tree, t: Path, n: Node, src: Path)
    requires Creatable(now, t) && !(src <= t)
    requires !(src <= t[..|t| - 1])
    ensures OnlyNew(now, Made(now, t, n), t, ContentOf(n), src)
  {
  }

  lemma StoredViews(now: Tree, t: Path, data: seq<Byte>, src: Path)
    requires t != [] && !(src <= t) && !(src <= t[..|t| - 1])
    requires Creatable(now, t) || (t in now && now[t].File?)
    ensures OnlyNew(now, Stored(now, t, data), t, Data(data), src)
  {
    if t !in now {
      MadeViews(now, t, File(data), src);
    }
  }

  // ---------------------------------------------------------------- what that means

  /** Node p of the source is reached: no directory 12 or more levels below src is above it. */
  ghost predicate Comes(fs: Tree, src: Path, p: Path) {
    && p in fs && src <= p
    && forall q :: q in fs && fs[q].Dir? && src <= q && |src| + 12 <= |q| ==> !(q <= p)
  }

  /** The volume `now` is fs with src copied to dst: what is reached is there, files byte by byte;
      no other node came, went or changed its kind or bytes; and all that is not under dst is as
      it was, but for the directory in which dst was created. */
  ghost predicate CopiedTo(fs: Tree, now: Tree, src: Path, dst: Path) {
    && (forall p :: Comes(fs, src, p) ==>
          var t := dst + p[|src|..];
          t in now && if fs[p].File? then now[t] == fs[p] else now[t].Dir?)
    && (forall t :: !(dst <= t && Comes(fs, src, src + t[|dst|..])) ==>
          && (t in now <==> t in fs)
          && (t in fs ==> if fs[t].File? then now[t] == fs[t] else now[t].Dir? && fs[t].slots <= now[t].slots))
    && (forall t :: t in fs && !(dst <= t) && (dst in fs || t != dst[..|dst| - 1]) ==> t in now && now[t] == fs[t])
  }

  lemma ComesIsCopied(fs: Tree, src: Path, p: Path)
    ensures Comes(fs, src, p) <==> p in Copied(fs, src)
  {
    if p in Copied(fs, src) {
      forall q | q in fs && fs[q].Dir? && src <= q && |src| + 12 <= |q|
        ensures !(q <= p)
      {
        assert TooDeep(fs, src, q);
      }
    }
  }

  lemma CopyingCopies(fs: Tree, now: Tree, src: Path, dst: Path)
    requires Copying(fs, now, src, dst, Copied(fs, src)) && Compatible(fs, src, dst)
    ensures CopiedTo(fs, now, src, dst)
  {
    forall p | Comes(fs, src, p)
      ensures var t := dst + p[|src|..];
        t in now && if fs[p].File? then now[t] == fs[p] else now[t].Dir?
    {
      ComesIsCopied(fs, src, p);
      DestSource(src, dst, p);
      ViewAt(fs, now, src, dst, Copied(fs, src), Dest(src, dst, p));
    }
    forall t | !(dst <= t && Comes(fs, src, src + t[|dst|..]))
      ensures (t in now <==> t in fs)
        && (t in fs ==> if fs[t].File? then now[t] == fs[t] else now[t].Dir? && fs[t].slots <= now[t].slots)
    {
      if dst <= t {
        ComesIsCopied(fs, src, Source(src, dst, t));
      }
      ViewAt(fs, now, src, dst, Copied(fs, src), t);
      assert t in fs && fs[t].Dir? ==> Extended(fs, now, t);
    }
    forall t | t in fs && !(dst <= t) && (dst in fs || t != dst[..|dst| - 1])
      ensures t in now && now[t] == fs[t]
    {
      assert Apart(fs, dst, t);
    }
  }

  // ---------------------------------------------------------------- both modes

  /** One call of f_cp_or_rm_rf: the volume it found, the source, and the destination when copying. */
  datatype Job = Job(fs: Tree, src: Path, dst: Option<Path>) {
    /** The volume `now` when the walk has come to (stack, seen). */
    ghost predicate Sound(now: Tree, stack: seq<Frame>, seen: set<Path>) {
      && Walking(fs, src, stack, seen)
      && match dst
         case None => now == Purge(fs, Gone(fs, src, seen))
         case Some(d) => Compatible(fs, src, d) && Copying(fs, now, src, d, Reached(fs, src, seen + Open(stack)))
    }

    /** What the call promises when the source is a directory. */
    ghost predicate Done(now: Tree) {
      match dst
      case None => UnlinkResult(now, src) == Purge(fs, Doomed(fs, src))
      case Some(d) => Copying(fs, now, src, d, Copied(fs, src))
    }

    lemma Start(now: Tree)
      requires Proper(fs) && IsDir(fs, src)
      requires match dst case None => now == fs case Some(d) => Compatible(fs, src, d) && now == MkdirResult(fs, d)
      ensures Sound(now, [Frame(src, 0)], {})
    {
      Begin(fs, src);
      match dst
      case None =>
        assert Gone(fs, src, {}) == {};
        PurgeNothing(fs);
      case Some(d) =>
        assert Copying(fs, fs, src, d, {});
        assert src <= d[..|d| - 1] ==> src <= d;
        assert Dest(src, d, src) == d && {} + {src} == {src};
        MkdirCopies(fs, fs, src, d, {}, src);
        assert Open([Frame(src, 0)]) == {src};
        assert Reached(fs, src, {} + Open([Frame(src, 0)])) == {src};
    }

    /** What the next f_readdir on the volume as it is now finds. */
    lemma Reads(now: Tree, stack: seq<Frame>, seen: set<Path>)
      requires Sound(now, stack, seen) && stack != []
      ensures var f := Top(stack); IsDir(now, f.path) && f.pos <= |now[f.path].slots|
    {
      OpenNow(fs, src, stack, seen);
      TopFacts(fs, src, stack, seen);
    }

    lemma ReadsOne(now: Tree, stack: seq<Frame>, seen: set<Path>, j: nat)
      requires Sound(now, stack, seen) && stack != [] && Yields(now, Top(stack), j)
      ensures Yields(fs, Top(stack), j) && fs[Top(stack).path].slots[j] == now[Top(stack).path].slots[j]
      ensures Live(fs[Top(stack).path].slots[j]) ==>
        && Kid(fs, Top(stack).path, j) in fs
        && IsDir(now, Kid(now, Top(stack).path, j)) == IsDir(fs, Kid(fs, Top(stack).path, j))
    {
      TopFacts(fs, src, stack, seen);
      if dst.None? {
        ReadsEntry(fs, src, stack, seen, j);
        if Live(fs[Top(stack).path].slots[j]) {
          Child(fs, src, stack, seen, j);
          PurgeKeeps(fs, Gone(fs, src, seen), Kid(fs, Top(stack).path, j));
        }
      }
    }

    lemma ReadsNone(now: Tree, stack: seq<Frame>, seen: set<Path>)
      requires Sound(now, stack, seen) && stack != [] && AtEnd(now, Top(stack))
      ensures AtEnd(fs, Top(stack))
    {
      TopFacts(fs, src, stack, seen);
      if dst.None? {
        ReadsEnd(fs, src, stack, seen);
      }
    }

    lemma SkipDot(now: Tree, stack: seq<Frame>, seen: set<Path>, j: nat)
      requires Sound(now, stack, seen) && stack != [] && Yields(fs, Top(stack), j)
      requires !Live(fs[Top(stack).path].slots[j])
      ensures Sound(now, Advance(stack, j), seen)
      ensures Todo(fs, src, Advance(stack, j), seen) == Todo(fs, src, stack, seen)
    {
      Skip(fs, src, stack, seen, j);
    }

    lemma SkipDeep(now: Tree, stack: seq<Frame>, seen: set<Path>, j: nat)
      requires Sound(now, stack, seen) && |stack| == MAX_STACK_DEPTH
      requires Yields(fs, Top(stack), j) && Live(fs[Top(stack).path].slots[j]) && IsDir(fs, Kid(fs, Top(stack).path, j))
      ensures var more := seen + Subtree(fs, Kid(fs, Top(stack).path, j));
        Sound(now, Advance(stack, j), more) && Todo(fs, src, Advance(stack, j), more) < Todo(fs, src, stack, seen)
    {
      var c := Kid(fs, Top(stack).path, j);
      assert TooDeep(fs, src, c) by {
        Child(fs, src, stack, seen, j);
      }
      Pass(fs, src, stack, seen, j);
      if dst.None? {
        GoneDeep(fs, src, seen, c);
      } else {
        ReachedDeep(fs, src, seen, Open(stack), c);
      }
    }

    /** A directory is entered; when copying, its destination has been made. */
    lemma Enter(now: Tree, next: Tree, stack: seq<Frame>, seen: set<Path>, j: nat)
      requires Sound(now, stack, seen) && 0 < |stack| < MAX_STACK_DEPTH
      requires Yields(fs, Top(stack), j) && Live(fs[Top(stack).path].slots[j]) && IsDir(fs, Kid(fs, Top(stack).path, j))
      requires dst.None? ==> next == now
      requires dst.Some? ==> src <= Kid(fs, Top(stack).path, j)
      requires dst.Some? ==> next == MkdirResult(now, Dest(src, dst.value, Kid(fs, Top(stack).path, j)))
      ensures var more := Advance(stack, j) + [Frame(Kid(fs, Top(stack).path, j), 0)];
        Sound(next, more, seen) && Todo(fs, src, more, seen) < Todo(fs, src, stack, seen)
    {
      var c := Kid(fs, Top(stack).path, j);
      Push(fs, src, stack, seen, j);
      if dst.Some? {
        CopyDir(now, stack, seen, j, dst.value);
        NotDeep(stack, seen, j);
        ReachedOne(fs, src, seen + Open(stack), c);
        assert seen + (Open(stack) + {c}) == seen + Open(stack) + {c};
      }
    }

    lemma CopyDir(now: Tree, stack: seq<Frame>, seen: set<Path>, j: nat, d: Path)
      requires Sound(now, stack, seen) && 0 < |stack| < MAX_STACK_DEPTH && dst == Some(d)
      requires Yields(fs, Top(stack), j) && Live(fs[Top(stack).path].slots[j]) && IsDir(fs, Kid(fs, Top(stack).path, j))
      requires src <= Kid(fs, Top(stack).path, j)
      ensures var c := Kid(fs, Top(stack).path, j);
        Copying(fs, MkdirResult(now, Dest(src, d, c)), src, d, Reached(fs, src, seen + Open(stack)) + {c})
    {
      var c := Kid(fs, Top(stack).path, j);
      var done := Reached(fs, src, seen + Open(stack));
      NotDeep(stack, seen, j);
      Ready(fs, now, src, d, done, Top(stack).path, c);
      MkdirCopies(fs, now, src, d, done, c);
    }

    /** A file has been unlinked, or copied. */
    lemma PassFile(now: Tree, next: Tree, stack: seq<Frame>, seen: set<Path>, j: nat)
      requires Sound(now, stack, seen) && stack != [] && Yields(fs, Top(stack), j) && Live(fs[Top(stack).path].slots[j])
      requires Kid(fs, Top(stack).path, j) in fs && fs[Kid(fs, Top(stack).path, j)].File?
      requires dst.None? ==> next == UnlinkResult(now, Kid(fs, Top(stack).path, j))
      requires dst.Some? ==> src <= Kid(fs, Top(stack).path, j)
      requires dst.Some? ==> var t := Dest(src, dst.value, Kid(fs, Top(stack).path, j));
        (t in now || Creatable(now, t)) && next == Stored(now, t, fs[Kid(fs, Top(stack).path, j)].data)
      ensures var more := seen + Subtree(fs, Kid(fs, Top(stack).path, j));
        Sound(next, Advance(stack, j), more) && Todo(fs, src, Advance(stack, j), more) < Todo(fs, src, stack, seen)
    {
      var c := Kid(fs, Top(stack).path, j);
      Pass(fs, src, stack, seen, j);
      if dst.None? {
        CanUnlink(now, stack, seen, j);
        RemoveFile(stack, seen, j);
      } else {
        CopyFile(now, stack, seen, j, dst.value);
        ReachedFile(stack, seen, j);
      }
    }

    lemma RemoveFile(stack: seq<Frame>, seen: set<Path>, j: nat)
      requires Walking(fs, src, stack, seen) && stack != [] && Yields(fs, Top(stack), j)
      requires Live(fs[Top(stack).path].slots[j])
      requires Kid(fs, Top(stack).path, j) in fs && fs[Kid(fs, Top(stack).path, j)].File?
      ensures var c := Kid(fs, Top(stack).path, j);
        Purge(Purge(fs, Gone(fs, src, seen)), {c}) == Purge(fs, Gone(fs, src, seen + Subtree(fs, c)))
    {
      var c := Kid(fs, Top(stack).path, j);
      Child(fs, src, stack, seen, j);
      GoneFile(fs, src, seen, c);
      PurgeTwice(fs, Gone(fs, src, seen), {c});
    }

    lemma ReachedFile(stack: seq<Frame>, seen: set<Path>, j: nat)
      requires Walking(fs, src, stack, seen) && stack != [] && Yields(fs, Top(stack), j)
      requires Live(fs[Top(stack).path].slots[j])
      requires Kid(fs, Top(stack).path, j) in fs && fs[Kid(fs, Top(stack).path, j)].File?
      ensures var c := Kid(fs, Top(stack).path, j);
        Reached(fs, src, seen + Subtree(fs, c) + Open(stack)) == Reached(fs, src, seen + Open(stack)) + {c}
    {
      var c := Kid(fs, Top(stack).path, j);
      FileSubtree(fs, c);
      NotDeep(stack, seen, j);
      ReachedOne(fs, src, seen + Open(stack), c);
      assert seen + {c} + Open(stack) == seen + Open(stack) + {c};
    }

    lemma CopyFile(now: Tree, stack: seq<Frame>, seen: set<Path>, j: nat, d: Path)
      requires Sound(now, stack, seen) && stack != [] && dst == Some(d)
      requires Yields(fs, Top(stack), j) && Live(fs[Top(stack).path].slots[j])
      requires Kid(fs, Top(stack).path, j) in fs && fs[Kid(fs, Top(stack).path, j)].File?
      ensures var c := Kid(fs, Top(stack).path, j); src <= c
      ensures var c := Kid(fs, Top(stack).path, j); var t := Dest(src, d, c);
        && (Creatable(now, t) || (t in now && now[t].File?)) && t != c && c in now && now[c] == fs[c]
        && Copying(fs, Stored(now, t, fs[c].data), src, d, Reached(fs, src, seen + Open(stack)) + {c})
    {
      var c := Kid(fs, Top(stack).path, j);
      var done := Reached(fs, src, seen + Open(stack));
      NotDeep(stack, seen, j);
      Ready(fs, now, src, d, done, Top(stack).path, c);
      StoreCopies(fs, now, src, d, done, c);
    }

    /** A file that f_readdir yielded can be unlinked. */
    lemma CanUnlink(now: Tree, stack: seq<Frame>, seen: set<Path>, j: nat)
      requires Sound(now, stack, seen) && stack != [] && dst.None?
      requires Yields(fs, Top(stack), j) && Live(fs[Top(stack).path].slots[j])
      requires Kid(fs, Top(stack).path, j) in fs && fs[Kid(fs, Top(stack).path, j)].File?
      ensures Removable(now, Kid(fs, Top(stack).path, j))
    {
      Child(fs, src, stack, seen, j);
      PurgeKeeps(fs, Gone(fs, src, seen), Kid(fs, Top(stack).path, j));
    }

    /** f_opendir succeeds on the directory that is entered. */
    lemma Opens(now: Tree, stack: seq<Frame>, seen: set<Path>)
      requires Sound(now, stack, seen) && stack != []
      ensures IsDir(now, Top(stack).path)
    {
      Reads(now, stack, seen);
    }

    /** The open directory and its files and subdirectories in reach are not inside a deep one. */
    lemma NotDeep(stack: seq<Frame>, seen: set<Path>, j: nat)
      requires Walking(fs, src, stack, seen) && stack != [] && Yields(fs, Top(stack), j)
      requires Live(fs[Top(stack).path].slots[j])
      requires IsDir(fs, Kid(fs, Top(stack).path, j)) ==> |stack| < MAX_STACK_DEPTH
      ensures var c := Kid(fs, Top(stack).path, j);
        NextUp(fs, src, Reached(fs, src, seen + Open(stack)), Top(stack).path, c) && !InDeep(fs, src, c)
    {
      var c := Kid(fs, Top(stack).path, j);
      TopFacts(fs, src, stack, seen);
      Child(fs, src, stack, seen, j);
      forall q | TooDeep(fs, src, q)
        ensures !(q <= c) && !(q <= Top(stack).path)
      {
        assert q <= c && |q| == |c| ==> q == c;
      }
    }

    /** The end of a directory below the root. */
    lemma Leave(now: Tree, next: Tree, stack: seq<Frame>, seen: set<Path>)
      requires Sound(now, stack, seen) && |stack| > 1 && AtEnd(fs, Top(stack))
      requires dst.None? ==> next == UnlinkResult(now, Top(stack).path)
      requires dst.Some? ==> next == now
      ensures Sound(next, stack[..|stack| - 1], seen + {Top(stack).path})
      ensures Todo(fs, src, stack[..|stack| - 1], seen + {Top(stack).path}) == Todo(fs, src, stack, seen)
    {
      var c := Top(stack).path;
      Pop(fs, src, stack, seen);
      if dst.None? {
        assert UnlinkResult(now, c) == Purge(fs, Gone(fs, src, seen + {c})) by {
          UnlinkFinished(stack, seen);
        }
      } else {
        assert seen + {c} + Open(stack[..|stack| - 1]) == seen + Open(stack);
      }
    }

    /** Unlinking a finished directory removes it unless it is spared. */
    lemma UnlinkFinished(stack: seq<Frame>, seen: set<Path>)
      requires Walking(fs, src, stack, seen) && stack != [] && AtEnd(fs, Top(stack))
      ensures var c := Top(stack).path;
        UnlinkResult(Purge(fs, Gone(fs, src, seen)), c) == Purge(fs, Gone(fs, src, seen + {c}))
    {
      var c := Top(stack).path;
      EmptyNow(fs, src, stack, seen);
      GoneDir(fs, src, seen, c);
      PurgeTwice(fs, Gone(fs, src, seen), {c});
      assert Gone(fs, src, seen) + {} == Gone(fs, src, seen);
    }

    lemma AllSeen(stack: seq<Frame>, seen: set<Path>)
      requires Walking(fs, src, stack, seen) && |stack| == 1 && AtEnd(fs, Top(stack))
      ensures Top(stack).path == src && seen + {src} == Subtree(fs, src)
    {
      TopFacts(fs, src, stack, seen);
      assert Top(stack).path == src;
      forall p | p in fs && Below(src, p)
        ensures p in seen
      {
        AllBelow(fs, src, stack, seen, p);
      }
    }

    lemma LastClosed(stack: seq<Frame>, seen: set<Path>)
      requires Walking(fs, src, stack, seen) && |stack| == 1 && AtEnd(fs, Top(stack))
      ensures Todo(fs, src, stack, seen) == Todo(fs, src, [], seen) == {}
    {
      AllSeen(stack, seen);
      assert forall p :: p in fs && Below(src, p) ==> p in Subtree(fs, src);
    }

    /** The end of the root directory: everything below it has been seen. */
    lemma Finish(now: Tree, stack: seq<Frame>, seen: set<Path>)
      requires Sound(now, stack, seen) && |stack| == 1 && AtEnd(fs, Top(stack))
      ensures Done(now)
    {
      assert Top(stack).path == src && seen + {src} == Subtree(fs, src) by {
        AllSeen(stack, seen);
      }
      if dst.None? {
        UnlinkFinished(stack, seen);
        assert Gone(fs, src, Subtree(fs, src)) == Doomed(fs, src);
      } else {
        assert Open(stack) == Open(stack[..0]) + {src} == {src};
        assert Copied(fs, src) == Reached(fs, src, seen + Open(stack));
      }
    }
  }

  lemma ReachedDeep(fs: Tree, root: Path, seen: set<Path>, open: set<Path>, c: Path)
    requires TooDeep(fs, root, c)
    ensures Reached(fs, root, seen + Subtree(fs, c) + open) == Reached(fs, root, seen + open)
  {
    assert forall p :: p in Subtree(fs, c) ==> InDeep(fs, root, p);
  }

  lemma ReachedOne(fs: Tree, root: Path, paths: set<Path>, c: Path)
    requires !InDeep(fs, root, c)
    ensures Reached(fs, root, paths + {c}) == Reached(fs, root, paths) + {c}
  {
  }

  /** f_mkdir and f_unlink as functions of the volume. */
  function MkdirResult(fs: Tree, p: Path): Tree {
    if Creatable(fs, p) then Made(fs, p, Dir([])) else fs
  }

  function UnlinkResult(fs: Tree, p: Path): Tree {
    if Removable(fs, p) then Purge(fs, {p}) else fs
  }

  lemma MkdirCopies(fs: Tree, now: Tree, src: Path, dst: Path, done: set<Path>, c: Path)
    requires Copying(fs, now, src, dst, done) && Compatible(fs, src, dst)
    requires IsDir(fs, c) && src <= c
    requires var t := Dest(src, dst, c);
      && t != [] && Live(t[|t| - 1]) && !(src <= t) && !(src <= t[..|t| - 1])
      && (Creatable(now, t) || IsDir(now, t))
    ensures Copying(fs, MkdirResult(now, Dest(src, dst, c)), src, dst, done + {c})
  {
    var t := Dest(src, dst, c);
    if Creatable(now, t) {
      MadeProper(now, t, Dir([]));
      MadeViews(now, t, Dir([]), src);
    }
    assert OnlyNew(now, MkdirResult(now, t), t, Folder, src);
    CopyOne(fs, now, MkdirResult(now, t), src, dst, done, c);
  }

  lemma StoreCopies(fs: Tree, now: Tree, src: Path, dst: Path, done: set<Path>, c: Path)
    requires Copying(fs, now, src, dst, done) && Compatible(fs, src, dst)
    requires c in fs && fs[c].File? && src <= c
    requires var t := Dest(src, dst, c);
      && t != [] && Live(t[|t| - 1]) && !(src <= t) && !(src <= t[..|t| - 1])
      && (Creatable(now, t) || (t in now && now[t].File?))
    ensures Copying(fs, Stored(now, Dest(src, dst, c), fs[c].data), src, dst, done + {c})
  {
    var t := Dest(src, dst, c);
    StoredProper(now, t, fs[c].data);
    StoredViews(now, t, fs[c].data, src);
    CopyOne(fs, now, Stored(now, t, fs[c].data), src, dst, done, c);
  }
}
