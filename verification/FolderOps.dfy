/** f_copy and f_cp_or_rm_rf (amssu-rcm/source/tools.c) on a mounted volume. The calls
    into FatFs are the first methods; they report errors only for what is not there. */
module FolderOps {
  import opened Options
  import opened TreeFs
  import opened TreeWalk
  import opened TreeRemove
  import opened TreeCopy

  class Volume {
    var nodes: Tree

    // ---------------------------------------------------------------- FatFs

    /** f_opendir. */
    method OpenDir(p: Path) returns (ok: bool)
      ensures ok == IsDir(nodes, p)
    {
      ok := p in nodes && nodes[p].Dir?;
    }

    /** f_readdir: the next used slot at or behind the cursor; "" at the end. */
    method ReadDir(p: Path, pos: nat) returns (name: string, isDir: bool, next: nat)
      requires IsDir(nodes, p) && pos <= |nodes[p].slots|
      ensures name == "" ==> AtEnd(nodes, Frame(p, pos))
      ensures name != "" ==> 0 < next && Yields(nodes, Frame(p, pos), next - 1) && name == nodes[p].slots[next - 1]
      ensures name != "" ==> isDir == IsDir(nodes, p + [name])
    {
      var slots := nodes[p].slots;
      next := pos;
      while next < |slots|
        invariant pos <= next <= |slots|
        invariant forall i :: pos <= i < next ==> slots[i] == ""
      {
        next := next + 1;
        if slots[next - 1] != "" {
          name := slots[next - 1];
          isDir := p + [name] in nodes && nodes[p + [name]].Dir?;
          return;
        }
      }
      name, isDir := "", false;
    }

    /** f_unlink. */
    method Unlink(p: Path)
      modifies this
      ensures nodes == UnlinkResult(old(nodes), p)
    {
      if Removable(nodes, p) {
        nodes := Purge(nodes, {p});
      }
    }

    /** f_mkdir. */
    method Mkdir(p: Path)
      modifies this
      ensures nodes == MkdirResult(old(nodes), p)
    {
      if Creatable(nodes, p) {
        nodes := Made(nodes, p, Dir([]));
      }
    }

    // ---------------------------------------------------------------- f_copy

    /** f_copy: the file at `to` gets the bytes of the file at `from`, a buffer at a time; or the
        first of them, if a read or a write fails. `errors` says how many bytes of a failing
        round still arrive. */
    method Copy(from: Path, to: Path, bufferSize: nat, errors: nat -> Option<nat>) returns (ok: bool)
      requires from != to && 0 < bufferSize
      modifies this
      ensures ok ==> CanCopy(old(nodes), from, to) && nodes == Stored(old(nodes), to, old(nodes)[from].data)
      ensures !CanCopy(old(nodes), from, to) ==> !ok && nodes == old(nodes)
      ensures CanCopy(old(nodes), from, to) && !ok ==>
        exists n: nat :: n <= |old(nodes)[from].data| && nodes == Stored(old(nodes), to, old(nodes)[from].data[..n])
      ensures CanCopy(old(nodes), from, to) && (forall k :: errors(k).None?) ==> ok
    {
      if from !in nodes || nodes[from].Dir? {
        return false;
      }
      var data := nodes[from].data;
      if to in nodes && nodes[to].File? {
        nodes := nodes[to := File([])];
      } else if Creatable(nodes, to) {
        nodes := Made(nodes, to, File([]));
      } else {
        return false;
      }
      var count;
      ok, count := CopyBytes(data, to, bufferSize, errors);
      Overwritten(old(nodes), to, data[..count]);
      assert data[..|data|] == data;
    }

    /** The loop of f_copy. */
    method CopyBytes(data: seq<Byte>, to: Path, bufferSize: nat, errors: nat -> Option<nat>)
      returns (ok: bool, count: nat)
      requires 0 < bufferSize && to in nodes && nodes[to] == File([])
      modifies this
      ensures count <= |data| && nodes == old(nodes)[to := File(data[..count])]
      ensures ok ==> count == |data|
      ensures (forall k :: errors(k).None?) ==> ok
    {
      var round := 0;
      count := 0;
      while true
        invariant count <= |data| && 0 <= round
        invariant nodes == old(nodes)[to := File(data[..count])]
        decreases |data| - count
      {
        var r := if |data| - count < bufferSize then |data| - count else bufferSize;
        var got := match errors(round) case None => r case Some(m) => if m < r then m else r;
        assert data[..count] + data[count..count + got] == data[..count + got];
        nodes := nodes[to := File(nodes[to].data + data[count..count + got])];
        count := count + got;
        if errors(round).Some? {
          return false, count;
        }
        if r == 0 {
          return true, count;
        }
        round := round + 1;
      }
    }

    // ---------------------------------------------------------------- f_cp_or_rm_rf

    /** Deletes the folder src, or copies it to dst. */
    method CpOrRmRf(srcRoot: Path, dstRoot: Option<Path>, bufferSize: nat)
      requires Proper(nodes) && 0 < bufferSize
      requires dstRoot.Some? ==> Compatible(nodes, srcRoot, dstRoot.value)
      modifies this
      ensures dstRoot.None? && !IsDir(old(nodes), srcRoot) ==> nodes == old(nodes)
      ensures dstRoot.None? && IsDir(old(nodes), srcRoot) ==> nodes == Purge(old(nodes), Doomed(old(nodes), srcRoot))
      ensures dstRoot.None? && IsDir(old(nodes), srcRoot) ==> Removed(old(nodes), nodes, srcRoot)
      ensures dstRoot.Some? && !IsDir(old(nodes), srcRoot) ==> nodes == MkdirResult(old(nodes), dstRoot.value)
      ensures dstRoot.Some? && IsDir(old(nodes), srcRoot) ==>
        Copying(old(nodes), nodes, srcRoot, dstRoot.value, Copied(old(nodes), srcRoot))
      ensures dstRoot.Some? && IsDir(old(nodes), srcRoot) ==> CopiedTo(old(nodes), nodes, srcRoot, dstRoot.value)
    {
      ghost var job := Job(nodes, srcRoot, dstRoot);
      if dstRoot.Some? {
        Mkdir(dstRoot.value);
      }
      var ok := OpenDir(srcRoot);
      if !ok {
        return;
      }
      job.Start(nodes);
      var ctx := new Context(this, srcRoot, dstRoot, bufferSize, job);
      while ctx.sp >= 0
        invariant ctx.Valid() && ctx.job == job && ctx.vol == this && fresh(ctx.Own())
        modifies this, ctx, ctx.Own()
        decreases Todo(job.fs, srcRoot, ctx.stack, ctx.seen), |ctx.stack|, Ahead(job, ctx.stack)
      {
        ctx.Round();
      }
      if dstRoot.None? {
        Unlink(srcRoot);
        PurgeRemoves(job.fs, srcRoot);
      } else {
        CopyingCopies(job.fs, nodes, srcRoot, dstRoot.value);
      }
    }
  }

  /** The working memory of one call: cp_rm_ctx_t and the stack index. */
  class Context {
    const vol: Volume
    const doCopy: bool
    const bufferSize: nat
    const pos: array<nat>
    const srcStack: array<Path>
    const dstStack: array<Path>
    var sp: int
    ghost const job: Job
    ghost var stack: seq<Frame>
    ghost var seen: set<Path>

    ghost function Own(): set<object> {
      {this, pos, srcStack, dstStack}
    }

    ghost predicate Stacked()
      reads this, pos, srcStack, dstStack
    {
      && srcStack != dstStack && sp == |stack| - 1
      && Holds(stack, srcStack[..], pos[..]) && Dests(job, srcStack[..], dstStack[..], |stack|)
    }

    ghost predicate Valid()
      reads this, vol, pos, srcStack, dstStack
    {
      && 0 < bufferSize && doCopy == job.dst.Some? && Stacked()
      && if sp >= 0 then job.Sound(vol.nodes, stack, seen) else job.Done(vol.nodes)
    }

    constructor (vol: Volume, srcRoot: Path, dstRoot: Option<Path>, bufferSize: nat, ghost job: Job)
      requires 0 < bufferSize && job.src == srcRoot && job.dst == dstRoot
      requires job.Sound(vol.nodes, [Frame(srcRoot, 0)], {})
      ensures Valid() && this.vol == vol && this.job == job && fresh(Own())
    {
      this.vol := vol;
      doCopy := dstRoot.Some?;
      this.bufferSize := bufferSize;
      pos := new nat[MAX_STACK_DEPTH](_ => 0);
      srcStack := new Path[MAX_STACK_DEPTH](_ => srcRoot);
      dstStack := new Path[MAX_STACK_DEPTH](_ => dstRoot.GetOr([]));
      sp := 0;
      this.job := job;
      stack := [Frame(srcRoot, 0)];
      seen := {};
      new;
      assert Stacked() by {
        assert Holds(stack, srcStack[..], pos[..]) && Dests(job, srcStack[..], dstStack[..], 1);
      }
    }

    /** The walk is at (stack, seen) and has made progress since (stack0, seen0). */
    ghost predicate Closer(stack0: seq<Frame>, seen0: set<Path>)
      reads this
    {
      var todo, todo0 := Todo(job.fs, job.src, stack, seen), Todo(job.fs, job.src, stack0, seen0);
      || todo < todo0
      || (todo == todo0 && |stack| < |stack0|)
      || (todo == todo0 && |stack| == |stack0| && Ahead(job, stack) < Ahead(job, stack0))
    }

    /** One round of the loop. */
    method Round()
      requires Valid() && sp >= 0 && vol as object !in Own()
      modifies vol, Own()
      ensures Valid() && Closer(old(stack), old(seen))
    {
      job.Reads(vol.nodes, stack, seen);
      assert Top(stack) == Frame(srcStack[sp], pos[sp]);
      var name, isDir, next := vol.ReadDir(srcStack[sp], pos[sp]);
      if name == "" {
        Close();
      } else {
        job.ReadsOne(vol.nodes, stack, seen, next - 1);
        Visit(name, isDir, next);
      }
    }

    /** One entry of the open directory. */
    method Visit(name: string, isDir: bool, next: nat)
      requires Valid() && sp >= 0 && 0 < next && vol as object !in Own()
      requires Yields(job.fs, Top(stack), next - 1) && name == job.fs[Top(stack).path].slots[next - 1]
      requires Live(name) ==> Top(stack).path + [name] in job.fs && isDir == IsDir(job.fs, Top(stack).path + [name])
      modifies vol, Own()
      ensures Valid() && Closer(old(stack), old(seen))
    {
      assert Top(stack) == Frame(srcStack[sp], pos[sp]);
      if name == "." || name == ".." {
        PassBy({}, next);
      } else if isDir {
        if sp + 1 >= MAX_STACK_DEPTH {
          PassBy(Subtree(job.fs, srcStack[sp] + [name]), next);
        } else {
          Enter(name, next);
        }
      } else {
        Take(name, next);
      }
    }

    /** "." and "..", and directories too deep to open. */
    method PassBy(ghost more: set<Path>, next: nat)
      requires Valid() && sp >= 0 && 0 < next && vol as object !in Own()
      requires Yields(job.fs, Top(stack), next - 1)
      requires var name := job.fs[Top(stack).path].slots[next - 1];
        var p := Top(stack).path + [name];
        if Live(name) then |stack| == MAX_STACK_DEPTH && IsDir(job.fs, p) && more == Subtree(job.fs, p)
        else more == {}
      modifies Own()
      ensures Valid() && Closer(old(stack), old(seen))
    {
      if Live(job.fs[Top(stack).path].slots[next - 1]) {
        job.SkipDeep(vol.nodes, stack, seen, next - 1);
      } else {
        job.SkipDot(vol.nodes, stack, seen, next - 1);
        AheadShrinks(job, stack, next - 1);
        assert seen + more == seen;
      }
      seen := seen + more;
      Move(next);
    }

    /** The cursor that f_readdir leaves. */
    method Move(next: nat)
      requires Stacked() && sp >= 0 && 0 < next && pos as object !in {this, srcStack, dstStack}
      modifies pos, `stack
      ensures Stacked() && stack == Advance(old(stack), next - 1)
    {
      pos[sp] := next;
      stack := Advance(stack, next - 1);
    }

    /** End of a directory. */
    method Close()
      requires Valid() && sp >= 0 && AtEnd(vol.nodes, Top(stack)) && vol as object !in Own()
      modifies vol, `sp, `stack, `seen
      ensures Valid() && Closer(old(stack), old(seen))
    {
      assert Top(stack) == Frame(srcStack[sp], pos[sp]);
      job.ReadsNone(vol.nodes, stack, seen);
      if sp > 0 {
        CloseBelow();
      } else {
        CloseRoot();
      }
    }

    /** ... below the root: when deleting, it goes if it is empty. */
    method CloseBelow()
      requires Valid() && sp > 0 && AtEnd(job.fs, Top(stack)) && vol as object !in Own()
      modifies vol, `sp, `stack, `seen
      ensures Valid() && Closer(old(stack), old(seen))
    {
      ghost var open, done, next := stack[..|stack| - 1], seen + {Top(stack).path}, LeftBehind();
      assert job.Sound(next, open, done) && Todo(job.fs, job.src, open, done) == Todo(job.fs, job.src, stack, seen) by {
        job.Leave(vol.nodes, next, stack, seen);
      }
      UnlinkTop();
      Pop();
      seen := done;
      assert stack == open && vol.nodes == next;
    }

    /** The volume after the last open directory below the root has been closed. */
    ghost function LeftBehind(): Tree
      requires stack != []
      reads this, vol
    {
      if job.dst.None? then UnlinkResult(vol.nodes, Top(stack).path) else vol.nodes
    }

    method UnlinkTop()
      requires Stacked() && sp >= 0 && doCopy == job.dst.Some? && vol as object !in Own()
      modifies vol
      ensures vol.nodes == old(LeftBehind()) && Stacked()
    {
      assert Top(stack) == Frame(srcStack[sp], pos[sp]);
      if !doCopy {
        vol.Unlink(srcStack[sp]);
      }
    }

    /** ... of the root. */
    method CloseRoot()
      requires Valid() && sp == 0 && AtEnd(job.fs, Top(stack))
      modifies `sp, `stack
      ensures Valid() && Closer(old(stack), old(seen))
    {
      job.Finish(vol.nodes, stack, seen);
      job.LastClosed(stack, seen);
      Pop();
    }

    /** sp--; */
    method Pop()
      requires Stacked() && sp >= 0
      modifies `sp, `stack
      ensures Stacked() && sp == old(sp) - 1 && stack == old(stack)[..|old(stack)| - 1]
    {
      stack := stack[..sp];
      sp := sp - 1;
    }

    /** A subdirectory. */
    method Enter(name: string, next: nat)
      requires Valid() && 0 <= sp < MAX_STACK_DEPTH - 1 && 0 < next && vol as object !in Own()
      requires Yields(job.fs, Top(stack), next - 1) && name == job.fs[Top(stack).path].slots[next - 1] && Live(name)
      requires IsDir(job.fs, Top(stack).path + [name])
      modifies vol, Own()
      ensures Valid() && Closer(old(stack), old(seen))
    {
      assert Top(stack) == Frame(srcStack[sp], pos[sp]);
      var src := srcStack[sp] + [name];
      var dst := dstStack[sp] + [name];
      ghost var now := vol.nodes;
      if doCopy {
        DestKid(job.src, job.dst.value, srcStack[sp], name);
        vol.Mkdir(dst);
      }
      job.Enter(now, vol.nodes, stack, seen, next - 1);
      job.Opens(vol.nodes, Advance(stack, next - 1) + [Frame(src, 0)], seen);
      var ok := vol.OpenDir(src);
      if ok {
        Descend(src, dst, next);
      }
    }

    /** The new directory goes on the stack. */
    method Descend(src: Path, dst: Path, next: nat)
      requires Stacked() && 0 <= sp < MAX_STACK_DEPTH - 1 && 0 < next && pos as object !in {this, srcStack, dstStack}
      requires doCopy == job.dst.Some?
      requires doCopy ==> job.src <= src && dst == Dest(job.src, job.dst.value, src)
      modifies Own()
      ensures Stacked() && seen == old(seen) && stack == Advance(old(stack), next - 1) + [Frame(src, 0)]
    {
      srcStack[sp + 1] := src;
      if doCopy {
        dstStack[sp + 1] := dst;
      }
      pos[sp] := next;
      sp := sp + 1;
      pos[sp] := 0;
      stack := Advance(stack, next - 1) + [Frame(src, 0)];
    }

    /** A file. */
    method Take(name: string, next: nat)
      requires Valid() && 0 <= sp && 0 < next && vol as object !in Own()
      requires Yields(job.fs, Top(stack), next - 1) && name == job.fs[Top(stack).path].slots[next - 1] && Live(name)
      requires IsFile(job.fs, Top(stack).path + [name])
      modifies vol, Own()
      ensures Valid() && Closer(old(stack), old(seen))
    {
      assert Top(stack) == Frame(srcStack[sp], pos[sp]);
      var src := srcStack[sp] + [name];
      ghost var now := vol.nodes;
      if doCopy {
        CopyOut(name, src, next - 1);
      } else {
        vol.Unlink(src);
      }
      job.PassFile(now, vol.nodes, stack, seen, next - 1);
      seen := seen + Subtree(job.fs, src);
      Move(next);
    }

    /** The file copy; without I/O errors it cannot fail here. */
    method CopyOut(name: string, src: Path, ghost j: nat)
      requires Valid() && 0 <= sp && doCopy && vol as object !in Own()
      requires Yields(job.fs, Top(stack), j) && name == job.fs[Top(stack).path].slots[j] && Live(name)
      requires src == Top(stack).path + [name] && IsFile(job.fs, src)
      modifies vol
      ensures job.src <= src
      ensures var t := Dest(job.src, job.dst.value, src);
        && (t in old(vol.nodes) || Creatable(old(vol.nodes), t))
        && vol.nodes == Stored(old(vol.nodes), t, job.fs[src].data)
    {
      assert Top(stack) == Frame(srcStack[sp], pos[sp]);
      job.CopyFile(vol.nodes, stack, seen, j, job.dst.value);
      DestKid(job.src, job.dst.value, srcStack[sp], name);
      var ok := vol.Copy(src, dstStack[sp] + [name], bufferSize, _ => None);
      assert ok;
    }
  }

  /** The arrays hold the stack of the walk ... */
  ghost predicate Holds(stack: seq<Frame>, src: seq<Path>, pos: seq<nat>) {
    && |stack| <= MAX_STACK_DEPTH == |src| == |pos|
    && forall k {:trigger stack[k]} :: 0 <= k < |stack| ==> stack[k] == Frame(src[k], pos[k])
  }

  /** ... and where each open directory is copied to. */
  ghost predicate Dests(job: Job, src: seq<Path>, dst: seq<Path>, n: nat) {
    && n <= MAX_STACK_DEPTH == |src| == |dst|
    && (job.dst.Some? ==>
          forall k :: 0 <= k < n ==> job.src <= src[k] && dst[k] == Dest(job.src, job.dst.value, src[k]))
  }

  lemma DestKid(src: Path, dst: Path, p: Path, name: string)
    requires src <= p
    ensures src <= p + [name] && Dest(src, dst, p + [name]) == Dest(src, dst, p) + [name]
  {
  }

  lemma AheadShrinks(job: Job, stack: seq<Frame>, j: nat)
    requires stack != [] && Yields(job.fs, Top(stack), j)
    ensures Ahead(job, Advance(stack, j)) < Ahead(job, stack)
  {
  }

  lemma Overwritten(fs: Tree, p: Path, data: seq<Byte>)
    requires p in fs || Creatable(fs, p)
    ensures Stored(fs, p, [])[p := File(data)] == Stored(fs, p, data)
  {
  }

  /** The file can be read, and the other one opened or created. */
  predicate CanCopy(fs: Tree, from: Path, to: Path) {
    IsFile(fs, from) && (IsFile(fs, to) || Creatable(fs, to))
  }

  predicate IsFile(fs: Tree, p: Path) {
    p in fs && fs[p].File?
  }

  /** Slots of the open directory not read yet. */
  ghost function Ahead(job: Job, stack: seq<Frame>): nat {
    if stack != [] && IsDir(job.fs, Top(stack).path) && Top(stack).pos <= |job.fs[Top(stack).path].slots|
    then |job.fs[Top(stack).path].slots| - Top(stack).pos else 0
  }
}
