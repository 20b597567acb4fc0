/** The service guard run by any number of threads whose actions interleave in any way
    (includes/firmwares_install/service_guard.h). */
module ServiceThreads {
  import opened Options
  import opened ServiceGuard

  type Thread = int

  /** Where a thread is in amssuInitialize or amssuExit; from Begin and Leave on it holds the mutex. */
  datatype Pc =
    | Idle
    | LockInit | Begin | Ask | End(rc: bool) | Clean | Uncount | UnlockInit(result: bool)
    | LockExit | Leave | CleanExit | UnlockExit(counted: bool)

  datatype World = World(owner: Option<Thread>, shared: Shared, pcs: map<Thread, Pc>, calls: seq<Done>)

  const START := World(None, UNUSED, map[], [])

  /** What the outside decides: which call an idle thread makes, what the service replies. */
  datatype Choice = Choice(init: bool, reply: bool)

  function PcOf(w: World, t: Thread): Pc {
    if t in w.pcs then w.pcs[t] else Idle
  }

  function Goto(w: World, t: Thread, pc: Pc): World {
    w.(pcs := w.pcs[t := pc])
  }

  /** One action of thread t; a thread that waits for the mutex stays where it is. */
  function Act(w: World, t: Thread, c: Choice): World {
    match PcOf(w, t)
    case Idle => Goto(w, t, if c.init then LockInit else LockExit)
    case LockInit => if w.owner == None then Goto(w.(owner := Some(t)), t, Begin) else w
    case Begin => Goto(w.(shared := Counted(w.shared)), t, if w.shared.refCount == 0 then Ask else End(true))
    case Ask => Goto(w.(shared := Asked(w.shared, c.reply)), t, End(c.reply))
    case End(rc) => Goto(w, t, if rc then UnlockInit(true) else Clean)
    case Clean => Goto(w.(shared := Cleaned(w.shared)), t, Uncount)
    case Uncount =>
      Goto(w.(shared := if w.shared.refCount > 0 then Uncounted(w.shared) else w.shared.(refCount := U32 - 1)),
           t, UnlockInit(false))
    case UnlockInit(result) => Goto(w.(owner := None, calls := w.calls + [Init(result)]), t, Idle)
    case LockExit => if w.owner == None then Goto(w.(owner := Some(t)), t, Leave) else w
    case Leave =>
      if w.shared.refCount == 0 then Goto(w, t, UnlockExit(false))
      else
        var s := Uncounted(w.shared);
        Goto(w.(shared := s), t, if s.refCount == 0 then CleanExit else UnlockExit(true))
    case CleanExit => Goto(w.(shared := Cleaned(w.shared)), t, UnlockExit(true))
    case UnlockExit(counted) => Goto(w.(owner := None, calls := w.calls + [Exit(counted)]), t, Idle)
  }

  /** A run: the threads' actions in any order. */
  function Run(actions: seq<(Thread, Choice)>): World {
    if actions == [] then START
    else
      var (t, c) := actions[|actions| - 1];
      Act(Run(actions[..|actions| - 1]), t, c)
  }

  predicate Outside(pc: Pc) {
    pc.Idle? || pc.LockInit? || pc.LockExit?
  }

  predicate Apart(w: World, t: Thread) {
    Outside(PcOf(w, t)) <==> w.owner != Some(t)
  }

  /** Exactly the owner of the mutex is inside. */
  ghost predicate Exclusive(w: World) {
    forall t: Thread :: Apart(w, t)
  }

  /** A thread at pc has brought the shared state from `base`, where it locked, to s. */
  predicate Reached(pc: Pc, base: Shared, s: Shared) {
    match pc
    case Begin => s == base
    case Ask => base.refCount == 0 && s == Counted(base)
    case End(rc) =>
      if base.refCount == 0 then s == Asked(Counted(base), rc) else rc && s == Counted(base)
    case Clean => base.refCount == 0 && s == Asked(Counted(base), false)
    case Uncount => base.refCount == 0 && s == Cleaned(Asked(Counted(base), false))
    case UnlockInit(result) => s == AfterInit(base, result) && (base.refCount > 0 ==> result)
    case Leave => s == base
    case CleanExit => base.refCount == 1 && s == Uncounted(base)
    case UnlockExit(counted) => s == AfterExit(base) && counted == (base.refCount > 0)
    case _ => false
  }

  /** The shared state is that of the finished calls, one after the other, plus what the owner
      of the mutex has done so far. */
  ghost predicate StateInv(w: World) {
    && Truthful(w.calls)
    && match w.owner
       case None => w.shared == Serial(w.calls)
       case Some(t) => Reached(PcOf(w, t), Serial(w.calls), w.shared)
  }

  ghost predicate Inv(w: World) {
    Exclusive(w) && StateInv(w)
  }

  lemma ActKeepsApart(w: World, t: Thread, c: Choice, u: Thread)
    requires Apart(w, t) && Apart(w, u)
    ensures Apart(Act(w, t, c), u)
  {
    var v := Act(w, t, c);
    if u != t {
      assert PcOf(v, u) == PcOf(w, u);
      assert v.owner == w.owner || w.owner == Some(t) || (w.owner == None && v.owner == Some(t));
    }
  }

  lemma ActKeepsExclusive(w: World, t: Thread, c: Choice)
    requires Exclusive(w)
    ensures Exclusive(Act(w, t, c))
  {
    forall u: Thread
      ensures Apart(Act(w, t, c), u)
    {
      assert Apart(w, t) && Apart(w, u);
      ActKeepsApart(w, t, c, u);
    }
  }

  lemma Append(calls: seq<Done>, call: Done)
    ensures Serial(calls + [call]) == After(Serial(calls), call)
    ensures Truthful(calls + [call]) <==> Truthful(calls) && match call {
      case Init(ok) => Serial(calls).refCount > 0 ==> ok
      case Exit(counted) => counted == (Serial(calls).refCount > 0)
    }
  {
    assert (calls + [call])[..|calls|] == calls;
  }

  /** The owner acts. */
  lemma OwnerKeepsState(w: World, t: Thread, c: Choice)
    requires StateInv(w) && w.owner == Some(t) && Apart(w, t)
    ensures StateInv(Act(w, t, c))
  {
    match PcOf(w, t)
    case UnlockInit(result) => Append(w.calls, Init(result));
    case UnlockExit(counted) => Append(w.calls, Exit(counted));
    case _ => ActReaches(w, t, c, Serial(w.calls));
  }

  lemma ActReaches(w: World, t: Thread, c: Choice, base: Shared)
    requires w.owner == Some(t) && Reached(PcOf(w, t), base, w.shared)
    requires !PcOf(w, t).UnlockInit? && !PcOf(w, t).UnlockExit?
    ensures var v := Act(w, t, c);
      v.owner == w.owner && v.calls == w.calls && Reached(PcOf(v, t), base, v.shared)
  {
  }

  /** Somebody else acts. */
  lemma OtherKeepsState(w: World, t: Thread, c: Choice)
    requires StateInv(w) && w.owner != Some(t) && Apart(w, t)
    ensures StateInv(Act(w, t, c))
  {
    var v := Act(w, t, c);
    assert v.shared == w.shared && v.calls == w.calls;
  }

  lemma {:induction false} RunKeeps(actions: seq<(Thread, Choice)>)
    ensures Inv(Run(actions))
    decreases |actions|
  {
    if actions != [] {
      var (t, c) := actions[|actions| - 1];
      var w := Run(actions[..|actions| - 1]);
      RunKeeps(actions[..|actions| - 1]);
      assert Apart(w, t);
      ActKeepsExclusive(w, t, c);
      if w.owner == Some(t) {
        OwnerKeepsState(w, t, c);
      } else {
        OtherKeepsState(w, t, c);
      }
    }
  }

  /** Whenever the mutex is free, the threads might as well have made their calls one after the
      other, with the same results. */
  lemma Serializable(actions: seq<(Thread, Choice)>)
    requires Run(actions).owner == None
    ensures var w := Run(actions); Truthful(w.calls) && w.shared == Serial(w.calls)
  {
    RunKeeps(actions);
  }

  /** So the session is then open exactly when the count is positive, the count is that of the
      users, and the service saw opening and closing in turn. */
  lemma FreeMutexSound(actions: seq<(Thread, Choice)>)
    requires var w := Run(actions); w.owner == None && NoWrap(w.calls)
    ensures var w := Run(actions); Sound(w.shared) && w.shared.refCount == Net(w.calls)
  {
    Serializable(actions);
    SerialSound(Run(actions).calls);
  }

  /** Even while a thread is inside, the service never sees a wrong event. */
  lemma NeverWrong(actions: seq<(Thread, Choice)>)
    requires NoWrap(Run(actions).calls)
    ensures Replay(Run(actions).shared.log) != Wrong
  {
    var w := Run(actions);
    RunKeeps(actions);
    SerialSound(w.calls);
    if w.owner.Some? {
      MidEvents(PcOf(w, w.owner.value), Serial(w.calls), w.shared);
    }
  }

  lemma MidEvents(pc: Pc, base: Shared, s: Shared)
    requires Sound(base) && Reached(pc, base, s)
    ensures Replay(s.log) != Wrong
  {
    ReplayMore(base.log, Opened);
    ReplayMore(base.log, OpenFailed);
    ReplayMore(base.log, Closed);
    ReplayMore(base.log + [OpenFailed], Closed);
  }

  // ---------------------------------------------------------------- progress

  /** The actions left until the mutex is released. */
  function Remaining(pc: Pc): nat {
    match pc
    case Begin => 6
    case Ask => 5
    case End(_) => 4
    case Clean => 3
    case Uncount => 2
    case UnlockInit(_) => 1
    case Leave => 3
    case CleanExit => 2
    case UnlockExit(_) => 1
    case _ => 0
  }

  /** Nobody can delay the owner, and it is never blocked: each of its actions brings the
      release nearer, at most six are needed. */
  lemma OwnerReleases(actions: seq<(Thread, Choice)>, t: Thread, c: Choice)
    requires Run(actions).owner.Some?
    ensures var w := Run(actions); var o := w.owner.value; var v := Act(w, t, c);
      && 0 < Remaining(PcOf(w, o)) <= 6
      && (t != o ==> v.owner == w.owner && PcOf(v, o) == PcOf(w, o))
      && (t == o ==> if Remaining(PcOf(w, o)) == 1 then v.owner == None
                     else v.owner == w.owner && Remaining(PcOf(v, o)) < Remaining(PcOf(w, o)))
  {
    RunKeeps(actions);
    var w := Run(actions);
    var o := w.owner.value;
    assert Apart(w, o) && Apart(w, t);
  }

  /** A thread that waits for the mutex takes it as soon as it acts while it is free. */
  lemma WaiterEnters(w: World, t: Thread, c: Choice)
    requires w.owner == None && (PcOf(w, t).LockInit? || PcOf(w, t).LockExit?)
    ensures var v := Act(w, t, c);
      && v.owner == Some(t) && v.shared == w.shared && v.calls == w.calls
      && PcOf(v, t) == if PcOf(w, t).LockInit? then Begin else Leave
  {
  }

  /** Thread t acts n times and no other does. */
  function Alone(w: World, t: Thread, c: Choice, n: nat): World
    decreases n
  {
    if n == 0 then w else Alone(Act(w, t, c), t, c, n - 1)
  }

  lemma AloneMore(w: World, t: Thread, c: Choice, n: nat)
    ensures Alone(w, t, c, n + 2) == Alone(Act(Act(w, t, c), t, c), t, c, n)
  {
  }

  /** The actions of a whole call that is not disturbed. */
  function Needed(refCount: nat, c: Choice): nat {
    if !c.init then if refCount == 1 then 5 else 4
    else if refCount > 0 then 5
    else if c.reply then 6
    else 8
  }

  /** A thread that finds the mutex free and is not disturbed completes its call: the result tells
      whether it found users or the reply was good, the service is asked by the first user alone,
      and closed after a bad reply and by the last user. */
  lemma AloneCompletes(w: World, t: Thread, c: Choice)
    requires w.owner == None && PcOf(w, t) == Idle
    ensures var n, s := w.shared.refCount, w.shared; var v := Alone(w, t, c, Needed(n, c));
      && v.owner == None && PcOf(v, t) == Idle
      && v.calls == w.calls + [if c.init then Init(n > 0 || c.reply) else Exit(n > 0)]
      && v.shared ==
        if c.init && n > 0 then s.(refCount := (n + 1) % 0x1_0000_0000)
        else if c.init && c.reply then Shared(1, true, s.log + [Opened])
        else if c.init then Shared(0, false, s.log + [OpenFailed, Closed])
        else if n == 1 then Shared(0, false, s.log + [Closed])
        else if n > 0 then s.(refCount := n - 1)
        else s
  {
    var n := Needed(w.shared.refCount, c);
    var v := Act(Act(w, t, c), t, c);
    AloneMore(w, t, c, n - 2);
    if c.init {
      InitCompletes(v, t, c);
    } else {
      ExitCompletes(v, t, c);
    }
  }

  /** ... from the moment it holds the mutex. */
  lemma InitCompletes(w: World, t: Thread, c: Choice)
    requires w.owner == Some(t) && PcOf(w, t) == Begin && c.init
    ensures var n, s := w.shared.refCount, w.shared; var v := Alone(w, t, c, Needed(n, c) - 2);
      && v.owner == None && PcOf(v, t) == Idle && v.calls == w.calls + [Init(n > 0 || c.reply)]
      && v.shared ==
        if n > 0 then s.(refCount := (n + 1) % 0x1_0000_0000)
        else if c.reply then Shared(1, true, s.log + [Opened])
        else Shared(0, false, s.log + [OpenFailed, Closed])
  {
    var n, v := w.shared.refCount, Act(Act(w, t, c), t, c);
    AloneMore(w, t, c, Needed(n, c) - 4);
    if n > 0 {
      assert Alone(v, t, c, 1) == Act(v, t, c);
    } else if c.reply {
      AloneMore(v, t, c, 0);
    } else {
      AloneMore(v, t, c, 2);
      AloneMore(Act(Act(v, t, c), t, c), t, c, 0);
      assert w.shared.log + [OpenFailed] + [Closed] == w.shared.log + [OpenFailed, Closed];
    }
  }

  lemma ExitCompletes(w: World, t: Thread, c: Choice)
    requires w.owner == Some(t) && PcOf(w, t) == Leave && !c.init
    ensures var n, s := w.shared.refCount, w.shared; var v := Alone(w, t, c, Needed(n, c) - 2);
      && v.owner == None && PcOf(v, t) == Idle && v.calls == w.calls + [Exit(n > 0)]
      && v.shared ==
        if n == 1 then Shared(0, false, s.log + [Closed]) else if n > 0 then s.(refCount := n - 1) else s
  {
    var v := Act(Act(w, t, c), t, c);
    AloneMore(w, t, c, Needed(w.shared.refCount, c) - 4);
    if w.shared.refCount == 1 {
      assert Alone(v, t, c, 1) == Act(v, t, c);
    }
  }
}
