/** The firmware installation of source/firmwares_install/daybreak-cli.cpp as a state machine
    over all replies of the services. */
module Installer {
  datatype InstallState = NeedsDraw | NeedsSetup | NeedsPrepare | AwaitingPrepare | NeedsApply | AwaitingReboot

  /** A result code: two failures are told apart from the others. */
  datatype Rc = Ok | TimedOut | IncompatSysVer | Failure(code: int)

  /** The calls that change the system or ask about the update, with the replies. */
  datatype Call =
    | Setup(rc: Rc)
    | RequestPrepare(rc: Rc)
    | Wait(rc: Rc)
    | Get(rc: Rc)
    | HasPrepared(rc: Rc, prepared: bool)
    | Progress(rc: Rc)
    | Apply(rc: Rc)
    | ResetForRefurbishment(rc: Rc)
    | Reset(rc: Rc)

  /** What each service would reply during one transition. */
  datatype Reply = Reply(
    setup: Rc, request: Rc, wait: Rc, get: Rc, has: Rc, prepared: bool, progress: Rc,
    apply: Rc, refurbish: Rc, reset: Rc)

  // ---------------------------------------------------------------- one transition

  datatype Outcome = Outcome(state: InstallState, calls: seq<Call>)

  /** One round of polling. */
  function Poll(r: Reply): Outcome {
    var wait := [Wait(r.wait)];
    var asked := if r.wait == Ok then wait + [Get(r.get)] else wait;
    if (r.wait != Ok && r.wait != TimedOut) || (r.wait == Ok && r.get != Ok) then Outcome(AwaitingReboot, asked)
    else
      var has := asked + [HasPrepared(r.has, r.prepared)];
      if r.has != Ok then Outcome(AwaitingReboot, has)
      else if r.prepared then Outcome(NeedsApply, has)
      else Outcome(if r.progress == Ok then AwaitingPrepare else AwaitingReboot, has + [Progress(r.progress)])
  }

  /** Applying and, if wanted, the reset. */
  function ApplyAll(r: Reply, reset: bool): Outcome {
    var apply := [Apply(r.apply)];
    if r.apply != Ok || !reset then Outcome(AwaitingReboot, apply)
    else if r.refurbish == IncompatSysVer
    then Outcome(AwaitingReboot, apply + [ResetForRefurbishment(r.refurbish), Reset(r.reset)])
    else Outcome(AwaitingReboot, apply + [ResetForRefurbishment(r.refurbish)])
  }

  function Transition(state: InstallState, r: Reply, reset: bool): Outcome {
    match state
    case NeedsSetup => Outcome(if r.setup == Ok then NeedsPrepare else AwaitingReboot, [Setup(r.setup)])
    case NeedsPrepare =>
      Outcome(if r.request == Ok then AwaitingPrepare else AwaitingReboot, [RequestPrepare(r.request)])
    case AwaitingPrepare => Poll(r)
    case NeedsApply => ApplyAll(r, reset)
    case _ => Outcome(state, [])
  }

  // ---------------------------------------------------------------- what is allowed

  /** How far a sequence of calls has come. */
  datatype Phase =
    | Begun | IsSetUp | Preparing | Waited | Asking | Pending | Prepared | Applied | Fallback | Over | Wrong

  function After(p: Phase, c: Call): Phase {
    match (p, c)
    case (Begun, Setup(rc)) => if rc == Ok then IsSetUp else Over
    case (IsSetUp, RequestPrepare(rc)) => if rc == Ok then Preparing else Over
    case (Preparing, Wait(rc)) => if rc == Ok then Waited else if rc == TimedOut then Asking else Over
    case (Waited, Get(rc)) => if rc == Ok then Asking else Over
    case (Asking, HasPrepared(rc, prepared)) => if rc != Ok then Over else if prepared then Prepared else Pending
    case (Pending, Progress(rc)) => if rc == Ok then Preparing else Over
    case (Prepared, Apply(rc)) => if rc == Ok then Applied else Over
    case (Applied, ResetForRefurbishment(rc)) => if rc == IncompatSysVer then Fallback else Over
    case (Fallback, Reset(_)) => Over
    case _ => Wrong
  }

  function PhaseOf(calls: seq<Call>): Phase {
    if calls == [] then Begun else After(PhaseOf(calls[..|calls| - 1]), calls[|calls| - 1])
  }

  /** The phases in which the machine rests between transitions. */
  predicate Rests(state: InstallState, p: Phase) {
    match state
    case NeedsDraw => p == Begun
    case NeedsSetup => p == Begun
    case NeedsPrepare => p == IsSetUp
    case AwaitingPrepare => p == Preparing
    case NeedsApply => p == Prepared
    case AwaitingReboot => p == Over || p == Applied
  }

  function PhaseFrom(p: Phase, calls: seq<Call>): Phase
    decreases |calls|
  {
    if calls == [] then p else PhaseFrom(After(p, calls[0]), calls[1..])
  }

  lemma {:induction false} PhaseAppend(a: seq<Call>, b: seq<Call>)
    ensures PhaseOf(a + b) == PhaseFrom(PhaseOf(a), b)
    decreases |b|
  {
    if b == [] {
      assert a + b == a;
    } else {
      assert a + b == (a + [b[0]]) + b[1..];
      assert (a + [b[0]])[..|a|] == a;
      PhaseAppend(a + [b[0]], b[1..]);
    }
  }

  lemma PollRests(r: Reply)
    ensures var o := Poll(r); Rests(o.state, PhaseFrom(Preparing, o.calls))
  {
    var calls := Poll(r).calls;
    if |calls| == 1 {
      One(Preparing, calls);
    } else if |calls| == 2 {
      Two(Preparing, calls);
    } else if |calls| == 3 {
      Three(Preparing, calls);
    } else {
      Four(Preparing, calls);
    }
  }

  lemma ApplyRests(r: Reply, reset: bool)
    ensures var o := ApplyAll(r, reset); Rests(o.state, PhaseFrom(Prepared, o.calls))
  {
    var calls := ApplyAll(r, reset).calls;
    if |calls| == 1 {
      One(Prepared, calls);
    } else if |calls| == 2 {
      Two(Prepared, calls);
    } else {
      Three(Prepared, calls);
    }
  }

  /** Each transition makes calls that are allowed where the machine is. */
  lemma TransitionRests(state: InstallState, r: Reply, reset: bool, p: Phase)
    requires Rests(state, p)
    ensures var o := Transition(state, r, reset); Rests(o.state, PhaseFrom(p, o.calls))
  {
    match state
    case NeedsSetup => One(p, Transition(state, r, reset).calls);
    case NeedsPrepare => One(p, Transition(state, r, reset).calls);
    case AwaitingPrepare => PollRests(r);
    case NeedsApply => ApplyRests(r, reset);
    case _ =>
  }

  lemma One(p: Phase, c: seq<Call>)
    requires |c| == 1
    ensures PhaseFrom(p, c) == After(p, c[0])
  {
    assert c[1..] == [];
  }

  lemma Two(p: Phase, c: seq<Call>)
    requires |c| == 2
    ensures PhaseFrom(p, c) == After(After(p, c[0]), c[1])
  {
    One(After(p, c[0]), c[1..]);
  }

  lemma Three(p: Phase, c: seq<Call>)
    requires |c| == 3
    ensures PhaseFrom(p, c) == After(After(After(p, c[0]), c[1]), c[2])
  {
    Two(After(p, c[0]), c[1..]);
  }

  lemma Four(p: Phase, c: seq<Call>)
    requires |c| == 4
    ensures PhaseFrom(p, c) == After(After(After(After(p, c[0]), c[1]), c[2]), c[3])
  {
    Three(After(p, c[0]), c[1..]);
  }

  // ---------------------------------------------------------------- what that means

  /** A failure that is not provided for. */
  predicate Fatal(c: Call) {
    c.rc != Ok && !(c.Wait? && c.rc == TimedOut) && !(c.ResetForRefurbishment? && c.rc == IncompatSysVer)
  }

  /** The call at position i comes only where it may. */
  predicate Placed(calls: seq<Call>, i: nat)
    requires i < |calls|
  {
    match calls[i]
    case Apply(_) =>
      i >= 3 && calls[0] == Setup(Ok) && calls[1] == RequestPrepare(Ok) && calls[i - 1] == HasPrepared(Ok, true)
    case ResetForRefurbishment(_) => i > 0 && calls[i - 1] == Apply(Ok)
    case Reset(_) => i > 0 && calls[i - 1] == ResetForRefurbishment(IncompatSysVer)
    case _ => true
  }

  ghost predicate Safe(calls: seq<Call>) {
    && (forall i :: 0 <= i < |calls| ==> Placed(calls, i))
    && (forall i :: 0 <= i < |calls| - 1 ==> !Fatal(calls[i]))
    && (forall i, j :: 0 <= i < j < |calls| ==> !(calls[i].Apply? && calls[j].Apply?))
  }

  /** The facts about a sequence that is in phase p. */
  ghost predicate Facts(calls: seq<Call>, p: Phase) {
    && Safe(calls)
    && (p != Over ==> calls == [] || !Fatal(calls[|calls| - 1]))
    && (!p.Begun? && !p.Over? ==> |calls| >= 1 && calls[0] == Setup(Ok))
    && (!p.Begun? && !p.Over? && !p.IsSetUp? ==> |calls| >= 2 && calls[1] == RequestPrepare(Ok))
    && (p.Prepared? ==> |calls| >= 3 && calls[|calls| - 1] == HasPrepared(Ok, true))
    && (p.Applied? ==> |calls| >= 3 && calls[|calls| - 1] == Apply(Ok))
    && (p.Fallback? ==> |calls| >= 3 && calls[|calls| - 1] == ResetForRefurbishment(IncompatSysVer))
    && (!p.Applied? && !p.Fallback? && !p.Over? ==> forall i :: 0 <= i < |calls| ==> !calls[i].Apply?)
  }

  lemma SafeMore(calls: seq<Call>, c: Call)
    requires Facts(calls, PhaseOf(calls)) && After(PhaseOf(calls), c) != Wrong
    ensures Safe(calls + [c])
  {
    var next := calls + [c];
    forall i | 0 <= i < |next|
      ensures Placed(next, i)
    {
      if i < |calls| {
        assert Placed(calls, i);
      }
    }
  }

  lemma FactsMore(calls: seq<Call>, c: Call)
    requires Facts(calls, PhaseOf(calls)) && After(PhaseOf(calls), c) != Wrong
    ensures Facts(calls + [c], After(PhaseOf(calls), c))
  {
    SafeMore(calls, c);
  }

  /** What is allowed is safe. */
  lemma {:induction false} PhaseFacts(calls: seq<Call>)
    requires PhaseOf(calls) != Wrong
    ensures Facts(calls, PhaseOf(calls))
    decreases |calls|
  {
    if calls != [] {
      var before, c := calls[..|calls| - 1], calls[|calls| - 1];
      PhaseFacts(before);
      FactsMore(before, c);
      assert calls == before + [c];
    }
  }

  // ---------------------------------------------------------------- whole runs

  /** Transition after transition, one for each reply. */
  function Steps(replies: seq<Reply>, reset: bool): Outcome {
    if replies == [] then Outcome(NeedsSetup, [])
    else
      var before := Steps(replies[..|replies| - 1], reset);
      var o := Transition(before.state, replies[|replies| - 1], reset);
      Outcome(o.state, before.calls + o.calls)
  }

  lemma StepsMore(replies: seq<Reply>, n: nat, reset: bool)
    requires n < |replies|
    ensures var before := Steps(replies[..n], reset); var o := Transition(before.state, replies[n], reset);
      Steps(replies[..n + 1], reset) == Outcome(o.state, before.calls + o.calls)
  {
    assert replies[..n + 1][..n] == replies[..n];
  }

  lemma {:induction false} StepsRest(replies: seq<Reply>, reset: bool)
    ensures var o := Steps(replies, reset); Rests(o.state, PhaseOf(o.calls))
    decreases |replies|
  {
    if replies != [] {
      var before := Steps(replies[..|replies| - 1], reset);
      var r := replies[|replies| - 1];
      StepsRest(replies[..|replies| - 1], reset);
      TransitionRests(before.state, r, reset, PhaseOf(before.calls));
      PhaseAppend(before.calls, Transition(before.state, r, reset).calls);
    }
  }

  /** For all replies: the update is applied at most once, only after it was set up, prepared
      and reported as prepared; a reset follows a successful application only; nothing follows a
      failure that is not provided for. */
  lemma StepsSafe(replies: seq<Reply>, reset: bool)
    ensures Safe(Steps(replies, reset).calls)
  {
    StepsRest(replies, reset);
    PhaseFacts(Steps(replies, reset).calls);
  }

  predicate IsReset(c: Call) {
    c.ResetForRefurbishment? || c.Reset?
  }

  /** Without the wish for it there is no reset. */
  lemma {:induction false} NoUnwantedReset(replies: seq<Reply>)
    ensures forall c :: c in Steps(replies, false).calls ==> !IsReset(c)
    decreases |replies|
  {
    if replies != [] {
      NoUnwantedReset(replies[..|replies| - 1]);
    }
  }

  lemma {:induction false} RebootStays(replies: seq<Reply>, n: nat, reset: bool)
    requires n <= |replies| && Steps(replies[..n], reset).state == AwaitingReboot
    ensures Steps(replies, reset) == Steps(replies[..n], reset)
    decreases |replies| - n
  {
    if n < |replies| {
      StepsMore(replies, n, reset);
      RebootStays(replies, n + 1, reset);
    } else {
      assert replies[..n] == replies;
    }
  }

  // ---------------------------------------------------------------- what must be called

  /** The call d is the one that must come after c. */
  predicate Follows(c: Call, d: Call, reset: bool) {
    match c
    case Setup(rc) => rc == Ok && d.RequestPrepare?
    case RequestPrepare(rc) => rc == Ok && d.Wait?
    case Wait(rc) => (rc == Ok && d.Get?) || (rc == TimedOut && d.HasPrepared?)
    case Get(rc) => rc == Ok && d.HasPrepared?
    case HasPrepared(rc, prepared) => rc == Ok && if prepared then d.Apply? else d.Progress?
    case Progress(rc) => rc == Ok && d.Wait?
    case Apply(rc) => rc == Ok && reset && d.ResetForRefurbishment?
    case ResetForRefurbishment(rc) => rc == IncompatSysVer && d.Reset?
    case Reset(_) => false
  }

  /** After c nothing is left to do. */
  predicate Final(c: Call, reset: bool) {
    match c
    case Wait(rc) => rc != Ok && rc != TimedOut
    case Apply(rc) => rc != Ok || !reset
    case ResetForRefurbishment(rc) => rc != IncompatSysVer
    case Reset(_) => true
    case _ => c.rc != Ok
  }

  /** Where the machine rests after c. */
  predicate RestsAfter(state: InstallState, c: Call, reset: bool) {
    match state
    case NeedsPrepare => c == Setup(Ok)
    case AwaitingPrepare => c == RequestPrepare(Ok) || c == Progress(Ok)
    case NeedsApply => c == HasPrepared(Ok, true)
    case AwaitingReboot => Final(c, reset)
    case _ => false
  }

  ghost predicate Chain(calls: seq<Call>, reset: bool) {
    forall i :: 0 <= i < |calls| - 1 ==> Follows(calls[i], calls[i + 1], reset)
  }

  /** From setup on every call is followed by the one that must come next, down to where the
      machine rests. */
  ghost predicate Thorough(o: Outcome, reset: bool) {
    && Chain(o.calls, reset)
    && if o.calls == [] then o.state == NeedsSetup
       else o.calls[0].Setup? && RestsAfter(o.state, o.calls[|o.calls| - 1], reset)
  }

  lemma PollChain(r: Reply, reset: bool)
    ensures var o := Poll(r);
      o.calls != [] && Chain(o.calls, reset) && RestsAfter(o.state, o.calls[|o.calls| - 1], reset)
  {
  }

  lemma ApplyChain(r: Reply, reset: bool)
    ensures var o := ApplyAll(r, reset);
      o.calls != [] && Chain(o.calls, reset) && RestsAfter(o.state, o.calls[|o.calls| - 1], reset)
  {
  }

  lemma TransitionChain(state: InstallState, r: Reply, reset: bool)
    requires state.NeedsSetup? || state.NeedsPrepare? || state.AwaitingPrepare? || state.NeedsApply?
    ensures var o := Transition(state, r, reset);
      o.calls != [] && Chain(o.calls, reset) && RestsAfter(o.state, o.calls[|o.calls| - 1], reset)
  {
    match state
    case AwaitingPrepare => PollChain(r, reset);
    case NeedsApply => ApplyChain(r, reset);
    case _ =>
  }

  lemma TransitionStarts(state: InstallState, r: Reply, reset: bool, c: Call)
    requires RestsAfter(state, c, reset) && state != AwaitingReboot
    ensures var o := Transition(state, r, reset); o.calls != [] && Follows(c, o.calls[0], reset)
  {
  }

  lemma ChainAppend(a: seq<Call>, b: seq<Call>, reset: bool)
    requires Chain(a, reset) && Chain(b, reset)
    requires a != [] && b != [] ==> Follows(a[|a| - 1], b[0], reset)
    ensures Chain(a + b, reset)
  {
    var c := a + b;
    forall i | 0 <= i < |c| - 1
      ensures Follows(c[i], c[i + 1], reset)
    {
      if i < |a| - 1 {
        assert Follows(a[i], a[i + 1], reset);
      } else if i >= |a| {
        assert Follows(b[i - |a|], b[i - |a| + 1], reset);
      }
    }
  }

  lemma ThoroughMore(before: Outcome, r: Reply, reset: bool)
    requires Thorough(before, reset)
    ensures var o := Transition(before.state, r, reset); Thorough(Outcome(o.state, before.calls + o.calls), reset)
    ensures before.state != AwaitingReboot ==> Transition(before.state, r, reset).calls != []
  {
    if before.state == AwaitingReboot {
      assert before.calls + [] == before.calls;
    } else {
      var o := Transition(before.state, r, reset);
      TransitionChain(before.state, r, reset);
      if before.calls != [] {
        TransitionStarts(before.state, r, reset, before.calls[|before.calls| - 1]);
      }
      ChainAppend(before.calls, o.calls, reset);
    }
  }

  /** Every run is thorough: no call that must come is left out. */
  lemma {:induction false} StepsThorough(replies: seq<Reply>, reset: bool)
    ensures Thorough(Steps(replies, reset), reset)
    decreases |replies|
  {
    if replies != [] {
      StepsThorough(replies[..|replies| - 1], reset);
      ThoroughMore(Steps(replies[..|replies| - 1], reset), replies[|replies| - 1], reset);
    }
  }

  /** As long as the reboot is not awaited each transition makes a call, and it makes the one that
      must come next. */
  lemma TransitionGoesOn(replies: seq<Reply>, n: nat, reset: bool)
    requires n < |replies| && Steps(replies[..n], reset).state != AwaitingReboot
    ensures |Steps(replies[..n], reset).calls| < |Steps(replies[..n + 1], reset).calls|
    ensures Steps(replies[..n], reset).calls <= Steps(replies[..n + 1], reset).calls
    ensures Steps(replies[..n], reset).state == NeedsApply ==>
      Steps(replies[..n + 1], reset).calls[|Steps(replies[..n], reset).calls|] == Apply(replies[n].apply)
  {
    StepsMore(replies, n, reset);
    StepsThorough(replies[..n], reset);
    ThoroughMore(Steps(replies[..n], reset), replies[n], reset);
  }

  /** A wished reset is made at once when the update has been applied, in its second form if the
      first is not known. */
  lemma ResetIsMade(replies: seq<Reply>, i: nat)
    requires i < |Steps(replies, true).calls|
    ensures var calls := Steps(replies, true).calls;
      && (calls[i] == Apply(Ok) ==> i + 1 < |calls| && calls[i + 1].ResetForRefurbishment?)
      && (calls[i] == ResetForRefurbishment(IncompatSysVer) ==> i + 1 < |calls| && calls[i + 1].Reset?)
  {
    StepsThorough(replies, true);
    var calls := Steps(replies, true).calls;
    assert i < |calls| - 1 ==> Follows(calls[i], calls[i + 1], true);
  }

  /** The call carries what the service replied. */
  predicate Answers(r: Reply, c: Call) {
    match c
    case Setup(rc) => rc == r.setup
    case RequestPrepare(rc) => rc == r.request
    case Wait(rc) => rc == r.wait
    case Get(rc) => rc == r.get
    case HasPrepared(rc, prepared) => rc == r.has && prepared == r.prepared
    case Progress(rc) => rc == r.progress
    case Apply(rc) => rc == r.apply
    case ResetForRefurbishment(rc) => rc == r.refurbish
    case Reset(rc) => rc == r.reset
  }

  lemma TransitionAnswers(state: InstallState, r: Reply, reset: bool)
    ensures forall c :: c in Transition(state, r, reset).calls ==> Answers(r, c)
  {
  }

  /** Transition n is the last: it applies the update, or fails. */
  ghost predicate Last(replies: seq<Reply>, n: nat, reset: bool)
    requires n < |replies|
  {
    var state := Steps(replies[..n], reset).state;
    state == NeedsApply || Transition(state, replies[n], reset).state == AwaitingReboot
  }

  /** The machine awaits the reboot exactly after such a transition. */
  lemma {:induction false} EndsWhen(replies: seq<Reply>, reset: bool)
    ensures Steps(replies, reset).state == AwaitingReboot <==> exists n :: 0 <= n < |replies| && Last(replies, n, reset)
    decreases |replies|
  {
    if n :| 0 <= n < |replies| && Last(replies, n, reset) {
      StepsMore(replies, n, reset);
      RebootStays(replies, n + 1, reset);
    }
    if Steps(replies, reset).state == AwaitingReboot {
      var m := |replies| - 1;
      assert replies[..m + 1] == replies;
      StepsMore(replies, m, reset);
      assert Last(replies, m, reset);
    }
  }

  /** So polling ends with a reply that reports the update as prepared, or fails. */
  lemma PollingEnds(replies: seq<Reply>, n: nat, reset: bool)
    requires n < |replies|
    requires Steps(replies[..n], reset).state == NeedsApply || Steps(replies[..n], reset).state == AwaitingReboot
    ensures Steps(replies, reset).state == AwaitingReboot
  {
    assert Last(replies, n, reset);
    EndsWhen(replies, reset);
  }

  class Machine {
    const reset: bool
    var state: InstallState
    var calls: seq<Call>

    constructor (reset: bool)
      ensures this.reset == reset && state == NeedsDraw && calls == []
    {
      this.reset := reset;
      state := NeedsDraw;
      calls := [];
    }

    method Log(c: Call)
      modifies `calls
      ensures calls == old(calls) + [c]
    {
      calls := calls + [c];
    }

    /** MarkForReboot */
    method MarkForReboot()
      modifies `state
      ensures state == AwaitingReboot
    {
      state := AwaitingReboot;
    }

    /** TransitionUpdateState, the branch AwaitingPrepare. */
    method PollPrepare(r: Reply)
      requires state == AwaitingPrepare
      modifies this
      ensures state == Poll(r).state && calls == old(calls) + Poll(r).calls
    {
      Log(Wait(r.wait));
      if r.wait != Ok && r.wait != TimedOut {
        MarkForReboot();
        return;
      } else if r.wait == Ok {
        Log(Get(r.get));
        if r.get != Ok {
          MarkForReboot();
          return;
        }
      }
      Log(HasPrepared(r.has, r.prepared));
      if r.has != Ok {
        MarkForReboot();
        return;
      }
      if r.prepared {
        state := NeedsApply;
        return;
      }
      Log(Progress(r.progress));
      if r.progress != Ok {
        MarkForReboot();
      }
    }

    /** TransitionUpdateState, the branch NeedsApply. */
    method ApplyUpdate(r: Reply)
      requires state == NeedsApply
      modifies this
      ensures state == ApplyAll(r, reset).state && calls == old(calls) + ApplyAll(r, reset).calls
    {
      Log(Apply(r.apply));
      if r.apply == Ok && reset {
        Log(ResetForRefurbishment(r.refurbish));
        if r.refurbish != Ok {
          if r.refurbish == IncompatSysVer {
            Log(Reset(r.reset));
          }
        }
      }
      MarkForReboot();
    }

    /** TransitionUpdateState */
    method TransitionUpdateState(r: Reply)
      modifies this
      ensures var o := Transition(old(state), r, reset); state == o.state && calls == old(calls) + o.calls
    {
      match state {
        case NeedsSetup =>
          Log(Setup(r.setup));
          if r.setup != Ok {
            MarkForReboot();
          } else {
            state := NeedsPrepare;
          }
        case NeedsPrepare =>
          Log(RequestPrepare(r.request));
          if r.request != Ok {
            MarkForReboot();
          } else {
            state := AwaitingPrepare;
          }
        case AwaitingPrepare => PollPrepare(r);
        case NeedsApply => ApplyUpdate(r);
        case _ =>
      }
    }

    /** The driver in daybreak_main, as far as the replies reach. The state it leaves is that of
        the plain sequence of transitions; if its polling ends, the machine awaits the reboot. */
    method Drive(replies: seq<Reply>) returns (ended: bool)
      requires state == NeedsDraw && calls == []
      modifies this
      ensures Outcome(state, calls) == Steps(replies, reset) && (ended ==> state == AwaitingReboot)
      ensures ended <==> exists n :: 0 <= n < |replies| && Last(replies, n, reset)
      ensures Thorough(Outcome(state, calls), reset)
      ensures Safe(calls) && (!reset ==> forall c :: c in calls ==> !IsReset(c))
    {
      StepsSafe(replies, reset);
      NoUnwantedReset(replies);
      EndsWhen(replies, reset);
      StepsThorough(replies, reset);
      state := NeedsSetup;
      ended := DriveSetup(replies);
    }

    method DriveSetup(replies: seq<Reply>) returns (ended: bool)
      requires state == NeedsSetup && calls == []
      modifies this
      ensures Outcome(state, calls) == Steps(replies, reset) && ended == (state == AwaitingReboot)
    {
      assert replies[..|replies|] == replies;
      if |replies| == 0 {
        return false;
      }
      StepsMore(replies, 0, reset);
      TransitionUpdateState(replies[0]);
      if |replies| == 1 {
        return state == AwaitingReboot;
      }
      StepsMore(replies, 1, reset);
      if state != NeedsSetup && state != AwaitingReboot {
        TransitionUpdateState(replies[1]);
      }
      ended := DrivePolling(replies);
    }

    method DrivePolling(replies: seq<Reply>) returns (ended: bool)
      requires 2 <= |replies| && Outcome(state, calls) == Steps(replies[..2], reset)
      requires state == AwaitingPrepare || state == AwaitingReboot
      modifies this
      ensures Outcome(state, calls) == Steps(replies, reset) && ended == (state == AwaitingReboot)
    {
      var n := 2;
      assert replies[..|replies|] == replies;
      if state != NeedsPrepare && state != AwaitingReboot {
        while state != NeedsApply && state != AwaitingReboot && n < |replies|
          invariant n <= |replies| && Outcome(state, calls) == Steps(replies[..n], reset)
          invariant state == AwaitingPrepare || state == NeedsApply || state == AwaitingReboot
        {
          StepsMore(replies, n, reset);
          TransitionUpdateState(replies[n]);
          n := n + 1;
        }
      }
      if state != AwaitingReboot && n == |replies| {
        return false;
      }
      if state != AwaitingPrepare && state != AwaitingReboot {
        StepsMore(replies, n, reset);
        TransitionUpdateState(replies[n]);
        n := n + 1;
      }
      RebootStays(replies, n, reset);
      return true;
    }
  }
}
