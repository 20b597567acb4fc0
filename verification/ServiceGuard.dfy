/** The mutex and reference count around a service session, alone and under any interleaving of
    threads (includes/firmwares_install/service_guard.h). */
module ServiceGuard {
  const U32: nat := 0x1_0000_0000

  /** What happens to the service itself. */
  datatype Event = Opened | OpenFailed | Closed

  /** What the mutex protects. */
  datatype Shared = Shared(refCount: nat, open: bool, log: seq<Event>)

  const UNUSED := Shared(0, false, [])

  /** A finished call: an initialization and its result, or an exit and whether it counted. */
  datatype Done = Init(ok: bool) | Exit(counted: bool)

  // ---------------------------------------------------------------- single actions

  function Counted(s: Shared): Shared {
    s.(refCount := (s.refCount + 1) % U32)
  }

  /** _amssuInitialize with the reply `ok`. */
  function Asked(s: Shared, ok: bool): Shared {
    s.(open := ok, log := s.log + [if ok then Opened else OpenFailed])
  }

  /** _amssuCleanup */
  function Cleaned(s: Shared): Shared {
    s.(open := false, log := s.log + [Closed])
  }

  function Uncounted(s: Shared): Shared
    requires s.refCount > 0
  {
    s.(refCount := s.refCount - 1)
  }

  /** A whole initialization; `ok` is what the service replies if it is asked. */
  function AfterInit(s: Shared, ok: bool): Shared {
    if s.refCount > 0 then Counted(s)
    else
      var t := Asked(Counted(s), ok);
      if ok then t else Uncounted(Cleaned(t))
  }

  /** A whole exit. */
  function AfterExit(s: Shared): Shared {
    if s.refCount == 0 then s
    else var t := Uncounted(s); if t.refCount == 0 then Cleaned(t) else t
  }

  // ---------------------------------------------------------------- the code, one caller at a time

  class Guard {
    var locked: bool
    var refCount: nat
    var open: bool
    ghost var log: seq<Event>

    ghost function State(): Shared
      reads this
    {
      Shared(refCount, open, log)
    }

    constructor ()
      ensures !locked && State() == UNUSED
    {
      locked, refCount, open := false, 0, false;
      log := [];
    }

    /** serviceGuardBeginInit */
    method BeginInit() returns (first: bool)
      requires !locked
      modifies this
      ensures locked && State() == Counted(old(State())) && first == (old(refCount) == 0)
    {
      locked := true;
      first := refCount == 0;
      refCount := (refCount + 1) % U32;
    }

    method Ask(ok: bool)
      modifies this
      ensures locked == old(locked) && State() == Asked(old(State()), ok)
    {
      open := ok;
      log := log + [if ok then Opened else OpenFailed];
    }

    method Cleanup()
      modifies this
      ensures locked == old(locked) && State() == Cleaned(old(State()))
    {
      open := false;
      log := log + [Closed];
    }

    /** serviceGuardEndInit */
    method EndInit(rc: bool) returns (result: bool)
      requires locked && (rc || refCount > 0)
      modifies this
      ensures !locked && result == rc
      ensures State() == if rc then old(State()) else Uncounted(Cleaned(old(State())))
    {
      if !rc {
        Cleanup();
        refCount := refCount - 1;
      }
      locked := false;
      return rc;
    }

    /** amssuInitialize; the service would reply `ok`. */
    method Initialize(ok: bool) returns (rc: bool)
      requires !locked
      modifies this
      ensures !locked && State() == AfterInit(old(State()), ok)
      ensures rc == (old(refCount) > 0 || ok)
    {
      rc := true;
      var first := BeginInit();
      if first {
        Ask(ok);
        rc := ok;
      }
      rc := EndInit(rc);
    }

    /** amssuExit */
    method ExitService()
      requires !locked
      modifies this
      ensures !locked && State() == AfterExit(old(State()))
    {
      locked := true;
      if refCount != 0 {
        refCount := refCount - 1;
        if refCount == 0 {
          Cleanup();
        }
      }
      locked := false;
    }
  }

  // ---------------------------------------------------------------- calls one after the other

  function After(s: Shared, call: Done): Shared {
    match call
    case Init(ok) => AfterInit(s, ok)
    case Exit(_) => AfterExit(s)
  }

  /** The state after the calls, in order. */
  function Serial(calls: seq<Done>): Shared {
    if calls == [] then UNUSED else After(Serial(calls[..|calls| - 1]), calls[|calls| - 1])
  }

  /** Successful initializations minus exits that counted. */
  function Net(calls: seq<Done>): int {
    if calls == [] then 0
    else Net(calls[..|calls| - 1]) + match calls[|calls| - 1] {
      case Init(ok) => if ok then 1 else 0
      case Exit(counted) => if counted then -1 else 0
    }
  }

  /** The results are those the calls have when made in this order. */
  ghost predicate Truthful(calls: seq<Done>) {
    calls != [] ==>
      var before, call := calls[..|calls| - 1], calls[|calls| - 1];
      && Truthful(before)
      && match call {
        case Init(ok) => Serial(before).refCount > 0 ==> ok
        case Exit(counted) => counted == (Serial(before).refCount > 0)
      }
  }

  /** The count never reaches the end of its 32 bits. */
  ghost predicate NoWrap(calls: seq<Done>) {
    forall k :: 0 <= k <= |calls| ==> Net(calls[..k]) < U32
  }

  datatype Session = Shut | Live | Failed | Wrong

  /** The session that the events leave: opened only while shut, closed exactly once after each
      opening, successful or not. */
  function Replay(log: seq<Event>): Session {
    if log == [] then Shut
    else match (Replay(log[..|log| - 1]), log[|log| - 1])
      case (Shut, Opened) => Live
      case (Shut, OpenFailed) => Failed
      case (Live, Closed) => Shut
      case (Failed, Closed) => Shut
      case _ => Wrong
  }

  lemma ReplayMore(log: seq<Event>, e: Event)
    ensures Replay(log + [e]) == match (Replay(log), e)
      case (Shut, Opened) => Live
      case (Shut, OpenFailed) => Failed
      case (Live, Closed) => Shut
      case (Failed, Closed) => Shut
      case _ => Wrong
  {
    assert (log + [e])[..|log|] == log;
  }

  /** Open exactly while someone uses it, and the events in order. */
  ghost predicate Sound(s: Shared) {
    && (s.open <==> s.refCount > 0)
    && Replay(s.log) == if s.open then Live else Shut
  }

  /** Only the first user asks the service, a bad reply and the last user close it. */
  lemma WholeCalls(s: Shared, ok: bool)
    ensures AfterInit(s, ok) ==
      if s.refCount > 0 then s.(refCount := (s.refCount + 1) % 0x1_0000_0000)
      else if ok then Shared(1, true, s.log + [Opened])
      else Shared(0, false, s.log + [OpenFailed, Closed])
    ensures AfterExit(s) ==
      if s.refCount > 1 then s.(refCount := s.refCount - 1)
      else if s.refCount == 1 then Shared(0, false, s.log + [Closed])
      else s
  {
    assert s.log + [OpenFailed] + [Closed] == s.log + [OpenFailed, Closed];
  }

  /** An initialization keeps this exactly unless the count wraps around. */
  lemma InitKeepsSound(s: Shared, ok: bool)
    requires Sound(s) && s.refCount < U32
    ensures Sound(AfterInit(s, ok)) <==> s.refCount + 1 < U32
    ensures s.refCount + 1 < U32 ==> AfterInit(s, ok).refCount == s.refCount + if s.refCount > 0 || ok then 1 else 0
  {
    var asked := s.log + [if ok then Opened else OpenFailed];
    ReplayMore(s.log, if ok then Opened else OpenFailed);
    ReplayMore(asked, Closed);
  }

  /** One more user than 32 bits can count, and the session in use looks closed. */
  lemma CountWraps()
    ensures var s := Shared(U32 - 1, true, [Opened]);
      Sound(s) && AfterInit(s, true).refCount == 0 && AfterInit(s, true).open
  {
    assert [Opened][..0] == [];
  }

  lemma ExitKeepsSound(s: Shared)
    requires Sound(s)
    ensures Sound(AfterExit(s)) && AfterExit(s).refCount == if s.refCount > 0 then s.refCount - 1 else 0
  {
    ReplayMore(s.log, Closed);
  }

  /** After any calls the session is open exactly when the count is positive, and the count is
      the successful initializations minus the exits that counted. */
  lemma {:induction false} SerialSound(calls: seq<Done>)
    requires Truthful(calls) && NoWrap(calls)
    ensures Sound(Serial(calls)) && Serial(calls).refCount == Net(calls)
    decreases |calls|
  {
    if calls != [] {
      var before := calls[..|calls| - 1];
      forall k | 0 <= k <= |before|
        ensures Net(before[..k]) < U32
      {
        assert before[..k] == calls[..k];
      }
      SerialSound(before);
      assert calls[..|calls|] == calls;
      match calls[|calls| - 1]
      case Init(ok) =>
        assert Serial(before).refCount > 0 ==> ok;
        InitKeepsSound(Serial(before), ok);
      case Exit(_) => ExitKeepsSound(Serial(before));
    }
  }
}
