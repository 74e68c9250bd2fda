/** runOnWriterLoopSync: a closure over the caller's stack, run on the IO loop under a
    started/done handshake with a timeout. Every step that another thread can come between is a
    step of its own; wake-ups may be spurious and timeouts may come at any time. */
module SyncCall {

  datatype Owner = Free | ByCaller | ByLoop

  datatype CallerPc =
    | Entering                    // about to lock
    | Testing                     // holds the lock, at the test of done
    | Waiting                     // inside wait_for, lock released
    | Woken(timedOut: bool)       // wait_for is about to relock
    | TimedOut                    // holds the lock, at the test of started
    | Returned(result: bool)

  datatype LoopPc =
    | Posted                      // the event has not run yet
    | Starting                    // holds the lock, about to mark the start
    | Taken(local: bool)          // lock released; local tells whether localFn is set
    | Running                     // inside the closure
    | Ran                         // closure over or skipped, about to lock
    | Closing                     // holds the lock, about to mark done
    | Notifying
    | Over

  /** The call object, both threads, and how often the closure has begun and ended. */
  datatype State = State(
    hasFn: bool, lock: Owner, fnSet: bool, started: bool, done: bool,
    caller: CallerPc, loop: LoopPc, begun: nat, ended: nat)

  datatype Act =
    | CallerLock | CallerTest | CallerWake(timeout: bool) | CallerRelock | CallerGiveUp
    | LoopLock | LoopStart | LoopBegin | LoopEnd | LoopRelock | LoopClose | LoopNotify

  predicate Enabled(s: State, a: Act)
  {
    match a
    case CallerLock => s.caller.Entering? && s.lock.Free?
    case CallerTest => s.caller.Testing?
    case CallerWake(_) => s.caller.Waiting?
    case CallerRelock => s.caller.Woken? && s.lock.Free?
    case CallerGiveUp => s.caller.TimedOut?
    case LoopLock => s.loop.Posted? && s.lock.Free?
    case LoopStart => s.loop.Starting?
    case LoopBegin => s.loop.Taken?
    case LoopEnd => s.loop.Running?
    case LoopRelock => s.loop.Ran? && s.lock.Free?
    case LoopClose => s.loop.Closing?
    case LoopNotify => s.loop.Notifying?
  }

  function Apply(s: State, a: Act): State
    requires Enabled(s, a)
  {
    match a
    case CallerLock => s.(lock := ByCaller, caller := Testing)
    case CallerTest =>
      if s.done then s.(lock := Free, caller := Returned(true)) else s.(lock := Free, caller := Waiting)
    case CallerWake(timeout) => s.(caller := Woken(timeout))
    case CallerRelock => s.(lock := ByCaller, caller := if s.caller.timedOut then TimedOut else Testing)
    case CallerGiveUp =>
      if !s.started then s.(fnSet := false, done := true, lock := Free, caller := Returned(false))
      else s.(caller := Testing)
    case LoopLock => s.(lock := ByLoop, loop := Starting)
    case LoopStart => s.(started := true, lock := Free, loop := Taken(s.fnSet))
    case LoopBegin => if s.loop.local then s.(loop := Running, begun := s.begun + 1) else s.(loop := Ran)
    case LoopEnd => s.(loop := Ran, ended := s.ended + 1)
    case LoopRelock => s.(lock := ByLoop, loop := Closing)
    case LoopClose => s.(fnSet := false, done := true, lock := Free, loop := Notifying)
    case LoopNotify => s.(loop := Over)
  }

  function Init(hasFn: bool): State { State(hasFn, Free, hasFn, false, false, Entering, Posted, 0, 0) }

  ghost predicate CanRun(s: State, acts: seq<Act>)
    decreases |acts|
  {
    acts == [] || (Enabled(s, acts[0]) && CanRun(Apply(s, acts[0]), acts[1..]))
  }

  ghost function Run(s: State, acts: seq<Act>): State
    requires CanRun(s, acts)
    decreases |acts|
  {
    if acts == [] then s else Run(Apply(s, acts[0]), acts[1..])
  }

  function Once(s: State): nat { if s.hasFn then 1 else 0 }

  ghost predicate Inv(s: State)
  {
    (s.lock.ByCaller? <==> s.caller.Testing? || s.caller.TimedOut?) &&
    (s.lock.ByLoop? <==> s.loop.Starting? || s.loop.Closing?) &&
    (s.started <==> !s.loop.Posted? && !s.loop.Starting?) && (s.done ==> !s.fnSet) &&
    if s.caller == Returned(false) then
      s.done && !s.fnSet && s.begun == s.ended == 0 && !s.loop.Running? && s.loop != Taken(true)
    else
      (s.done <==> s.loop.Notifying? || s.loop.Over?) &&
      (s.caller == Returned(true) ==> s.done) &&
      match s.loop
      case Posted => s.fnSet == s.hasFn && s.begun == s.ended == 0
      case Starting => s.fnSet == s.hasFn && s.begun == s.ended == 0
      case Taken(local) => local == s.hasFn && s.begun == s.ended == 0
      case Running => s.hasFn && s.begun == 1 && s.ended == 0
      case _ => s.begun == s.ended == Once(s)
  }

  lemma {:induction false} StepInv(s: State, a: Act)
    requires Inv(s) && Enabled(s, a)
    ensures Inv(Apply(s, a)) && Apply(s, a).hasFn == s.hasFn
  {
  }

  lemma {:induction false} RunInv(s: State, acts: seq<Act>)
    requires Inv(s) && CanRun(s, acts)
    ensures Inv(Run(s, acts)) && Run(s, acts).hasFn == s.hasFn
    decreases |acts|
  {
    if acts != [] {
      StepInv(s, acts[0]);
      RunInv(Apply(s, acts[0]), acts[1..]);
    }
  }

  /** In every interleaving, true means that the closure has run exactly once to its end, and false
      that it has not begun; the call object has let go of it by then. */
  lemma {:induction false} ResultTellsRun(hasFn: bool, acts: seq<Act>)
    requires CanRun(Init(hasFn), acts)
    ensures var t := Run(Init(hasFn), acts);
            (t.caller == Returned(true) ==> t.begun == t.ended == if hasFn then 1 else 0) &&
            (t.caller == Returned(false) ==> t.begun == t.ended == 0) &&
            (t.caller.Returned? ==> !t.fnSet) &&
            t.begun <= 1
  {
    RunInv(Init(hasFn), acts);
  }

  /** Once the call has returned the closure is not running, and it never begins again, whatever
      steps the loop still takes. */
  lemma {:induction false} NeverRunsAfterReturn(s: State, acts: seq<Act>)
    requires Inv(s) && s.caller.Returned? && CanRun(s, acts)
    ensures var t := Run(s, acts);
            t.caller == s.caller && !s.loop.Running? && !t.loop.Running? && t.begun == s.begun && t.ended == s.ended
    decreases |acts|
  {
    if acts != [] {
      StepInv(s, acts[0]);
      NeverRunsAfterReturn(Apply(s, acts[0]), acts[1..]);
    }
  }

  /** While the closure is inside the loop the caller cannot leave, however often it times out. */
  lemma {:induction false} CallerWaitsForRun(s: State, a: Act)
    requires Inv(s) && Enabled(s, a) && s.loop.Running?
    ensures !Apply(s, a).caller.Returned?
  {
  }

  /** A caller that gives up before the start makes the posted event a no-op, and still lets it
      close the call. */
  lemma GivingUpDisarms() returns (acts: seq<Act>)
    ensures CanRun(Init(true), acts)
    ensures var t := Run(Init(true), acts); t.caller == Returned(false) && t.loop.Over? && t.begun == 0
  {
    acts := [CallerLock, CallerTest, CallerWake(true), CallerRelock, CallerGiveUp,
             LoopLock, LoopStart, LoopBegin, LoopRelock, LoopClose, LoopNotify];
    var s1 := Apply(Apply(Apply(Apply(Apply(Init(true), CallerLock), CallerTest), CallerWake(true)),
        CallerRelock), CallerGiveUp);
    var rest := [LoopLock, LoopStart, LoopBegin, LoopRelock, LoopClose, LoopNotify];
    assert acts[1..][1..][1..][1..][1..] == rest;
    LateEvent(s1);
  }

  /** The event of a call that was given up runs to its end without the closure. */
  lemma LateEvent(s: State)
    requires s.lock.Free? && s.loop.Posted? && !s.fnSet && s.caller == Returned(false) && s.begun == 0
    ensures var rest := [LoopLock, LoopStart, LoopBegin, LoopRelock, LoopClose, LoopNotify];
            CanRun(s, rest) &&
            var t := Run(s, rest); t.caller == s.caller && t.loop.Over? && t.begun == 0
  {
    var rest := [LoopLock, LoopStart, LoopBegin, LoopRelock, LoopClose, LoopNotify];
    assert rest[1..][1..][1..][1..][1..][1..] == [];
  }

  function LoopRank(l: LoopPc): nat
  {
    match l
    case Posted => 7 case Starting => 6 case Taken(_) => 5 case Running => 4 case Ran => 3
    case Closing => 2 case Notifying => 1 case Over => 0
  }

  function CallerRank(c: CallerPc): nat
  {
    match c
    case Waiting => 5 case Entering => 4 case Woken(_) => 4 case TimedOut => 3 case Testing => 2 case Returned(_) => 0
  }

  /** The next act towards the end: whoever holds the lock moves, else the loop until it is over. */
  function Onward(s: State): Act
  {
    if s.lock.ByCaller? || s.loop.Over? then
      match s.caller
      case Entering => CallerLock
      case Testing => CallerTest
      case Waiting => CallerWake(false)
      case Woken(_) => CallerRelock
      case _ => CallerGiveUp
    else
      match s.loop
      case Posted => LoopLock
      case Starting => LoopStart
      case Taken(_) => LoopBegin
      case Running => LoopEnd
      case Ran => LoopRelock
      case Closing => LoopClose
      case _ => LoopNotify
  }

  lemma OnwardFits(s: State)
    requires Inv(s) && !(s.loop.Over? && s.caller.Returned?)
    ensures Enabled(s, Onward(s))
    ensures var t := Apply(s, Onward(s));
            if s.lock.ByCaller? && !s.loop.Over? then
              t.loop == s.loop && (CallerRank(t.caller) < CallerRank(s.caller) || t.lock.Free?)
            else LoopRank(t.loop) < LoopRank(s.loop) ||
                 (t.loop == s.loop && CallerRank(t.caller) < CallerRank(s.caller))
    ensures s.loop.Over? ==> s.done && (!s.caller.Returned? ==> !Apply(s, Onward(s)).caller.Waiting?)
  {
  }

  /** From every state a run reaches, loop and caller can still both come to their end: the lock is
      never left behind, and a caller that has not given up is told so with true. */
  lemma {:induction false} CallCanEnd(s: State) returns (acts: seq<Act>)
    requires Inv(s)
    ensures CanRun(s, acts)
    ensures var t := Run(s, acts);
            t.loop.Over? && t.caller.Returned? && t.lock.Free? &&
            (t.caller == Returned(true) ==> t.begun == t.ended == Once(s))
    decreases LoopRank(s.loop), if s.lock.ByCaller? || s.loop.Over? then 1 else 0, CallerRank(s.caller)
  {
    if s.loop.Over? && s.caller.Returned? {
      acts := [];
    } else {
      OnwardFits(s);
      StepInv(s, Onward(s));
      var t := Apply(s, Onward(s));
      hide Inv, Apply, Enabled, Onward;
      var rest := CallCanEnd(t);
      acts := [Onward(s)] + rest;
      assert acts[1..] == rest;
    }
  }

  /** A caller that has not returned when the call is done, and is not kept from the lock, returns
      true on its next turn, whether it was woken or has timed out after the start. */
  lemma DoneMeansTrue(s: State, timeout: bool)
    requires Inv(s) && s.done && s.caller.Waiting? && s.lock.Free?
    ensures var acts := [CallerWake(timeout), CallerRelock] + (if timeout then [CallerGiveUp] else []) + [CallerTest];
            CanRun(s, acts) && Run(s, acts) == s.(caller := Returned(true))
  {
    var s1 := s.(caller := Woken(timeout));
    var s3 := s.(lock := ByCaller, caller := Testing);
    var s4 := s.(caller := Returned(true));
    assert CanRun(s4, []) && Run(s4, []) == s4;
    RunCons(s3, CallerTest, []);
    var tail := [CallerTest] + [];
    if timeout {
      RunCons(s.(lock := ByCaller, caller := TimedOut), CallerGiveUp, tail);
      tail := [CallerGiveUp] + tail;
    }
    RunCons(s1, CallerRelock, tail);
    RunCons(s, CallerWake(timeout), [CallerRelock] + tail);
    assert [CallerWake(timeout)] + ([CallerRelock] + tail) ==
        [CallerWake(timeout), CallerRelock] + (if timeout then [CallerGiveUp] else []) + [CallerTest];
  }

  lemma RunCons(s: State, a: Act, rest: seq<Act>)
    requires Enabled(s, a) && CanRun(Apply(s, a), rest)
    ensures CanRun(s, [a] + rest) && Run(s, [a] + rest) == Run(Apply(s, a), rest)
  {
    assert ([a] + rest)[1..] == rest;
    hide Enabled, Apply;
  }

  /** SyncWriterCall with the positions of its two threads; each method is one critical section. */
  class SyncWriterCall {
    const hasFn: bool
    var lock: Owner
    var fnSet: bool
    var started: bool
    var done: bool
    var caller: CallerPc
    var loop: LoopPc
    ghost var begun: nat
    ghost var ended: nat

    ghost function Snapshot(): State
      reads this
    {
      State(hasFn, lock, fnSet, started, done, caller, loop, begun, ended)
    }

    constructor (callback: bool)
      ensures Snapshot() == Init(callback)
    {
      hasFn, lock, fnSet, started, done := callback, Free, callback, false, false;
      caller, loop, begun, ended := Entering, Posted, 0, 0;
    }

    /** The loop marks the start and copies the closure, under the lock. */
    method MarkStarted()
      requires Inv(Snapshot()) && Enabled(Snapshot(), LoopLock)
      modifies this
      ensures Inv(Snapshot()) && Snapshot() == Apply(Apply(old(Snapshot()), LoopLock), LoopStart)
    {
      lock, loop := ByLoop, Starting;
      started := true;
      loop := Taken(fnSet);
      lock := Free;
    }

    /** The loop runs its copy, if there is one, outside the lock. */
    method RunLocalCopy()
      requires Inv(Snapshot()) && Enabled(Snapshot(), LoopBegin)
      modifies this
      ensures Inv(Snapshot()) && loop.Ran?
      ensures begun == ended == if old(caller) == Returned(false) then 0 else Once(old(Snapshot()))
      ensures var s := Apply(old(Snapshot()), LoopBegin);
              Snapshot() == if s.loop.Running? then Apply(s, LoopEnd) else s
    {
      if loop.local {
        loop, begun := Running, begun + 1;
        loop, ended := Ran, ended + 1;
      } else {
        loop := Ran;
      }
    }

    method MarkDone()
      requires Inv(Snapshot()) && Enabled(Snapshot(), LoopRelock)
      modifies this
      ensures Inv(Snapshot()) && Snapshot() == Apply(Apply(old(Snapshot()), LoopRelock), LoopClose)
    {
      lock, loop := ByLoop, Closing;
      fnSet := false;
      done := true;
      lock, loop := Free, Notifying;
    }

    /** One turn of the caller's loop after wait_for returned: give up only on a timeout before the
        start, return true only when done, and otherwise wait again. */
    method AfterWait() returns (back: bool, result: bool)
      requires Inv(Snapshot()) && Enabled(Snapshot(), CallerRelock)
      modifies this
      ensures Inv(Snapshot())
      ensures back <==> caller.Returned?
      ensures back ==> caller == Returned(result)
      ensures back <==> old(done) || (old(caller.timedOut) && !old(started))
      ensures back ==> (result <==> old(done))
      ensures back && !result ==> old(caller.timedOut) && !old(started) && begun == 0
      ensures back && result ==> begun == ended == Once(Snapshot())
      ensures begun == old(begun) && ended == old(ended) && started == old(started)
      ensures var s1 := Apply(old(Snapshot()), CallerRelock);
              var s2 := if s1.caller.TimedOut? then Apply(s1, CallerGiveUp) else s1;
              Snapshot() == if s2.caller.Testing? then Apply(s2, CallerTest) else s2
    {
      lock, caller := ByCaller, if caller.timedOut then TimedOut else Testing;
      if caller.TimedOut? {
        if !started {
          fnSet := false;
          done := true;
          lock, caller := Free, Returned(false);
          return true, false;
        }
        caller := Testing;
      }
      if done {
        lock, caller := Free, Returned(true);
        return true, true;
      }
      lock, caller := Free, Waiting;
      return false, false;
    }
  }
}
