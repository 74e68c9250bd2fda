/** What each part of an event does to the receivers, read off the behaviour of the callbacks: when it
    fails, whose receiver goes, which slot is emptied and which response ended; and that a request
    whose receiver has gone, or can no longer be found, is never completed. */
module BodyFailure {
  import opened Wrappers
  import opened BodyRoute
  import opened BodyWalk
  import Middleware

  // ----- what one act does -----

  predicate InSlot(w: World, c: Ctx, sid: Sid) { c in w.onclose && w.onclose[c] == sid }

  /** The event ends in failure: there is no receiver to be had, or a callback of the application
      threw. */
  predicate EventFails(w: World, c: Ctx, o: Outcome)
    requires c in w.pending
  {
    match w.pending[c].event
    case HeadersComplete => o.factoryThrows || !o.factoryGives || c !in w.writers
    case Body(_) => FoundLive(w, c) && o.writeThrows
    case MessageComplete => !FoundLive(w, c) || Middleware.Execute(o.chain, FinalOf(o)).threw
    case _ => false
  }

  /** The state the event works on. */
  function Own(w: World, c: Ctx): Option<Sid>
    requires c in w.pending
  {
    if w.pending[c].event.HeadersComplete? then Some(w.next) else w.pending[c].found
  }

  /** The writer runs its close callback while the event calls the application. */
  predicate EventCloses(w: World, c: Ctx, o: Outcome)
    requires c in w.pending
  {
    match w.pending[c].event
    case HeadersComplete => o.factoryCloses
    case Body(_) => FoundLive(w, c) && o.writeCloses
    case MessageComplete => FoundLive(w, c) && !OpenUntil(TraceOf(o), |TraceOf(o)|, true, o.completeCloses)
    case _ => false
  }

  /** The rest of an event: a failure ends the response, if there is a writer, and empties the slot of
      its own context, as does every final event; only the headers of a request fill it. */
  ghost predicate FreesSlot(w: World, c: Ctx, o: Outcome, v: World)
    requires c in w.pending
  {
    var fails, event := EventFails(w, c, o), w.pending[c].event;
    c !in v.pending && v.writers == w.writers &&
    v.ended == w.ended + (if fails && c in w.writers then [c] else []) &&
    (c in v.onclose <==> !fails && (event.HeadersComplete? ||
                                    (c in w.onclose && !event.MessageComplete? && !event.Error?))) &&
    (c in v.onclose ==> v.onclose[c] == if event.HeadersComplete? then w.next else w.onclose[c]) &&
    v.values == (if event.HeadersComplete? && !fails then w.values[c := w.next] else w.values) &&
    v.onclose - {c} == w.onclose - {c} && v.pending == w.pending - {c}
  }

  /** A receiver is there after the event exactly when it was there before, or has just been made, and
      neither a failure of its own event nor a close of its own slot has taken it away. States keep
      their owners, and only the event's own receiver is written to, and only while it lives. */
  ghost predicate KeepsReceiver(w: World, c: Ctx, o: Outcome, v: World, sid: Sid)
    requires c in w.pending
  {
    var fails, event := EventFails(w, c, o), w.pending[c].event;
    (sid in v.states <==> sid in w.states || (event.HeadersComplete? && sid == w.next)) &&
    (sid in v.states ==>
       (v.states[sid].live <==>
          if sid !in w.states then !fails && !o.interimCloses
          else w.states[sid].live && !(fails && Own(w, c) == Some(sid)) &&
               !(EventCloses(w, c, o) && InSlot(w, c, sid)))) &&
    (sid in w.states ==>
       v.states[sid].owner == w.states[sid].owner &&
       (v.states[sid] == w.states[sid].(live := v.states[sid].live) ||
        (FoundLive(w, c) && w.pending[c].found == Some(sid)))) &&
    (sid !in w.states && sid in v.states ==>
       v.states[sid].owner == c && v.states[sid].completes == v.states[sid].nulls == 0 && v.states[sid].got == "")
  }

  lemma HeadersRefused(w: World, c: Ctx, o: Outcome, sid: Sid)
    requires c in w.pending && w.pending[c].event.HeadersComplete? && w.next !in w.states
    requires (c in w.onclose ==> w.onclose[c] in w.states) && EventFails(w, c, o)
    ensures var v := AfterHeaders(w, c, o); FreesSlot(w, c, o, v) && KeepsReceiver(w, c, o, v, sid)
  {
    var w0 := ClosedIf(w, c, o.factoryCloses);
    assert w0 == w.(states := w0.states);
    hide Middleware.Execute;
  }

  lemma HeadersInstalled(w: World, c: Ctx, o: Outcome, sid: Sid)
    requires c in w.pending && w.pending[c].event.HeadersComplete? && w.next !in w.states
    requires (c in w.onclose ==> w.onclose[c] in w.states) && !EventFails(w, c, o)
    ensures var v := AfterHeaders(w, c, o); FreesSlot(w, c, o, v) && KeepsReceiver(w, c, o, v, sid)
  {
    var w0 := ClosedIf(w, c, o.factoryCloses);
    assert w0 == w.(states := w0.states);
    var s := BodyState(c, true, "", "", 0, 0, false);
    var w2 := DropPending(w0.(states := w0.states[w.next := s], current := w0.current[c := w.next], next := w.next + 1,
        onclose := w0.onclose[c := w.next], values := w0.values[c := w.next]), c);
    assert AfterHeaders(w, c, o) == ClosedIf(w2, c, o.interimCloses);
    assert !EventFails(w, c, o);
    hide AfterHeaders, Middleware.Execute, EventFails, Purged;
  }

  lemma {:induction false} BodyFinish(w: World, c: Ctx, data: string, o: Outcome, sid: Sid)
    requires c in w.pending && w.pending[c].event == Body(data)
    requires c in w.onclose ==> w.pending[c].found == Some(w.onclose[c])
    ensures var v := AfterBody(w, c, data, w.pending[c].found, o);
            FreesSlot(w, c, o, v) && KeepsReceiver(w, c, o, v, sid)
  {
    hide Middleware.Execute;
  }

  /** The walk along the chain leaves the receiver exactly when nothing on it closes. */
  lemma MessageKeeps(o: Outcome, hooked: bool)
    ensures MessageWalk(o.chain, FinalOf(o), hooked, o.completeCloses).live <==>
            !hooked || OpenUntil(TraceOf(o), |TraceOf(o)|, true, o.completeCloses)
  {
    MessageExactly(o.chain, FinalOf(o), hooked, o.completeCloses);
    NeverCloses(TraceOf(o), o.completeCloses);
    hide Middleware.Execute, MessageWalk, OpenUntil, RunsGone, RunsOpenTwice, Middleware.AllReach, ChainCloses;
  }

  lemma MessageFrees(w: World, c: Ctx, o: Outcome)
    requires c in w.pending && w.pending[c].event.MessageComplete?
    ensures FreesSlot(w, c, o, AfterMessage(w, c, w.pending[c].found, o))
  {
    hide Middleware.Execute, MessageWalk, OpenUntil;
  }

  lemma MessageFinish(w: World, c: Ctx, o: Outcome, sid: Sid)
    requires c in w.pending && w.pending[c].event.MessageComplete?
    requires c in w.onclose ==> w.pending[c].found == Some(w.onclose[c])
    ensures KeepsReceiver(w, c, o, AfterMessage(w, c, w.pending[c].found, o), sid)
  {
    MessageKeeps(o, c in w.onclose);
    hide Middleware.Execute, MessageWalk, OpenUntil;
  }

  /** Exactly what the rest of an event frees and keeps. */
  lemma {:induction false} FinishExactly(w: World, c: Ctx, o: Outcome, sid: Sid)
    requires Inv(w) && c in w.pending
    ensures FreesSlot(w, c, o, Finished(w, c, o)) && KeepsReceiver(w, c, o, Finished(w, c, o), sid)
  {
    assert SlotInv(w, c);
    FoundBeforeNext(w, c);
    assert c in w.onclose && !w.pending[c].event.HeadersComplete? ==> w.pending[c].found == Some(w.onclose[c]);
    hide Inv, SlotInv;
    match w.pending[c].event {
      case HeadersComplete =>
        if EventFails(w, c, o) { HeadersRefused(w, c, o, sid); } else { HeadersInstalled(w, c, o, sid); }
      case Body(data) =>
        BodyFinish(w, c, data, o, sid);
      case MessageComplete =>
        MessageFrees(w, c, o);
        MessageFinish(w, c, o, sid);
      case _ =>
    }
  }

  /** A receiver that the close callback does not hold is not closed. */
  lemma NeverCloses(trace: seq<Middleware.Seen>, cc: bool)
    ensures OpenUntil(trace, |trace|, false, cc)
  {
  }

  /** An event looks up the state of its request exactly when the close callback holds one; a final
      event takes the entry out of the map. */
  lemma {:induction false} BeginFinds(w: World, c: Ctx, event: ParserEvent)
    requires Inv(w) && c !in w.pending
    ensures Enabled(w, Begin(c, event))
    ensures var v := Begun(w, c, event);
            c in v.pending && v.pending[c].event == event &&
            v.pending[c].found == (if c in w.onclose then Some(w.onclose[c]) else None) &&
            v.onclose == w.onclose && v.writers == w.writers && v.ended == w.ended &&
            (c in v.values <==> c in w.onclose && !event.Error? && !event.MessageComplete?) &&
            v.states.Keys == w.states.Keys &&
            forall sid :: sid in w.states ==> v.states[sid] == w.states[sid].(sent := v.states[sid].sent)
  {
    assert SlotInv(w, c);
    if c in w.onclose { PurgeKeepsOwned(w, c); }
    if c in w.values { HeldOnlyByOwner(w, c); }
  }

  /** A close can come as long as the slot is filled, and takes that receiver and no other; the slot
      can be emptied by others at any time. */
  lemma CloseTakesReceiver(w: World, c: Ctx, sid: Sid)
    requires Inv(w)
    ensures Enabled(w, Close(c)) <==> c in w.onclose
    ensures var v := Closed(w, c);
            v == w.(states := v.states) && v.states.Keys == w.states.Keys &&
            (sid in w.states ==>
               v.states[sid] == w.states[sid].(live := w.states[sid].live && !(c in w.onclose && w.onclose[c] == sid)))
    ensures Enabled(w, ClearOnClose(c)) && (Enabled(w, ReleaseWriter(c)) <==> c in w.writers)
    ensures Apply(w, ClearOnClose(c)) == w.(onclose := w.onclose - {c})
    ensures c in w.writers ==>
              Apply(w, ReleaseWriter(c)) == w.(onclose := w.onclose - {c}, writers := w.writers - {c})
  {
    assert SlotInv(w, c);
  }

  // ----- a request that is over stays over -----

  predicate Erring(w: World, c: Ctx) { c in w.pending && w.pending[c].event.Error? }

  /** The act takes the receiver of the state away, or the last way to find it: a close, a parse error,
      the end of the message, a failure of the factory, of write or of the chain, new headers, or the
      loss of the slot between two events. */
  predicate Retires(w: World, a: Act, sid: Sid)
    requires Enabled(w, a)
  {
    match a
    case Close(c) => InSlot(w, c, sid)
    case ClearOnClose(c) => InSlot(w, c, sid) && c !in w.pending
    case ReleaseWriter(c) => InSlot(w, c, sid) && c !in w.pending
    case Begin(c, event) => event.Error? && InSlot(w, c, sid)
    case Finish(c, o) =>
      (EventFails(w, c, o) && Own(w, c) == Some(sid)) ||
      (w.pending[c].event.MessageComplete? && w.pending[c].found == Some(sid)) ||
      (w.pending[c].event.HeadersComplete? && InSlot(w, c, sid))
    case Connect(_) => false
  }

  /** The receiver of the state is gone, or no event finds it any more. */
  ghost predicate Retired(w: World, sid: Sid)
  {
    sid in w.states &&
    var c := w.states[sid].owner;
    !w.states[sid].live || (Erring(w, c) && w.pending[c].found == Some(sid)) ||
    (!InSlot(w, c, sid) && !(c in w.pending && w.pending[c].found == Some(sid)))
  }

  lemma {:induction false} OwnerOnly(w: World, c: Ctx, sid: Sid)
    requires Inv(w)
    ensures InSlot(w, c, sid) || (c in w.pending && w.pending[c].found == Some(sid)) ==>
              sid in w.states && w.states[sid].owner == c && w.states[sid].completes == 0
  {
    assert SlotInv(w, c);
  }

  lemma {:induction false} ActRetires(w: World, a: Act, sid: Sid)
    requires Inv(w) && Enabled(w, a) && Retires(w, a, sid)
    ensures Retired(Apply(w, a), sid)
  {
    OwnerOnly(w, a.ctx, sid);
    match a {
      case Begin(c, event) => BeginFinds(w, c, event);
      case Finish(c, o) =>
        FinishExactly(w, c, o, sid);
        FoundBeforeNext(w, c);
      case _ =>
    }
    hide Inv, Begun, Finished, Middleware.Execute, OpenUntil;
  }

  lemma FoundBeforeNext(w: World, c: Ctx)
    requires Inv(w) && c in w.pending
    ensures w.next !in w.states && w.pending[c].found != Some(w.next)
  {
    assert SlotInv(w, c);
    assert forall t :: t in w.states ==> StateInv(w, t);
  }

  /** The state has been given nothing, and not completed. */
  ghost predicate LeftAlone(w: World, v: World, sid: Sid)
    requires sid in w.states
  {
    sid in v.states && v.states[sid].completes == w.states[sid].completes &&
    v.states[sid].nulls == w.states[sid].nulls && v.states[sid].got == w.states[sid].got
  }

  lemma BeginStays(w: World, c: Ctx, event: ParserEvent, sid: Sid)
    requires Inv(w) && c !in w.pending && Retired(w, sid)
    ensures Retired(Begun(w, c, event), sid) && LeftAlone(w, Begun(w, c, event), sid)
  {
    BeginFinds(w, c, event);
    var v := Begun(w, c, event);
    assert forall d :: d != c ==>
        (d in v.pending <==> d in w.pending) && (d in v.pending ==> v.pending[d] == w.pending[d]);
    hide Inv, Begun;
  }

  lemma FinishStays(w: World, c: Ctx, o: Outcome, sid: Sid)
    requires Inv(w) && c in w.pending && Retired(w, sid)
    ensures Retired(Finished(w, c, o), sid) && LeftAlone(w, Finished(w, c, o), sid)
  {
    OwnerOnly(w, c, sid);
    FinishExactly(w, c, o, sid);
    FoundBeforeNext(w, c);
    var v, d := Finished(w, c, o), w.states[sid].owner;
    assert d != c ==> (InSlot(v, d, sid) <==> InSlot(w, d, sid)) by {
      assert d != c ==> (d in v.onclose - {c} <==> d in v.onclose) && (d in w.onclose - {c} <==> d in w.onclose);
    }
    hide Inv, Finished, Middleware.Execute, OpenUntil, EventCloses;
  }

  /** Nobody's act brings such a request back, gives it data or completes it. */
  lemma {:induction false} StaysRetired(w: World, a: Act, sid: Sid)
    requires Inv(w) && Enabled(w, a) && Retired(w, sid)
    ensures Retired(Apply(w, a), sid) && LeftAlone(w, Apply(w, a), sid)
  {
    match a {
      case Begin(c, event) => BeginStays(w, c, event, sid);
      case Finish(c, o) => FinishStays(w, c, o, sid);
      case Close(c) => CloseTakesReceiver(w, c, sid);
      case _ =>
    }
    hide Inv, Begun, Finished, Closed;
  }

  lemma {:induction false} RunStaysRetired(w: World, acts: seq<Act>, sid: Sid)
    requires Inv(w) && CanRun(w, acts) && Retired(w, sid)
    ensures LeftAlone(w, Run(w, acts), sid)
    decreases |acts|
  {
    if acts != [] {
      StepInv(w, acts[0]);
      StaysRetired(w, acts[0], sid);
      hide Inv, Apply, Enabled, Retired;
      RunStaysRetired(Apply(w, acts[0]), acts[1..], sid);
    }
  }

  /** Over every run: once a close, an error, a failure of factory, write or chain, or the end of its
      message has come over a request, its receiver is given nothing more and never completed
      again; and if that was not the end of its message, it is never completed at all. */
  lemma {:induction false} OverForGood(before: seq<Act>, a: Act, after: seq<Act>, sid: Sid)
    requires CanRun(EMPTY, before) && Enabled(Run(EMPTY, before), a) && Retires(Run(EMPTY, before), a, sid)
    requires CanRun(Apply(Run(EMPTY, before), a), after)
    ensures var w := Run(EMPTY, before);
            var v := Apply(w, a);
            var last := Run(v, after);
            sid in v.states && LeftAlone(v, last, sid) &&
            (!(a.Finish? && w.pending[a.ctx].event.MessageComplete?) ==> last.states[sid].completes == 0)
  {
    RunInv(EMPTY, before);
    var w := Run(EMPTY, before);
    var v := Apply(w, a);
    StepInv(w, a);
    ActRetires(w, a, sid);
    RunStaysRetired(v, after, sid);
    if !(a.Finish? && w.pending[a.ctx].event.MessageComplete?) {
      SameCounts(w, a);
      OwnerOnly(w, a.ctx, sid);
    }
    hide Inv, CanRun, Run, Finished, Begun, Middleware.Execute;
  }
}
