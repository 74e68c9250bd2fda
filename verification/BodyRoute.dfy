/** makeBodyHandler of Router: request bodies streamed into a receiver. A shared map finds the state
    of a request by its context without owning it; only the writer's close callback owns it. The
    application code of an event holds the writer, so the close callback may run inside it. */
module BodyRoute {
  import opened Wrappers
  import Middleware
  import opened BodyWalk

  /** A context is an address, so it may come to name another request; a body state is never reused. */
  type Ctx = nat
  type Sid = nat

  datatype ParserEvent = HeadersComplete | Body(data: string) | MessageComplete | Error | OtherEvent

  /** How the callbacks of the application behave in one event, and inside which of them, or inside
      the interim response, the writer runs its close callback. */
  datatype Outcome = Outcome(factoryThrows: bool, factoryGives: bool, factoryCloses: bool, interimCloses: bool,
                             writeThrows: bool, writeCloses: bool,
                             chain: seq<Middleware.Fn>, completeThrows: bool, completeCloses: bool)

  /** A body state: its receiver while it has one, what the receiver was given, and what has
      happened to its request. nulls counts calls of complete on no receiver; inside records a
      receiver reset while one of its own functions ran; sent is the body as the parser delivered it. */
  datatype BodyState = BodyState(owner: Ctx, live: bool, got: string, sent: string, completes: nat,
                                 nulls: nat, inside: bool)

  /** An event under way: the state it has found, held by a local reference. */
  datatype Pending = Pending(event: ParserEvent, found: Option<Sid>)

  /** ended is the history of the responses that failed events have ended. */
  datatype World = World(
    values: map<Ctx, Sid>, onclose: map<Ctx, Sid>, writers: set<Ctx>, pending: map<Ctx, Pending>,
    states: map<Sid, BodyState>, current: map<Ctx, Sid>, next: Sid, ended: seq<Ctx>)

  datatype Act =
    | Connect(ctx: Ctx)                         // a writer for the context
    | Begin(ctx: Ctx, event: ParserEvent)       // the part of an event under the lock
    | Finish(ctx: Ctx, outcome: Outcome)        // the rest of it
    | Close(ctx: Ctx)                           // the connection runs onclose
    | ClearOnClose(ctx: Ctx)                    // somebody else empties the slot
    | ReleaseWriter(ctx: Ctx)

  predicate HeldByPending(w: World, sid: Sid)
  {
    exists c :: c in w.pending && w.pending[c].found == Some(sid)
  }

  predicate HeldByWriter(w: World, sid: Sid) { exists c :: c in w.onclose && w.onclose[c] == sid }

  predicate Expired(w: World, sid: Sid) { !HeldByPending(w, sid) && !HeldByWriter(w, sid) }

  function Purged(w: World): map<Ctx, Sid> { map c | c in w.values && !Expired(w, w.values[c]) :: w.values[c] }

  predicate Enabled(w: World, a: Act)
  {
    match a
    case Connect(c) => c !in w.writers && c !in w.pending
    case Begin(c, _) => c !in w.pending
    case Finish(c, _) => c in w.pending
    case Close(c) => c in w.onclose
    case ClearOnClose(_) => true
    case ReleaseWriter(c) => c in w.writers
  }

  function Begun(w: World, c: Ctx, event: ParserEvent): World
  {
    var values := Purged(w);
    var found := if c in values then Some(values[c]) else None;
    var kept := if event.Error? || event.MessageComplete? then values - {c} else values;
    var states :=
      if c in w.current && w.current[c] in w.states then
        var sid := w.current[c];
        if event.Body? then w.states[sid := w.states[sid].(sent := w.states[sid].sent + event.data)]
        else w.states
      else w.states;
    w.(values := kept, states := states, pending := w.pending[c := Pending(event, found)])
  }

  function DropPending(w: World, c: Ctx): World { w.(pending := w.pending - {c}) }

  function ClearSlot(w: World, c: Ctx): World { w.(onclose := w.onclose - {c}) }

  /** The common end of every failed event: the receiver goes, the slot is cleared, the response is
      ended. */
  function Failed(w: World, c: Ctx, sid: Option<Sid>): World
  {
    var states :=
      if sid.Some? && sid.value in w.states then
        w.states[sid.value := w.states[sid.value].(live := false)]
      else w.states;
    var ended := w.ended + if c in w.writers then [c] else [];
    ClearSlot(DropPending(w.(states := states, ended := ended), c), c)
  }

  /** The writer runs the close callback in its slot. */
  function Closed(w: World, c: Ctx): World
  {
    if c in w.onclose && w.onclose[c] in w.states then
      w.(states := w.states[w.onclose[c] := w.states[w.onclose[c]].(live := false)])
    else w
  }

  function ClosedIf(w: World, c: Ctx, closes: bool): World { if closes then Closed(w, c) else w }

  function AfterHeaders(w: World, c: Ctx, o: Outcome): World
  {
    var w0 := ClosedIf(w, c, o.factoryCloses);
    var sid := w0.next;
    var gives := !o.factoryThrows && o.factoryGives;
    var w1 := NewState(w0, c, gives);
    if gives && c in w.writers then
      ClosedIf(DropPending(w1.(onclose := w1.onclose[c := sid], values := w1.values[c := sid]), c), c, o.interimCloses)
    else Failed(w1, c, Some(sid))
  }

  function NewState(w: World, c: Ctx, gives: bool): World
  {
    var s := BodyState(c, gives, "", "", 0, 0, false);
    w.(states := w.states[w.next := s], current := w.current[c := w.next], next := w.next + 1)
  }

  /** The receiver of a state can be reached by the close callback of the context. */
  predicate Hooked(w: World, c: Ctx, sid: Sid) { c in w.onclose && w.onclose[c] == sid }

  function AfterBody(w: World, c: Ctx, data: string, found: Option<Sid>, o: Outcome): World
  {
    if found.Some? && found.value in w.states && w.states[found.value].live then
      var s := w.states[found.value];
      var inside := s.inside || (o.writeCloses && Hooked(w, c, found.value));
      var w1 := w.(states := w.states[found.value := s.(got := s.got + data, inside := inside)]);
      var w2 := ClosedIf(w1, c, o.writeCloses);
      if o.writeThrows then Failed(w2, c, found) else DropPending(w2, c)
    else DropPending(w, c)
  }

  function AfterWalk(s: BodyState, k: Walk): BodyState
  {
    s.(live := s.live && k.live, completes := s.completes + k.completes, nulls := s.nulls + k.nulls,
       inside := s.inside || k.inside)
  }

  function FinalOf(o: Outcome): Middleware.Final { Middleware.Final(o.completeThrows, 200) }

  /** Completion through the middleware chain: complete is called once per way through it. */
  function AfterMessage(w: World, c: Ctx, found: Option<Sid>, o: Outcome): World
  {
    if found.Some? && found.value in w.states && w.states[found.value].live then
      var k := MessageWalk(o.chain, FinalOf(o), Hooked(w, c, found.value), o.completeCloses);
      var w1 := w.(states := w.states[found.value := AfterWalk(w.states[found.value], k)]);
      if Middleware.Execute(o.chain, FinalOf(o)).threw then Failed(w1, c, found) else ClearSlot(DropPending(w1, c), c)
    else Failed(w, c, found)
  }

  function Finished(w: World, c: Ctx, o: Outcome): World
    requires c in w.pending
  {
    var p := w.pending[c];
    match p.event
    case Error => ClearSlot(DropPending(w, c), c)
    case HeadersComplete => AfterHeaders(w, c, o)
    case Body(data) => AfterBody(w, c, data, p.found, o)
    case MessageComplete => AfterMessage(w, c, p.found, o)
    case OtherEvent => DropPending(w, c)
  }

  function Apply(w: World, a: Act): World
    requires Enabled(w, a)
  {
    match a
    case Connect(c) => w.(writers := w.writers + {c})
    case Begin(c, event) => Begun(w, c, event)
    case Finish(c, o) => Finished(w, c, o)
    case Close(c) => Closed(w, c)
    case ClearOnClose(c) => ClearSlot(w, c)
    case ReleaseWriter(c) => ClearSlot(w.(writers := w.writers - {c}), c)
  }

  const EMPTY := World(map[], map[], {}, map[], map[], map[], 0, [])

  ghost predicate CanRun(w: World, acts: seq<Act>)
    decreases |acts|
  {
    acts == [] || (Enabled(w, acts[0]) && CanRun(Apply(w, acts[0]), acts[1..]))
  }

  ghost function Run(w: World, acts: seq<Act>): World
    requires CanRun(w, acts)
    decreases |acts|
  {
    if acts == [] then w else Run(Apply(w, acts[0]), acts[1..])
  }

  /** No middleware of the run calls next twice. */
  predicate NextOnce(a: Act) { a.Finish? ==> Middleware.EachAtMostOnce(a.outcome.chain) }

  // ----- invariant -----

  /** What holds of every body state for good. */
  ghost predicate StateInv(w: World, sid: Sid)
    requires sid in w.states
  {
    var s := w.states[sid];
    sid < w.next && s.got <= s.sent
  }

  /** The body data that the parser has delivered and the receiver is yet to be given. */
  function Behind(w: World, c: Ctx): string
  {
    if c in w.pending && w.pending[c].event.Body? then w.pending[c].event.data else ""
  }

  predicate Closing(w: World, c: Ctx)
  {
    c in w.pending && (w.pending[c].event.MessageComplete? || w.pending[c].event.Error?)
  }

  /** A state that a close callback or an event holds belongs to the current request of its context,
      is not complete, and its receiver has been given all that was
      sent. */
  ghost predicate OwnedInv(w: World, c: Ctx, sid: Sid)
  {
    sid in w.states && c in w.current && w.current[c] == sid &&
    var s := w.states[sid];
    s.owner == c && s.completes == 0 &&
    (s.live ==> s.sent == s.got + Behind(w, c))
  }

  /** An event has found the state in the close callback, unless the slot was emptied since. */
  ghost predicate FoundInv(w: World, c: Ctx)
  {
    c in w.pending ==>
      match w.pending[c].found
      case Some(sid) => OwnedInv(w, c, sid) && (c in w.onclose ==> w.onclose[c] == sid)
      case None => c !in w.onclose
  }

  /** The map finds exactly the state in the close callback, until a final event removes the entry. */
  ghost predicate SlotInv(w: World, c: Ctx)
  {
    (c in w.onclose ==> c in w.writers && OwnedInv(w, c, w.onclose[c])) && FoundInv(w, c) &&
    (c in w.values ==> w.values[c] in w.states && w.states[w.values[c]].owner == c) &&
    (c in w.current ==> w.current[c] in w.states && w.states[w.current[c]].owner == c) &&
    (c in w.onclose && !Closing(w, c) ==> c in w.values && w.values[c] == w.onclose[c]) &&
    (Closing(w, c) ==> c !in w.values)
  }

  ghost predicate Inv(w: World)
  {
    (forall sid :: sid in w.states ==> StateInv(w, sid)) && (forall c :: SlotInv(w, c))
  }

  lemma HeldOnlyByOwner(w: World, c: Ctx)
    requires Inv(w) && c in w.values && c !in w.pending
    ensures Expired(w, w.values[c]) <==> !(c in w.onclose && w.onclose[c] == w.values[c])
  {
    var sid := w.values[c];
    assert SlotInv(w, c);
    forall d | d in w.pending && w.pending[d].found == Some(sid) ensures w.states[sid].owner == d {
      assert SlotInv(w, d);
    }
    forall d | d in w.onclose && w.onclose[d] == sid ensures w.states[sid].owner == d {
      assert SlotInv(w, d);
    }
  }

  /** Purging drops no entry that another context still needs. */
  lemma PurgeKeepsOwned(w: World, c: Ctx)
    requires Inv(w) && c in w.onclose && c in w.values && w.values[c] == w.onclose[c]
    ensures c in Purged(w) && Purged(w)[c] == w.onclose[c]
  {
    assert HeldByWriter(w, w.values[c]);
  }

  /** What an act does to a state that belongs to another context: nothing. */
  ghost predicate Untouched(w: World, v: World, d: Ctx)
  {
    (d in v.onclose <==> d in w.onclose) && (d in w.onclose ==> v.onclose[d] == w.onclose[d]) &&
    (d in v.writers <==> d in w.writers) &&
    (d in v.pending <==> d in w.pending) && (d in w.pending ==> v.pending[d] == w.pending[d]) &&
    (d in v.current <==> d in w.current) && (d in w.current ==> v.current[d] == w.current[d]) &&
    (d in v.values ==> d in w.values && v.values[d] == w.values[d]) &&
    (d in w.values && d in w.onclose && w.values[d] == w.onclose[d] ==> d in v.values) &&
    (forall sid :: sid in w.states && w.states[sid].owner == d ==>
        sid in v.states && v.states[sid] == w.states[sid])
  }

  lemma {:induction false} UntouchedInv(w: World, v: World, d: Ctx)
    requires SlotInv(w, d) && Untouched(w, v, d)
    ensures SlotInv(v, d)
  {
  }

  lemma {:induction false} BeginInv(w: World, c: Ctx, event: ParserEvent)
    requires Inv(w) && c !in w.pending
    ensures Inv(Begun(w, c, event))
  {
    var v := Begun(w, c, event);
    assert SlotInv(w, c);
    if c in w.onclose { PurgeKeepsOwned(w, c); }
    if c in w.values { HeldOnlyByOwner(w, c); }
    assert SlotInv(v, c);
    forall d | d != c ensures SlotInv(v, d) {
      assert SlotInv(w, d);
      if d in w.onclose && d in w.values && w.values[d] == w.onclose[d] { PurgeKeepsOwned(w, d); }
      UntouchedInv(w, v, d);
    }
    forall sid | sid in v.states ensures StateInv(v, sid) { assert StateInv(w, sid); }
  }

  lemma {:induction false} FailedInv(w: World, c: Ctx, sid: Option<Sid>)
    requires c in w.pending && OthersInv(w, c)
    requires sid.Some? ==> sid.value in w.states && w.states[sid.value].owner == c
    ensures Inv(Failed(w, c, sid))
  {
    var v := Failed(w, c, sid);
    forall d ensures SlotInv(v, d) {
      if d != c { assert SlotInv(w, d); }
    }
    forall s | s in v.states ensures StateInv(v, s) { assert StateInv(w, s); }
  }

  lemma {:induction false} FinishInv(w: World, c: Ctx, o: Outcome)
    requires Inv(w) && c in w.pending
    ensures Inv(Finished(w, c, o))
  {
    assert SlotInv(w, c);
    var v := Finished(w, c, o);
    var p := w.pending[c];
    match p.event {
      case HeadersComplete => HeadersInv(w, c, o);
      case Body(data) => AfterBodyInv(w, c, data, p.found, o);
      case MessageComplete => AfterMessageInv(w, c, p.found, o);
      case Error =>
        forall d ensures SlotInv(v, d) { assert SlotInv(w, d); }
        forall s | s in v.states ensures StateInv(v, s) { assert StateInv(w, s); }
      case OtherEvent =>
        forall d ensures SlotInv(v, d) { assert SlotInv(w, d); }
        forall s | s in v.states ensures StateInv(v, s) { assert StateInv(w, s); }
    }
  }

  lemma {:induction false} HeadersInv(w: World, c: Ctx, o: Outcome)
    requires Inv(w) && c in w.pending && w.pending[c].event.HeadersComplete?
    ensures Inv(AfterHeaders(w, c, o))
  {
    hide Inv, OthersInv, Closed, NewState;
    var w0 := ClosedIf(w, c, o.factoryCloses);
    ClosedInv(w, c);
    ClosedShape(w, c);
    var gives := !o.factoryThrows && o.factoryGives;
    NewStateInv(w0, c, gives);
    if gives && c in w.writers {
      InstalledInv(w0, c);
      var w1 := NewState(w0, c, true);
      ClosedInv(DropPending(w1.(onclose := w1.onclose[c := w0.next], values := w1.values[c := w0.next]), c), c);
    } else {
      FailedInv(NewState(w0, c, gives), c, Some(w0.next));
    }
  }

  lemma ClosedShape(w: World, c: Ctx)
    ensures var v := Closed(w, c);
            v == w.(states := v.states) && v.states.Keys == w.states.Keys
  {
  }

  lemma {:induction false} NewStateInv(w: World, c: Ctx, gives: bool)
    requires Inv(w) && c in w.pending
    ensures var v := NewState(w, c, gives);
            OthersInv(v, c) && c in v.pending && w.next in v.states && v.states[w.next].owner == c
  {
    var v := NewState(w, c, gives);
    assert SlotInv(w, c);
    forall t | t in w.states ensures t != w.next { assert StateInv(w, t); }
    forall s | s in v.states ensures StateInv(v, s) { if s != w.next { assert StateInv(w, s); } }
    forall d | d != c ensures SlotInv(v, d) { assert SlotInv(w, d); }
  }

  lemma {:induction false} InstalledInv(w: World, c: Ctx)
    requires Inv(w) && c in w.pending && c in w.writers
    ensures var v := NewState(w, c, true);
            Inv(DropPending(v.(onclose := v.onclose[c := w.next], values := v.values[c := w.next]), c))
  {
    var v := NewState(w, c, true);
    NewStateInv(w, c, true);
    var u := DropPending(v.(onclose := v.onclose[c := w.next], values := v.values[c := w.next]), c);
    forall d ensures SlotInv(u, d) { if d != c { assert SlotInv(v, d); } }
    forall s | s in u.states ensures StateInv(u, s) { assert StateInv(v, s); }
  }

  /** Closing keeps the invariant, before, between and inside events. */
  lemma {:induction false} ClosedInv(w: World, c: Ctx)
    requires Inv(w)
    ensures Inv(Closed(w, c))
  {
    var v := Closed(w, c);
    assert SlotInv(w, c);
    forall d ensures SlotInv(v, d) { assert SlotInv(w, d); }
    forall s | s in v.states ensures StateInv(v, s) { assert StateInv(w, s); }
  }

  /** What FailedInv needs of a world in which only the state of the event's own context has changed. */
  ghost predicate OthersInv(w: World, c: Ctx)
  {
    (forall s :: s in w.states ==> StateInv(w, s)) && (forall d :: d != c ==> SlotInv(w, d)) &&
    (c in w.values ==> w.values[c] in w.states && w.states[w.values[c]].owner == c) &&
    (c in w.current ==> w.current[c] in w.states && w.states[w.current[c]].owner == c)
  }

  /** Giving the found receiver its data, with or without a close inside. */
  lemma {:induction false} WriteInv(w: World, c: Ctx, data: string, sid: Sid, inside: bool)
    requires Inv(w) && c in w.pending && w.pending[c] == Pending(Body(data), Some(sid))
    requires sid in w.states && w.states[sid].live
    ensures var s := w.states[sid];
            var w1 := w.(states := w.states[sid := s.(got := s.got + data, inside := inside)]);
            OthersInv(w1, c) && Inv(DropPending(w1, c))
  {
    var s := w.states[sid];
    var w1 := w.(states := w.states[sid := s.(got := s.got + data, inside := inside)]);
    assert SlotInv(w, c);
    forall t | t in w1.states ensures StateInv(w1, t) { assert StateInv(w, t); }
    forall d | d != c ensures SlotInv(w1, d) { assert SlotInv(w, d); }
    var v := DropPending(w1, c);
    assert s.sent == s.got + data == s.got + data + "";
    forall d ensures SlotInv(v, d) { if d != c { assert SlotInv(w1, d); } }
    forall t | t in v.states ensures StateInv(v, t) { assert StateInv(w1, t); }
  }

  lemma {:induction false} DropInv(w: World, c: Ctx)
    requires Inv(w) && c in w.pending && !Closing(w, c)
    requires Behind(w, c) == "" || (c in w.onclose ==> w.onclose[c] in w.states && !w.states[w.onclose[c]].live)
    ensures Inv(DropPending(w, c))
  {
    var v := DropPending(w, c);
    forall d ensures SlotInv(v, d) { assert SlotInv(w, d); }
    forall t | t in v.states ensures StateInv(v, t) { assert StateInv(w, t); }
  }

  /** Dropping the event and closing commute. */
  lemma DropThenClose(w: World, c: Ctx)
    ensures DropPending(Closed(w, c), c) == Closed(DropPending(w, c), c)
  {
  }

  lemma OthersClosed(w: World, c: Ctx, sid: Sid)
    requires OthersInv(w, c) && (c in w.onclose ==> w.onclose[c] in w.states && w.states[w.onclose[c]].owner == c)
    ensures OthersInv(Closed(w, c), c)
  {
    var v := Closed(w, c);
    forall d | d != c ensures SlotInv(v, d) { assert SlotInv(w, d); }
    forall s | s in v.states ensures StateInv(v, s) { assert StateInv(w, s); }
  }

  lemma {:induction false} AfterBodyInv(w: World, c: Ctx, data: string, found: Option<Sid>, o: Outcome)
    requires Inv(w) && c in w.pending && w.pending[c] == Pending(Body(data), found)
    ensures Inv(AfterBody(w, c, data, found, o))
  {
    assert SlotInv(w, c);
    if found.Some? && found.value in w.states && w.states[found.value].live {
      var sid := found.value;
      var s := w.states[sid];
      var inside := s.inside || (o.writeCloses && Hooked(w, c, sid));
      WriteInv(w, c, data, sid, inside);
      var w1 := w.(states := w.states[sid := s.(got := s.got + data, inside := inside)]);
      OthersClosed(w1, c, sid);
      DropThenClose(w1, c);
      ClosedInv(DropPending(w1, c), c);
      if o.writeThrows { FailedInv(ClosedIf(w1, c, o.writeCloses), c, found); }
    } else {
      DropInv(w, c);
    }
  }

  lemma {:induction false} AfterMessageInv(w: World, c: Ctx, found: Option<Sid>, o: Outcome)
    requires Inv(w) && c in w.pending && w.pending[c] == Pending(MessageComplete, found)
    ensures Inv(AfterMessage(w, c, found, o))
  {
    assert SlotInv(w, c);
    if found.Some? && found.value in w.states && w.states[found.value].live {
      var sid := found.value;
      var k := MessageWalk(o.chain, FinalOf(o), Hooked(w, c, sid), o.completeCloses);
      MessageExactly(o.chain, FinalOf(o), Hooked(w, c, sid), o.completeCloses);
      hide MessageWalk, Middleware.Execute;
      WalkedInv(w, c, sid, k);
      var w1 := w.(states := w.states[sid := AfterWalk(w.states[sid], k)]);
      if Middleware.Execute(o.chain, FinalOf(o)).threw { FailedInv(w1, c, found); }
    } else {
      FailedInv(w, c, found);
    }
  }

  lemma {:induction false} WalkedInv(w: World, c: Ctx, sid: Sid, k: Walk)
    requires Inv(w) && c in w.pending && w.pending[c] == Pending(MessageComplete, Some(sid))
    requires sid in w.states && w.states[sid].live
    ensures var w1 := w.(states := w.states[sid := AfterWalk(w.states[sid], k)]);
            OthersInv(w1, c) && Inv(ClearSlot(DropPending(w1, c), c))
  {
    assert SlotInv(w, c);
    var w1 := w.(states := w.states[sid := AfterWalk(w.states[sid], k)]);
    forall t | t in w1.states ensures StateInv(w1, t) { assert StateInv(w, t); }
    forall d | d != c ensures SlotInv(w1, d) { assert SlotInv(w, d); }
    var v := ClearSlot(DropPending(w1, c), c);
    forall d ensures SlotInv(v, d) { if d != c { assert SlotInv(w1, d); } }
    forall t | t in v.states ensures StateInv(v, t) { assert StateInv(w1, t); }
  }

  lemma {:induction false} StepInv(w: World, a: Act)
    requires Inv(w) && Enabled(w, a)
    ensures Inv(Apply(w, a))
  {
    hide Inv, Begun, Finished;
    match a {
      case Begin(c, event) => BeginInv(w, c, event);
      case Finish(c, o) => FinishInv(w, c, o);
      case Close(c) => ClosedInv(w, c);
      case ClearOnClose(c) => SlotActInv(w, c, w.writers);
      case ReleaseWriter(c) => SlotActInv(w, c, w.writers - {c});
      case Connect(c) => ConnectInv(w, c);
    }
  }

  lemma SlotActInv(w: World, c: Ctx, writers: set<Ctx>)
    requires Inv(w) && (writers == w.writers || writers == w.writers - {c})
    ensures Inv(ClearSlot(w.(writers := writers), c))
  {
    var v := ClearSlot(w.(writers := writers), c);
    forall d ensures SlotInv(v, d) { assert SlotInv(w, d); }
    forall s | s in v.states ensures StateInv(v, s) { assert StateInv(w, s); }
  }

  lemma ConnectInv(w: World, c: Ctx)
    requires Inv(w)
    ensures Inv(w.(writers := w.writers + {c}))
  {
    var v := w.(writers := w.writers + {c});
    forall d ensures SlotInv(v, d) { assert SlotInv(w, d); }
    forall s | s in v.states ensures StateInv(v, s) { assert StateInv(w, s); }
  }

  lemma {:induction false} RunInv(w: World, acts: seq<Act>)
    requires Inv(w) && CanRun(w, acts)
    ensures Inv(Run(w, acts))
    decreases |acts|
  {
    if acts != [] {
      StepInv(w, acts[0]);
      RunInv(Apply(w, acts[0]), acts[1..]);
    }
  }

  // ----- the promises, over every interleaving of contexts -----

  /** A receiver is given a prefix of the body of its own request, and is completed at most once
      unless some middleware calls next twice. */
  lemma {:induction false} ReceiverSeesOwnBody(acts: seq<Act>, sid: Sid)
    requires CanRun(EMPTY, acts)
    ensures var w := Run(EMPTY, acts);
            sid in w.states ==>
                w.states[sid].got <= w.states[sid].sent &&
                ((forall i :: 0 <= i < |acts| ==> NextOnce(acts[i])) ==> w.states[sid].completes <= 1)
  {
    RunInv(EMPTY, acts);
    var w := Run(EMPTY, acts);
    if sid in w.states {
      assert StateInv(w, sid);
      TwiceExactly(EMPTY, acts);
      if forall i :: 0 <= i < |acts| ==> NextOnce(acts[i]) { OnceRuns(EMPTY, acts); }
      assert !SomeTwice(w) ==> w.states[sid].completes <= 1;
    }
  }

  /** As long as a request has its receiver, and no event of it is under way, the receiver has been
      given the whole body so far. */
  lemma {:induction false} ReceiverMissesNothing(acts: seq<Act>, c: Ctx)
    requires CanRun(EMPTY, acts)
    ensures var w := Run(EMPTY, acts);
            c in w.onclose && c !in w.pending ==>
              var sid := w.onclose[c];
              sid in w.states && w.states[sid].owner == c && c in w.current && w.current[c] == sid &&
              c in w.values && w.values[c] == sid &&
              (w.states[sid].live ==> w.states[sid].got == w.states[sid].sent)
  {
    RunInv(EMPTY, acts);
    var w := Run(EMPTY, acts);
    assert SlotInv(w, c);
    if c in w.onclose && c !in w.pending {
      var s := w.states[w.onclose[c]];
      assert s.live ==> s.sent == s.got + "" == s.got;
    }
  }

  /** After an error or the end of a message the framework keeps no entry and no reference. */
  lemma {:induction false} FinalEventReleases(w: World, c: Ctx, o: Outcome, sid: Sid)
    requires Inv(w) && Closing(w, c)
    ensures var v := Finished(w, c, o);
            c !in v.values && c !in v.onclose && c !in v.pending &&
            (sid in v.states && v.states[sid].owner == c ==> Expired(v, sid))
  {
    var v := Finished(w, c, o);
    assert SlotInv(w, c);
    if sid in v.states && v.states[sid].owner == c {
      FinishInv(w, c, o);
      forall d | d in v.pending ensures v.pending[d].found != Some(sid) { assert SlotInv(v, d); }
      forall d | d in v.onclose ensures v.onclose[d] != sid { assert SlotInv(v, d); }
    }
  }

  /** The receiver an event has found, if it is still there. */
  predicate FoundLive(w: World, c: Ctx)
  {
    c in w.pending && w.pending[c].found.Some? && w.pending[c].found.value in w.states &&
    w.states[w.pending[c].found.value].live
  }

  /** The trace of the chain that the event runs. */
  function TraceOf(o: Outcome): seq<Middleware.Seen> { Middleware.Execute(o.chain, FinalOf(o)).trace }

  /** At the end of a message, for any chain: complete runs if and only if the receiver is there when
      the event looks, every middleware reaches next, and none of them closes before that; it then has
      the whole body before it. It runs again if and only if the handler is run twice before any
      close, and is called on no receiver if and only if the handler is run after a close. */
  lemma {:induction false} CompletesExactly(w: World, c: Ctx, o: Outcome)
    requires Inv(w) && c in w.pending && w.pending[c].event.MessageComplete? && w.pending[c].found.Some?
    ensures var v := Finished(w, c, o);
            var sid := w.pending[c].found.value;
            var hooked := c in w.onclose;
            var ran := FoundLive(w, c) && Middleware.AllReach(o.chain, 0) && !(hooked && ChainCloses(o.chain));
            sid in w.states && sid in v.states && w.states[sid].completes == 0 &&
            (v.states[sid].completes > 0 <==> ran) &&
            (v.states[sid].completes > 1 <==>
               FoundLive(w, c) && RunsOpenTwice(TraceOf(o), hooked, o.completeCloses)) &&
            v.states[sid].nulls >= w.states[sid].nulls &&
            (v.states[sid].nulls > w.states[sid].nulls <==>
               FoundLive(w, c) && RunsGone(TraceOf(o), hooked, o.completeCloses)) &&
            (v.states[sid].inside <==> w.states[sid].inside || (ran && hooked && o.completeCloses)) &&
            (ran ==> v.states[sid].got == v.states[sid].sent)
  {
    assert SlotInv(w, c);
    var sid := w.pending[c].found.value;
    var s := w.states[sid];
    assert s.live ==> s.sent == s.got + "" == s.got;
    assert c in w.onclose ==> Hooked(w, c, sid);
    assert s.completes == 0;
    hide Inv, SlotInv;
    MessageExactly(o.chain, FinalOf(o), Hooked(w, c, sid), o.completeCloses);
    StateAfterMessage(w, c, sid, o);
    hide MessageWalk, Middleware.Execute, Middleware.AllReach, ChainCloses, Finished, RunsGone, RunsOpenTwice;
  }

  /** When no middleware calls next twice there is one call of complete or none. */
  lemma {:induction false} CompletesOnceExactly(w: World, c: Ctx, o: Outcome)
    requires Inv(w) && c in w.pending && w.pending[c].event.MessageComplete? && w.pending[c].found.Some?
    requires Middleware.EachAtMostOnce(o.chain)
    ensures var v := Finished(w, c, o);
            var sid := w.pending[c].found.value;
            var called := FoundLive(w, c) && Middleware.AllReach(o.chain, 0);
            var gone := c in w.onclose && ChainCloses(o.chain);
            sid in w.states && sid in v.states &&
            (v.states[sid].completes == if called && !gone then 1 else 0) &&
            v.states[sid].nulls == w.states[sid].nulls + (if called && gone then 1 else 0) &&
            (called ==> v.states[sid].got == v.states[sid].sent)
  {
    assert SlotInv(w, c);
    var sid := w.pending[c].found.value;
    var s := w.states[sid];
    assert s.live ==> s.sent == s.got + "" == s.got;
    assert c in w.onclose ==> Hooked(w, c, sid);
    assert s.completes == 0;
    hide Inv, SlotInv;
    MessageMeets(o.chain, FinalOf(o), Hooked(w, c, sid), o.completeCloses);
    StateAfterMessage(w, c, sid, o);
    hide MessageWalk, Middleware.Execute, Middleware.EachAtMostOnce, Middleware.AllReach, ChainCloses, Finished;
  }

  /** The counts of the found state after the event are those of the walk; a failure adds none. */
  lemma StateAfterMessage(w: World, c: Ctx, sid: Sid, o: Outcome)
    requires c in w.pending && w.pending[c] == Pending(MessageComplete, Some(sid)) && sid in w.states
    ensures var v, s := Finished(w, c, o), w.states[sid];
            var k := MessageWalk(o.chain, FinalOf(o), Hooked(w, c, sid), o.completeCloses);
            var t := if s.live then AfterWalk(s, k) else s;
            sid in v.states && v.states[sid].completes == t.completes && v.states[sid].nulls == t.nulls &&
            v.states[sid].inside == t.inside && v.states[sid].got == s.got && v.states[sid].sent == s.sent
  {
    hide MessageWalk, Middleware.Execute;
  }

  /** write is never called on no receiver; the receiver is reset while it runs exactly when the
      writer runs the close callback inside it, and is there afterwards, in the slot, exactly when
      write has not thrown either. */
  lemma {:induction false} WritesExactly(w: World, c: Ctx, o: Outcome)
    requires Inv(w) && c in w.pending && w.pending[c].event.Body? && w.pending[c].found.Some?
    ensures var v := Finished(w, c, o);
            var sid := w.pending[c].found.value;
            sid in w.states && sid in v.states && v.states[sid].nulls == w.states[sid].nulls &&
            v.states[sid].got == w.states[sid].got + (if FoundLive(w, c) then w.pending[c].event.data else "") &&
            (v.states[sid].inside <==> w.states[sid].inside || (FoundLive(w, c) && c in w.onclose && o.writeCloses)) &&
            (v.states[sid].live <==> FoundLive(w, c) && !o.writeThrows && !(c in w.onclose && o.writeCloses)) &&
            (c in v.onclose <==> c in w.onclose && !(FoundLive(w, c) && o.writeThrows))
  {
    assert SlotInv(w, c);
    assert w.states[w.pending[c].found.value].got + "" == w.states[w.pending[c].found.value].got;
  }

  // ----- when complete meets no receiver, or runs again, over every run -----

  ghost predicate SomeNull(w: World) { exists sid :: sid in w.states && w.states[sid].nulls > 0 }

  ghost predicate SomeTwice(w: World) { exists sid :: sid in w.states && w.states[sid].completes > 1 }

  /** The act is the end of a message, with a receiver there. */
  predicate Ending(w: World, a: Act)
  {
    a.Finish? && FoundLive(w, a.ctx) && w.pending[a.ctx].event.MessageComplete?
  }

  /** The act calls complete on no receiver. */
  predicate MeetsNull(w: World, a: Act)
  {
    Ending(w, a) && RunsGone(TraceOf(a.outcome), a.ctx in w.onclose, a.outcome.completeCloses)
  }

  /** The act runs complete twice. */
  predicate MeetsTwice(w: World, a: Act)
  {
    Ending(w, a) && RunsOpenTwice(TraceOf(a.outcome), a.ctx in w.onclose, a.outcome.completeCloses)
  }

  /** When no middleware calls next twice, no act runs complete twice, and one calls it on no receiver
      exactly when a middleware closes before next in a chain that reaches the handler. */
  lemma {:induction false} OnceMeets(w: World, a: Act)
    requires NextOnce(a)
    ensures !MeetsTwice(w, a)
    ensures MeetsNull(w, a) <==>
            Ending(w, a) && Middleware.AllReach(a.outcome.chain, 0) &&
            a.ctx in w.onclose && ChainCloses(a.outcome.chain)
  {
    if a.Finish? {
      MessageMeets(a.outcome.chain, FinalOf(a.outcome), a.ctx in w.onclose, a.outcome.completeCloses);
    }
    hide Middleware.Execute, Middleware.AllReach, ChainCloses, RunsGone, RunsOpenTwice;
  }

  lemma {:induction false} StepCounts(w: World, a: Act)
    requires Inv(w) && Enabled(w, a)
    ensures SomeNull(Apply(w, a)) <==> SomeNull(w) || MeetsNull(w, a)
    ensures SomeTwice(Apply(w, a)) <==> SomeTwice(w) || MeetsTwice(w, a)
  {
    var v := Apply(w, a);
    hide RunsGone, RunsOpenTwice, Middleware.AllReach, ChainCloses, Middleware.Execute;
    if a.Finish? && w.pending[a.ctx].event.MessageComplete? && w.pending[a.ctx].found.Some? {
      CompletesExactly(w, a.ctx, a.outcome);
      OnlyOwnCounts(w, a);
      hide Apply, Enabled, Inv;
      MessageCounts(w, v, a, w.pending[a.ctx].found.value);
    } else {
      SameCounts(w, a);
      hide Apply, Enabled, Inv;
      KeptCounts(w, v);
    }
  }

  lemma KeptCounts(w: World, v: World)
    requires CountsKept(w, v)
    ensures (SomeNull(v) <==> SomeNull(w)) && (SomeTwice(v) <==> SomeTwice(w))
  {
    if SomeNull(w) {
      var sid :| sid in w.states && w.states[sid].nulls > 0;
      assert v.states[sid].nulls > 0;
    }
    if SomeTwice(w) {
      var sid :| sid in w.states && w.states[sid].completes > 1;
      assert v.states[sid].completes > 1;
    }
  }

  lemma MessageCounts(w: World, v: World, a: Act, own: Sid)
    requires own in w.states && v.states.Keys == w.states.Keys && w.states[own].completes == 0
    requires forall sid :: sid in w.states && sid != own ==>
        v.states[sid].nulls == w.states[sid].nulls && v.states[sid].completes == w.states[sid].completes
    requires v.states[own].nulls >= w.states[own].nulls
    requires v.states[own].nulls > w.states[own].nulls <==> MeetsNull(w, a)
    requires v.states[own].completes > 1 <==> MeetsTwice(w, a)
    ensures SomeNull(v) <==> SomeNull(w) || MeetsNull(w, a)
    ensures SomeTwice(v) <==> SomeTwice(w) || MeetsTwice(w, a)
  {
    hide MeetsNull, MeetsTwice;
    if SomeNull(w) {
      var sid :| sid in w.states && w.states[sid].nulls > 0;
      assert v.states[sid].nulls > 0;
    }
    if SomeTwice(w) {
      var sid :| sid in w.states && w.states[sid].completes > 1;
      assert v.states[sid].completes > 1;
    }
  }

  lemma {:induction false} OnlyOwnCounts(w: World, a: Act)
    requires Inv(w) && a.Finish? && Enabled(w, a)
    requires w.pending[a.ctx].event.MessageComplete? && w.pending[a.ctx].found.Some?
    ensures var v := Apply(w, a);
            v.states.Keys == w.states.Keys &&
            forall sid :: sid in w.states && sid != w.pending[a.ctx].found.value ==>
                v.states[sid].nulls == w.states[sid].nulls && v.states[sid].completes == w.states[sid].completes
  {
    assert SlotInv(w, a.ctx);
    hide MessageWalk, Middleware.Execute;
  }

  /** No count of completions or of calls on no receiver has changed, and new states start at none. */
  ghost predicate CountsKept(w: World, v: World)
  {
    w.states.Keys <= v.states.Keys &&
    forall sid :: sid in v.states ==>
        v.states[sid].nulls == (if sid in w.states then w.states[sid].nulls else 0) &&
        v.states[sid].completes == if sid in w.states then w.states[sid].completes else 0
  }

  lemma ClosedCounts(w: World, c: Ctx)
    ensures CountsKept(w, Closed(w, c)) && Closed(w, c).next == w.next
    ensures Closed(w, c).states.Keys == w.states.Keys
  {
  }

  lemma FailedCounts(w: World, c: Ctx, sid: Option<Sid>)
    ensures CountsKept(w, Failed(w, c, sid))
  {
  }

  lemma CountsThen(u: World, v: World, w: World)
    requires CountsKept(u, v) && CountsKept(v, w)
    ensures CountsKept(u, w)
  {
  }

  lemma HeadersCounts(w: World, c: Ctx, o: Outcome)
    requires forall sid :: sid in w.states ==> sid < w.next
    ensures CountsKept(w, AfterHeaders(w, c, o))
  {
    var w0 := ClosedIf(w, c, o.factoryCloses);
    ClosedCounts(w, c);
    var gives := !o.factoryThrows && o.factoryGives;
    var w1 := NewState(w0, c, gives);
    assert CountsKept(w, w1);
    hide Closed, CountsKept, NewState;
    if gives && c in w.writers {
      var w2 := w1.(onclose := w1.onclose[c := w0.next], values := w1.values[c := w0.next]);
      SameStatesCounts(w, w1, DropPending(w2, c));
      ClosedCounts(DropPending(w2, c), c);
      if o.interimCloses { CountsThen(w, DropPending(w2, c), Closed(DropPending(w2, c), c)); }
    } else {
      FailedCounts(w1, c, Some(w0.next));
      CountsThen(w, w1, Failed(w1, c, Some(w0.next)));
    }
  }

  lemma SameStatesCounts(u: World, w: World, v: World)
    requires CountsKept(u, w) && v.states == w.states
    ensures CountsKept(u, v)
  {
  }

  lemma BodyCounts(w: World, c: Ctx, data: string, found: Option<Sid>, o: Outcome)
    ensures CountsKept(w, AfterBody(w, c, data, found, o))
  {
    if found.Some? && found.value in w.states && w.states[found.value].live {
      var s := w.states[found.value];
      var inside := s.inside || (o.writeCloses && Hooked(w, c, found.value));
      var w1 := w.(states := w.states[found.value := s.(got := s.got + data, inside := inside)]);
      assert CountsKept(w, w1);
      hide Closed, Failed, CountsKept;
      ClosedCounts(w1, c);
      var w2 := ClosedIf(w1, c, o.writeCloses);
      if o.writeCloses { CountsThen(w, w1, w2); }
      FailedCounts(w2, c, found);
      CountsThen(w, w2, Failed(w2, c, found));
      SameStatesCounts(w, w2, DropPending(w2, c));
    }
  }

  lemma {:induction false} SameCounts(w: World, a: Act)
    requires Inv(w) && Enabled(w, a)
    requires !(a.Finish? && w.pending[a.ctx].event.MessageComplete? && w.pending[a.ctx].found.Some?)
    ensures CountsKept(w, Apply(w, a))
  {
    forall sid | sid in w.states ensures sid < w.next { assert StateInv(w, sid); }
    hide Inv, AfterHeaders, AfterBody, Closed, Failed;
    match a {
      case Finish(c, o) =>
        match w.pending[c].event {
          case HeadersComplete => HeadersCounts(w, c, o);
          case Body(data) => BodyCounts(w, c, data, w.pending[c].found, o);
          case MessageComplete => FailedCounts(w, c, None);
          case _ =>
        }
      case Close(c) => ClosedCounts(w, c);
      case _ =>
    }
  }

  /** In every run, complete has been called on no receiver if and only if some end of a message met a
      receiver and a chain that runs the handler after a close. */
  lemma {:induction false} NullCallsExactly(w: World, acts: seq<Act>)
    requires Inv(w) && CanRun(w, acts)
    ensures SomeNull(Run(w, acts)) <==> SomeNull(w) || RunMeetsNull(w, acts)
    decreases |acts|
  {
    if acts != [] {
      StepInv(w, acts[0]);
      StepCounts(w, acts[0]);
      hide Inv, Apply, Enabled, SomeNull, MeetsNull;
      NullCallsExactly(Apply(w, acts[0]), acts[1..]);
    }
  }

  ghost predicate RunMeetsNull(w: World, acts: seq<Act>)
    requires CanRun(w, acts)
    decreases |acts|
  {
    acts != [] && (MeetsNull(w, acts[0]) || RunMeetsNull(Apply(w, acts[0]), acts[1..]))
  }

  /** In every run, complete has run twice for some receiver if and only if some end of a message met
      a receiver and a chain that runs the handler twice before any close. */
  lemma {:induction false} TwiceExactly(w: World, acts: seq<Act>)
    requires Inv(w) && CanRun(w, acts)
    ensures SomeTwice(Run(w, acts)) <==> SomeTwice(w) || RunMeetsTwice(w, acts)
    decreases |acts|
  {
    if acts != [] {
      StepInv(w, acts[0]);
      StepCounts(w, acts[0]);
      hide Inv, Apply, Enabled, SomeTwice, MeetsTwice;
      TwiceExactly(Apply(w, acts[0]), acts[1..]);
    }
  }

  ghost predicate RunMeetsTwice(w: World, acts: seq<Act>)
    requires CanRun(w, acts)
    decreases |acts|
  {
    acts != [] && (MeetsTwice(w, acts[0]) || RunMeetsTwice(Apply(w, acts[0]), acts[1..]))
  }

  lemma {:induction false} OnceRuns(w: World, acts: seq<Act>)
    requires CanRun(w, acts) && forall i :: 0 <= i < |acts| ==> NextOnce(acts[i])
    ensures !RunMeetsTwice(w, acts)
    decreases |acts|
  {
    if acts != [] {
      OnceMeets(w, acts[0]);
      hide Apply, Enabled, MeetsTwice, NextOnce;
      OnceRuns(Apply(w, acts[0]), acts[1..]);
    }
  }

  // ----- runs that go wrong -----

  /** A request without a body, from its connection to the end of its message. */
  function WholeRequest(c: Ctx, o: Outcome): seq<Act>
  {
    [Connect(c), Begin(c, HeadersComplete), Finish(c, o), Begin(c, MessageComplete), Finish(c, o)]
  }

  function Calm(chain: seq<Middleware.Fn>): Outcome
  {
    Outcome(false, true, false, false, false, false, chain, false, false)
  }

  /** Where such a request stands before its last act. */
  function BeforeEnd(c: Ctx): World
  {
    EMPTY.(states := map[0 := BodyState(c, true, "", "", 0, 0, false)], next := 1,
           current := map[c := 0], onclose := map[c := 0], writers := {c},
           pending := map[c := Pending(MessageComplete, Some(0))])
  }

  lemma {:induction false} WholeRequestRuns(c: Ctx, chain: seq<Middleware.Fn>, completeCloses: bool)
    ensures var o := Calm(chain).(completeCloses := completeCloses);
            CanRun(EMPTY, WholeRequest(c, o)) && Run(EMPTY, WholeRequest(c, o)) == Finished(BeforeEnd(c), c, o)
  {
    var o := Calm(chain).(completeCloses := completeCloses);
    FirstFourActs(c, chain, completeCloses);
    LastIsFinished(c, o);
    hide Apply, Enabled, BeforeEnd;
    FiveActs(EMPTY, Connect(c), Begin(c, HeadersComplete), Finish(c, o), Begin(c, MessageComplete), Finish(c, o));
  }

  lemma FirstFourActs(c: Ctx, chain: seq<Middleware.Fn>, completeCloses: bool)
    ensures var o := Calm(chain).(completeCloses := completeCloses);
            Enabled(EMPTY, Connect(c)) &&
            var w1 := Apply(EMPTY, Connect(c));
            Enabled(w1, Begin(c, HeadersComplete)) &&
            var w2 := Apply(w1, Begin(c, HeadersComplete));
            Enabled(w2, Finish(c, o)) &&
            var w3 := Apply(w2, Finish(c, o));
            Enabled(w3, Begin(c, MessageComplete)) && Apply(w3, Begin(c, MessageComplete)) == BeforeEnd(c)
  {
    var w2 := EMPTY.(writers := {c}, pending := map[c := Pending(HeadersComplete, None)]);
    assert Apply(Apply(EMPTY, Connect(c)), Begin(c, HeadersComplete)) == w2;
    var w3 := BeforeEnd(c).(pending := map[], values := map[c := 0]);
    assert Apply(w2, Finish(c, Calm(chain).(completeCloses := completeCloses))) == w3;
    assert HeldByWriter(w3, 0);
  }

  lemma FiveActs(w: World, a1: Act, a2: Act, a3: Act, a4: Act, a5: Act)
    requires Enabled(w, a1) && Enabled(Apply(w, a1), a2) && Enabled(Apply(Apply(w, a1), a2), a3)
    requires var w3 := Apply(Apply(Apply(w, a1), a2), a3); Enabled(w3, a4) && Enabled(Apply(w3, a4), a5)
    ensures CanRun(w, [a1, a2, a3, a4, a5])
    ensures Run(w, [a1, a2, a3, a4, a5]) == Apply(Apply(Apply(Apply(Apply(w, a1), a2), a3), a4), a5)
  {
    hide Apply, Enabled;
    var w1 := Apply(w, a1);
    var w2 := Apply(w1, a2);
    var w3 := Apply(w2, a3);
    var w4 := Apply(w3, a4);
    assert CanRun(Apply(w4, a5), []) && Run(Apply(w4, a5), []) == Apply(w4, a5);
    hide CanRun, Run;
    RunCons(w4, a5, []);
    RunCons(w3, a4, [a5]);
    RunCons(w2, a3, [a4, a5]);
    RunCons(w1, a2, [a3, a4, a5]);
    RunCons(w, a1, [a2, a3, a4, a5]);
    assert [a5] + [] == [a5] && [a4] + [a5] == [a4, a5] && [a3] + [a4, a5] == [a3, a4, a5];
    assert [a2] + [a3, a4, a5] == [a2, a3, a4, a5];
    assert [a1] + [a2, a3, a4, a5] == [a1, a2, a3, a4, a5];
  }

  lemma LastIsFinished(c: Ctx, o: Outcome)
    ensures Enabled(BeforeEnd(c), Finish(c, o)) && Apply(BeforeEnd(c), Finish(c, o)) == Finished(BeforeEnd(c), c, o)
  {
    hide Finished;
  }

  lemma RunCons(w: World, a: Act, rest: seq<Act>)
    requires Enabled(w, a) && CanRun(Apply(w, a), rest)
    ensures CanRun(w, [a] + rest) && Run(w, [a] + rest) == Run(Apply(w, a), rest)
  {
    assert ([a] + rest)[1..] == rest;
    hide Enabled, Apply;
  }

  /** A middleware that makes the writer close before it calls next leaves complete no receiver. */
  lemma CloseBeforeNextMeetsNull(c: Ctx)
    ensures var chain := [Middleware.Fn([Middleware.Work(CLOSE), Middleware.CallNext(false)], Middleware.FromNext)];
            var acts := WholeRequest(c, Calm(chain));
            CanRun(EMPTY, acts) && 0 in Run(EMPTY, acts).states &&
            Run(EMPTY, acts).states[0].nulls == 1 && Run(EMPTY, acts).states[0].completes == 0
  {
    var f := Middleware.Fn([Middleware.Work(CLOSE), Middleware.CallNext(false)], Middleware.FromNext);
    WholeRequestRuns(c, [f], false);
    var w := BeforeEnd(c);
    assert f.acts[1..] == [Middleware.CallNext(false)] && f.acts[1..][1..] == [];
    assert Middleware.WorkBefore(f.acts) == [CLOSE] + Middleware.WorkBefore(f.acts[1..]);
    assert CLOSE in Middleware.WorkBefore([f][0].acts);
    assert Middleware.Calls(f.acts) == Middleware.Calls(f.acts[1..]) == 1 + Middleware.Calls([]) == 1;
    assert Middleware.Reaches(f.acts[1..]) && Middleware.Reaches(f.acts);
    assert Middleware.AllReach([f], 0) && Middleware.EachAtMostOnce([f]);
    MessageMeets([f], FinalOf(Calm([f])), true, false);
    hide MessageWalk, Middleware.Execute;
  }

  /** A chain of one middleware that calls next twice. */
  function NextTwice(): seq<Middleware.Fn>
  {
    [Middleware.Fn([Middleware.CallNext(false), Middleware.CallNext(false)], Middleware.FromNext)]
  }

  lemma NextTwiceTrace(final: Middleware.Final)
    requires !final.throws
    ensures Middleware.Execute(NextTwice(), final).trace == [Middleware.RanFinal, Middleware.RanFinal]
    ensures !Middleware.Execute(NextTwice(), final).threw
  {
    var next, chain := Middleware.CallNext(false), NextTwice();
    assert [next, next][1..] == [next] && [next][1..] == [];
    var one := [Middleware.RanFinal];
    assert Middleware.RunFrom(chain, 1, final) == Middleware.Result(one, false, final.code);
    assert Middleware.RunActs(chain, 0, [], final, final.code).trace == [] && one + [] == one;
    assert Middleware.RunActs(chain, 0, [next], final, final.code).trace == one;
    assert Middleware.RunActs(chain, 0, [next, next], final, 0).trace == one + one;
  }

  lemma WalkTwice(cc: bool)
    ensures var two := [Middleware.RanFinal, Middleware.RanFinal];
            var k := WalkTrace(two, true, cc, Walk(true, 0, 0, false));
            if cc then k.completes == 1 && k.nulls == 1 else k.completes == 2 && k.nulls == 0
  {
    var one := [Middleware.RanFinal];
    assert [Middleware.RanFinal, Middleware.RanFinal][1..] == one && one[1..] == [];
    var k0 := Walk(true, 0, 0, false);
    var k1 := WalkOne(Middleware.RanFinal, true, cc, k0);
    assert WalkTrace([Middleware.RanFinal, Middleware.RanFinal], true, cc, k0) == WalkTrace(one, true, cc, k1);
    assert WalkTrace(one, true, cc, k1) == WalkTrace([], true, cc, WalkOne(Middleware.RanFinal, true, cc, k1));
  }

  /** Two calls of next complete the same receiver twice; if the first completion makes the writer
      close, the second is called on no receiver. */
  lemma NextTwiceCompletesTwice(c: Ctx, completeCloses: bool)
    ensures var acts := WholeRequest(c, Calm(NextTwice()).(completeCloses := completeCloses));
            CanRun(EMPTY, acts) && 0 in Run(EMPTY, acts).states &&
            var s := Run(EMPTY, acts).states[0];
            if completeCloses then s.completes == 1 && s.nulls == 1 else s.completes == 2 && s.nulls == 0
  {
    WholeRequestRuns(c, NextTwice(), completeCloses);
    NextTwiceTrace(Middleware.Final(false, 200));
    WalkTwice(completeCloses);
    hide NextTwice, Middleware.Execute, WalkTrace;
  }

  /** BodyStates: the map alone, with the lookup that every event makes under the mutex. around is
      the rest of the world, where the owning callbacks and local references are. */
  class BodyStates {
    var values: map<Ctx, Sid>

    constructor ()
      ensures values == map[]
    {
      values := map[];
    }

    method Lookup(around: World, c: Ctx, event: ParserEvent) returns (found: Option<Sid>)
      modifies this
      ensures var w := around.(values := old(values));
              values == Begun(w, c, event).values && found == Begun(w, c, event).pending[c].found
    {
      var left := values.Keys;
      ghost var before := values;
      while left != {}
        invariant left <= values.Keys <= before.Keys
        invariant forall k :: k in before ==> (k in values <==> k in left || !Expired(around, before[k]))
        invariant forall k :: k in values ==> values[k] == before[k]
        decreases left
      {
        var it :| it in left;
        if Expired(around, values[it]) { values := values - {it}; }
        left := left - {it};
      }
      assert values == Purged(around.(values := before));
      found := if c in values then Some(values[c]) else None;
      if event.Error? || event.MessageComplete? { values := values - {c}; }
    }
  }
}
