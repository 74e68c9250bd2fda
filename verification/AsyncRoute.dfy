/** Async routes of Router: the wrapper around a handler that may hand the response to
    StreamTransfer, the question who ends the response, and the in-flight task tracker. */
module AsyncRoute {
  import opened StreamTransfer

  datatype Phase = Dispatched | InHandler | Returned(handoffSeen: bool) | Done

  /** The arguments of one StreamTransfer::send and what it meets. */
  datatype SendArgs = SendArgs(p: Params, file: string, env: SendEnv)

  /** One request: the phase of its task, the sends of its handler and the transfers they started,
      whether the handler threw, and how often the wrapper ended the response. */
  datatype Request = Request(phase: Phase, sends: seq<SendArgs>, sent: seq<Transfer>, threw: bool,
                             wrapperEnds: nat)

  const ARRIVED := Request(Dispatched, [], [], false, 0)

  datatype World = World(requests: map<nat, Request>, tracker: int)

  /** Steps of one request. WrapUp carries what the wrapper finds: whether there is a writer still
      in the state SEND_BEGIN. IoEvent is a step of one of its transfers on the IO loop, at any time. */
  datatype Act =
    | Arrive
    | StartTask
    | HandlerSends(args: SendArgs)
    | HandlerReturns
    | HandlerThrows
    | WrapUp(writerAtBegin: bool)
    | IoEvent(k: nat, e: Event)

  datatype Action = Action(id: nat, act: Act)

  predicate HandedOff(r: Request) { exists k :: 0 <= k < |r.sent| && r.sent[k].log.handoff }

  predicate ActEnabled(r: Request, a: Act)
  {
    match a
    case Arrive => false
    case StartTask => r.phase.Dispatched?
    case HandlerSends(_) => r.phase.InHandler?
    case HandlerReturns => r.phase.InHandler?
    case HandlerThrows => r.phase.InHandler?
    case WrapUp(_) => r.phase.Returned?
    case IoEvent(k, e) => k < |r.sent| && StreamTransfer.Enabled(r.sent[k], e)
  }

  function Started(a: SendArgs): Transfer { Send(a.p, a.file, a.env) }

  function ActOn(r: Request, a: Act): Request
    requires ActEnabled(r, a)
  {
    match a
    case StartTask => r.(phase := InHandler)
    case HandlerSends(a) => r.(sends := r.sends + [a], sent := r.sent + [Started(a)])
    case HandlerReturns => r.(phase := Returned(HandedOff(r)))
    case HandlerThrows => r.(phase := Returned(false), threw := true)
    case WrapUp(writerAtBegin) =>
      r.(phase := Done, wrapperEnds := r.wrapperEnds + if !r.phase.handoffSeen && writerAtBegin then 1 else 0)
    case IoEvent(k, e) => r.(sent := r.sent[k := StreamTransfer.Step(r.sent[k], e)])
  }

  predicate Enabled(w: World, a: Action)
  {
    if a.act.Arrive? then a.id !in w.requests
    else a.id in w.requests && ActEnabled(w.requests[a.id], a.act)
  }

  function Step(w: World, a: Action): World
    requires Enabled(w, a)
  {
    if a.act.Arrive? then
      World(w.requests[a.id := ARRIVED], w.tracker + 1)
    else
      World(w.requests[a.id := ActOn(w.requests[a.id], a.act)], w.tracker - if a.act.WrapUp? then 1 else 0)
  }

  ghost predicate CanRun(w: World, actions: seq<Action>)
    decreases |actions|
  {
    actions == [] || (Enabled(w, actions[0]) && CanRun(Step(w, actions[0]), actions[1..]))
  }

  ghost function Run(w: World, actions: seq<Action>): World
    requires CanRun(w, actions)
    decreases |actions|
  {
    if actions == [] then w else Run(Step(w, actions[0]), actions[1..])
  }

  /** How often transfers have ended the response, by the empty-file path or the pump. */
  function TransferEnds(sent: seq<Transfer>): nat
  {
    if sent == [] then 0 else TransferEnds(sent[..|sent| - 1]) + sent[|sent| - 1].log.ends
  }

  /** How many of them have taken the response over. */
  function Handovers(sent: seq<Transfer>): nat
  {
    if sent == [] then 0 else Handovers(sent[..|sent| - 1]) + if sent[|sent| - 1].log.handoff then 1 else 0
  }

  function Ends(r: Request): nat { r.wrapperEnds + TransferEnds(r.sent) }

  ghost predicate From(t: Transfer, a: SendArgs) { ComesFrom(t, a.p, a.file, a.env) }

  /** The transfer of this send can end the response. */
  predicate Ender(a: SendArgs) { CanEnd(a.p, a.file, a.env) }

  function Enders(sends: seq<SendArgs>): nat
  {
    if sends == [] then 0 else Enders(sends[..|sends| - 1]) + if Ender(sends[|sends| - 1]) then 1 else 0
  }

  ghost predicate RequestInv(r: Request)
  {
    |r.sent| == |r.sends| && (forall k :: 0 <= k < |r.sent| ==> From(r.sent[k], r.sends[k])) &&
    (r.phase.Dispatched? ==> r.sent == []) &&
    r.wrapperEnds <= 1 && (r.wrapperEnds == 1 ==> r.phase.Done?) &&
    (r.threw ==> r.phase.Returned? || r.phase.Done?) &&
    (r.phase.Returned? ==> r.phase.handoffSeen == (!r.threw && HandedOff(r))) &&
    (r.wrapperEnds == 1 && !r.threw ==> !HandedOff(r))
  }

  /** Each transfer that can end the response ends it at most once, the others never; and only
      transfers that took it over can. */
  lemma {:induction false} EndsPerEnder(sent: seq<Transfer>, sends: seq<SendArgs>)
    requires |sent| == |sends| && forall k :: 0 <= k < |sent| ==> From(sent[k], sends[k])
    ensures TransferEnds(sent) <= Enders(sends) <= Handovers(sent)
    ensures Handovers(sent) <= |sent|
    ensures Handovers(sent) == 0 <==> forall k :: 0 <= k < |sent| ==> !sent[k].log.handoff
  {
    if sent != [] {
      var n := |sent| - 1;
      assert forall k :: 0 <= k < n ==> sent[..n][k] == sent[k] && sends[..n][k] == sends[k];
      EndsPerEnder(sent[..n], sends[..n]);
      EndedMeansCanEnd(sent[n], sends[n].p, sends[n].file, sends[n].env);
      hide From, Ender;
    }
  }

  lemma {:induction false} EventKeeps(t: Transfer, e: Event, a: SendArgs)
    requires From(t, a) && StreamTransfer.Enabled(t, e)
    ensures From(StreamTransfer.Step(t, e), a) && StreamTransfer.Step(t, e).log.handoff == t.log.handoff
  {
    StepComesFrom(t, e, a.p, a.file, a.env);
    hide StreamTransfer.Step, Inv;
  }

  lemma {:induction false} ActInv(r: Request, a: Act)
    requires RequestInv(r) && ActEnabled(r, a)
    ensures RequestInv(ActOn(r, a))
  {
    hide From, StreamTransfer.Step, Started;
    var v := ActOn(r, a);
    match a {
      case HandlerSends(args) => StartedFrom(args);
      case IoEvent(k, e) =>
        EventKeeps(r.sent[k], e, r.sends[k]);
        assert HandedOff(v) <==> HandedOff(r) by {
          if HandedOff(r) {
            var j :| 0 <= j < |r.sent| && r.sent[j].log.handoff;
            assert v.sent[j].log.handoff;
          }
          if HandedOff(v) {
            var j :| 0 <= j < |v.sent| && v.sent[j].log.handoff;
            assert r.sent[j].log.handoff;
          }
        }
      case _ =>
    }
  }

  lemma StartedFrom(a: SendArgs)
    ensures From(Started(a), a)
  {
    SendComesFrom(a.p, a.file, a.env);
    hide StreamTransfer.Send, ComesFrom;
  }

  /** The tasks that have been counted up and not yet down. */
  function InFlight(w: World): set<nat> { set id | id in w.requests && !w.requests[id].phase.Done? }

  ghost predicate WorldInv(w: World)
  {
    (forall id :: id in w.requests ==> RequestInv(w.requests[id])) && w.tracker == |InFlight(w)|
  }

  lemma {:induction false} WorldStepInv(w: World, a: Action)
    requires WorldInv(w) && Enabled(w, a)
    ensures WorldInv(Step(w, a))
  {
    hide RequestInv;
    var v := Step(w, a);
    if a.act.Arrive? {
      NewRequestInv();
      assert InFlight(v) == InFlight(w) + {a.id};
    } else {
      ActInv(w.requests[a.id], a.act);
      ActPhase(w.requests[a.id], a.act);
      hide ActOn, ActEnabled;
      if a.act.WrapUp? {
        assert InFlight(v) == InFlight(w) - {a.id};
      } else {
        assert InFlight(v) == InFlight(w);
      }
    }
  }

  lemma NewRequestInv()
    ensures RequestInv(ARRIVED)
  {
  }

  /** Only the wrap-up finishes a task, and only once. */
  lemma ActPhase(r: Request, a: Act)
    requires ActEnabled(r, a)
    ensures ActOn(r, a).phase.Done? <==> a.WrapUp? || r.phase.Done?
    ensures a.WrapUp? ==> !r.phase.Done?
  {
    hide StreamTransfer.Step, Started, HandedOff;
  }

  lemma {:induction false} RunInv(w: World, actions: seq<Action>)
    requires WorldInv(w) && CanRun(w, actions)
    ensures WorldInv(Run(w, actions))
    decreases |actions|
  {
    if actions != [] {
      WorldStepInv(w, actions[0]);
      RunInv(Step(w, actions[0]), actions[1..]);
    }
  }

  const START := World(map[], 0)

  /** At least two of its sends can end the response, or the handler threw and one of them can. */
  predicate MayEndTwice(sends: seq<SendArgs>, threw: bool)
  {
    Enders(sends) >= 2 || (threw && Enders(sends) >= 1)
  }

  /** In every interleaving, a response is ended at most once across the wrapper, the empty-file path
      and the pump unless it may be ended twice; in particular when the handler did not throw and at
      most one transfer took the response over. */
  lemma {:induction false} EndedAtMostOnce(actions: seq<Action>, id: nat)
    requires CanRun(START, actions)
    ensures var w := Run(START, actions);
            id in w.requests ==>
              var r := w.requests[id];
              (!MayEndTwice(r.sends, r.threw) ==> Ends(r) <= 1) &&
              Ends(r) <= Enders(r.sends) + 1 &&
              (!r.threw ==> Ends(r) <= (if Handovers(r.sent) == 0 then 1 else Handovers(r.sent)))
  {
    assert InFlight(START) == {};
    RunInv(START, actions);
    var w := Run(START, actions);
    if id in w.requests { EndsPerEnder(w.requests[id].sent, w.requests[id].sends); }
  }

  /** The tracker always equals the number of tasks dispatched and not wrapped up. */
  lemma {:induction false} TrackerCountsInFlight(actions: seq<Action>)
    requires CanRun(START, actions)
    ensures var w := Run(START, actions); w.tracker == |InFlight(w)|
  {
    assert InFlight(START) == {};
    RunInv(START, actions);
  }

  /** Exactly when the wrapper ends a response: the writer has not been started, and the response was
      not handed over, or it was and the handler threw after that. */
  lemma {:induction false} WrapperEndsExactly(r: Request, writerAtBegin: bool)
    requires RequestInv(r) && r.phase.Returned?
    ensures ActOn(r, WrapUp(writerAtBegin)).wrapperEnds == 1 <==> writerAtBegin && (!HandedOff(r) || r.threw)
  {
  }

  /** A task that has not been wrapped up can still be, in at most three steps of its own, whatever
      its transfers are doing; the wrapper then ends the response or leaves it alone as above. */
  lemma {:induction false} TaskCanFinish(r: Request, writerAtBegin: bool)
    requires RequestInv(r) && !r.phase.Done?
    ensures var wrap := [WrapUp(writerAtBegin)];
            var acts := if r.phase.Returned? then wrap
                        else if r.phase.InHandler? then [HandlerReturns] + wrap
                        else [StartTask] + ([HandlerReturns] + wrap);
            CanAct(r, acts) &&
            var v := ActAll(r, acts);
            v.phase.Done? && v.sent == r.sent && v.threw == r.threw &&
            v.wrapperEnds == if writerAtBegin && (!HandedOff(r) || r.threw) then 1 else 0
  {
    hide From;
    var wrap := [WrapUp(writerAtBegin)];
    var r2 := if r.phase.Returned? then r else r.(phase := Returned(HandedOff(r)));
    var r1 := r.(phase := InHandler);
    ActOne(r2, WrapUp(writerAtBegin));
    if !r.phase.Returned? {
      assert ActOn(r1, HandlerReturns) == r2;
      assert ([HandlerReturns] + wrap)[1..] == wrap;
      assert ActEnabled(r1, HandlerReturns) && CanAct(r1, [HandlerReturns] + wrap);
    }
    if r.phase.Dispatched? {
      assert ActOn(r, StartTask) == r1;
      assert ([StartTask] + ([HandlerReturns] + wrap))[1..] == [HandlerReturns] + wrap;
    } else if r.phase.InHandler? {
      assert r == r1;
    }
  }

  // ----- runs in which a response is ended twice -----

  ghost predicate CanAct(r: Request, acts: seq<Act>)
    decreases |acts|
  {
    acts == [] || (ActEnabled(r, acts[0]) && CanAct(ActOn(r, acts[0]), acts[1..]))
  }

  ghost function ActAll(r: Request, acts: seq<Act>): Request
    requires CanAct(r, acts)
    decreases |acts|
  {
    if acts == [] then r else ActAll(ActOn(r, acts[0]), acts[1..])
  }

  lemma {:induction false} ActAppend(r: Request, a: seq<Act>, b: seq<Act>)
    requires CanAct(r, a) && CanAct(ActAll(r, a), b)
    ensures CanAct(r, a + b) && ActAll(r, a + b) == ActAll(ActAll(r, a), b)
    decreases |a|
  {
    hide ActOn, ActEnabled;
    if a == [] {
      assert a + b == b;
    } else {
      assert (a + b)[0] == a[0] && (a + b)[1..] == a[1..] + b;
      ActAppend(ActOn(r, a[0]), a[1..], b);
    }
  }

  lemma ActOne(r: Request, a: Act)
    requires ActEnabled(r, a)
    ensures CanAct(r, [a]) && ActAll(r, [a]) == ActOn(r, a)
  {
    hide ActOn, ActEnabled;
    assert [a][1..] == [];
  }

  /** The acts of one request as actions of the world. */
  function Lifted(id: nat, acts: seq<Act>): seq<Action>
  {
    if acts == [] then [] else [Action(id, acts[0])] + Lifted(id, acts[1..])
  }

  lemma {:induction false} LiftedRuns(w: World, id: nat, acts: seq<Act>)
    requires id in w.requests && CanAct(w.requests[id], acts)
    ensures CanRun(w, Lifted(id, acts))
    ensures var v := Run(w, Lifted(id, acts));
            id in v.requests && v.requests[id] == ActAll(w.requests[id], acts)
    decreases |acts|
  {
    if acts != [] {
      var a := Action(id, acts[0]);
      assert !acts[0].Arrive?;
      var v := Step(w, a);
      assert v.requests[id] == ActOn(w.requests[id], acts[0]);
      hide ActOn, ActEnabled;
      LiftedRuns(v, id, acts[1..]);
      assert ([a] + Lifted(id, acts[1..]))[1..] == Lifted(id, acts[1..]);
    }
  }

  function SendActs(sends: seq<SendArgs>): seq<Act>
  {
    if sends == [] then [] else [HandlerSends(sends[0])] + SendActs(sends[1..])
  }

  function AllStarted(sends: seq<SendArgs>): seq<Transfer>
  {
    seq(|sends|, i requires 0 <= i < |sends| => Started(sends[i]))
  }

  lemma {:induction false} SendActsRun(r: Request, sends: seq<SendArgs>)
    requires r.phase.InHandler?
    ensures CanAct(r, SendActs(sends))
    ensures ActAll(r, SendActs(sends)) == r.(sends := r.sends + sends, sent := r.sent + AllStarted(sends))
    decreases |sends|
  {
    hide Started;
    if sends == [] {
      assert r.sends + sends == r.sends && r.sent + AllStarted(sends) == r.sent;
    } else {
      var v := ActOn(r, HandlerSends(sends[0]));
      SendActsRun(v, sends[1..]);
      assert ([HandlerSends(sends[0])] + SendActs(sends[1..]))[1..] == SendActs(sends[1..]);
      assert v.sends + sends[1..] == r.sends + sends;
      assert v.sent + AllStarted(sends[1..]) == r.sent + AllStarted(sends);
    }
  }

  function IoActs(k: nat, events: seq<Event>): seq<Act>
  {
    if events == [] then [] else [IoEvent(k, events[0])] + IoActs(k, events[1..])
  }

  lemma {:induction false} IoActsRun(r: Request, k: nat, events: seq<Event>)
    requires k < |r.sent| && StreamTransfer.CanRun(r.sent[k], events)
    ensures CanAct(r, IoActs(k, events))
    ensures ActAll(r, IoActs(k, events)) == r.(sent := r.sent[k := StreamTransfer.Run(r.sent[k], events)])
    decreases |events|
  {
    hide StreamTransfer.Step, StreamTransfer.Enabled;
    if events == [] {
      assert r.sent[k := r.sent[k]] == r.sent;
    } else {
      var v := ActOn(r, IoEvent(k, events[0]));
      assert v.sent[k] == StreamTransfer.Step(r.sent[k], events[0]);
      IoActsRun(v, k, events[1..]);
      assert ([IoEvent(k, events[0])] + IoActs(k, events[1..]))[1..] == IoActs(k, events[1..]);
      var last := StreamTransfer.Run(r.sent[k], events);
      assert v.sent[k := last] == r.sent[k := last];
    }
  }

  /** Every one of the first n transfers that can end the response meets a good connection. */
  function GoodActs(sends: seq<SendArgs>, n: nat): seq<Act>
    requires n <= |sends|
  {
    if n == 0 then []
    else GoodActs(sends, n - 1) + if Ender(sends[n - 1]) then IoActs(n - 1, GoodRun(sends[n - 1].p)) else []
  }

  lemma {:induction false} GoodActsRun(r: Request, n: nat)
    requires n <= |r.sends| && r.sent == AllStarted(r.sends)
    ensures CanAct(r, GoodActs(r.sends, n))
    ensures var v := ActAll(r, GoodActs(r.sends, n));
            v == r.(sent := v.sent) && |v.sent| == |r.sent| &&
            (forall k :: n <= k < |r.sent| ==> v.sent[k] == r.sent[k]) &&
            TransferEnds(v.sent[..n]) >= Enders(r.sends[..n])
  {
    hide Started, Ender, GoodRun, AllStarted, ActOn, ActEnabled;
    AllStartedAt(r.sends);
    if n > 0 {
      GoodActsRun(r, n - 1);
      var v, a := ActAll(r, GoodActs(r.sends, n - 1)), r.sends[n - 1];
      PrefixEnders(r.sends, n);
      if Ender(a) {
        OneGoodRun(a);
        var acts := IoActs(n - 1, GoodRun(a.p));
        IoActsRun(v, n - 1, GoodRun(a.p));
        ActAppend(r, GoodActs(r.sends, n - 1), acts);
        var u := ActAll(v, acts);
        hide ActAll, CanAct, Enders, IoActs, TransferEnds;
        assert u.sent[..n - 1] == v.sent[..n - 1] && u.sent[n - 1].log.ends == 1;
        PrefixEnds(u.sent, n);
      } else {
        hide ActAll, CanAct, Enders, TransferEnds;
        assert GoodActs(r.sends, n - 1) + [] == GoodActs(r.sends, n - 1);
        PrefixEnds(v.sent, n);
      }
    }
  }

  lemma PrefixEnds(sent: seq<Transfer>, n: nat)
    requires 0 < n <= |sent|
    ensures TransferEnds(sent[..n]) == TransferEnds(sent[..n - 1]) + sent[n - 1].log.ends
  {
    assert sent[..n][..n - 1] == sent[..n - 1];
  }

  lemma PrefixEnders(sends: seq<SendArgs>, n: nat)
    requires 0 < n <= |sends|
    ensures Enders(sends[..n]) == Enders(sends[..n - 1]) + if Ender(sends[n - 1]) then 1 else 0
  {
    hide Ender;
    assert sends[..n][..n - 1] == sends[..n - 1];
  }

  lemma AllStartedAt(sends: seq<SendArgs>)
    ensures |AllStarted(sends)| == |sends|
    ensures forall k :: 0 <= k < |sends| ==> AllStarted(sends)[k] == Started(sends[k])
  {
  }

  lemma OneGoodRun(a: SendArgs)
    requires Ender(a)
    ensures StreamTransfer.CanRun(Started(a), GoodRun(a.p))
    ensures StreamTransfer.Run(Started(a), GoodRun(a.p)).log.ends == 1
  {
    GoodRunEnds(a.p, a.file, a.env);
    hide StreamTransfer.Send, StreamTransfer.Run, StreamTransfer.CanRun;
  }

  /** How the handler and the wrapper leave a request: after a throw the writer is found not begun. */
  function Leave(threw: bool): seq<Act> { if threw then [HandlerThrows, WrapUp(true)] else [HandlerReturns] }

  lemma LeaveRun(r: Request, threw: bool)
    requires r.phase.InHandler? && !r.threw && r.wrapperEnds == 0
    ensures CanAct(r, Leave(threw))
    ensures var v := ActAll(r, Leave(threw));
            v.sends == r.sends && v.sent == r.sent && v.threw == threw && v.wrapperEnds == if threw then 1 else 0
  {
    hide HandedOff;
    if threw {
      var r1 := ActOn(r, HandlerThrows);
      ActOne(r, HandlerThrows);
      ActOne(r1, WrapUp(true));
      ActAppend(r, [HandlerThrows], [WrapUp(true)]);
      assert [HandlerThrows] + [WrapUp(true)] == [HandlerThrows, WrapUp(true)];
    } else {
      ActOne(r, HandlerReturns);
    }
  }

  /** A handler that makes these sends and returns or throws, and its wrapper. */
  function Handled(sends: seq<SendArgs>, threw: bool): seq<Act> { [StartTask] + SendActs(sends) + Leave(threw) }

  lemma {:induction false} HandledRuns(sends: seq<SendArgs>, threw: bool)
    ensures CanAct(ARRIVED, Handled(sends, threw))
    ensures var v := ActAll(ARRIVED, Handled(sends, threw));
            v.sends == sends && v.sent == AllStarted(sends) && v.threw == threw &&
            v.wrapperEnds == if threw then 1 else 0
  {
    var r1 := ARRIVED.(phase := InHandler);
    assert ActEnabled(ARRIVED, StartTask) && ActOn(ARRIVED, StartTask) == r1;
    ActOne(ARRIVED, StartTask);
    SendActsRun(r1, sends);
    ActAppend(ARRIVED, [StartTask], SendActs(sends));
    hide AllStarted, SendActs, ActOn, ActEnabled, ActAll, CanAct, Leave;
    assert [] + sends == sends && [] + AllStarted(sends) == AllStarted(sends);
    LeaveRun(r1.(sends := sends, sent := AllStarted(sends)), threw);
    ActAppend(ARRIVED, [StartTask] + SendActs(sends), Leave(threw));
  }

  /** All that, and good connections for the transfers that can end the response. */
  function WholeTask(sends: seq<SendArgs>, threw: bool): seq<Act>
  {
    Handled(sends, threw) + GoodActs(sends, |sends|)
  }

  lemma {:induction false} WholeTaskEnds(sends: seq<SendArgs>, threw: bool)
    ensures CanAct(ARRIVED, WholeTask(sends, threw))
    ensures var v := ActAll(ARRIVED, WholeTask(sends, threw));
            v.sends == sends && v.threw == threw && Ends(v) >= Enders(sends) + (if threw then 1 else 0)
  {
    HandledRuns(sends, threw);
    hide Handled, ActAll, CanAct, AllStarted;
    var r := ActAll(ARRIVED, Handled(sends, threw));
    GoodActsRun(r, |sends|);
    ActAppend(ARRIVED, Handled(sends, threw), GoodActs(sends, |sends|));
    hide GoodActs, TransferEnds, Enders;
    var v := ActAll(r, GoodActs(sends, |sends|));
    assert sends[..|sends|] == sends && v.sent[..|sends|] == v.sent by { AllStartedAt(sends); }
  }

  /** Some run from the start has a request with these sends, thrown or not, ended twice. */
  ghost predicate SomeRunEndsTwice(id: nat, sends: seq<SendArgs>, threw: bool)
  {
    exists actions :: CanRun(START, actions) && EndedTwice(Run(START, actions), id, sends, threw)
  }

  ghost predicate EndedTwice(w: World, id: nat, sends: seq<SendArgs>, threw: bool)
  {
    id in w.requests && w.requests[id].sends == sends && w.requests[id].threw == threw && Ends(w.requests[id]) >= 2
  }

  lemma {:induction false} WholeTaskRuns(id: nat, sends: seq<SendArgs>, threw: bool)
    ensures var actions := [Action(id, Arrive)] + Lifted(id, WholeTask(sends, threw));
            CanRun(START, actions) &&
            var w := Run(START, actions);
            id in w.requests && w.requests[id].sends == sends && w.requests[id].threw == threw &&
            Ends(w.requests[id]) >= Enders(sends) + (if threw then 1 else 0)
  {
    var w1 := Step(START, Action(id, Arrive));
    assert w1.requests[id] == ARRIVED;
    WholeTaskEnds(sends, threw);
    hide WholeTask, ActEnabled, ActOn;
    LiftedRuns(w1, id, WholeTask(sends, threw));
    var rest := Lifted(id, WholeTask(sends, threw));
    assert ([Action(id, Arrive)] + rest)[1..] == rest;
  }

  /** A request with given sends, thrown or not, can be ended twice if and only if that can be told
      from the sends beforehand. */
  lemma {:induction false} EndsTwiceExactly(id: nat, sends: seq<SendArgs>, threw: bool)
    ensures SomeRunEndsTwice(id, sends, threw) <==> MayEndTwice(sends, threw)
  {
    if MayEndTwice(sends, threw) {
      WholeTaskRuns(id, sends, threw);
      var actions := [Action(id, Arrive)] + Lifted(id, WholeTask(sends, threw));
      hide WholeTask, Lifted, CanRun, Run, Ends;
      assert EndedTwice(Run(START, actions), id, sends, threw);
    }
    forall actions | CanRun(START, actions) && EndedTwice(Run(START, actions), id, sends, threw)
      ensures MayEndTwice(sends, threw)
    {
      EndedAtMostOnce(actions, id);
    }
  }

  /** Two sends of empty files end the response twice, from the start. */
  lemma TwoSendsEndTwice(id: nat, file: string)
    ensures var a := SendArgs(Params(0, -1, -1), file, SendEnv(true, true, true, true, true, true));
            SomeRunEndsTwice(id, [a, a], false)
  {
    var a := SendArgs(Params(0, -1, -1), file, SendEnv(true, true, true, true, true, true));
    assert Ender(a);
    hide Ender;
    assert [a, a][..1] == [a] && [a][..0] == [];
    assert Enders([a, a]) == Enders([a]) + 1 == Enders([]) + 2;
    EndsTwiceExactly(id, [a, a], false);
  }

  /** So does a handler that throws after one send that can end the response. */
  lemma ThrowAfterHandoverEndsTwice(id: nat, a: SendArgs)
    requires Ender(a)
    ensures SomeRunEndsTwice(id, [a], true)
  {
    hide Ender;
    assert [a][..0] == [] && Enders([a]) == Enders([]) + 1;
    EndsTwiceExactly(id, [a], true);
  }
}
