/** MiddlewareChain: onion-model execution, over middlewares that may call next any number of
    times, do their own work around it, throw, or catch what next throws. */
module Middleware {

  /** What a middleware does, in order: a step of its own, a call of next, or a throw. An exception
      out of next ends the middleware unless the call catches it. */
  datatype Act = Work(what: nat) | CallNext(catches: bool) | Throw

  /** ret is the status it returns, or none to return what its last call of next returned. */
  datatype Fn = Fn(acts: seq<Act>, ret: Status)

  datatype Status = Code(code: int) | FromNext

  datatype Final = Final(throws: bool, code: int)

  datatype Seen = Did(idx: nat, what: nat) | RanFinal

  datatype Result = Result(trace: seq<Seen>, threw: bool, code: int)

  function RunFrom(chain: seq<Fn>, idx: nat, final: Final): Result
    requires idx <= |chain|
    decreases |chain| - idx, 1, 0
  {
    if idx == |chain| then Result([RanFinal], final.throws, final.code)
    else
      var r := RunActs(chain, idx, chain[idx].acts, final, 0);
      if chain[idx].ret.Code? && !r.threw then r.(code := chain[idx].ret.code) else r
  }

  /** The acts of the middleware at idx; last is what its last call of next returned. */
  function RunActs(chain: seq<Fn>, idx: nat, acts: seq<Act>, final: Final, last: int): Result
    requires idx < |chain|
    decreases |chain| - idx, 0, |acts|
  {
    if acts == [] then Result([], false, last)
    else match acts[0]
      case Work(what) => Prepend([Did(idx, what)], RunActs(chain, idx, acts[1..], final, last))
      case Throw => Result([], true, last)
      case CallNext(catches) =>
        var r := RunFrom(chain, idx + 1, final);
        if r.threw && !catches then r
        else Prepend(r.trace, RunActs(chain, idx, acts[1..], final, if r.threw then last else r.code))
  }

  function Prepend(trace: seq<Seen>, r: Result): Result { r.(trace := trace + r.trace) }

  function Execute(chain: seq<Fn>, final: Final): Result { RunFrom(chain, 0, final) }

  function Finals(trace: seq<Seen>): nat
  {
    if trace == [] then 0 else (if trace[0].RanFinal? then 1 else 0) + Finals(trace[1..])
  }

  function Calls(acts: seq<Act>): nat
  {
    if acts == [] then 0 else (if acts[0].CallNext? then 1 else 0) + Calls(acts[1..])
  }

  /** The product of the numbers of next calls from idx on. */
  function Product(chain: seq<Fn>, idx: nat): nat
    requires idx <= |chain|
    decreases |chain| - idx
  {
    if idx == |chain| then 1 else Calls(chain[idx].acts) * Product(chain, idx + 1)
  }

  predicate NobodyThrows(chain: seq<Fn>, final: Final)
  {
    !final.throws && forall i :: 0 <= i < |chain| ==> Throw !in chain[i].acts
  }

  lemma {:induction false} FinalsAppend(a: seq<Seen>, b: seq<Seen>)
    ensures Finals(a + b) == Finals(a) + Finals(b)
  {
    if a == [] {
      assert a + b == b;
    } else {
      FinalsAppend(a[1..], b);
      assert (a + b)[1..] == a[1..] + b;
    }
  }

  /** The innermost handler runs once per way through the chain: the product of the numbers of
      calls of next, and no more than that when somebody throws. */
  lemma {:induction false} FinalCount(chain: seq<Fn>, idx: nat, final: Final)
    requires idx <= |chain|
    ensures var r := RunFrom(chain, idx, final);
            Finals(r.trace) <= Product(chain, idx) &&
            (NobodyThrows(chain, final) ==> !r.threw && Finals(r.trace) == Product(chain, idx))
    decreases |chain| - idx, 1, 0
  {
    if idx < |chain| {
      ActsCount(chain, idx, chain[idx].acts, final, 0);
    } else {
      assert Finals([RanFinal]) == 1 + Finals([]);
    }
  }

  lemma {:induction false} ActsCount(chain: seq<Fn>, idx: nat, acts: seq<Act>, final: Final, last: int)
    requires idx < |chain|
    ensures var r := RunActs(chain, idx, acts, final, last);
            Finals(r.trace) <= Calls(acts) * Product(chain, idx + 1) &&
            (NobodyThrows(chain, final) && Throw !in acts ==>
               !r.threw && Finals(r.trace) == Calls(acts) * Product(chain, idx + 1))
    decreases |chain| - idx, 0, |acts|
  {
    var p := Product(chain, idx + 1);
    if acts != [] {
      MulNext(Calls(acts[1..]), p);
      match acts[0] {
        case CallNext(catches) =>
          FinalCount(chain, idx + 1, final);
          var r := RunFrom(chain, idx + 1, final);
          if !r.threw || catches {
            var last1 := if r.threw then last else r.code;
            ActsCount(chain, idx, acts[1..], final, last1);
            FinalsAppend(r.trace, RunActs(chain, idx, acts[1..], final, last1).trace);
          }
        case Work(what) =>
          ActsCount(chain, idx, acts[1..], final, last);
          FinalsAppend([Did(idx, what)], RunActs(chain, idx, acts[1..], final, last).trace);
          assert Finals([Did(idx, what)]) == 0 + Finals([]);
        case Throw =>
      }
    }
    hide RunFrom, Product, NobodyThrows;
  }

  lemma MulNext(c: nat, p: nat)
    ensures (1 + c) * p == p + c * p && c * p >= 0
  {
  }

  predicate EachAtMostOnce(chain: seq<Fn>) { forall i :: 0 <= i < |chain| ==> Calls(chain[i].acts) <= 1 }

  /** When no middleware calls next twice the handler runs at most once; it runs when every one
      calls next and nobody throws. */
  lemma {:induction false} AtMostOnce(chain: seq<Fn>, final: Final)
    ensures EachAtMostOnce(chain) ==> Finals(Execute(chain, final).trace) <= 1
    ensures NobodyThrows(chain, final) ==>
              (Finals(Execute(chain, final).trace) == 0 <==>
               exists i :: 0 <= i < |chain| && Calls(chain[i].acts) == 0)
  {
    FinalCount(chain, 0, final);
    if EachAtMostOnce(chain) { ProductBound(chain, 0); }
    ProductZero(chain, 0);
  }

  lemma {:induction false} ProductBound(chain: seq<Fn>, idx: nat)
    requires idx <= |chain| && EachAtMostOnce(chain)
    ensures Product(chain, idx) <= 1
    decreases |chain| - idx
  {
    if idx < |chain| {
      ProductBound(chain, idx + 1);
      assert Calls(chain[idx].acts) in {0, 1};
    }
  }

  lemma {:induction false} ProductZero(chain: seq<Fn>, idx: nat)
    requires idx <= |chain|
    ensures Product(chain, idx) == 0 <==> exists i :: idx <= i < |chain| && Calls(chain[i].acts) == 0
    decreases |chain| - idx
  {
    if idx < |chain| { ProductZero(chain, idx + 1); }
  }

  // ----- the onion -----

  /** A middleware with work before and after one call of next. */
  function Around(before: seq<nat>, catches: bool, after: seq<nat>): seq<Act>
  {
    Works(before) + [CallNext(catches)] + Works(after)
  }

  function Works(ws: seq<nat>): seq<Act> { seq(|ws|, i requires 0 <= i < |ws| => Work(ws[i])) }

  function Dids(idx: nat, ws: seq<nat>): seq<Seen> { seq(|ws|, i requires 0 <= i < |ws| => Did(idx, ws[i])) }

  ghost predicate IsOnion(chain: seq<Fn>, before: seq<seq<nat>>, after: seq<seq<nat>>)
  {
    |before| == |after| == |chain| &&
    forall i :: 0 <= i < |chain| ==>
      exists catches :: chain[i].acts == Around(before[i], catches, after[i])
  }

  ghost function OnionTrace(chain: seq<Fn>, before: seq<seq<nat>>, after: seq<seq<nat>>, idx: nat): seq<Seen>
    requires IsOnion(chain, before, after) && idx <= |chain|
    decreases |chain| - idx
  {
    if idx == |chain| then [RanFinal]
    else Dids(idx, before[idx]) + OnionTrace(chain, before, after, idx + 1) + Dids(idx, after[idx])
  }

  lemma {:induction false} WorksThen(chain: seq<Fn>, idx: nat, ws: seq<nat>, rest: seq<Act>, final: Final,
      last: int)
    requires idx < |chain|
    ensures RunActs(chain, idx, Works(ws) + rest, final, last) ==
        Prepend(Dids(idx, ws), RunActs(chain, idx, rest, final, last))
    decreases |ws|
  {
    var r := RunActs(chain, idx, rest, final, last);
    if ws == [] {
      assert Works(ws) + rest == rest;
      assert Dids(idx, ws) + r.trace == r.trace;
    } else {
      var acts := Works(ws) + rest;
      assert acts[0] == Work(ws[0]) && acts[1..] == Works(ws[1..]) + rest;
      WorksThen(chain, idx, ws[1..], rest, final, last);
      assert [Did(idx, ws[0])] + (Dids(idx, ws[1..]) + r.trace) == Dids(idx, ws) + r.trace;
    }
  }

  /** Before-work runs outermost first, then the handler, then after-work innermost first. */
  lemma {:induction false} OnionOrder(chain: seq<Fn>, before: seq<seq<nat>>, after: seq<seq<nat>>, idx: nat,
      final: Final)
    requires IsOnion(chain, before, after) && idx <= |chain| && !final.throws
    ensures var r := RunFrom(chain, idx, final);
            !r.threw && r.trace == OnionTrace(chain, before, after, idx)
    decreases |chain| - idx
  {
    if idx < |chain| {
      OnionOrder(chain, before, after, idx + 1, final);
      var catches :| chain[idx].acts == Around(before[idx], catches, after[idx]);
      OneLayer(chain, idx, before[idx], catches, after[idx], final);
      hide RunActs, IsOnion, Around, Dids;
    }
  }

  /** A middleware around one call of next that throws nothing. */
  lemma {:induction false} OneLayer(chain: seq<Fn>, idx: nat, before: seq<nat>, catches: bool, after: seq<nat>,
      final: Final)
    requires idx < |chain| && !RunFrom(chain, idx + 1, final).threw
    ensures var r := RunActs(chain, idx, Around(before, catches, after), final, 0);
            !r.threw && r.trace == Dids(idx, before) + RunFrom(chain, idx + 1, final).trace + Dids(idx, after)
  {
    var inner := RunFrom(chain, idx + 1, final);
    var tail := [CallNext(catches)] + Works(after);
    assert Around(before, catches, after) == Works(before) + tail;
    WorksThen(chain, idx, before, tail, final, 0);
    assert tail[1..] == Works(after) == Works(after) + [];
    WorksThen(chain, idx, after, [], final, inner.code);
    hide Works, Dids, RunFrom;
    assert Dids(idx, after) + [] == Dids(idx, after);
    assert Dids(idx, before) + (inner.trace + Dids(idx, after)) == Dids(idx, before) + inner.trace + Dids(idx, after);
  }

  // ----- the way in -----

  /** A middleware reaches next when it has a call of it before any throw. */
  predicate Reaches(acts: seq<Act>)
  {
    acts != [] && (acts[0].CallNext? || (acts[0].Work? && Reaches(acts[1..])))
  }

  /** The work it does before that. */
  function WorkBefore(acts: seq<Act>): seq<nat>
  {
    if acts == [] || !acts[0].Work? then [] else [acts[0].what] + WorkBefore(acts[1..])
  }

  predicate AllReach(chain: seq<Fn>, idx: nat) { forall i :: idx <= i < |chain| ==> Reaches(chain[i].acts) }

  /** The work done on the way to the innermost handler, outermost first. */
  function WayIn(chain: seq<Fn>, idx: nat): seq<Seen>
    requires idx <= |chain|
    decreases |chain| - idx
  {
    if idx == |chain| then [] else Dids(idx, WorkBefore(chain[idx].acts)) + WayIn(chain, idx + 1)
  }

  /** The innermost handler runs if and only if every middleware reaches next, and what precedes its
      first run is exactly the work before the first calls of next. */
  lemma {:induction false} FirstFinal(chain: seq<Fn>, idx: nat, final: Final)
    requires idx <= |chain|
    ensures var trace := RunFrom(chain, idx, final).trace;
            (RanFinal in trace <==> AllReach(chain, idx)) &&
            (AllReach(chain, idx) ==> WayIn(chain, idx) + [RanFinal] <= trace) &&
            RanFinal !in WayIn(chain, idx)
    decreases |chain| - idx, 1, 0
  {
    if idx < |chain| {
      FirstFinalActs(chain, idx, chain[idx].acts, final, 0);
      AllReachSplits(chain, idx);
      TraceOfRun(chain, idx, final);
      hide AllReach, Reaches, RunFrom, RunActs, Dids, WorkBefore;
      var rest := WayIn(chain, idx + 1);
      var mine := Dids(idx, WorkBefore(chain[idx].acts));
      assert WayIn(chain, idx) == mine + rest;
      assert mine + (rest + [RanFinal]) == mine + rest + [RanFinal];
      DidsNotFinal(idx, WorkBefore(chain[idx].acts));
    }
  }

  lemma AllReachSplits(chain: seq<Fn>, idx: nat)
    requires idx < |chain|
    ensures AllReach(chain, idx) <==> Reaches(chain[idx].acts) && AllReach(chain, idx + 1)
  {
  }

  lemma TraceOfRun(chain: seq<Fn>, idx: nat, final: Final)
    requires idx < |chain|
    ensures RunFrom(chain, idx, final).trace == RunActs(chain, idx, chain[idx].acts, final, 0).trace
  {
    hide RunActs;
  }

  lemma DidsNotFinal(idx: nat, ws: seq<nat>)
    ensures RanFinal !in Dids(idx, ws)
  {
  }

  lemma {:induction false} FirstFinalActs(chain: seq<Fn>, idx: nat, acts: seq<Act>, final: Final, last: int)
    requires idx < |chain|
    ensures var trace := RunActs(chain, idx, acts, final, last).trace;
            (RanFinal in trace <==> Reaches(acts) && AllReach(chain, idx + 1)) &&
            (Reaches(acts) && AllReach(chain, idx + 1) ==>
               Dids(idx, WorkBefore(acts)) + (WayIn(chain, idx + 1) + [RanFinal]) <= trace) &&
            RanFinal !in WayIn(chain, idx + 1)
    decreases |chain| - idx, 0, |acts|
  {
    FirstFinal(chain, idx + 1, final);
    if acts != [] {
      match acts[0] {
        case CallNext(catches) =>
          var r := RunFrom(chain, idx + 1, final);
          var last1 := if r.threw then last else r.code;
          FirstFinalActs(chain, idx, acts[1..], final, last1);
          assert Dids(idx, []) + (WayIn(chain, idx + 1) + [RanFinal]) == WayIn(chain, idx + 1) + [RanFinal];
          hide AllReach, RunFrom, WayIn;
        case Work(what) =>
          FirstFinalActs(chain, idx, acts[1..], final, last);
          var rest := WayIn(chain, idx + 1) + [RanFinal];
          var more := WorkBefore(acts[1..]);
          assert [Did(idx, what)] + (Dids(idx, more) + rest) == Dids(idx, [what] + more) + rest;
          hide AllReach, RunFrom, WayIn;
        case Throw =>
      }
    }
  }

  // ----- the result and exceptions -----

  /** When nobody throws, a middleware without a code of its own returns what its last call of next
      returned, and 0 when it never calls it. */
  lemma {:induction false} ActsCode(chain: seq<Fn>, idx: nat, acts: seq<Act>, final: Final, last: int)
    requires idx < |chain| && NobodyThrows(chain, final) && Throw !in acts
    ensures RunActs(chain, idx, acts, final, last).code ==
            if Calls(acts) == 0 then last else RunFrom(chain, idx + 1, final).code
    decreases |acts|
  {
    if acts != [] {
      FinalCount(chain, idx + 1, final);
      hide RunFrom, NobodyThrows;
      var r := RunFrom(chain, idx + 1, final);
      ActsCode(chain, idx, acts[1..], final, if acts[0].CallNext? then r.code else last);
    }
  }

  /** The outermost middleware with a code of its own decides the result of the chain; without one it
      is the handler's, or 0 when a middleware on the way never calls next. */
  lemma {:induction false} FirstCodeWins(chain: seq<Fn>, idx: nat, k: nat, final: Final)
    requires idx <= k <= |chain| && NobodyThrows(chain, final)
    requires forall i :: idx <= i < k ==> chain[i].ret.FromNext? && Calls(chain[i].acts) > 0
    requires k < |chain| ==> chain[k].ret.Code? || Calls(chain[k].acts) == 0
    ensures RunFrom(chain, idx, final).code ==
            if k == |chain| then final.code else if chain[k].ret.Code? then chain[k].ret.code else 0
    decreases k - idx
  {
    if idx < |chain| {
      ActsCode(chain, idx, chain[idx].acts, final, 0);
      FinalCount(chain, idx, final);
      hide RunActs;
      if idx < k { FirstCodeWins(chain, idx + 1, k, final); }
    }
  }

  /** A middleware that catches what next throws, and throws nothing itself, lets nothing out. */
  lemma {:induction false} CatchStops(chain: seq<Fn>, idx: nat, acts: seq<Act>, final: Final, last: int)
    requires idx < |chain| && forall i :: 0 <= i < |acts| ==> acts[i] != Throw && acts[i] != CallNext(false)
    ensures !RunActs(chain, idx, acts, final, last).threw
    decreases |acts|
  {
    if acts != [] {
      var r := RunFrom(chain, idx + 1, final);
      var last1 := if acts[0].CallNext? && !r.threw then r.code else last;
      CatchStops(chain, idx, acts[1..], final, last1);
      hide RunFrom;
    }
  }

  /** The middleware throws before it calls next. */
  predicate ThrowsFirst(acts: seq<Act>)
  {
    acts != [] && (acts[0].Throw? || (acts[0].Work? && ThrowsFirst(acts[1..])))
  }

  /** Its first call of next catches nothing. */
  predicate LetsThrough(acts: seq<Act>)
  {
    acts != [] && (acts[0] == CallNext(false) || (acts[0].Work? && LetsThrough(acts[1..])))
  }

  /** Where the first way into the chain ends in an exception that nobody on it catches, the whole
      chain ends in it. */
  lemma {:induction false} ThrowPasses(chain: seq<Fn>, idx: nat, k: nat, final: Final)
    requires idx <= k <= |chain| && forall i :: idx <= i < k ==> LetsThrough(chain[i].acts)
    requires if k == |chain| then final.throws else ThrowsFirst(chain[k].acts)
    ensures RunFrom(chain, idx, final).threw
    decreases k - idx
  {
    if idx < k {
      ThrowPasses(chain, idx + 1, k, final);
      ActsThrow(chain, idx, chain[idx].acts, final, 0);
    } else if idx < |chain| {
      ActsThrow(chain, idx, chain[idx].acts, final, 0);
    }
  }

  lemma {:induction false} ActsThrow(chain: seq<Fn>, idx: nat, acts: seq<Act>, final: Final, last: int)
    requires idx < |chain|
    requires ThrowsFirst(acts) || (LetsThrough(acts) && RunFrom(chain, idx + 1, final).threw)
    ensures RunActs(chain, idx, acts, final, last).threw
    decreases |acts|
  {
    hide RunFrom;
    if acts[0].Work? { ActsThrow(chain, idx, acts[1..], final, last); }
  }

  // ----- adding a middleware -----

  /** A middleware added last is the innermost: every way through the chain so far goes through it,
      as often as it calls next. */
  lemma {:induction false} AddedIsInnermost(chain: seq<Fn>, fn: Fn, idx: nat)
    requires idx <= |chain|
    ensures Product(chain + [fn], idx) == Product(chain, idx) * Calls(fn.acts)
    ensures WayIn(chain + [fn], idx) == WayIn(chain, idx) + Dids(|chain|, WorkBefore(fn.acts))
    decreases |chain| - idx
  {
    var more := chain + [fn];
    hide Calls, WorkBefore;
    if idx == |chain| {
      assert more[idx] == fn && Product(more, idx + 1) == 1 && WayIn(more, idx + 1) == [];
      assert WayIn(more, idx) == Dids(idx, WorkBefore(fn.acts)) + [];
    } else {
      AddedIsInnermost(chain, fn, idx + 1);
      assert more[idx] == chain[idx];
      MulAssoc(Calls(chain[idx].acts), Product(chain, idx + 1), Calls(fn.acts));
      hide Dids;
    }
  }

  lemma MulAssoc(a: nat, b: nat, c: nat)
    ensures a * (b * c) == (a * b) * c
  {
  }

  /** One round of the loop over the acts of a middleware. */
  lemma NextAct(chain: seq<Fn>, idx: nat, acts: seq<Act>, i: nat, trace: seq<Seen>, final: Final, last: int)
    requires idx < |chain| && i < |acts|
    ensures Prepend(trace, RunActs(chain, idx, acts[i..], final, last)) ==
            match acts[i]
            case Work(what) => Prepend(trace + [Did(idx, what)], RunActs(chain, idx, acts[i + 1..], final, last))
            case Throw => Result(trace, true, last)
            case CallNext(catches) =>
              var r := RunFrom(chain, idx + 1, final);
              if r.threw && !catches then Result(trace + r.trace, true, r.code)
              else Prepend(trace + r.trace,
                     RunActs(chain, idx, acts[i + 1..], final, if r.threw then last else r.code))
  {
    assert acts[i..][0] == acts[i] && acts[i..][1..] == acts[i + 1..];
    hide RunFrom;
    match acts[i] {
      case Work(what) =>
        var after := RunActs(chain, idx, acts[i + 1..], final, last);
        assert trace + ([Did(idx, what)] + after.trace) == trace + [Did(idx, what)] + after.trace;
      case Throw => assert trace + [] == trace;
      case CallNext(catches) =>
        var r := RunFrom(chain, idx + 1, final);
        var after := RunActs(chain, idx, acts[i + 1..], final, if r.threw then last else r.code);
        assert trace + (r.trace + after.trace) == trace + r.trace + after.trace;
    }
  }

  lemma NoMoreActs(chain: seq<Fn>, idx: nat, final: Final, last: int)
    requires idx < |chain|
    ensures RunActs(chain, idx, [], final, last) == Result([], false, last)
  {
  }

  class MiddlewareChain {
    var chain: seq<Fn>

    constructor ()
      ensures chain == []
    {
      chain := [];
    }

    method Use(fn: Fn)
      modifies this
      ensures chain == old(chain) + [fn]
      ensures Product(chain, 0) == Product(old(chain), 0) * Calls(fn.acts)
    {
      AddedIsInnermost(chain, fn, 0);
      chain := chain + [fn];
    }

    /** run(): the middleware at idx, its next being run() at the one after it. */
    method Run(idx: nat, final: Final) returns (r: Result)
      requires idx <= |chain|
      ensures r == RunFrom(chain, idx, final)
      decreases |chain| - idx, 1
    {
      if idx >= |chain| { return Result([RanFinal], final.throws, final.code); }
      r := CallFn(idx, final);
      hide RunActs;
      if chain[idx].ret.Code? && !r.threw { r := r.(code := chain[idx].ret.code); }
    }

    /** The middleware at idx does its acts. */
    method CallFn(idx: nat, final: Final) returns (r: Result)
      requires idx < |chain|
      ensures r == RunActs(chain, idx, chain[idx].acts, final, 0)
      decreases |chain| - idx, 0
    {
      var acts := chain[idx].acts;
      var trace, last, i := [], 0, 0;
      assert acts[0..] == acts;
      hide RunFrom, RunActs;
      while i < |acts|
        invariant 0 <= i <= |acts|
        invariant RunActs(chain, idx, acts, final, 0) == Prepend(trace, RunActs(chain, idx, acts[i..], final, last))
      {
        NextAct(chain, idx, acts, i, trace, final, last);
        match acts[i] {
          case Work(what) => trace := trace + [Did(idx, what)];
          case Throw => return Result(trace, true, last);
          case CallNext(catches) =>
            var inner := Run(idx + 1, final);
            trace := trace + inner.trace;
            if inner.threw && !catches { return Result(trace, true, inner.code); }
            if !inner.threw { last := inner.code; }
        }
        i := i + 1;
      }
      NoMoreActs(chain, idx, final, last);
      assert acts[i..] == [] && trace + [] == trace;
      r := Result(trace, false, last);
    }

    /** execute(): the handler runs as often as the ways through the chain allow. */
    method Execute(final: Final) returns (r: Result)
      ensures r == RunFrom(chain, 0, final)
      ensures Finals(r.trace) <= Product(chain, 0)
      ensures RanFinal in r.trace <==> AllReach(chain, 0)
    {
      r := Run(0, final);
      FinalCount(chain, 0, final);
      FirstFinal(chain, 0, final);
    }
  }
}
