/** The end of a request body: the middleware chain runs, and at each way through it complete is
    called on the receiver, which a close in between takes away. What this comes to is read off the
    trace of the chain, whatever its middlewares call twice, throw or catch. */
module BodyWalk {
  import Middleware

  /** The work of a middleware inside which the writer runs its close callback. */
  const CLOSE: nat := 0

  /** What a walk along the trace of the chain does to one receiver. */
  datatype Walk = Walk(live: bool, completes: nat, nulls: nat, inside: bool)

  function WalkOne(e: Middleware.Seen, hooked: bool, completeCloses: bool, k: Walk): Walk
  {
    match e
    case Did(_, what) => if hooked && what == CLOSE then k.(live := false) else k
    case RanFinal =>
      if !k.live then k.(nulls := k.nulls + 1)
      else if hooked && completeCloses then
        k.(completes := k.completes + 1, live := false, inside := true)
      else k.(completes := k.completes + 1)
  }

  function WalkTrace(trace: seq<Middleware.Seen>, hooked: bool, completeCloses: bool, k: Walk): Walk
  {
    if trace == [] then k
    else WalkTrace(trace[1..], hooked, completeCloses, WalkOne(trace[0], hooked, completeCloses, k))
  }

  /** The receiver is looked at once, before the chain. */
  function MessageWalk(chain: seq<Middleware.Fn>, final: Middleware.Final, hooked: bool, completeCloses: bool): Walk
  {
    WalkTrace(Middleware.Execute(chain, final).trace, hooked, completeCloses, Walk(true, 0, 0, false))
  }

  predicate Closes(trace: seq<Middleware.Seen>)
  {
    exists i :: 0 <= i < |trace| && trace[i].Did? && trace[i].what == CLOSE
  }

  /** Some middleware runs the close callback on the way to the innermost handler. */
  predicate ChainCloses(chain: seq<Middleware.Fn>) { ClosesFrom(chain, 0) }

  predicate ClosesFrom(chain: seq<Middleware.Fn>, idx: nat)
  {
    exists i :: idx <= i < |chain| && CLOSE in Middleware.WorkBefore(chain[i].acts)
  }

  /** The close callback runs inside this step of the chain. */
  predicate ClosesAt(e: Middleware.Seen, hooked: bool, cc: bool)
  {
    hooked && match e case Did(_, what) => what == CLOSE case RanFinal => cc
  }

  /** No step before the j-th has run the close callback. */
  predicate OpenUntil(trace: seq<Middleware.Seen>, j: nat, hooked: bool, cc: bool)
    requires j <= |trace|
  {
    forall i :: 0 <= i < j ==> !ClosesAt(trace[i], hooked, cc)
  }

  /** The handler is run after a close. */
  predicate RunsGone(trace: seq<Middleware.Seen>, hooked: bool, cc: bool)
  {
    exists j :: 0 <= j < |trace| && trace[j].RanFinal? && !OpenUntil(trace, j, hooked, cc)
  }

  /** The handler is run before any close. */
  predicate RunsOpen(trace: seq<Middleware.Seen>, hooked: bool, cc: bool)
  {
    exists j :: 0 <= j < |trace| && trace[j].RanFinal? && OpenUntil(trace, j, hooked, cc)
  }

  /** The handler is run twice before any close. */
  predicate RunsOpenTwice(trace: seq<Middleware.Seen>, hooked: bool, cc: bool)
  {
    exists i, j :: 0 <= i < j < |trace| && trace[i].RanFinal? && trace[j].RanFinal? && OpenUntil(trace, j, hooked, cc)
  }

  lemma OpenSplits(trace: seq<Middleware.Seen>, j: nat, hooked: bool, cc: bool)
    requires j < |trace|
    ensures OpenUntil(trace, j + 1, hooked, cc) <==>
            !ClosesAt(trace[0], hooked, cc) && OpenUntil(trace[1..], j, hooked, cc)
  {
    if OpenUntil(trace, j + 1, hooked, cc) {
      forall i | 0 <= i < j ensures !ClosesAt(trace[1..][i], hooked, cc) { assert trace[1..][i] == trace[i + 1]; }
    }
    if !ClosesAt(trace[0], hooked, cc) && OpenUntil(trace[1..], j, hooked, cc) {
      forall i | 0 <= i < j + 1 ensures !ClosesAt(trace[i], hooked, cc) {
        if i > 0 { assert trace[1..][i - 1] == trace[i]; }
      }
    }
  }

  /** What the first step of a trace adds to each of the three. */
  lemma RunsSplit(trace: seq<Middleware.Seen>, hooked: bool, cc: bool)
    requires trace != []
    ensures var e, rest := trace[0], trace[1..];
            var closes := ClosesAt(e, hooked, cc);
            (RunsGone(trace, hooked, cc) <==>
               if closes then Middleware.RanFinal in rest else RunsGone(rest, hooked, cc)) &&
            (RunsOpen(trace, hooked, cc) <==> e.RanFinal? || (!closes && RunsOpen(rest, hooked, cc))) &&
            (RunsOpenTwice(trace, hooked, cc) <==>
               !closes && (RunsOpenTwice(rest, hooked, cc) || (e.RanFinal? && RunsOpen(rest, hooked, cc))))
  {
    GoneSplits(trace, hooked, cc);
    OpenRunSplits(trace, hooked, cc);
    TwiceSplits(trace, hooked, cc);
    hide RunsGone, RunsOpen, RunsOpenTwice;
  }

  lemma GoneSplits(trace: seq<Middleware.Seen>, hooked: bool, cc: bool)
    requires trace != []
    ensures RunsGone(trace, hooked, cc) <==>
            if ClosesAt(trace[0], hooked, cc) then Middleware.RanFinal in trace[1..]
            else RunsGone(trace[1..], hooked, cc)
  {
    hide OpenUntil, ClosesAt;
    if RunsGone(trace, hooked, cc) {
      var j :| 0 <= j < |trace| && trace[j].RanFinal? && !OpenUntil(trace, j, hooked, cc);
      if j == 0 { OpenAtStart(trace, hooked, cc); }
      OpenSplits(trace, j - 1, hooked, cc);
      assert trace[1..][j - 1] == trace[j];
    }
    if Middleware.RanFinal in trace[1..] && ClosesAt(trace[0], hooked, cc) {
      var j :| 0 <= j < |trace[1..]| && trace[1..][j] == Middleware.RanFinal;
      OpenSplits(trace, j, hooked, cc);
      assert trace[j + 1].RanFinal?;
    }
    if RunsGone(trace[1..], hooked, cc) {
      var j :| 0 <= j < |trace[1..]| && trace[1..][j].RanFinal? && !OpenUntil(trace[1..], j, hooked, cc);
      OpenSplits(trace, j, hooked, cc);
      assert trace[j + 1].RanFinal?;
    }
  }

  lemma OpenAtStart(trace: seq<Middleware.Seen>, hooked: bool, cc: bool)
    ensures OpenUntil(trace, 0, hooked, cc)
  {
  }

  lemma OpenRunSplits(trace: seq<Middleware.Seen>, hooked: bool, cc: bool)
    requires trace != []
    ensures RunsOpen(trace, hooked, cc) <==>
            trace[0].RanFinal? || (!ClosesAt(trace[0], hooked, cc) && RunsOpen(trace[1..], hooked, cc))
  {
    hide OpenUntil, ClosesAt;
    OpenAtStart(trace, hooked, cc);
    if RunsOpen(trace, hooked, cc) {
      var j :| 0 <= j < |trace| && trace[j].RanFinal? && OpenUntil(trace, j, hooked, cc);
      if j > 0 {
        OpenSplits(trace, j - 1, hooked, cc);
        assert trace[1..][j - 1] == trace[j];
      }
    }
    if !ClosesAt(trace[0], hooked, cc) && RunsOpen(trace[1..], hooked, cc) {
      var j :| 0 <= j < |trace[1..]| && trace[1..][j].RanFinal? && OpenUntil(trace[1..], j, hooked, cc);
      OpenSplits(trace, j, hooked, cc);
      assert trace[j + 1].RanFinal?;
    }
  }

  lemma TwiceSplits(trace: seq<Middleware.Seen>, hooked: bool, cc: bool)
    requires trace != []
    ensures RunsOpenTwice(trace, hooked, cc) <==>
            !ClosesAt(trace[0], hooked, cc) &&
            (RunsOpenTwice(trace[1..], hooked, cc) || (trace[0].RanFinal? && RunsOpen(trace[1..], hooked, cc)))
  {
    hide OpenUntil, ClosesAt;
    var rest := trace[1..];
    if RunsOpenTwice(trace, hooked, cc) {
      var i, j :| 0 <= i < j < |trace| && trace[i].RanFinal? && trace[j].RanFinal? && OpenUntil(trace, j, hooked, cc);
      OpenSplits(trace, j - 1, hooked, cc);
      assert rest[j - 1] == trace[j];
      if i > 0 { assert rest[i - 1] == trace[i]; }
    }
    if !ClosesAt(trace[0], hooked, cc) && RunsOpenTwice(rest, hooked, cc) {
      var i, j :| 0 <= i < j < |rest| && rest[i].RanFinal? && rest[j].RanFinal? && OpenUntil(rest, j, hooked, cc);
      OpenSplits(trace, j, hooked, cc);
      assert trace[i + 1].RanFinal? && trace[j + 1].RanFinal?;
    }
    if !ClosesAt(trace[0], hooked, cc) && trace[0].RanFinal? && RunsOpen(rest, hooked, cc) {
      var j :| 0 <= j < |rest| && rest[j].RanFinal? && OpenUntil(rest, j, hooked, cc);
      OpenSplits(trace, j, hooked, cc);
      assert trace[j + 1].RanFinal?;
    }
  }

  /** Along any trace: complete runs when the handler is run before any close, again when it is run
      twice before any close, and is called on no receiver when it is run after a close. */
  lemma {:induction false} WalkExactly(trace: seq<Middleware.Seen>, hooked: bool, cc: bool, k: Walk)
    ensures var r := WalkTrace(trace, hooked, cc, k);
            r.completes >= k.completes && r.nulls >= k.nulls &&
            (r.live <==> k.live && OpenUntil(trace, |trace|, hooked, cc)) &&
            (r.completes > k.completes <==> k.live && RunsOpen(trace, hooked, cc)) &&
            (r.completes > k.completes + 1 <==> k.live && RunsOpenTwice(trace, hooked, cc)) &&
            (r.nulls > k.nulls <==> if k.live then RunsGone(trace, hooked, cc) else Middleware.RanFinal in trace) &&
            (r.inside <==> k.inside || (k.live && hooked && cc && RunsOpen(trace, hooked, cc)))
    decreases |trace|
  {
    if trace != [] {
      RunsSplit(trace, hooked, cc);
      OpenSplits(trace, |trace| - 1, hooked, cc);
      hide RunsOpen, RunsGone, RunsOpenTwice, OpenUntil;
      WalkExactly(trace[1..], hooked, cc, WalkOne(trace[0], hooked, cc, k));
      assert Middleware.RanFinal in trace <==> trace[0].RanFinal? || Middleware.RanFinal in trace[1..] by {
        assert trace == [trace[0]] + trace[1..];
      }
    }
  }

  lemma {:induction false} NoFinals(trace: seq<Middleware.Seen>)
    ensures Middleware.Finals(trace) == 0 <==> Middleware.RanFinal !in trace
  {
    if trace != [] {
      NoFinals(trace[1..]);
      assert trace == [trace[0]] + trace[1..];
    }
  }

  /** One run of the handler is before or after the closes, and is not two. */
  lemma {:induction false} SingleFinal(trace: seq<Middleware.Seen>, hooked: bool, cc: bool)
    requires Middleware.Finals(trace) <= 1
    ensures !RunsOpenTwice(trace, hooked, cc)
    ensures RunsGone(trace, hooked, cc) <==> Middleware.RanFinal in trace && !RunsOpen(trace, hooked, cc)
    decreases |trace|
  {
    if trace != [] {
      RunsSplit(trace, hooked, cc);
      NoFinals(trace[1..]);
      NotRun(trace[1..], hooked, cc);
      SingleFinal(trace[1..], hooked, cc);
      assert trace == [trace[0]] + trace[1..];
      hide RunsOpen, RunsGone, RunsOpenTwice;
    }
  }

  lemma NotRun(trace: seq<Middleware.Seen>, hooked: bool, cc: bool)
    ensures Middleware.RanFinal !in trace ==> !RunsOpen(trace, hooked, cc) && !RunsGone(trace, hooked, cc)
  {
  }

  lemma {:induction false} WayInCloses(chain: seq<Middleware.Fn>, idx: nat)
    requires idx <= |chain|
    ensures Closes(Middleware.WayIn(chain, idx)) <==> ClosesFrom(chain, idx)
    decreases |chain| - idx
  {
    hide Middleware.WorkBefore;
    if idx < |chain| {
      var ws := Middleware.WorkBefore(chain[idx].acts);
      assert ClosesFrom(chain, idx) <==> CLOSE in ws || ClosesFrom(chain, idx + 1);
      hide Middleware.Dids, Closes, ClosesFrom;
      WayInCloses(chain, idx + 1);
      ClosesAppend(Middleware.Dids(idx, ws), Middleware.WayIn(chain, idx + 1));
      DidsClose(idx, ws);
    }
  }

  lemma DidsClose(idx: nat, ws: seq<nat>)
    ensures Closes(Middleware.Dids(idx, ws)) <==> CLOSE in ws
  {
    var mine := Middleware.Dids(idx, ws);
    if CLOSE in ws {
      var j :| 0 <= j < |ws| && ws[j] == CLOSE;
      assert mine[j] == Middleware.Did(idx, CLOSE);
    }
    if Closes(mine) {
      var j :| 0 <= j < |mine| && mine[j].Did? && mine[j].what == CLOSE;
      assert ws[j] == CLOSE;
    }
  }

  lemma ClosesAppend(a: seq<Middleware.Seen>, b: seq<Middleware.Seen>)
    ensures Closes(a + b) <==> Closes(a) || Closes(b)
  {
    if Closes(a) {
      var i :| 0 <= i < |a| && a[i].Did? && a[i].what == CLOSE;
      assert (a + b)[i] == a[i];
    }
    if Closes(b) {
      var i :| 0 <= i < |b| && b[i].Did? && b[i].what == CLOSE;
      assert (a + b)[|a| + i] == b[i];
    }
  }

  /** Whatever the chain: the handler is run before any close if and only if every middleware reaches
      next and none of them runs the close callback before that. */
  lemma {:induction false} OpenExactly(chain: seq<Middleware.Fn>, final: Middleware.Final, hooked: bool, cc: bool)
    ensures var trace := Middleware.Execute(chain, final).trace;
            RunsOpen(trace, hooked, cc) <==> Middleware.AllReach(chain, 0) && !(hooked && ChainCloses(chain))
  {
    var trace := Middleware.Execute(chain, final).trace;
    Middleware.FirstFinal(chain, 0, final);
    WayInCloses(chain, 0);
    hide Middleware.AllReach, Middleware.Execute, ClosesFrom;
    if Middleware.AllReach(chain, 0) {
      FirstRunIsOpen(trace, Middleware.WayIn(chain, 0), hooked, cc);
    } else {
      NotRun(trace, hooked, cc);
    }
  }

  lemma FirstRunIsOpen(trace: seq<Middleware.Seen>, pre: seq<Middleware.Seen>, hooked: bool, cc: bool)
    requires pre + [Middleware.RanFinal] <= trace && Middleware.RanFinal !in pre
    ensures RunsOpen(trace, hooked, cc) <==> !(hooked && Closes(pre))
  {
    var n := |pre|;
    assert forall i :: 0 <= i < n ==> trace[i] == pre[i];
    assert trace[n] == (pre + [Middleware.RanFinal])[n];
    assert OpenUntil(trace, n, hooked, cc) <==> !(hooked && Closes(pre)) by {
      if hooked && Closes(pre) {
        var i :| 0 <= i < |pre| && pre[i].Did? && pre[i].what == CLOSE;
        assert ClosesAt(trace[i], hooked, cc);
      }
      if !(hooked && Closes(pre)) {
        forall i | 0 <= i < n ensures !ClosesAt(trace[i], hooked, cc) { assert pre[i] in pre; }
      }
    }
    forall i | 0 <= i < n ensures !trace[i].RanFinal? { assert pre[i] in pre; }
    if RunsOpen(trace, hooked, cc) {
      var j :| 0 <= j < |trace| && trace[j].RanFinal? && OpenUntil(trace, j, hooked, cc);
      assert j >= n;
    }
  }

  /** What the event does to a live receiver, for any chain. */
  lemma {:induction false} MessageExactly(chain: seq<Middleware.Fn>, final: Middleware.Final, hooked: bool, cc: bool)
    ensures var k := MessageWalk(chain, final, hooked, cc);
            var trace := Middleware.Execute(chain, final).trace;
            var ran := Middleware.AllReach(chain, 0) && !(hooked && ChainCloses(chain));
            (k.completes > 0 <==> ran) && (k.completes > 1 <==> RunsOpenTwice(trace, hooked, cc)) &&
            (k.nulls > 0 <==> RunsGone(trace, hooked, cc)) && (k.inside <==> ran && hooked && cc) &&
            (k.live <==> OpenUntil(trace, |trace|, hooked, cc))
  {
    WalkExactly(Middleware.Execute(chain, final).trace, hooked, cc, Walk(true, 0, 0, false));
    OpenExactly(chain, final, hooked, cc);
    hide Middleware.Execute, Middleware.AllReach, ChainCloses, WalkTrace, RunsOpen, RunsGone, RunsOpenTwice, OpenUntil;
  }

  /** complete is called once per run of the handler. */
  lemma {:induction false} CallsBounded(trace: seq<Middleware.Seen>, hooked: bool, cc: bool, k: Walk)
    ensures var r := WalkTrace(trace, hooked, cc, k);
            r.completes + r.nulls == k.completes + k.nulls + Middleware.Finals(trace)
    decreases |trace|
  {
    if trace != [] { CallsBounded(trace[1..], hooked, cc, WalkOne(trace[0], hooked, cc, k)); }
  }

  /** With no double call of next, complete is called exactly when every middleware reaches next. The
      call finds no receiver exactly when one of them has run the close callback before that. */
  lemma {:induction false} MessageMeets(chain: seq<Middleware.Fn>, final: Middleware.Final, hooked: bool, cc: bool)
    requires Middleware.EachAtMostOnce(chain)
    ensures var trace := Middleware.Execute(chain, final).trace;
            (RunsGone(trace, hooked, cc) <==> Middleware.AllReach(chain, 0) && hooked && ChainCloses(chain)) &&
            !RunsOpenTwice(trace, hooked, cc)
    ensures var k := MessageWalk(chain, final, hooked, cc);
            var reached, gone := Middleware.AllReach(chain, 0), hooked && ChainCloses(chain);
            k.completes == (if reached && !gone then 1 else 0) &&
            k.nulls == (if reached && gone then 1 else 0) &&
            (k.inside <==> reached && !gone && hooked && cc)
  {
    var trace := Middleware.Execute(chain, final).trace;
    Middleware.AtMostOnce(chain, final);
    Middleware.FirstFinal(chain, 0, final);
    SingleFinal(trace, hooked, cc);
    OpenExactly(chain, final, hooked, cc);
    MessageExactly(chain, final, hooked, cc);
    CallsBounded(trace, hooked, cc, Walk(true, 0, 0, false));
    hide Middleware.Execute, Middleware.AllReach, ChainCloses, RunsOpen, RunsGone, RunsOpenTwice, WalkTrace;
  }
}
