/** StreamTransfer: sending a file from the write events of the connection. The writer may call
    back into onwrite or onclose from inside WriteBody, End and EndHeaders. */
module StreamTransfer {

  const CHUNK_SIZE := 256 * 1024

  datatype Params = Params(fileSize: int, rangeStart: int, rangeEnd: int) {
    predicate IsRange() { rangeStart >= 0 && rangeEnd >= 0 }
    function Start(): nat { if IsRange() then rangeStart else 0 }
    function Len(): int { if IsRange() then rangeEnd - rangeStart + 1 else fileSize }
  }

  /** The bytes that the request asks for are in the file: those from rangeStart to rangeEnd, both
      included, or without a range the first fileSize bytes. */
  predicate Askable(p: Params, file: string)
  {
    if p.rangeStart >= 0 && p.rangeEnd >= 0 then
      p.rangeStart == p.rangeEnd + 1 || p.rangeStart <= p.rangeEnd < |file|
    else 0 <= p.fileSize <= |file|
  }

  function Asked(p: Params, file: string): string
    requires Askable(p, file)
  {
    if p.rangeStart < 0 || p.rangeEnd < 0 then file[..p.fileSize]
    else if p.rangeStart > p.rangeEnd then ""
    else file[p.rangeStart..p.rangeEnd + 1]
  }

  /** A callback made by the writer while one of its functions is running under pump. */
  datatype Reentry = ReWrite | ReClose

  /** What one round of the pump loop meets: the link, the write buffer, the file, the callbacks
      made inside WriteBody and its return code, and the callbacks made inside End. */
  datatype Turn = Turn(connected: bool, drained: bool, got: int, during: seq<Reentry>, ret: int,
      duringEnd: seq<Reentry>)

  type Turns = nat -> Turn

  /** A callback made inside EndHeaders; no pump is running there, so onwrite pumps in full. */
  datatype HeaderReentry = HeaderWrite(turns: Turns) | HeaderClose

  datatype Job = Job(file: string, start: nat, len: int)

  /** Who holds the state and its writer: the two callbacks, the two kinds of posted event, the
      server; and whether the state has been destroyed. */
  datatype Holders = Holders(onwrite: bool, onclose: bool, startPosted: bool, cleanupPosted: bool,
                             heldByServer: bool, destroyed: bool)

  /** What the outside has seen. bodyAfterFinish records a WriteBody begun once finished; unheld
      counts calls of WriteBody and End on a writer that neither the state nor the server holds. */
  datatype Log = Log(handoff: bool, written: string, bodyAfterFinish: bool, ends: nat,
                     started: nat, ended: seq<bool>, completed: seq<bool>, unheld: nat)

  /** TransferState with its job, its holders and its log. wired tells that send() has given it the
      ledger and the callback, which it does together. */
  datatype Transfer = Transfer(
    job: Job, remaining: int, pos: nat, wired: bool, finished: bool, pumping: bool, cleanupScheduled: bool,
    owns: bool, held: Holders, log: Log)

  function ScheduleCleanup(s: Transfer, postOk: bool): Transfer
  {
    if s.cleanupScheduled then s
    else s.(cleanupScheduled := true, owns := s.owns && postOk, held := s.held.(cleanupPosted := postOk))
  }

  function Finish(s: Transfer, success: bool, postOk: bool): Transfer
  {
    if s.finished then s
    else ScheduleCleanup(s.(finished := true,
        log := s.log.(ended := s.log.ended + [success], completed := s.log.completed + [success])), postOk)
  }

  /** A callback while a pump runs: onwrite returns at once, onclose finishes. */
  function Reenter(s: Transfer, r: Reentry, postOk: bool): Transfer
  {
    match r
    case ReWrite => s
    case ReClose => if s.held.onclose then Finish(s, false, postOk) else s
  }

  function ReenterAll(s: Transfer, rs: seq<Reentry>, postOk: bool): Transfer
    decreases |rs|
  {
    if rs == [] then s else ReenterAll(Reenter(s, rs[0], postOk), rs[1..], postOk)
  }

  /** What a read of toRead bytes delivers: at most that and what the file still has. */
  function ReadCount(file: string, pos: nat, toRead: int, want: int): nat
  {
    var left := if pos <= |file| then |file| - pos else 0;
    var most := if toRead < left then toRead else left;
    if want <= 0 || most <= 0 then 0 else if want < most then want else most
  }

  function Got(job: Job, pos: nat, remaining: int, want: int): nat
  {
    ReadCount(job.file, pos, if remaining < CHUNK_SIZE then remaining else CHUNK_SIZE, want)
  }

  function BeginBody(s: Transfer, got: nat): Transfer
    requires s.pos + got <= |s.job.file|
  {
    s.(remaining := s.remaining - got, pos := s.pos + got,
        log := s.log.(written := s.log.written + s.job.file[s.pos..s.pos + got],
        bodyAfterFinish := s.log.bodyAfterFinish || s.finished, unheld := s.log.unheld + Unheld(s)))
  }

  function Unheld(s: Transfer): nat { if s.owns || s.held.heldByServer then 0 else 1 }

  function BeginEnd(s: Transfer): Transfer
  {
    s.(log := s.log.(ends := s.log.ends + 1, unheld := s.log.unheld + Unheld(s)))
  }

  function PumpLoop(s: Transfer, turns: Turns, i: nat, postOk: bool): Transfer
    decreases if s.remaining > 0 then s.remaining else 0
  {
    var t := turns(i);
    if s.finished then s
    else if !t.connected then Finish(s, false, postOk)
    else if !t.drained then s
    else
      var got := Got(s.job, s.pos, s.remaining, t.got);
      if got <= 0 then Finish(s, false, postOk)
      else
        var s1 := ReenterAll(BeginBody(s, got), t.during, postOk);
        ReenterFrame(BeginBody(s, got), t.during, postOk);
        if t.ret < 0 then Finish(s1, false, postOk)
        else if s1.remaining <= 0 then
          Finish(ReenterAll(BeginEnd(s1), t.duringEnd, postOk), true, postOk)
        else PumpLoop(s1, turns, i + 1, postOk)
  }

  function Pump(s: Transfer, turns: Turns, postOk: bool): Transfer
  {
    if s.finished || s.pumping then s
    else PumpLoop(s.(pumping := true), turns, 0, postOk).(pumping := false)
  }

  function HeaderReenter(s: Transfer, r: HeaderReentry, postOk: bool): Transfer
  {
    match r
    case HeaderWrite(turns) => if s.held.onwrite then Pump(s, turns, postOk) else s
    case HeaderClose => if s.held.onclose then Finish(s, false, postOk) else s
  }

  function HeaderReenterAll(s: Transfer, rs: seq<HeaderReentry>, postOk: bool): Transfer
    decreases |rs|
  {
    if rs == [] then s else HeaderReenterAll(HeaderReenter(s, rs[0], postOk), rs[1..], postOk)
  }

  function StartStreaming(s: Transfer, connected: bool, during: seq<HeaderReentry>, ret: int,
      postOk: bool): Transfer
  {
    if s.finished then s
    else if !connected then Finish(s, false, postOk)
    else
      var s1 := HeaderReenterAll(s.(held := s.held.(onwrite := true, onclose := true)), during, postOk);
      if ret < 0 then Finish(s1, false, postOk) else s1
  }

  /** The posted closure for an empty file: headers and End without the pump. */
  function SendEmpty(s: Transfer, connected: bool, postOk: bool): Transfer
  {
    if !connected then Finish(s, false, postOk) else Finish(BeginEnd(s), true, postOk)
  }

  function Cleanup(s: Transfer): Transfer { s.(owns := false, held := s.held.(onwrite := false, onclose := false)) }

  /** The destructor's safety net, for a state that has its ledger and its callback. */
  function Destruct(s: Transfer): Transfer
  {
    if s.finished || !s.wired then s.(held := s.held.(destroyed := true))
    else s.(held := s.held.(destroyed := true),
        log := s.log.(ended := s.log.ended + [false], completed := s.log.completed + [false]))
  }

  /** A writer nobody holds is gone with its callbacks; a state nobody holds is destroyed. */
  function Settle(s: Transfer): Transfer
  {
    var s1 := if s.owns || s.held.heldByServer then s else s.(held := s.held.(onwrite := false, onclose := false));
    if s1.held.destroyed || s1.held.onwrite || s1.held.onclose || s1.held.startPosted || s1.held.cleanupPosted
    then s1
    else Destruct(s1)
  }

  /** What send() meets before and when it posts its first event. */
  datatype SendEnv = SendEnv(hasWriter: bool, hasLoop: bool, fileOpens: bool, seekWorks: bool, postOk: bool,
      cleanupPostOk: bool)

  /** The state as it is constructed, for the slice it is to send. */
  function Unset(p: Params, file: string): Transfer
  {
    Transfer(Job(file, p.Start(), p.Len()), 0, 0, false, false, false, false, false,
             Holders(false, false, false, false, true, false), Log(false, "", false, 0, 0, [], [], 0))
  }

  /** Whether send() gets past its early errors and takes the response over. */
  predicate HandsOver(p: Params, env: SendEnv)
  {
    env.hasWriter && env.hasLoop && env.fileOpens && (p.IsRange() ==> env.seekWorks)
  }

  /** The error callback of an early return. */
  function Complain(s: Transfer): Transfer { s.(log := s.log.(completed := s.log.completed + [false])) }

  /** send(). Without a writer it makes no state; on the later errors it leaves the state it has made
      to the destructor, before it has given it ledger and callback. */
  function Send(p: Params, file: string, env: SendEnv): Transfer
  {
    var s := Unset(p, file);
    if !env.hasWriter || !env.hasLoop then Complain(s).(held := s.held.(destroyed := true))
    else if !HandsOver(p, env) then Destruct(Complain(s))
    else
      var s1 := s.(remaining := p.Len(), pos := p.Start(), owns := true, wired := true,
          log := s.log.(started := 1, handoff := true));
      if env.postOk then s1.(held := s1.held.(startPosted := true))
          else Settle(Finish(s1, false, env.cleanupPostOk))
  }

  /** What happens later, on the IO loop. The server may drop its hold on the writer or take the
      callbacks out of it. */
  datatype Event =
    | RunStart(connected: bool, during: seq<HeaderReentry>, ret: int, postOk: bool)
    | RunCleanup
    | WriteEvent(turns: Turns, postOk: bool)
    | CloseEvent(postOk: bool)
    | ServerReleases
    | ServerClearsCallbacks

  predicate Enabled(s: Transfer, e: Event)
  {
    !s.held.destroyed &&
    match e
    case RunStart(_, _, _, _) => s.held.startPosted
    case RunCleanup => s.held.cleanupPosted
    case WriteEvent(_, _) => s.held.onwrite
    case CloseEvent(_) => s.held.onclose
    case ServerReleases => s.held.heldByServer
    case ServerClearsCallbacks => true
  }

  function Step(s: Transfer, e: Event): Transfer
  {
    match e
    case RunStart(connected, during, ret, postOk) =>
      var s1 := s.(held := s.held.(startPosted := false));
      Settle(if s.job.len == 0 then SendEmpty(s1, connected, postOk)
          else StartStreaming(s1, connected, during, ret, postOk))
    case RunCleanup => Settle(Cleanup(s.(held := s.held.(cleanupPosted := false))))
    case WriteEvent(turns, postOk) => Settle(Pump(s, turns, postOk))
    case CloseEvent(postOk) => Settle(Finish(s, false, postOk))
    case ServerReleases => Settle(s.(held := s.held.(heldByServer := false)))
    case ServerClearsCallbacks => Settle(s.(held := s.held.(onwrite := false, onclose := false)))
  }

  ghost predicate CanRun(s: Transfer, events: seq<Event>)
    decreases |events|
  {
    events == [] || (Enabled(s, events[0]) && CanRun(Step(s, events[0]), events[1..]))
  }

  ghost function Run(s: Transfer, events: seq<Event>): Transfer
    decreases |events|
  {
    if events == [] then s else Run(Step(s, events[0]), events[1..])
  }

  // ----- frames -----

  /** Finishing touches only the ledger, the callback, and the cleanup. */
  ghost predicate OnlyFinishes(s: Transfer, t: Transfer)
  {
    t == s.(finished := t.finished, cleanupScheduled := t.cleanupScheduled, owns := t.owns,
        held := s.held.(cleanupPosted := t.held.cleanupPosted),
        log := s.log.(ended := t.log.ended, completed := t.log.completed)) &&
    (s.finished ==> t == s)
  }

  lemma {:induction false} ReenterFrame(s: Transfer, rs: seq<Reentry>, postOk: bool)
    ensures OnlyFinishes(s, ReenterAll(s, rs, postOk))
    decreases |rs|
  {
    if rs != [] { ReenterFrame(Reenter(s, rs[0], postOk), rs[1..], postOk); }
  }

  // ----- invariant -----

  function Slice(file: string, a: int, b: int): string { if 0 <= a <= b <= |file| then file[a..b] else "" }

  /** The slice that a transfer works on is what was asked for. */
  lemma AskedIs(p: Params, file: string)
    ensures Askable(p, file) <==> p.Len() == 0 || (p.Len() > 0 && p.Start() + p.Len() <= |file|)
    ensures Askable(p, file) ==>
              |Asked(p, file)| == p.Len() && Asked(p, file) == Slice(file, p.Start(), p.Start() + p.Len())
  {
  }

  ghost predicate BytesInv(s: Transfer)
  {
    s.pos == s.job.start + (s.job.len - s.remaining) && s.remaining <= s.job.len &&
    (s.job.len >= 0 ==> s.remaining >= 0) &&
    (s.pos > s.job.start ==> s.pos <= |s.job.file|) &&
    s.log.written == Slice(s.job.file, s.job.start, s.pos) &&
    !s.log.bodyAfterFinish
  }

  ghost predicate LedgerInv(s: Transfer)
  {
    s.wired && s.log.started == 1 && s.log.ended == s.log.completed && |s.log.completed| <= 1 &&
    (|s.log.completed| == 1 <==> s.finished || s.held.destroyed) &&
    (true in s.log.completed ==> s.remaining == 0 && s.finished) &&
    (s.cleanupScheduled <==> s.finished) &&
    (s.held.cleanupPosted ==> s.cleanupScheduled) &&
    (s.finished && !s.held.cleanupPosted ==> !s.owns) &&
    (!s.finished && !s.held.destroyed ==> s.owns) &&
    (s.held.startPosted ==> !s.finished && !s.held.onwrite && !s.held.onclose)
  }

  ghost predicate EndsInv(s: Transfer)
  {
    s.log.ends <= 1 && (s.log.ends == 1 ==> s.finished && s.remaining == 0)
  }

  ghost predicate Inv(s: Transfer) { BytesInv(s) && LedgerInv(s) && EndsInv(s) }

  lemma FinishInv(s: Transfer, success: bool, postOk: bool)
    requires LedgerInv(s) && !s.held.destroyed && !s.held.startPosted
    requires success && !s.finished ==> s.remaining == 0
    ensures LedgerInv(Finish(s, success, postOk)) && Finish(s, success, postOk).finished
    ensures OnlyFinishes(s, Finish(s, success, postOk))
  {
  }

  /** The callbacks inside a writer call either change nothing or finish with failure. */
  lemma {:induction false} ReenterIs(s: Transfer, rs: seq<Reentry>, postOk: bool)
    ensures ReenterAll(s, rs, postOk) in {s, Finish(s, false, postOk)}
    decreases |rs|
  {
    if rs != [] {
      ReenterIs(Reenter(s, rs[0], postOk), rs[1..], postOk);
    }
  }

  lemma BodyInv(s: Transfer, got: nat)
    requires BytesInv(s) && !s.finished && 0 < got && s.pos + got <= |s.job.file| && got <= s.remaining
    ensures BytesInv(BeginBody(s, got))
  {
    if s.pos > s.job.start || s.pos == s.job.start {
      assert s.job.file[s.job.start..s.pos] + s.job.file[s.pos..s.pos + got] ==
          s.job.file[s.job.start..s.pos + got];
    }
  }

  ghost predicate SameHolders(s: Transfer, r: Transfer)
  {
    r.held.onwrite == s.held.onwrite && r.held.onclose == s.held.onclose &&
        r.held.startPosted == s.held.startPosted && r.log.handoff == s.log.handoff &&
    r.held.heldByServer == s.held.heldByServer && r.held.destroyed == s.held.destroyed && r.pumping == s.pumping &&
    r.job.len == s.job.len && r.job.file == s.job.file && r.job.start == s.job.start
  }

  lemma FinishKeeps(s: Transfer, success: bool, postOk: bool)
    requires Inv(s) && !s.held.destroyed && !s.held.startPosted
    requires success && !s.finished ==> s.remaining == 0
    ensures Inv(Finish(s, success, postOk)) && SameHolders(s, Finish(s, success, postOk))
  {
    FinishInv(s, success, postOk);
  }

  /** One round of the pump that hands a chunk to WriteBody. */
  lemma {:induction false} ChunkInv(s: Transfer, got: nat, t: Turn, postOk: bool)
    requires Inv(s) && !s.held.destroyed && !s.held.startPosted && !s.finished
    requires 0 < got && s.pos + got <= |s.job.file| && got <= s.remaining
    ensures s.job.len >= 0
    ensures var s1 := ReenterAll(BeginBody(s, got), t.during, postOk);
            Inv(s1) && SameHolders(s, s1) && s1.log.ends == 0 && s1.remaining == s.remaining - got
  {
    BodyInv(s, got);
    ReenterIs(BeginBody(s, got), t.during, postOk);
    FinishInv(BeginBody(s, got), false, postOk);
  }

  lemma {:induction false} EndInv(s: Transfer, rs: seq<Reentry>, postOk: bool)
    requires Inv(s) && !s.held.destroyed && !s.held.startPosted && s.log.ends == 0 && s.remaining == 0
    ensures var r := Finish(ReenterAll(BeginEnd(s), rs, postOk), true, postOk);
            Inv(r) && SameHolders(s, r)
  {
    var e := BeginEnd(s);
    ReenterIs(e, rs, postOk);
    FinishInv(e, false, postOk);
    FinishInv(e, true, postOk);
  }

  /** The pump keeps the bytes, the ledger and the single End, whatever the writer does. */
  lemma {:induction false} PumpLoopInv(s: Transfer, turns: Turns, i: nat, postOk: bool)
    requires Inv(s) && !s.held.destroyed && !s.held.startPosted
    ensures Inv(PumpLoop(s, turns, i, postOk)) && SameHolders(s, PumpLoop(s, turns, i, postOk))
    decreases if s.remaining > 0 then s.remaining else 0
  {
    hide Inv, Finish, ReenterAll, BeginBody, Got;
    var t := turns(i);
    var got := Got(s.job, s.pos, s.remaining, t.got);
    FinishKeeps(s, false, postOk);
    GotFits(s, t.got);
    if !s.finished && t.connected && t.drained && got > 0 {
      ChunkInv(s, got, t, postOk);
      var s1 := ReenterAll(BeginBody(s, got), t.during, postOk);
      NonNegative(s1);
      FinishKeeps(s1, false, postOk);
      if t.ret >= 0 {
        if s1.remaining <= 0 {
          EndInv(s1, t.duringEnd, postOk);
        } else {
          PumpLoopInv(s1, turns, i + 1, postOk);
        }
      }
    }
  }

  lemma GotFits(s: Transfer, want: int)
    ensures var got := Got(s.job, s.pos, s.remaining, want);
            got > 0 ==> s.pos + got <= |s.job.file| && got <= s.remaining
  {
  }

  /** A read delivers as much as it can of what it is asked for and the file has; one chunk is at most
      256 KB and at most what remains. */
  lemma ReadsMost(file: string, pos: nat, toRead: int, want: int, n: nat)
    ensures var r := ReadCount(file, pos, toRead, want);
            (r > 0 ==> r <= toRead && r <= want && pos + r <= |file|) &&
            (0 < n <= toRead && n <= want && pos + n <= |file| ==> n <= r)
  {
  }

  lemma ChunksMost(s: Transfer, want: int, n: nat)
    ensures var got := Got(s.job, s.pos, s.remaining, want);
            (got > 0 ==> got <= 262144 && got <= s.remaining && got <= want && s.pos + got <= |s.job.file|) &&
            (0 < n <= 262144 && n <= s.remaining && n <= want && s.pos + n <= |s.job.file| ==> n <= got)
  {
    ReadsMost(s.job.file, s.pos, if s.remaining < CHUNK_SIZE then s.remaining else CHUNK_SIZE, want, n);
    hide ReadCount;
  }

  lemma NonNegative(s: Transfer)
    requires Inv(s) && s.job.len >= 0
    ensures s.remaining >= 0
  {
  }

  lemma {:induction false} PumpKeeps(s: Transfer, turns: Turns, postOk: bool)
    requires Inv(s) && !s.held.destroyed && !s.held.startPosted
    ensures Inv(Pump(s, turns, postOk)) && SameHolders(s, Pump(s, turns, postOk))
  {
    if !s.finished && !s.pumping { PumpLoopInv(s.(pumping := true), turns, 0, postOk); }
  }

  lemma {:induction false} HeaderReenterKeeps(s: Transfer, rs: seq<HeaderReentry>, postOk: bool)
    requires Inv(s) && !s.held.destroyed && !s.held.startPosted
    ensures var r := HeaderReenterAll(s, rs, postOk); Inv(r) && SameHolders(s, r)
    decreases |rs|
  {
    if rs != [] {
      hide Inv, Pump, Finish;
      match rs[0] {
        case HeaderWrite(turns) => PumpKeeps(s, turns, postOk);
        case HeaderClose => FinishKeeps(s, false, postOk);
      }
      HeaderReenterKeeps(HeaderReenter(s, rs[0], postOk), rs[1..], postOk);
    }
  }

  ghost predicate SameJob(s: Transfer, r: Transfer)
  {
    r.job.file == s.job.file && r.job.start == s.job.start && r.job.len == s.job.len &&
        r.pumping == s.pumping && r.log.handoff == s.log.handoff
  }

  lemma SettleInv(s: Transfer)
    requires Inv(s) && !s.held.destroyed
    ensures Inv(Settle(s)) && SameJob(s, Settle(s))
  {
  }

  lemma {:induction false} StepInv(s: Transfer, e: Event)
    requires Inv(s) && Enabled(s, e)
    ensures Inv(Step(s, e)) && SameJob(s, Step(s, e))
  {
    match e
    case RunStart(connected, during, ret, postOk) =>
      var s1 := s.(held := s.held.(startPosted := false));
      if s.job.len == 0 {
        SendEmptyInv(s1, connected, postOk);
        SettleInv(SendEmpty(s1, connected, postOk));
      } else {
        StartInv(s1, connected, during, ret, postOk);
        SettleInv(StartStreaming(s1, connected, during, ret, postOk));
      }
    case RunCleanup => SettleInv(Cleanup(s.(held := s.held.(cleanupPosted := false))));
    case WriteEvent(turns, postOk) =>
      PumpKeeps(s, turns, postOk);
      SettleInv(Pump(s, turns, postOk));
    case CloseEvent(postOk) =>
      FinishKeeps(s, false, postOk);
      SettleInv(Finish(s, false, postOk));
    case ServerReleases => SettleInv(s.(held := s.held.(heldByServer := false)));
    case ServerClearsCallbacks => SettleInv(s.(held := s.held.(onwrite := false, onclose := false)));
  }

  lemma {:induction false} SendEmptyInv(s: Transfer, connected: bool, postOk: bool)
    requires Inv(s) && !s.held.destroyed && !s.held.startPosted && !s.finished && s.job.len == 0
    ensures var r := SendEmpty(s, connected, postOk); Inv(r) && SameHolders(s, r)
  {
    FinishInv(s, false, postOk);
    FinishInv(BeginEnd(s), true, postOk);
  }

  lemma {:induction false} StartInv(s: Transfer, connected: bool, during: seq<HeaderReentry>, ret: int,
      postOk: bool)
    requires Inv(s) && !s.held.destroyed && !s.held.startPosted
    ensures var r := StartStreaming(s, connected, during, ret, postOk); Inv(r) && SameJob(s, r) && !r.held.destroyed
  {
    FinishKeeps(s, false, postOk);
    var s2 := s.(held := s.held.(onwrite := true, onclose := true));
    HeaderReenterKeeps(s2, during, postOk);
    FinishKeeps(HeaderReenterAll(s2, during, postOk), false, postOk);
  }

  lemma {:induction false} RunInv(s: Transfer, events: seq<Event>)
    requires Inv(s) && CanRun(s, events)
    ensures Inv(Run(s, events)) && SameJob(s, Run(s, events))
    decreases |events|
  {
    if events != [] {
      StepInv(s, events[0]);
      RunInv(Step(s, events[0]), events[1..]);
    }
  }

  ghost predicate RefusedAtOnce(s: Transfer)
  {
    s.held.destroyed && s.log.completed == [false] && s.log.started == 0 && s.log.ended == [] &&
        s.log.ends == 0 && !s.log.handoff && !s.owns && s.log.written == ""
  }

  lemma {:induction false} SendInv(p: Params, file: string, env: SendEnv)
    ensures var s := Send(p, file, env);
            RefusedAtOnce(s) || (Inv(s) && s.log.handoff && !s.pumping)
  {
  }

  /** Exactly when send() takes over the response, and exactly when it then has a posted event. */
  lemma SendDecides(p: Params, file: string, env: SendEnv)
    ensures var s := Send(p, file, env);
            (s.log.handoff <==> HandsOver(p, env)) &&
            (HandsOver(p, env) <==> env.hasWriter && env.hasLoop && env.fileOpens &&
                                    (p.rangeStart < 0 || p.rangeEnd < 0 || env.seekWorks)) &&
            (s.log.handoff <==> s.log.started == 1) && (!s.log.handoff <==> RefusedAtOnce(s)) &&
            (s.held.startPosted <==> s.log.handoff && env.postOk) &&
            (s.log.completed == if s.held.startPosted then [] else [false])
  {
  }

  /** Whatever else is under way, a close that the transfer hears of finishes it with failure, unless it
      has finished before. */
  lemma CloseFails(s: Transfer, postOk: bool)
    requires Inv(s) && Enabled(s, CloseEvent(postOk))
    ensures var t := Step(s, CloseEvent(postOk));
            t.finished && t.log == s.log.(ended := t.log.ended, completed := t.log.completed) &&
            t.log.completed == t.log.ended == s.log.completed + if s.finished then [] else [false]
  {
  }

  /** When nobody holds the state any more it is destroyed, and an unfinished transfer then completes
      with failure. */
  lemma AbandonedFails(s: Transfer)
    requires Inv(s) && !s.held.destroyed && !s.held.startPosted && !s.held.cleanupPosted
    ensures Enabled(s, ServerClearsCallbacks)
    ensures var t := Step(s, ServerClearsCallbacks);
            t.held.destroyed && !t.held.onwrite && !t.held.onclose &&
            t.log.completed == t.log.ended == s.log.completed + if s.finished then [] else [false]
  {
  }

  /** An empty file is decided by the link alone. */
  lemma EmptyFileReports(p: Params, file: string, connected: bool, during: seq<HeaderReentry>, ret: int)
    requires p.Len() == 0
    ensures var t := Step(Send(p, file, SendEnv(true, true, true, true, true, true)),
                          RunStart(connected, during, ret, true));
            t.log.completed == [connected] && t.log.ends == (if connected then 1 else 0) && t.log.written == ""
  {
  }

  /** A dead link or refused headers finish the transfer; otherwise, unless the writer calls back at
      once, it waits for its write events with both callbacks set. */
  lemma HeadersDecide(s: Transfer, connected: bool, during: seq<HeaderReentry>, ret: int, postOk: bool)
    requires !s.finished
    ensures var r := StartStreaming(s, connected, during, ret, postOk);
            (!connected || ret < 0 ==> r.finished) &&
            (!connected ==> r.log.completed == s.log.completed + [false]) &&
            (connected && during == [] ==>
               r.held.onwrite && r.held.onclose && (r.finished <==> ret < 0) &&
               r.log.completed == if ret < 0 then s.log.completed + [false] else s.log.completed)
  {
  }

  /** The events that make the same callbacks from outside. */
  function AsEvents(rs: seq<HeaderReentry>, postOk: bool): seq<Event>
  {
    if rs == [] then []
    else
      [match rs[0] case HeaderWrite(turns) => WriteEvent(turns, postOk) case HeaderClose => CloseEvent(postOk)] +
      AsEvents(rs[1..], postOk)
  }

  /** While the server holds the writer, callbacks made inside EndHeaders amount to the same callbacks
      made one after another right after it. */
  lemma {:induction false} HeaderCallbacksAreEvents(s: Transfer, rs: seq<HeaderReentry>, postOk: bool)
    requires Inv(s) && !s.held.destroyed && !s.held.startPosted
    requires s.held.heldByServer && s.held.onwrite && s.held.onclose
    ensures CanRun(s, AsEvents(rs, postOk))
    ensures Run(s, AsEvents(rs, postOk)) == HeaderReenterAll(s, rs, postOk)
    decreases |rs|
  {
    if rs != [] {
      var e := match rs[0] case HeaderWrite(turns) => WriteEvent(turns, postOk) case HeaderClose => CloseEvent(postOk);
      assert AsEvents(rs, postOk)[0] == e && AsEvents(rs, postOk)[1..] == AsEvents(rs[1..], postOk);
      match rs[0] {
        case HeaderWrite(turns) => PumpKeeps(s, turns, postOk);
        case HeaderClose => FinishKeeps(s, false, postOk);
      }
      assert Step(s, e) == HeaderReenter(s, rs[0], postOk);
      hide Inv, Step, Pump, Finish, HeaderReenter;
      HeaderCallbacksAreEvents(HeaderReenter(s, rs[0], postOk), rs[1..], postOk);
    }
  }

  /** Accepted headers: the callbacks made inside EndHeaders decide where the transfer stands. */
  lemma {:induction false} HeadersThenEvents(s: Transfer, rs: seq<HeaderReentry>, ret: int, postOk: bool)
    requires Inv(s) && !s.held.destroyed && !s.held.startPosted && !s.finished && s.held.heldByServer && ret >= 0
    ensures var open := s.(held := s.held.(onwrite := true, onclose := true));
            CanRun(open, AsEvents(rs, postOk)) &&
            StartStreaming(s, true, rs, ret, postOk) == Run(open, AsEvents(rs, postOk))
  {
    HeaderCallbacksAreEvents(s.(held := s.held.(onwrite := true, onclose := true)), rs, postOk);
    hide Run, CanRun, HeaderReenterAll;
  }

  /** A write event reports what its pump reports: success exactly when its rounds send all that
      remains, else failure if it finished. */
  lemma {:induction false} WriteEventReports(s: Transfer, turns: Turns, postOk: bool)
    requires Inv(s) && Enabled(s, WriteEvent(turns, postOk)) && !s.finished && !s.pumping
    ensures var t := Step(s, WriteEvent(turns, postOk));
            var all := SendsAll(s.job, s.pos, s.remaining, turns, 0, s.held.onclose);
            t.log.completed == if all then [true] else if t.finished then [false] else []
  {
    PumpReportsExactly(s.(pumping := true), turns, 0, postOk);
    PumpKeeps(s, turns, postOk);
    hide PumpLoop, SendsAll;
  }

  // ----- the promises of a transfer, over every run -----

  /** The completion callback fires at most once, exactly once by the time the state is destroyed,
      and the ledger is closed exactly as often as it was opened. */
  lemma {:induction false} CompletesExactlyOnce(p: Params, file: string, env: SendEnv, events: seq<Event>)
    requires CanRun(Send(p, file, env), events)
    ensures var t := Run(Send(p, file, env), events);
            |t.log.completed| <= 1 && |t.log.ended| <= t.log.started <= 1 &&
            (t.held.destroyed ==> |t.log.completed| == 1 && |t.log.ended| == t.log.started) &&
            (t.finished ==> |t.log.completed| == 1 && |t.log.ended| == t.log.started)
  {
    SendInv(p, file, env);
    if !RefusedAtOnce(Send(p, file, env)) { RunInv(Send(p, file, env), events); }
  }

  /** Once finished and with no posted event left to run, the state no longer owns the writer; when
      the server lets go of it too, callbacks and state are gone. */
  lemma {:induction false} OwnershipCycleBroken(p: Params, file: string, env: SendEnv, events: seq<Event>)
    requires CanRun(Send(p, file, env), events)
    ensures var t := Run(Send(p, file, env), events);
            (t.finished && !t.held.startPosted && !t.held.cleanupPosted ==> !t.owns) &&
            (t.finished && !t.held.startPosted && !t.held.cleanupPosted &&
             t.held.heldByServer && !t.held.destroyed ==>
               Step(t, ServerReleases).held.destroyed)
  {
    SendInv(p, file, env);
    if !RefusedAtOnce(Send(p, file, env)) { RunInv(Send(p, file, env), events); }
  }

  lemma {:induction false} InvMeansPrefix(t: Transfer)
    requires Inv(t)
    ensures t.log.written == Slice(t.job.file, t.job.start, t.job.start + |t.log.written|) &&
        !t.log.bodyAfterFinish && t.log.ends <= 1
    ensures t.job.len >= 0 ==> |t.log.written| == t.job.len - t.remaining <= t.job.len
    ensures true in t.log.completed ==>
        t.log.written == Slice(t.job.file, t.job.start, t.job.start + t.job.len) && |t.log.written| == t.job.len
  {
  }

  lemma SendJob(p: Params, file: string, env: SendEnv)
    ensures var s := Send(p, file, env); s.job.file == file && s.job.start == p.Start() && s.job.len == p.Len()
  {
  }

  /** The bytes given to WriteBody are a prefix of those asked for, all but the remaining ones, none is
      given once finished, the response is ended at most once, and reported success means that what
      was asked for is in the file and was given whole. */
  lemma {:induction false} WritesThePrefix(p: Params, file: string, env: SendEnv, events: seq<Event>)
    requires CanRun(Send(p, file, env), events)
    ensures var t := Run(Send(p, file, env), events);
            t.log.written == Slice(file, p.Start(), p.Start() + |t.log.written|) &&
            (t.log.started == 1 && p.Len() >= 0 ==> |t.log.written| == p.Len() - t.remaining <= p.Len()) &&
            !t.log.bodyAfterFinish && t.log.ends <= 1 &&
            (true in t.log.completed ==>
               t.log.written == Slice(file, p.Start(), p.Start() + p.Len()) && |t.log.written| == p.Len()) &&
            (true in t.log.completed ==> Askable(p, file) && t.log.written == Asked(p, file)) &&
            (Askable(p, file) ==> t.log.written <= Asked(p, file))
  {
    var s := Send(p, file, env);
    AskedIs(p, file);
    SendInv(p, file, env);
    SendJob(p, file, env);
    if RefusedAtOnce(s) {
      assert events == [];
    } else {
      RunInv(s, events);
      InvMeansPrefix(Run(s, events));
      WrittenIsAsked(p, file, Run(s, events).log.written);
    }
    hide Send, Inv, Run, CanRun, Slice, Askable, Asked;
  }

  lemma WrittenIsAsked(p: Params, file: string, written: string)
    requires written == Slice(file, p.Start(), p.Start() + |written|) && (p.Len() >= 0 ==> |written| <= p.Len())
    ensures Askable(p, file) ==> written <= Asked(p, file)
    ensures p.Len() == |written| ==> Askable(p, file) && written == Asked(p, file)
  {
  }

  /** An outermost pump that returns unfinished has, in its last round, found the link up and the
      write buffer undrained; each round before it wrote a chunk that the writer accepted. */
  lemma {:induction false} PumpStopsUndrained(s: Transfer, turns: Turns, i: nat, postOk: bool) returns (k: nat)
    ensures var r := PumpLoop(s, turns, i, postOk);
            !r.finished ==>
              k >= i && turns(k).connected && !turns(k).drained && k - i <= s.remaining - r.remaining &&
              forall j :: i <= j < k ==> turns(j).connected && turns(j).drained && turns(j).ret >= 0
    decreases if s.remaining > 0 then s.remaining else 0
  {
    k := i;
    var t := turns(i);
    var got := Got(s.job, s.pos, s.remaining, t.got);
    if !s.finished && t.connected && t.drained && got > 0 && t.ret >= 0 {
      var s1 := ReenterAll(BeginBody(s, got), t.during, postOk);
      ReenterFrame(BeginBody(s, got), t.during, postOk);
      if s1.remaining > 0 {
        k := PumpStopsUndrained(s1, turns, i + 1, postOk);
      }
    }
  }

  /** Ending the response reports success exactly when the state was not finished before and the
      connection does not call onclose from inside End. */
  lemma {:induction false} EndReportsExactly(s: Transfer, rs: seq<Reentry>, postOk: bool)
    ensures var r := Finish(ReenterAll(s, rs, postOk), true, postOk);
            r.log.completed ==
              if s.finished then s.log.completed else s.log.completed + [Quiet(rs, s.held.onclose)]
  {
    if s.finished { ReenterFrame(s, rs, postOk); } else { QuietIs(s, rs, postOk); }
  }

  /** The rounds from the i-th on send all that remains: each finds the link up, the buffer drained
      and data in the file, is accepted, and sees no close, and neither does the End after the last. */
  predicate SendsAll(job: Job, pos: nat, remaining: int, turns: Turns, i: nat, onclose: bool)
    decreases if remaining > 0 then remaining else 0
  {
    var t := turns(i);
    var got := Got(job, pos, remaining, t.got);
    t.connected && t.drained && got > 0 && t.ret >= 0 && Quiet(t.during, onclose) &&
    if got == remaining then Quiet(t.duringEnd, onclose)
    else SendsAll(job, pos + got, remaining - got, turns, i + 1, onclose)
  }

  /** No callback among them closes. */
  predicate Quiet(rs: seq<Reentry>, onclose: bool) { onclose ==> ReClose !in rs }

  lemma {:induction false} QuietIs(s: Transfer, rs: seq<Reentry>, postOk: bool)
    requires !s.finished
    ensures ReenterAll(s, rs, postOk) == if Quiet(rs, s.held.onclose) then s else Finish(s, false, postOk)
    decreases |rs|
  {
    if rs != [] {
      assert rs == [rs[0]] + rs[1..];
      if rs[0] == ReClose && s.held.onclose {
        ReenterFrame(Finish(s, false, postOk), rs[1..], postOk);
      } else {
        QuietIs(s, rs[1..], postOk);
      }
    }
  }

  /** A pump reports at most one outcome, and success exactly when its rounds send all that remains;
      then the response is ended and nothing remains. */
  lemma {:induction false} PumpReportsExactly(s: Transfer, turns: Turns, i: nat, postOk: bool)
    requires !s.finished
    ensures var r := PumpLoop(s, turns, i, postOk);
            (SendsAll(s.job, s.pos, s.remaining, turns, i, s.held.onclose) ==>
               r.log.completed == s.log.completed + [true] && r.remaining == 0 && r.log.ends == s.log.ends + 1) &&
            (!SendsAll(s.job, s.pos, s.remaining, turns, i, s.held.onclose) ==>
               r.log.completed == if r.finished then s.log.completed + [false] else s.log.completed)
    decreases if s.remaining > 0 then s.remaining else 0
  {
    hide Got, ReenterAll, Quiet;
    GotFits(s, turns(i).got);
    if turns(i).connected && turns(i).drained && Got(s.job, s.pos, s.remaining, turns(i).got) > 0 {
      PumpLoopOnce(s, turns, i, postOk);
      var b := BeginBody(s, Got(s.job, s.pos, s.remaining, turns(i).got));
      if turns(i).ret >= 0 && Quiet(turns(i).during, s.held.onclose) && b.remaining > 0 {
        PumpReportsExactly(b, turns, i + 1, postOk);
      }
    }
  }

  /** One round that writes, in terms of what the callbacks amount to. */
  lemma PumpLoopOnce(s: Transfer, turns: Turns, i: nat, postOk: bool)
    requires !s.finished && turns(i).connected && turns(i).drained
    requires Got(s.job, s.pos, s.remaining, turns(i).got) > 0
    ensures var t := turns(i);
            var b := BeginBody(s, Got(s.job, s.pos, s.remaining, t.got));
            var r := PumpLoop(s, turns, i, postOk);
            if t.ret < 0 then r == Finish(b, false, postOk)
            else if !Quiet(t.during, s.held.onclose) then
              r == if b.remaining <= 0 then BeginEnd(Finish(b, false, postOk)) else Finish(b, false, postOk)
            else if b.remaining <= 0 then
              r == Finish(BeginEnd(b), Quiet(t.duringEnd, s.held.onclose), postOk)
            else r == PumpLoop(b, turns, i + 1, postOk)
  {
    var t := turns(i);
    GotFits(s, t.got);
    var b := BeginBody(s, Got(s.job, s.pos, s.remaining, t.got));
    assert !b.finished && b.held == s.held;
    PumpUnfold(s, turns, i, postOk);
    hide Got, ReenterAll, Quiet, PumpLoop, BeginBody, BeginEnd, Finish;
    QuietIs(b, t.during, postOk);
    if Quiet(t.during, s.held.onclose) {
      EndedRound(b, t.duringEnd, postOk);
    } else {
      ClosedRound(b, turns, i + 1, t.duringEnd, postOk);
    }
  }

  /** Once the last chunk was accepted the whole of it was given and the response is ended, and the
      outcome is success if and only if no close came inside that WriteBody or that End. */
  lemma LastChunkReportsExactly(s: Transfer, turns: Turns, i: nat, postOk: bool)
    requires !s.finished && s.remaining > 0 && turns(i).connected && turns(i).drained && turns(i).ret >= 0
    requires Got(s.job, s.pos, s.remaining, turns(i).got) == s.remaining
    ensures var r := PumpLoop(s, turns, i, postOk);
            s.pos + s.remaining <= |s.job.file| && r.finished && r.remaining == 0 && r.log.ends == s.log.ends + 1 &&
            r.log.written == s.log.written + s.job.file[s.pos..s.pos + s.remaining] &&
            r.log.completed == s.log.completed +
              [Quiet(turns(i).during, s.held.onclose) && Quiet(turns(i).duringEnd, s.held.onclose)]
  {
    GotFits(s, turns(i).got);
    PumpLoopOnce(s, turns, i, postOk);
    hide Got, Quiet, PumpLoop;
  }

  lemma EndedRound(b: Transfer, rs: seq<Reentry>, postOk: bool)
    requires !b.finished
    ensures var e := BeginEnd(b);
            Finish(ReenterAll(e, rs, postOk), true, postOk) == Finish(e, Quiet(rs, b.held.onclose), postOk)
  {
    QuietIs(BeginEnd(b), rs, postOk);
    hide ReenterAll, Quiet;
  }

  /** Once closed, nothing but an End comes, and it changes no outcome. */
  lemma ClosedRound(b: Transfer, turns: Turns, i: nat, rs: seq<Reentry>, postOk: bool)
    requires !b.finished
    ensures var f := Finish(b, false, postOk);
            var e := BeginEnd(f);
            f.finished && f.remaining == b.remaining && Finish(f, false, postOk) == f &&
            PumpLoop(f, turns, i, postOk) == f && Finish(ReenterAll(e, rs, postOk), true, postOk) == e &&
            f.log.ends == b.log.ends
  {
    var f := Finish(b, false, postOk);
    ReenterFrame(BeginEnd(f), rs, postOk);
    hide ReenterAll;
  }

  lemma PumpUnfold(s: Transfer, turns: Turns, i: nat, postOk: bool)
    requires !s.finished && turns(i).connected && turns(i).drained
    requires Got(s.job, s.pos, s.remaining, turns(i).got) > 0
    ensures var t := turns(i);
            var s1 := ReenterAll(BeginBody(s, Got(s.job, s.pos, s.remaining, t.got)), t.during, postOk);
            PumpLoop(s, turns, i, postOk) ==
              if t.ret < 0 then Finish(s1, false, postOk)
              else if s1.remaining > 0 then PumpLoop(s1, turns, i + 1, postOk)
              else Finish(ReenterAll(BeginEnd(s1), t.duringEnd, postOk), true, postOk)
  {
    GotFits(s, turns(i).got);
    hide Got, ReenterAll, BeginBody, Finish;
  }

  /** The rounds from the i-th on send all that remains, with a close inside the last WriteBody and
      none before. */
  predicate ClosedInLastBody(job: Job, pos: nat, remaining: int, turns: Turns, i: nat, onclose: bool)
    decreases if remaining > 0 then remaining else 0
  {
    var t := turns(i);
    var got := Got(job, pos, remaining, t.got);
    t.connected && t.drained && got > 0 && t.ret >= 0 &&
    if got == remaining then !Quiet(t.during, onclose)
    else Quiet(t.during, onclose) && ClosedInLastBody(job, pos + got, remaining - got, turns, i + 1, onclose)
  }

  /** A pump calls a writer that nobody holds if and only if the server has let go of it, the cleanup
      could not be posted, and the close came inside the last WriteBody: End is that call. */
  lemma {:induction false} PumpUnheldExactly(s: Transfer, turns: Turns, i: nat, postOk: bool)
    requires !s.finished && !s.cleanupScheduled && s.owns
    ensures PumpLoop(s, turns, i, postOk).log.unheld ==
            s.log.unheld + if !s.held.heldByServer && !postOk &&
                              ClosedInLastBody(s.job, s.pos, s.remaining, turns, i, s.held.onclose) then 1 else 0
    decreases if s.remaining > 0 then s.remaining else 0
  {
    GotFits(s, turns(i).got);
    hide Got, ReenterAll, Quiet;
    if turns(i).connected && turns(i).drained && Got(s.job, s.pos, s.remaining, turns(i).got) > 0 {
      PumpLoopOnce(s, turns, i, postOk);
      var b := BeginBody(s, Got(s.job, s.pos, s.remaining, turns(i).got));
      if turns(i).ret >= 0 && Quiet(turns(i).during, s.held.onclose) && b.remaining > 0 {
        PumpUnheldExactly(b, turns, i + 1, postOk);
      }
      hide PumpLoop;
    }
  }

  /** Whether every cleanup of the event could be posted. */
  predicate PostsCleanup(e: Event)
  {
    match e
    case RunStart(_, _, _, postOk) => postOk
    case WriteEvent(_, postOk) => postOk
    case CloseEvent(postOk) => postOk
    case _ => true
  }

  lemma PumpHeld(s: Transfer, turns: Turns)
    requires Inv(s) && !s.held.destroyed && s.log.unheld == 0
    ensures Pump(s, turns, true).log.unheld == 0
  {
    if !s.finished && !s.pumping { PumpUnheldExactly(s.(pumping := true), turns, 0, true); }
    hide PumpLoop;
  }

  lemma {:induction false} HeaderReenterHeld(s: Transfer, rs: seq<HeaderReentry>)
    requires Inv(s) && !s.held.destroyed && !s.held.startPosted && s.log.unheld == 0
    ensures HeaderReenterAll(s, rs, true).log.unheld == 0
    decreases |rs|
  {
    if rs != [] {
      hide Inv, Pump;
      match rs[0] {
        case HeaderWrite(turns) =>
          PumpHeld(s, turns);
          PumpKeeps(s, turns, true);
        case HeaderClose => FinishKeeps(s, false, true);
      }
      HeaderReenterHeld(HeaderReenter(s, rs[0], true), rs[1..]);
    }
  }

  lemma {:induction false} StepHeld(s: Transfer, e: Event)
    requires Inv(s) && Enabled(s, e) && PostsCleanup(e) && s.log.unheld == 0
    ensures Step(s, e).log.unheld == 0
  {
    match e {
      case RunStart(connected, during, ret, postOk) =>
        var s1 := s.(held := s.held.(startPosted := false));
        StartHeld(s1, connected, during, ret);
        hide StartStreaming, Inv;
      case WriteEvent(turns, postOk) =>
        PumpHeld(s, turns);
        hide Pump, Inv;
      case _ =>
    }
  }

  lemma {:induction false} StartHeld(s: Transfer, connected: bool, during: seq<HeaderReentry>, ret: int)
    requires Inv(s) && !s.held.destroyed && !s.held.startPosted && s.log.unheld == 0
    ensures StartStreaming(s, connected, during, ret, true).log.unheld == 0
    ensures !s.finished ==> SendEmpty(s, connected, true).log.unheld == 0
  {
    HeaderReenterHeld(s.(held := s.held.(onwrite := true, onclose := true)), during);
    hide HeaderReenterAll;
  }

  lemma {:induction false} RunHeld(s: Transfer, events: seq<Event>)
    requires Inv(s) && CanRun(s, events) && s.log.unheld == 0
    requires forall i :: 0 <= i < |events| ==> PostsCleanup(events[i])
    ensures Run(s, events).log.unheld == 0
    decreases |events|
  {
    if events != [] {
      StepInv(s, events[0]);
      StepHeld(s, events[0]);
      hide Inv, Step, Enabled;
      RunHeld(Step(s, events[0]), events[1..]);
    }
  }

  /** Over every run in which posting works, WriteBody and End are only called on a writer that the
      state or the server holds. */
  lemma {:induction false} WriterCallsAreHeld(p: Params, file: string, env: SendEnv, events: seq<Event>)
    requires CanRun(Send(p, file, env), events)
    requires forall i :: 0 <= i < |events| ==> PostsCleanup(events[i])
    ensures Run(Send(p, file, env), events).log.unheld == 0
  {
    var s := Send(p, file, env);
    SendInv(p, file, env);
    assert s.log.unheld == 0;
    hide Send;
    if !RefusedAtOnce(s) { RunHeld(s, events); }
  }

  /** On a connection that stays up, drains and takes everything, whatever is asked for and not empty
      is sent whole and reported so, and afterwards nothing is held. */
  lemma {:induction false} GoodConnectionSucceeds(p: Params, file: string, turns: Turns)
    requires Askable(p, file) && Asked(p, file) != ""
    requires forall n :: turns(n) == Turn(true, true, CHUNK_SIZE, [], 0, [])
    ensures var s := Send(p, file, SendEnv(true, true, true, true, true, true));
            var events := [RunStart(true, [], 0, true), WriteEvent(turns, true), RunCleanup];
            CanRun(s, events) &&
            var t := Run(s, events);
            t.log.completed == t.log.ended == [true] && t.log.ends == 1 && t.held.destroyed && !t.owns &&
            t.log.written == Asked(p, file)
  {
    AskedIs(p, file);
    hide Askable, Asked;
    var s := Send(p, file, SendEnv(true, true, true, true, true, true));
    var e1, e2 := RunStart(true, [], 0, true), WriteEvent(turns, true);
    SendInv(p, file, SendEnv(true, true, true, true, true, true));
    var s1 := Step(s, e1);
    StepInv(s, e1);
    assert s1 == s.(held := s.held.(startPosted := false, onwrite := true, onclose := true));
    GoodRounds(s1.job, s1.pos, s1.remaining, turns, 0);
    PumpReportsExactly(s1.(pumping := true), turns, 0, true);
    PumpKeeps(s1, turns, true);
    CleanupIsPosted(s1.(pumping := true), turns, 0);
    hide PumpLoop, SendsAll;
    var s2 := Step(s1, e2);
    InvMeansPrefix(Pump(s1, turns, true));
    Released(s2);
    ThreeSteps(s, e1, e2, RunCleanup);
  }

  /** A finished state is gone, with its hold on the writer, once its cleanup has run. */
  lemma Released(s: Transfer)
    requires s.finished && s.held.cleanupPosted && !s.held.startPosted && !s.held.destroyed
    ensures Enabled(s, RunCleanup)
    ensures var t := Step(s, RunCleanup); t.held.destroyed && !t.owns && t.log == s.log
  {
  }

  lemma {:induction false} GoodRounds(job: Job, pos: nat, remaining: int, turns: Turns, i: nat)
    requires 0 < remaining && pos + remaining <= |job.file|
    requires forall n :: turns(n) == Turn(true, true, CHUNK_SIZE, [], 0, [])
    ensures SendsAll(job, pos, remaining, turns, i, true)
    decreases remaining
  {
    var got := Got(job, pos, remaining, CHUNK_SIZE);
    if got < remaining { GoodRounds(job, pos + got, remaining - got, turns, i + 1); }
  }

  /** Whoever finishes while posting works leaves a cleanup posted. */
  lemma {:induction false} CleanupIsPosted(s: Transfer, turns: Turns, i: nat)
    requires !s.finished && !s.cleanupScheduled
    ensures var r := PumpLoop(s, turns, i, true); r.finished ==> r.held.cleanupPosted
    decreases if s.remaining > 0 then s.remaining else 0
  {
    hide Got, ReenterAll, Quiet;
    GotFits(s, turns(i).got);
    if turns(i).connected && turns(i).drained && Got(s.job, s.pos, s.remaining, turns(i).got) > 0 {
      PumpLoopOnce(s, turns, i, true);
      var b := BeginBody(s, Got(s.job, s.pos, s.remaining, turns(i).got));
      if turns(i).ret >= 0 && Quiet(turns(i).during, s.held.onclose) && b.remaining > 0 {
        CleanupIsPosted(b, turns, i + 1);
      }
    }
  }

  lemma ThreeSteps(s: Transfer, a: Event, b: Event, c: Event)
    requires Enabled(s, a) && Enabled(Step(s, a), b) && Enabled(Step(Step(s, a), b), c)
    ensures CanRun(s, [a, b, c]) && Run(s, [a, b, c]) == Step(Step(Step(s, a), b), c)
  {
    hide Step, Enabled;
    var s1 := Step(s, a);
    var s2 := Step(s1, b);
    assert [a, b, c][1..] == [b, c] && [b, c][1..] == [c] && [c][1..] == [];
    assert CanRun(s2, [c]) && Run(s2, [c]) == Step(s2, c);
    assert CanRun(s1, [b, c]) && Run(s1, [b, c]) == Step(s2, c);
  }

  /** So a failure can be reported although the whole slice was written and the response ended, by a
      close inside End as well as by one inside the last WriteBody. */
  lemma FailureAfterWholeSlice(inEnd: bool)
    ensures var s := Send(Params(1, -1, -1), "x", SendEnv(true, true, true, true, true, true));
            var events := ClosingRun(inEnd);
            CanRun(s, events) &&
            var t := Run(s, events);
            t.log.written == "x" && t.log.ends == 1 && t.log.completed == [false]
  {
    var s := Send(Params(1, -1, -1), "x", SendEnv(true, true, true, true, true, true));
    var s1 := s.(held := s.held.(startPosted := false, onwrite := true, onclose := true));
    assert Step(s, RunStart(true, [], 0, true)) == s1;
    ClosingChunk(s1, inEnd);
    hide Step;
    TwoSteps(s, RunStart(true, [], 0, true), WriteEvent(ClosingTurns(inEnd), true));
  }

  lemma ClosingChunk(s: Transfer, inEnd: bool)
    requires !s.finished && !s.pumping && s.held.onclose && s.remaining == 1 && s.pos == 0 && s.job.file == "x"
    requires s.log.written == "" && s.log.ends == 0 && s.log.completed == []
    ensures var t := Step(s, WriteEvent(ClosingTurns(inEnd), true));
            t.log.written == "x" && t.log.ends == 1 && t.log.completed == [false]
  {
    var turns := ClosingTurns(inEnd);
    var t := turns(0);
    assert t.connected && t.drained && t.got == 1 && t.ret >= 0;
    assert !(Quiet(t.during, true) && Quiet(t.duringEnd, true)) by {
      assert [ReClose][0] == ReClose;
    }
    hide ClosingTurns;
    assert Got(s.job, 0, 1, t.got) == 1;
    var p := s.(pumping := true);
    LastChunkReportsExactly(p, turns, 0, true);
    assert "" + s.job.file[0..1] == "x";
    hide PumpLoop, Got, Quiet;
    SettleLog(Pump(s, turns, true));
    hide Settle;
  }

  lemma SettleLog(s: Transfer)
    requires s.finished
    ensures Settle(s).log == s.log
  {
  }

  /** With the server gone and no cleanup posted, a close inside the last WriteBody makes the pump end
      the response on a writer that nobody holds. */
  lemma UnheldEnd()
    ensures var s := Send(Params(1, -1, -1), "x", SendEnv(true, true, true, true, true, true));
            var events := [RunStart(true, [], 0, true), ServerReleases, WriteEvent(ClosingTurns(false), false)];
            CanRun(s, events) && Run(s, events).log.unheld == 1
  {
    var s := Send(Params(1, -1, -1), "x", SendEnv(true, true, true, true, true, true));
    var s1 := s.(held := s.held.(startPosted := false, onwrite := true, onclose := true));
    assert Step(s, RunStart(true, [], 0, true)) == s1;
    var s2 := s1.(held := s1.held.(heldByServer := false));
    assert Step(s1, ServerReleases) == s2;
    UnheldChunk(s2);
    hide Step;
    ThreeSteps(s, RunStart(true, [], 0, true), ServerReleases, WriteEvent(ClosingTurns(false), false));
  }

  lemma UnheldChunk(s: Transfer)
    requires !s.finished && !s.pumping && !s.cleanupScheduled && s.owns && !s.held.heldByServer && s.held.onclose
    requires s.remaining == 1 && s.pos == 0 && s.job.file == "x" && s.log.unheld == 0
    ensures Step(s, WriteEvent(ClosingTurns(false), false)).log.unheld == 1
  {
    var turns := ClosingTurns(false);
    assert [ReClose][0] == ReClose;
    assert Got(s.job, 0, 1, 1) == 1;
    assert ClosedInLastBody(s.job, 0, 1, turns, 0, true);
    PumpUnheldExactly(s.(pumping := true), turns, 0, false);
    hide PumpLoop, Got, ClosedInLastBody, ClosingTurns;
    SettleUnheld(Pump(s, turns, false));
    hide Settle;
  }

  lemma SettleUnheld(s: Transfer)
    ensures Settle(s).log.unheld == s.log.unheld
  {
  }

  lemma TwoSteps(s: Transfer, a: Event, b: Event)
    requires Enabled(s, a) && Enabled(Step(s, a), b)
    ensures CanRun(s, [a, b]) && Run(s, [a, b]) == Step(Step(s, a), b)
  {
    hide Step, Enabled;
    var s1 := Step(s, a);
    assert [a, b][1..] == [b] && [b][1..] == [];
    assert CanRun(s1, [b]) && Run(s1, [b]) == Step(s1, b);
  }

  /** A link that takes everything and closes inside WriteBody or inside End. */
  function ClosingTurns(inEnd: bool): Turns
  {
    n => Turn(true, true, 1, if inEnd then [] else [ReClose], 0, if inEnd then [ReClose] else [])
  }

  function ClosingRun(inEnd: bool): seq<Event> { [RunStart(true, [], 0, true), WriteEvent(ClosingTurns(inEnd), true)] }

  // ----- which transfers can end the response -----

  /** What can be told before send() is called: it gets past its errors, can post its event, and what
      is asked for is in the file. */
  predicate CanEnd(p: Params, file: string, env: SendEnv)
  {
    env.hasWriter && env.hasLoop && env.fileOpens && (p.rangeStart >= 0 && p.rangeEnd >= 0 ==> env.seekWorks) &&
    env.postOk && Askable(p, file)
  }

  /** No event will ever start it. */
  ghost predicate Idle(s: Transfer) { !s.held.startPosted && !s.held.onwrite && s.log.ends == 0 }

  /** A state that comes from this call of send(), at any later time. */
  ghost predicate ComesFrom(s: Transfer, p: Params, file: string, env: SendEnv)
  {
    if !HandsOver(p, env) then RefusedAtOnce(s)
    else
      Inv(s) && s.log.handoff && s.job == Job(file, p.Start(), p.Len()) && (!env.postOk ==> Idle(s))
  }

  lemma SendComesFrom(p: Params, file: string, env: SendEnv)
    ensures ComesFrom(Send(p, file, env), p, file, env)
  {
  }

  lemma IdleStays(s: Transfer, e: Event)
    requires Idle(s) && Enabled(s, e)
    ensures Idle(Step(s, e))
  {
  }

  lemma {:induction false} StepComesFrom(s: Transfer, e: Event, p: Params, file: string, env: SendEnv)
    requires ComesFrom(s, p, file, env) && Enabled(s, e)
    ensures ComesFrom(Step(s, e), p, file, env)
  {
    StepInv(s, e);
    if Idle(s) { IdleStays(s, e); }
    hide Inv, Step, Idle;
  }

  lemma {:induction false} RunComesFrom(s: Transfer, events: seq<Event>, p: Params, file: string, env: SendEnv)
    requires ComesFrom(s, p, file, env) && CanRun(s, events)
    ensures ComesFrom(Run(s, events), p, file, env)
    decreases |events|
  {
    if events != [] {
      StepComesFrom(s, events[0], p, file, env);
      hide ComesFrom, Step, Enabled;
      RunComesFrom(Step(s, events[0]), events[1..], p, file, env);
    }
  }

  lemma EndedMeansCanEnd(s: Transfer, p: Params, file: string, env: SendEnv)
    requires ComesFrom(s, p, file, env)
    ensures s.log.ends >= 1 ==> CanEnd(p, file, env)
    ensures s.log.ends <= 1 && (CanEnd(p, file, env) ==> s.log.handoff)
  {
    AskedIs(p, file);
  }

  /** The events of a connection on which everything works. */
  function GoodRun(p: Params): seq<Event>
  {
    var start := RunStart(true, [], 0, true);
    if p.Len() == 0 then [start]
    else [start, WriteEvent(n => Turn(true, true, CHUNK_SIZE, [], 0, []), true), RunCleanup]
  }

  lemma {:induction false} GoodRunEnds(p: Params, file: string, env: SendEnv)
    requires CanEnd(p, file, env)
    ensures CanRun(Send(p, file, env), GoodRun(p)) && Run(Send(p, file, env), GoodRun(p)).log.ends == 1
  {
    var all := SendEnv(true, true, true, true, true, true);
    AskedIs(p, file);
    assert Send(p, file, env) == Send(p, file, all);
    var s := Send(p, file, all);
    if p.Len() == 0 {
      EmptyFileReports(p, file, true, [], 0);
      assert s.held.startPosted && !s.held.destroyed;
      hide Send;
      var e := RunStart(true, [], 0, true);
      assert [e][1..] == [] && CanRun(Step(s, e), []) && Run(Step(s, e), []) == Step(s, e);
      hide Step;
      assert GoodRun(p) == [e];
    } else {
      var turns: Turns := n => Turn(true, true, CHUNK_SIZE, [], 0, []);
      hide Send, CanRun, Run;
      GoodConnectionSucceeds(p, file, turns);
      assert GoodRun(p) == [RunStart(true, [], 0, true), WriteEvent(turns, true), RunCleanup];
    }
  }

  ghost predicate SomeRunEnds(p: Params, file: string, env: SendEnv)
  {
    exists events :: CanRun(Send(p, file, env), events) && Run(Send(p, file, env), events).log.ends >= 1
  }

  /** Some run of the transfer ends the response if and only if that can be told beforehand. */
  lemma {:induction false} EndsExactly(p: Params, file: string, env: SendEnv)
    ensures SomeRunEnds(p, file, env) <==> CanEnd(p, file, env)
  {
    var s := Send(p, file, env);
    SendComesFrom(p, file, env);
    if CanEnd(p, file, env) { GoodRunEnds(p, file, env); }
    hide Send, ComesFrom, CanEnd;
    forall events | CanRun(s, events) && Run(s, events).log.ends >= 1 ensures CanEnd(p, file, env) {
      RunComesFrom(s, events, p, file, env);
      EndedMeansCanEnd(Run(s, events), p, file, env);
    }
  }

  // ----- the state object -----

  /** TransferState with its fields, its holders and its log. */
  class TransferState {
    var remaining: int
    var pos: nat
    var finished: bool
    var wired: bool
    var pumping: bool
    var cleanupScheduled: bool
    var owns: bool
    var job: Job
    var held: Holders
    var log: Log

    ghost function Snapshot(): Transfer
      reads this
    {
      Transfer(job, remaining, pos, wired, finished, pumping, cleanupScheduled, owns, held, log)
    }

    constructor (p: Params, file: string)
      ensures Snapshot() == Unset(p, file)
    {
      remaining, pos, wired, finished, pumping, cleanupScheduled, owns := 0, 0, false, false, false, false, false;
      job, held := Job(file, p.Start(), p.Len()), Holders(false, false, false, false, true, false);
      log := Log(false, "", false, 0, 0, [], [], 0);
    }

    /** The body of send(), from its first check to the posting of the first event. */
    method SendNow(p: Params, env: SendEnv)
      requires Snapshot() == Unset(p, job.file)
      modifies this
      ensures Snapshot() == Send(p, old(job.file), env)
    {
      if !env.hasWriter || !env.hasLoop {
        log := log.(completed := log.completed + [false]);
        held := held.(destroyed := true);
        return;
      }
      if !env.fileOpens {
        Refuse();
        return;
      }
      if p.IsRange() && !env.seekWorks {
        Refuse();
        return;
      }
      remaining := job.len;
      pos := job.start;
      owns := true;
      wired := true;
      log := log.(started := 1);
      log := log.(handoff := true);
      if env.postOk {
        held := held.(startPosted := true);
      } else {
        FinishNow(false, env.cleanupPostOk);
        SettleNow();
      }
    }

    /** An early error with a state made: the callback of the caller fires, and the destructor, which
        has neither ledger nor callback yet, adds nothing to that. */
    method Refuse()
      requires !wired
      modifies this
      ensures Snapshot() == Destruct(Complain(old(Snapshot())))
      ensures held.destroyed && log.completed == old(log.completed) + [false] && log.ended == old(log.ended)
    {
      log := log.(completed := log.completed + [false]);
      DestructNow();
    }

    method DestructNow()
      modifies this
      ensures Snapshot() == Destruct(old(Snapshot()))
    {
      if !finished {
        if wired { log := log.(ended := log.ended + [false]); }
        if wired { log := log.(completed := log.completed + [false]); }
      }
      held := held.(destroyed := true);
    }

    /** What the reference counts do once a step is over. */
    method SettleNow()
      modifies this
      ensures Snapshot() == Settle(old(Snapshot()))
    {
      if !owns && !held.heldByServer { held := held.(onwrite := false, onclose := false); }
      if !held.destroyed && !held.onwrite && !held.onclose && !held.startPosted && !held.cleanupPosted {
        DestructNow();
      }
    }

    method SendEmptyNow(connected: bool, postOk: bool)
      modifies this
      ensures Snapshot() == SendEmpty(old(Snapshot()), connected, postOk)
    {
      if !connected {
        FinishNow(false, postOk);
        return;
      }
      log := log.(ends := log.ends + 1, unheld := log.unheld + if owns || held.heldByServer then 0 else 1);
      FinishNow(true, postOk);
    }

    method ScheduleCleanupNow(postOk: bool)
      modifies this
      ensures Snapshot() == ScheduleCleanup(old(Snapshot()), postOk)
    {
      if cleanupScheduled { return; }
      cleanupScheduled := true;
      held := held.(cleanupPosted := postOk);
      if !postOk { owns := false; }
    }

    method FinishNow(success: bool, postOk: bool)
      modifies this
      ensures Snapshot() == Finish(old(Snapshot()), success, postOk)
    {
      if finished { return; }
      finished := true;
      log := log.(ended := log.ended + [success]);
      log := log.(completed := log.completed + [success]);
      ScheduleCleanupNow(postOk);
    }

    /** A writer call that runs the callbacks it is told to before it returns. */
    method CallBack(rs: seq<Reentry>, postOk: bool)
      requires pumping
      modifies this
      ensures Snapshot() == ReenterAll(old(Snapshot()), rs, postOk)
      decreases 0, 1
    {
      ghost var s0 := Snapshot();
      for k := 0 to |rs|
        invariant pumping
        invariant ReenterAll(Snapshot(), rs[k..], postOk) == ReenterAll(s0, rs, postOk)
      {
        assert rs[k..][1..] == rs[k + 1..];
        ghost var s := Snapshot();
        match rs[k] {
          case ReWrite => PumpNow(n => Turn(true, true, 1, [], 0, []), postOk);
          case ReClose => if held.onclose { FinishNow(false, postOk); }
        }
        assert Snapshot() == Reenter(s, rs[k], postOk);
      }
      assert rs[|rs|..] == [];
    }

    /** The accounting and the WriteBody call of one round; remaining is reduced before the call. */
    method WriteChunk(got: nat, during: seq<Reentry>, postOk: bool)
      requires pumping && pos + got <= |job.file|
      modifies this
      ensures Snapshot() == ReenterAll(BeginBody(old(Snapshot()), got), during, postOk)
      ensures pumping && remaining == old(remaining) - got
      decreases 0, 2
    {
      remaining := remaining - got;
      log := log.(written := log.written + job.file[pos..pos + got],
          bodyAfterFinish := log.bodyAfterFinish || finished,
          unheld := log.unheld + if owns || held.heldByServer then 0 else 1);
      pos := pos + got;
      ReenterFrame(Snapshot(), during, postOk);
      CallBack(during, postOk);
    }

    method EndNow(during: seq<Reentry>, postOk: bool)
      requires pumping
      modifies this
      ensures Snapshot() ==
          ReenterAll(BeginEnd(old(Snapshot())), during, postOk)
      ensures pumping
      decreases 0, 2
    {
      log := log.(ends := log.ends + 1, unheld := log.unheld + if owns || held.heldByServer then 0 else 1);
      ReenterFrame(Snapshot(), during, postOk);
      CallBack(during, postOk);
    }

    method PumpNow(turns: Turns, postOk: bool)
      modifies this
      ensures Snapshot() == Pump(old(Snapshot()), turns, postOk)
      decreases if pumping then 0 else 1, 0
    {
      if finished { return; }
      if pumping { return; }
      pumping := true;
      hide Finish, ReenterAll, BeginBody, BeginEnd, Got;
      ghost var s0 := Snapshot();
      var i := 0;
      while !finished
        invariant pumping
        invariant PumpLoop(Snapshot(), turns, i, postOk) == PumpLoop(s0, turns, 0, postOk)
        decreases !finished, remaining
      {
        var t := turns(i);
        if !t.connected {
          FinishNow(false, postOk);
          break;
        }
        if !t.drained { break; }
        var got := Got(job, pos, remaining, t.got);
        GotFits(Snapshot(), t.got);
        if got <= 0 {
          FinishNow(false, postOk);
          break;
        }
        WriteChunk(got, t.during, postOk);
        if t.ret < 0 {
          FinishNow(false, postOk);
          break;
        }
        if remaining <= 0 {
          EndNow(t.duringEnd, postOk);
          FinishNow(true, postOk);
          break;
        }
        i := i + 1;
      }
      assert Snapshot() == PumpLoop(s0, turns, 0, postOk);
      pumping := false;
    }

    method StartStreamingNow(connected: bool, during: seq<HeaderReentry>, ret: int, postOk: bool)
      modifies this
      ensures Snapshot() == StartStreaming(old(Snapshot()), connected, during, ret, postOk)
    {
      if finished { return; }
      if !connected {
        FinishNow(false, postOk);
        return;
      }
      held := held.(onwrite := true);
      held := held.(onclose := true);
      ghost var s1 := Snapshot();
      for k := 0 to |during|
        invariant HeaderReenterAll(Snapshot(), during[k..], postOk) == HeaderReenterAll(s1, during, postOk)
      {
        assert during[k..][1..] == during[k + 1..];
        match during[k] {
          case HeaderWrite(turns) => if held.onwrite { PumpNow(turns, postOk); }
          case HeaderClose => if held.onclose { FinishNow(false, postOk); }
        }
      }
      assert during[|during|..] == [];
      if ret < 0 { FinishNow(false, postOk); }
    }

    method RunCleanupNow()
      modifies this
      ensures Snapshot() == Cleanup(old(Snapshot()))
    {
      held := held.(onwrite := false, onclose := false);
      owns := false;
    }
  }
}
