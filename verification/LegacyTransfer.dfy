/** LegacyTransfer::send: the small-file path, the fallback without a writer, and the blocking chunk
    loop with backpressure polls, over any behaviour of file, link and handshakes. */
module LegacyTransfer {
  import opened StreamTransfer
  import TransferStats

  const STREAM_THRESHOLD := 4 * 1024 * 1024
  const STREAM_CHUNK_SIZE := 256 * 1024
  const BACKPRESSURE_THRESHOLD := 4 * 1024 * 1024
  const BACKPRESSURE_WAIT_MS := 10
  const BACKPRESSURE_TIMEOUT_MS := 60 * 1000

  /** A handshake that looks at the writer: Lost when runOnWriterLoopSync returned false, in which
      case the closure has not run and never will. */
  datatype Probe = Lost | Seen(pending: nat, connected: bool)

  datatype WriteResult = WriteLost | Wrote(ret: int, connectedAfter: bool)

  /** What one round of the chunk loop meets. */
  datatype Round = Round(probes: nat -> Probe, got: nat, fault: bool, write: WriteResult)

  type Rounds = nat -> Round

  datatype Drain = Drained | Disconnected | DrainTimedOut

  /** The wait for the socket buffer from its p-th probe on. */
  function WaitDrained(probes: nat -> Probe, p: nat): Drain
    decreases 6000 - p
  {
    match probes(p)
    case Lost => Disconnected
    case Seen(pending, connected) =>
      if !connected then Disconnected
      else if pending <= BACKPRESSURE_THRESHOLD then Drained
      else if (p + 1) * BACKPRESSURE_WAIT_MS >= BACKPRESSURE_TIMEOUT_MS then DrainTimedOut
      else WaitDrained(probes, p + 1)
  }

  /** The chunk that ifs.read delivers: at most a chunk, what remains, and what the file has. */
  function ChunkGot(file: string, pos: nat, remaining: nat, want: nat): nat
  {
    ReadCount(file, pos, if remaining < STREAM_CHUNK_SIZE then remaining else STREAM_CHUNK_SIZE, want)
  }

  /** Whether a round hands over its chunk and the writer takes it with the link still up. */
  predicate RoundAccepted(file: string, pos: nat, remaining: nat, r: Round)
  {
    WaitDrained(r.probes, 0).Drained? && ChunkGot(file, pos, remaining, r.got) > 0 &&
    r.write.Wrote? && r.write.ret >= 0 && r.write.connectedAfter
  }

  /** After a short read or a fault the stream is no longer good and the loop does not go on. */
  predicate StillGood(file: string, pos: nat, remaining: nat, r: Round)
  {
    !r.fault && ChunkGot(file, pos, remaining, r.got) ==
        if remaining < STREAM_CHUNK_SIZE then remaining else STREAM_CHUNK_SIZE
  }

  function RemainingAfter(file: string, start: nat, len: nat, rounds: Rounds, n: nat): (remaining: nat)
    ensures remaining <= len
  {
    if n == 0 then len
    else
      var r := RemainingAfter(file, start, len, rounds, n - 1);
      r - ChunkGot(file, start + (len - r), r, rounds(n - 1).got)
  }

  /** Round k finds bytes to send and is accepted. */
  predicate Accepts(file: string, start: nat, len: nat, rounds: Rounds, k: nat)
  {
    var r := RemainingAfter(file, start, len, rounds, k);
    r > 0 && RoundAccepted(file, start + (len - r), r, rounds(k))
  }

  predicate LeavesGood(file: string, start: nat, len: nat, rounds: Rounds, k: nat)
  {
    var r := RemainingAfter(file, start, len, rounds, k);
    StillGood(file, start + (len - r), r, rounds(k))
  }

  /** The first n rounds were all accepted, and each but the last left the stream good. */
  ghost predicate AcceptedRounds(file: string, start: nat, len: nat, rounds: Rounds, n: nat)
  {
    (forall k :: 0 <= k < n ==> Accepts(file, start, len, rounds, k)) &&
    forall k :: 0 <= k < n - 1 ==> LeavesGood(file, start, len, rounds, k)
  }

  /** The whole slice is accepted in some number of rounds. */
  ghost predicate WholeSliceAccepted(file: string, start: nat, len: nat, rounds: Rounds)
  {
    exists n: nat :: AcceptedRounds(file, start, len, rounds, n) && RemainingAfter(file, start, len, rounds, n) == 0
  }

  lemma SliceGrows(file: string, start: nat, pos: nat, more: string)
    requires start <= pos && more == Slice(file, pos, pos + |more|)
    requires |Slice(file, start, pos)| == pos - start
    ensures Slice(file, start, pos) + more == Slice(file, start, pos + |more|)
  {
  }

  lemma WholeNow(file: string, start: nat, len: nat, rounds: Rounds, n: nat)
    requires AcceptedRounds(file, start, len, rounds, n) && RemainingAfter(file, start, len, rounds, n) == 0
    ensures WholeSliceAccepted(file, start, len, rounds)
  {
  }

  /** After a round that is not accepted, or leaves the stream bad with bytes to go, nothing makes
      the slice whole. */
  lemma {:induction false} StuckIsFinal(file: string, start: nat, len: nat, rounds: Rounds, n: nat)
    requires AcceptedRounds(file, start, len, rounds, n) && RemainingAfter(file, start, len, rounds, n) > 0
    requires !Accepts(file, start, len, rounds, n) || (n > 0 && !LeavesGood(file, start, len, rounds, n - 1))
    ensures !WholeSliceAccepted(file, start, len, rounds)
  {
    forall m: nat | AcceptedRounds(file, start, len, rounds, m)
      ensures RemainingAfter(file, start, len, rounds, m) != 0
    {
      if m < n {
        assert Accepts(file, start, len, rounds, m);
        assert RemainingAfter(file, start, len, rounds, m) > 0;
      }
    }
    hide RoundAccepted, StillGood;
  }

  // ----- what the rounds have to be like -----

  /** The probe finds the link up and the socket buffer above 4 MB. */
  predicate Clogged(probe: Probe) { probe.Seen? && probe.connected && probe.pending > 4194304 }

  lemma {:induction false} DrainFrom(probes: nat -> Probe, p: nat, k: nat)
    requires p <= k < 6000 && forall q :: p <= q < k ==> Clogged(probes(q))
    ensures !Clogged(probes(k)) ==>
              WaitDrained(probes, p) ==
                if probes(k).Seen? && probes(k).connected && probes(k).pending <= 4194304 then Drained else Disconnected
    ensures k == 5999 && Clogged(probes(k)) ==> WaitDrained(probes, p) == DrainTimedOut
    decreases k - p
  {
    if p < k { DrainFrom(probes, p + 1, k); }
  }

  /** The wait ends at the first of 6000 probes that is not clogged, and times out without one. */
  lemma {:induction false} WaitEndsExactly(probes: nat -> Probe, k: nat)
    requires k < 6000 && forall q :: 0 <= q < k ==> Clogged(probes(q))
    ensures WaitDrained(probes, 0) == Drained && !Clogged(probes(k)) <==>
              probes(k).Seen? && probes(k).connected && probes(k).pending <= 4194304
    ensures k == 5999 ==> (WaitDrained(probes, 0) == DrainTimedOut <==> Clogged(probes(k)))
    ensures !Clogged(probes(k)) ==> WaitDrained(probes, 0) != DrainTimedOut
  {
    DrainFrom(probes, 0, k);
  }

  /** How many bytes the k-th round of a loop without failures has to send. */
  function Need(len: nat, k: nat): int { if len - k * 262144 < 262144 then len - k * 262144 else 262144 }

  /** The k-th round drains, reads in full what it has to, and its chunk is taken with the link up. */
  predicate RoundDoes(len: nat, rounds: Rounds, k: nat)
  {
    var r := rounds(k);
    WaitDrained(r.probes, 0).Drained? && r.got >= Need(len, k) && r.write.Wrote? && r.write.ret >= 0 &&
    r.write.connectedAfter && (Need(len, k + 1) > 0 ==> !r.fault)
  }

  ghost predicate AllRoundsDo(len: nat, rounds: Rounds)
  {
    forall k: nat :: Need(len, k) > 0 ==> RoundDoes(len, rounds, k)
  }

  /** A round is accepted and leaves the stream good for more, with all before it done in full. */
  lemma RoundExactly(file: string, start: nat, len: nat, rounds: Rounds, k: nat)
    requires RemainingAfter(file, start, len, rounds, k) == len - k * 262144 > 0 && start + len <= |file|
    ensures RoundDoes(len, rounds, k) ==>
              Accepts(file, start, len, rounds, k) &&
              RemainingAfter(file, start, len, rounds, k + 1) == len - k * 262144 - Need(len, k) &&
              (Need(len, k + 1) > 0 ==> LeavesGood(file, start, len, rounds, k))
    ensures Accepts(file, start, len, rounds, k) &&
            (if Need(len, k + 1) > 0 then LeavesGood(file, start, len, rounds, k)
             else RemainingAfter(file, start, len, rounds, k + 1) == 0) ==>
              RoundDoes(len, rounds, k) &&
              RemainingAfter(file, start, len, rounds, k + 1) == len - k * 262144 - Need(len, k)
  {
    hide WaitDrained;
  }

  lemma OneRoundMore(file: string, start: nat, len: nat, rounds: Rounds, k: nat)
    requires AcceptedRounds(file, start, len, rounds, k) && Accepts(file, start, len, rounds, k)
    requires k > 0 ==> LeavesGood(file, start, len, rounds, k - 1)
    ensures AcceptedRounds(file, start, len, rounds, k + 1)
  {
    hide Accepts, LeavesGood;
  }

  lemma RoundOf(file: string, start: nat, len: nat, rounds: Rounds, n: nat, k: nat)
    requires AcceptedRounds(file, start, len, rounds, n) && k < n
    ensures Accepts(file, start, len, rounds, k) && RemainingAfter(file, start, len, rounds, k) > 0
    ensures k + 1 < n ==> LeavesGood(file, start, len, rounds, k)
  {
    hide RoundAccepted, LeavesGood;
  }

  lemma {:induction false} RoundsMakeWhole(file: string, start: nat, len: nat, rounds: Rounds, k: nat)
    requires AllRoundsDo(len, rounds) && start + len <= |file| && AcceptedRounds(file, start, len, rounds, k)
    requires RemainingAfter(file, start, len, rounds, k) == if len > k * 262144 then len - k * 262144 else 0
    requires k > 0 && Need(len, k) > 0 ==> LeavesGood(file, start, len, rounds, k - 1)
    ensures WholeSliceAccepted(file, start, len, rounds)
    decreases RemainingAfter(file, start, len, rounds, k)
  {
    if RemainingAfter(file, start, len, rounds, k) == 0 {
      WholeNow(file, start, len, rounds, k);
    } else {
      assert Need(len, k) > 0 && RoundDoes(len, rounds, k);
      RoundExactly(file, start, len, rounds, k);
      hide RoundDoes, Accepts, LeavesGood, RemainingAfter, WholeSliceAccepted, AcceptedRounds, AllRoundsDo;
      OneRoundMore(file, start, len, rounds, k);
      RoundsMakeWhole(file, start, len, rounds, k + 1);
    }
  }

  /** One round of a whole slice does all it has to, when those before it did. */
  lemma WholeRoundDoes(file: string, start: nat, len: nat, rounds: Rounds, n: nat, k: nat)
    requires AcceptedRounds(file, start, len, rounds, n) && RemainingAfter(file, start, len, rounds, n) == 0
    requires start + len <= |file| && k < n && RemainingAfter(file, start, len, rounds, k) == len - k * 262144
    ensures RoundDoes(len, rounds, k) && len > k * 262144
    ensures RemainingAfter(file, start, len, rounds, k + 1) == len - k * 262144 - Need(len, k)
    ensures k + 1 < n <==> len > (k + 1) * 262144
  {
    hide RoundDoes, Accepts, LeavesGood, RemainingAfter, AcceptedRounds;
    RoundOf(file, start, len, rounds, n, k);
    if k + 1 < n { RoundOf(file, start, len, rounds, n, k + 1); }
    ChunkIsSmall(file, start, len, rounds, k);
    if k + 1 < n { FullChunk(file, start, len, rounds, k); }
    RoundExactly(file, start, len, rounds, k);
  }

  lemma FullChunk(file: string, start: nat, len: nat, rounds: Rounds, k: nat)
    requires LeavesGood(file, start, len, rounds, k)
    ensures var r := RemainingAfter(file, start, len, rounds, k);
            RemainingAfter(file, start, len, rounds, k + 1) == if r < 262144 then 0 else r - 262144
  {
  }

  lemma {:induction false} WholeRoundsDo(file: string, start: nat, len: nat, rounds: Rounds, n: nat, k: nat)
    requires AcceptedRounds(file, start, len, rounds, n) && RemainingAfter(file, start, len, rounds, n) == 0
    requires start + len <= |file| && 0 < len && k < n
    ensures RemainingAfter(file, start, len, rounds, k) == len - k * 262144
    ensures RoundDoes(len, rounds, k) && (k + 1 < n <==> len > (k + 1) * 262144)
  {
    hide RoundDoes, RemainingAfter, AcceptedRounds;
    if k > 0 {
      WholeRoundsDo(file, start, len, rounds, n, k - 1);
      WholeRoundDoes(file, start, len, rounds, n, k - 1);
    } else {
      NoneSent(file, start, len, rounds);
    }
    WholeRoundDoes(file, start, len, rounds, n, k);
  }

  lemma NoneSent(file: string, start: nat, len: nat, rounds: Rounds)
    ensures RemainingAfter(file, start, len, rounds, 0) == len
  {
  }

  lemma ChunkIsSmall(file: string, start: nat, len: nat, rounds: Rounds, k: nat)
    ensures RemainingAfter(file, start, len, rounds, k + 1) >= RemainingAfter(file, start, len, rounds, k) - 262144
    ensures RemainingAfter(file, start, len, rounds, k + 1) < RemainingAfter(file, start, len, rounds, k) ==>
              start + len - RemainingAfter(file, start, len, rounds, k + 1) <= |file|
  {
  }

  /** The whole slice is accepted exactly when it is in the file, every round that has something to send
      finds the buffer drained in time, reads its chunk in full and hands it over with the link up,
      and no round but the last leaves the stream faulty. */
  lemma {:induction false} WholeSliceExactly(file: string, start: nat, len: nat, rounds: Rounds)
    ensures WholeSliceAccepted(file, start, len, rounds) <==>
              len == 0 || (start + len <= |file| && AllRoundsDo(len, rounds))
  {
    if len == 0 {
      WholeNow(file, start, len, rounds, 0);
    } else {
      if start + len <= |file| && AllRoundsDo(len, rounds) { RoundsMakeWhole(file, start, len, rounds, 0); }
      if WholeSliceAccepted(file, start, len, rounds) {
        var n: nat :| AcceptedRounds(file, start, len, rounds, n) && RemainingAfter(file, start, len, rounds, n) == 0;
        assert Accepts(file, start, len, rounds, n - 1);
        ChunkIsSmall(file, start, len, rounds, n - 1);
        hide RoundDoes, RemainingAfter, AcceptedRounds, Accepts;
        WholeRoundsDo(file, start, len, rounds, n, n - 1);
        forall k: nat | Need(len, k) > 0 ensures RoundDoes(len, rounds, k) {
          assert k < n;
          WholeRoundsDo(file, start, len, rounds, n, k);
        }
      }
    }
  }

  method WaitForDrain(probes: nat -> Probe) returns (connected: bool, timedOut: bool)
    ensures WaitDrained(probes, 0) ==
        if timedOut then DrainTimedOut else if connected then Drained else Disconnected
  {
    var waitedMs := 0;
    timedOut := false;
    var p := 0;
    var probe := probes(0);
    if probe.Lost? { return false, false; }
    var pendingBytes: nat := probe.pending;
    connected := probe.connected;
    while pendingBytes > BACKPRESSURE_THRESHOLD && connected
      invariant waitedMs == p * BACKPRESSURE_WAIT_MS && waitedMs < BACKPRESSURE_TIMEOUT_MS
      invariant pendingBytes >= 0 && probes(p) == Seen(pendingBytes, connected)
      invariant WaitDrained(probes, p) == WaitDrained(probes, 0)
      decreases BACKPRESSURE_TIMEOUT_MS - waitedMs
    {
      waitedMs := waitedMs + BACKPRESSURE_WAIT_MS;
      if waitedMs >= BACKPRESSURE_TIMEOUT_MS {
        return connected, true;
      }
      p := p + 1;
      probe := probes(p);
      if probe.Lost? { return false, false; }
      pendingBytes, connected := probe.pending, probe.connected;
    }
  }

  /** One round: wait for the buffer, read, hand the chunk to writeBody, look at the link. */
  method OneRound(file: string, pos: nat, remaining: nat, round: Round)
    returns (accepted: bool, timedOut: bool, got: nat, handed: string)
    ensures accepted == RoundAccepted(file, pos, remaining, round)
    ensures timedOut == WaitDrained(round.probes, 0).DrainTimedOut?
    ensures accepted ==> !timedOut && 0 < got == |handed| == ChunkGot(file, pos, remaining, round.got)
    ensures handed == Slice(file, pos, pos + |handed|) && |handed| <= STREAM_CHUNK_SIZE && |handed| <= remaining
  {
    accepted, got, handed := false, 0, "";
    var connected;
    connected, timedOut := WaitForDrain(round.probes);
    hide WaitDrained;
    if timedOut || !connected { return; }
    got := ChunkGot(file, pos, remaining, round.got);
    if got <= 0 { return; }
    if round.write.WriteLost? { return; }
    handed := file[pos..pos + got];
    if round.write.ret < 0 || !round.write.connectedAfter { return; }
    accepted := true;
  }

  /** The chunk loop. given is everything handed to writeBody: a prefix of the slice that runs past
      the accepted bytes by at most the chunk that failed. It ends with nothing left exactly when
      the whole slice was accepted with the link up. */
  method StreamChunks(file: string, start: nat, len: nat, rounds: Rounds)
    returns (given: string, remaining: nat, timedOut: bool)
    ensures given == Slice(file, start, start + |given|) && len - remaining <= |given| <= len
    ensures |given| - (len - remaining) <= STREAM_CHUNK_SIZE
    ensures remaining == 0 && !timedOut <==> WholeSliceAccepted(file, start, len, rounds)
    ensures remaining <= len
  {
    given, remaining, timedOut := "", len, false;
    var good := true;
    var pos := start;
    var n := 0;
    hide RoundAccepted, StillGood, WaitDrained, ChunkGot, WholeSliceAccepted;
    while remaining > 0 && good
      invariant pos == start + (len - remaining) && remaining <= len && !timedOut
      invariant given == Slice(file, start, pos) && |given| == len - remaining
      invariant AcceptedRounds(file, start, len, rounds, n)
      invariant remaining == RemainingAfter(file, start, len, rounds, n)
      invariant good == (n == 0 || LeavesGood(file, start, len, rounds, n - 1))
      decreases remaining
    {
      var accepted, late, got, handed := OneRound(file, pos, remaining, rounds(n));
      timedOut := late;
      SliceGrows(file, start, pos, handed);
      given := given + handed;
      if !accepted {
        StuckIsFinal(file, start, len, rounds, n);
        return;
      }
      good := StillGood(file, pos, remaining, rounds(n));
      remaining := remaining - got;
      pos := pos + got;
      n := n + 1;
    }
    if remaining == 0 {
      WholeNow(file, start, len, rounds, n);
    } else {
      StuckIsFinal(file, start, len, rounds, n);
    }
  }

  datatype HeaderResult = HeaderLost | HeaderSent(ret: int)

  /** What send() meets outside the chunk loop; endRuns tells whether the closing handshake runs its
      closure, which ends the response. */
  datatype LegacyEnv = LegacyEnv(opens: bool, seekWorks: bool, smallGot: nat, hasWriter: bool, hasLoop: bool,
                                 header: HeaderResult, rounds: Rounds, endRuns: bool, ms: nat)

  /** A range whose end lies before its start asks for a buffer of negative length. */
  predicate ThrowsOnLength(p: Params, env: LegacyEnv)
  {
    p.IsRange() && p.Len() < 0 && env.opens && env.seekWorks
  }

  /** That is so exactly for the ranges that end before the byte in front of their start. */
  lemma NegativeLengthThrows(p: Params, env: LegacyEnv)
    ensures ThrowsOnLength(p, env) <==> 0 <= p.rangeEnd < p.rangeStart - 1 && env.opens && env.seekWorks
    ensures env.opens && env.seekWorks ==> ThrowsOnLength(Params(0, 5, 2), env)
  {
  }

  /** A range is read and sent whole exactly when the file opens and seeks, what is asked for is in it,
      and the read delivers all of it; any other small file is served. */
  lemma SmallSucceedsExactly(p: Params, file: string, env: LegacyEnv)
    ensures SmallSucceeds(p, file, env) <==>
              p.rangeStart < 0 || p.rangeEnd < 0 ||
              (env.opens && env.seekWorks && Askable(p, file) && env.smallGot >= |Asked(p, file)|)
  {
    AskedIs(p, file);
  }

  /** A large file gets as far as the chunk loop exactly when writer and loop are there, it opens and
      seeks to a range, and the headers were sent. */
  lemma StreamsExactly(p: Params, env: LegacyEnv)
    ensures Streams(p, env) <==>
              env.hasWriter && env.hasLoop && env.opens && (p.rangeStart < 0 || p.rangeEnd < 0 || env.seekWorks) &&
              env.header != HeaderLost && env.header.ret >= 0
  {
  }

  lemma ReadIsPart(file: string, pos: nat, toRead: int, want: nat)
    ensures ReadCount(file, pos, toRead, want) == toRead ==>
              toRead >= 0 && (toRead == 0 || pos + toRead <= |file|) &&
              |Slice(file, pos, pos + toRead)| == toRead
  {
  }

  /** The large file gets as far as the chunk loop. */
  predicate Streams(p: Params, env: LegacyEnv)
  {
    env.hasWriter && env.hasLoop && env.opens && (p.IsRange() ==> env.seekWorks) &&
    env.header.HeaderSent? && env.header.ret >= 0
  }

  /** When send() reports success: a range in full, a served file, the fallback without a writer,
      or the whole slice accepted by the writer. */
  ghost predicate Succeeds(p: Params, file: string, env: LegacyEnv)
  {
    if p.Len() < STREAM_THRESHOLD then SmallSucceeds(p, file, env)
    else !env.hasWriter || (Streams(p, env) && WholeSliceAccepted(file, p.Start(), p.Len(), env.rounds))
  }

  predicate SmallSucceeds(p: Params, file: string, env: LegacyEnv)
  {
    p.IsRange() ==>
      p.Len() >= 0 && env.opens && env.seekWorks &&
      ReadCount(file, p.Start(), p.Len(), env.smallGot) == p.Len()
  }

  /** Success in full: below 4 MB a range is read whole and anything else is served; from there on
      the writer is absent, or everything works up to the chunk loop and every round of that does. */
  lemma SucceedsExactly(p: Params, file: string, env: LegacyEnv)
    ensures var isRange := p.rangeStart >= 0 && p.rangeEnd >= 0;
            var len := if isRange then p.rangeEnd - p.rangeStart + 1 else p.fileSize;
            Succeeds(p, file, env) <==>
              if len < 4194304 then
                !isRange || (env.opens && env.seekWorks && Askable(p, file) && env.smallGot >= len)
              else
                !env.hasWriter ||
                (env.hasLoop && env.opens && (!isRange || env.seekWorks) && env.header != HeaderLost &&
                 env.header.ret >= 0 && Askable(p, file) && AllRoundsDo(len, env.rounds))
  {
    AskedIs(p, file);
    SmallSucceedsExactly(p, file, env);
    StreamsExactly(p, env);
    if p.Len() >= STREAM_THRESHOLD { WholeSliceExactly(file, p.Start(), p.Len(), env.rounds); }
    hide WholeSliceAccepted, AllRoundsDo, SmallSucceeds, Streams;
  }

  class LegacyTransfer {
    const stats: TransferStats.Stats
    var completed: seq<bool>
    var ends: nat

    constructor ()
      ensures stats.Valid() && fresh(stats) && completed == [] && ends == 0
    {
      stats := new TransferStats.Stats();
      completed, ends := [], 0;
    }

    /** One completion, the callback and the ledger told the same. */
    twostate predicate CompletedWith(success: bool, ms: nat)
      reads this, stats
    {
      stats.totalBytes == old(stats.totalBytes) && stats.totalDurationMs == old(stats.totalDurationMs) + ms &&
      stats.activeCount == old(stats.activeCount) - 1 && stats.totalCount == old(stats.totalCount) &&
      stats.ended == old(stats.ended) + [success] && completed == old(completed) + [success]
    }

    method Complete(success: bool, ms: nat)
      requires stats.Valid()
      modifies `completed, stats
      ensures stats.Valid() && CompletedWith(success, ms)
    {
      stats.RecordEnd(success, ms);
      completed := completed + [success];
    }

    /** The small-file path: a range is read in full or fails; any other file is served. */
    method SendSmall(p: Params, file: string, env: LegacyEnv) returns (threw: bool, given: string)
      requires stats.Valid() && p.Len() < STREAM_THRESHOLD
      modifies `completed, stats
      ensures stats.Valid() && (threw <==> ThrowsOnLength(p, env))
      ensures if threw then unchanged(this) && unchanged(stats) else CompletedWith(SmallSucceeds(p, file, env), env.ms)
      ensures given == Slice(file, p.Start(), p.Start() + |given|)
      ensures !threw && SmallSucceeds(p, file, env) && p.rangeStart >= 0 && p.rangeEnd >= 0 ==>
                |given| == p.Len() && Askable(p, file) && given == Asked(p, file)
    {
      AskedIs(p, file);
      SmallSucceedsExactly(p, file, env);
      threw, given := false, "";
      var success := false;
      ReadIsPart(file, p.Start(), p.Len(), env.smallGot);
      hide ReadCount;
      if p.IsRange() {
        if env.opens && env.seekWorks {
          if p.Len() < 0 {
            threw := true;
            return;
          }
          if ReadCount(file, p.Start(), p.Len(), env.smallGot) == p.Len() {
            given := Slice(file, p.Start(), p.Start() + p.Len());
            success := true;
          }
        }
      } else {
        success := true;
      }
      Complete(success, env.ms);
    }

    /** The chunk loop over what is asked for. */
    method ChunksOf(p: Params, file: string, rounds: Rounds) returns (given: string, remaining: nat, timedOut: bool)
      requires p.Len() > 0
      ensures given == Slice(file, p.Start(), p.Start() + |given|)
      ensures remaining == 0 && !timedOut <==> WholeSliceAccepted(file, p.Start(), p.Len(), rounds)
      ensures remaining == 0 && !timedOut ==> |given| == p.Len() && Askable(p, file) && given == Asked(p, file)
    {
      hide WholeSliceAccepted, Slice;
      given, remaining, timedOut := StreamChunks(file, p.Start(), p.Len(), rounds);
      WrittenIsAsked(p, file, given);
    }

    /** The large-file path through the writer. The response is ended after the chunk loop, whatever
        came of it, provided the closing handshake runs; the outcome does not depend on that. */
    method SendLarge(p: Params, file: string, env: LegacyEnv) returns (given: string)
      requires stats.Valid() && p.Len() >= STREAM_THRESHOLD
      modifies this, stats
      ensures stats.Valid()
      ensures CompletedWith(!env.hasWriter ||
                            (Streams(p, env) && WholeSliceAccepted(file, p.Start(), p.Len(), env.rounds)), env.ms)
      ensures ends == old(ends) + if Streams(p, env) && env.endRuns then 1 else 0
      ensures given == Slice(file, p.Start(), p.Start() + |given|)
      ensures Streams(p, env) && WholeSliceAccepted(file, p.Start(), p.Len(), env.rounds) ==>
                |given| == p.Len() && Askable(p, file) && given == Asked(p, file)
    {
      given := "";
      assert given == Slice(file, p.Start(), p.Start());
      hide WholeSliceAccepted, Slice, Askable, Asked;
      if !env.hasWriter {
        Complete(true, env.ms);
        return;
      }
      if !env.hasLoop || !env.opens || (p.IsRange() && !env.seekWorks) {
        Complete(false, env.ms);
        return;
      }
      if env.header.HeaderLost? || env.header.ret < 0 {
        Complete(false, env.ms);
        return;
      }
      var remaining, timedOut;
      given, remaining, timedOut := ChunksOf(p, file, env.rounds);
      if env.endRuns { ends := ends + 1; }
      Complete(remaining == 0 && !timedOut, env.ms);
    }

    /** send(). Unless the length is negative it completes once, with the callback and the ledger
        told the same; given is the range body, or what the chunk loop handed to the writer. */
    method Send(p: Params, file: string, env: LegacyEnv) returns (threw: bool, given: string)
      requires stats.Valid()
      modifies this, stats
      ensures stats.Valid() && stats.totalCount == old(stats.totalCount) + 1
      ensures threw <==> ThrowsOnLength(p, env)
      ensures stats.totalBytes == old(stats.totalBytes) + p.Len()
      ensures stats.totalDurationMs == old(stats.totalDurationMs) + if threw then 0 else env.ms
      ensures threw ==> stats.activeCount == old(stats.activeCount) + 1 && completed == old(completed)
      ensures !threw ==> stats.activeCount == old(stats.activeCount) &&
                         completed == old(completed) + [Succeeds(p, file, env)] &&
                         stats.ended == old(stats.ended) + [Succeeds(p, file, env)]
      ensures ends == old(ends) + if p.Len() >= STREAM_THRESHOLD && Streams(p, env) && env.endRuns then 1 else 0
      ensures given == Slice(file, p.Start(), p.Start() + |given|)
      ensures !threw && Succeeds(p, file, env) &&
              (if p.Len() < STREAM_THRESHOLD then p.rangeStart >= 0 && p.rangeEnd >= 0 else env.hasWriter) ==>
                |given| == p.Len() && Askable(p, file) && given == Asked(p, file)
    {
      hide WholeSliceAccepted, SmallSucceeds, Streams, ReadCount, Slice;
      var start, len := p.Start(), p.Len();
      stats.RecordStart(len);
      if len < STREAM_THRESHOLD {
        threw, given := SendSmall(p, file, env);
      } else {
        threw := false;
        given := SendLarge(p, file, env);
      }
    }
  }
}
