/** SnowflakeGenerator: 64-bit ids from a millisecond clock, two machine fields and a sequence. The
    clock is an arbitrary sequence of readings, consumed one per call of the system clock. */
module Snowflake {
  import opened Bits

  const EPOCH := 946684800000
  const MAX_SEQUENCE := 4095
  const MAX_WORKER_ID := 31
  const MAX_DATACENTER_ID := 31
  const TWO_TO_41 := 2199023255552

  type Clock = nat -> int

  datatype Gen = Gen(datacenterId: nat, workerId: nat, sequence: nat, last: int)

  ghost predicate ValidGen(g: Gen)
  {
    g.datacenterId <= MAX_DATACENTER_ID && g.workerId <= MAX_WORKER_ID && g.sequence <= MAX_SEQUENCE &&
    (g.last == -1 || EPOCH < g.last < EPOCH + TWO_TO_41)
  }

  /** The readings for which the timestamp field neither shifts a negative number nor overflows. */
  ghost predicate InRange(clock: Clock) { forall i :: EPOCH < clock(i) < EPOCH + TWO_TO_41 }

  ghost predicate NonDecreasing(clock: Clock) { forall i, j :: i <= j ==> clock(i) <= clock(j) }

  /** The id as a number: 41 bits of time, 5 of datacenter, 5 of worker, 12 of sequence. */
  function Pack(timestamp: int, datacenterId: int, workerId: int, sequence: int): int
  {
    (timestamp - EPOCH) * 0x40_0000 + datacenterId * 0x2_0000 + workerId * 0x1000 + sequence
  }

  datatype Waited = Waited(timestamp: int, used: nat, backwards: bool)

  /** The overflow loop from its count-th round, with the clock read at position pos + count. */
  function WaitNext(last: int, timestamp: int, clock: Clock, pos: nat, count: nat): Waited
    decreases 5 - count
  {
    if timestamp <= last && count < 5 then
      if clock(pos + count) < last then Waited(clock(pos + count), count + 1, true)
      else WaitNext(last, clock(pos + count), clock, pos, count + 1)
    else Waited(timestamp, count, false)
  }

  /** One call of nextId: the generator after it, the id (0 for a failure), the readings used. */
  datatype Call = Call(gen: Gen, id: int, used: nat)

  function NextId(g: Gen, clock: Clock, pos: nat): Call
  {
    var t := clock(pos);
    var seq1 := if t == g.last then (g.sequence + 1) % 4096 else 0;
    if t == g.last && seq1 == 0 then
      var w := WaitNext(g.last, t, clock, pos + 1, 0);
      if w.backwards || w.timestamp <= g.last then Call(g.(sequence := 0), 0, 1 + w.used)
      else Call(g.(sequence := 0, last := w.timestamp), Pack(w.timestamp, g.datacenterId, g.workerId, 0),
          1 + w.used)
    else Call(g.(sequence := seq1, last := t), Pack(t, g.datacenterId, g.workerId, seq1), 1)
  }

  // ----- the generator object -----

  class SnowflakeGenerator {
    const datacenterId: nat
    const workerId: nat
    var sequence: nat
    var lastTimestamp: int

    ghost function Snapshot(): Gen
      reads this
    {
      Gen(datacenterId, workerId, sequence, lastTimestamp)
    }

    constructor (d: nat, w: nat)
      ensures Snapshot() == Gen(d, w, 0, -1)
    {
      datacenterId, workerId, sequence, lastTimestamp := d, w, 0, -1;
    }

    /** The public constructor: out-of-range fields throw, here null. */
    static method Create(d: int, w: int) returns (g: SnowflakeGenerator?)
      ensures g == null <==> !(0 <= d <= MAX_DATACENTER_ID && 0 <= w <= MAX_WORKER_ID)
      ensures g != null ==> fresh(g) && g.Snapshot() == Gen(d, w, 0, -1) && ValidGen(g.Snapshot())
    {
      if d > MAX_DATACENTER_ID || d < 0 { return null; }
      if w > MAX_WORKER_ID || w < 0 { return null; }
      g := new SnowflakeGenerator(d, w);
    }

    /** The wait for the next millisecond, given up after five readings or on a step back. */
    method WaitForNext(first: int, clock: Clock, pos: nat) returns (timestamp: int, used: nat, backwards: bool)
      requires InRange(clock) && EPOCH < first < EPOCH + TWO_TO_41
      ensures WaitNext(lastTimestamp, first, clock, pos, 0) == Waited(timestamp, used, backwards)
      ensures used <= 5 && EPOCH < timestamp < EPOCH + TWO_TO_41
    {
      timestamp := first;
      var waitCount := 0;
      while timestamp <= lastTimestamp && waitCount < 5
        invariant waitCount <= 5 && EPOCH < timestamp < EPOCH + TWO_TO_41
        invariant WaitNext(lastTimestamp, timestamp, clock, pos, waitCount) ==
                  WaitNext(lastTimestamp, first, clock, pos, 0)
        decreases 5 - waitCount
      {
        timestamp := clock(pos + waitCount);
        waitCount := waitCount + 1;
        if timestamp < lastTimestamp { return timestamp, waitCount, true; }
      }
      return timestamp, waitCount, false;
    }

    method Next(clock: Clock, pos: nat) returns (id: int, used: nat)
      requires ValidGen(Snapshot()) && InRange(clock)
      modifies this
      ensures Call(Snapshot(), id, used) == NextId(old(Snapshot()), clock, pos)
      ensures ValidGen(Snapshot()) && 1 <= used <= 6
    {
      hide And, WaitNext, Pack;
      var timestamp := clock(pos);
      RangeAt(clock, pos);
      hide InRange;
      used := 1;
      if timestamp == lastTimestamp {
        SequenceMask(sequence);
        sequence := And(sequence + 1, MAX_SEQUENCE);
        if sequence == 0 {
          var waited, readings, backwards := WaitForNext(timestamp, clock, pos + 1);
          timestamp, used := waited, 1 + readings;
          if backwards { return 0, used; }
          if timestamp <= lastTimestamp { return 0, used; }
        }
      } else {
        sequence := 0;
      }
      lastTimestamp := timestamp;
      id := Assemble(timestamp, datacenterId, workerId, sequence);
    }
  }

  method Assemble(timestamp: int, datacenterId: nat, workerId: nat, sequence: nat) returns (id: int)
    requires timestamp > EPOCH && datacenterId <= 31 && workerId <= 31 && sequence <= 4095
    ensures id == Pack(timestamp, datacenterId, workerId, sequence)
  {
    FieldBits(timestamp - EPOCH, datacenterId, workerId, sequence);
    hide Or, Shl;
    id := Or(Or(Or(Shl(timestamp - EPOCH, 22), Shl(datacenterId, 17)), Shl(workerId, 12)), sequence);
  }

  lemma SequenceMask(s: nat)
    ensures And(s + 1, MAX_SEQUENCE) == (s + 1) % 4096
    ensures s <= MAX_SEQUENCE ==> And(s + 1, MAX_SEQUENCE) == if s == MAX_SEQUENCE then 0 else s + 1
  {
    hide And, Pow2;
    PowersOfTwo();
    AndMask(s + 1, 12);
  }

  lemma PowersOfTwo()
    ensures Pow2(12) == 0x1000 && Pow2(17) == 0x2_0000 && Pow2(22) == 0x40_0000
  {
    assert Pow2(12) == 4096;
    assert Pow2(17) == 32 * Pow2(12);
    assert Pow2(22) == 32 * Pow2(17);
  }

  /** Shift and OR put the four fields side by side. */
  lemma {:induction false} FieldBits(t: nat, d: nat, w: nat, s: nat)
    requires d <= 31 && w <= 31 && s <= 4095
    ensures Or(Or(Or(Shl(t, 22), Shl(d, 17)), Shl(w, 12)), s) == t * 0x40_0000 + d * 0x2_0000 + w * 0x1000 + s
  {
    hide Or;
    PowersOfTwo();
    OrDisjoint(t, d * 0x2_0000, 22);
    OrDisjoint(t * 32 + d, w * 0x1000, 17);
    OrDisjoint((t * 32 + d) * 32 + w, s, 12);
    hide Pow2;
    var td := t * 32 + d;
    assert td * 0x2_0000 == t * 0x40_0000 + d * 0x2_0000;
    assert (td * 32 + w) * 0x1000 == td * 0x2_0000 + w * 0x1000;
  }

  // ----- the layout -----

  ghost predicate Fields(timestamp: int, d: int, w: int, s: int)
  {
    EPOCH < timestamp < EPOCH + TWO_TO_41 && 0 <= d <= 31 && 0 <= w <= 31 && 0 <= s <= 4095
  }

  /** Every id gives its four fields back, is positive, and fits 63 bits. */
  lemma {:induction false} Decode(timestamp: int, d: int, w: int, s: int)
    requires Fields(timestamp, d, w, s)
    ensures var id := Pack(timestamp, d, w, s);
            0 < id < 0x8000_0000_0000_0000 &&
            id / 0x40_0000 + 946684800000 == timestamp && id / 0x2_0000 % 32 == d && id / 0x1000 % 32 == w &&
                id % 0x1000 == s
  {
    var id := Pack(timestamp, d, w, s);
    var t := timestamp - EPOCH;
    assert id / 0x1000 == t * 1024 + d * 32 + w;
    assert id / 0x2_0000 == t * 32 + d;
  }

  /** Generators with different datacenter or worker never produce the same id. */
  lemma {:induction false} GeneratorsNeverCollide(t1: int, d1: int, w1: int, s1: int, t2: int, d2: int,
      w2: int, s2: int)
    requires Fields(t1, d1, w1, s1) && Fields(t2, d2, w2, s2)
    ensures Pack(t1, d1, w1, s1) == Pack(t2, d2, w2, s2) <==> t1 == t2 && d1 == d2 && w1 == w2 && s1 == s2
  {
    Decode(t1, d1, w1, s1);
    Decode(t2, d2, w2, s2);
  }

  // ----- runs -----

  function TimeOf(id: int): int { id / 0x40_0000 + EPOCH }

  function SequenceOf(id: int): int { id % 0x1000 }

  /** A run: the generator, the position of the clock, the non-zero ids so far, and the highest
      sequence number given out in each millisecond. */
  datatype History = History(gen: Gen, pos: nat, ids: seq<int>, used: map<int, nat>)

  /** One more id at a time and sequence number. */
  function Issue(h: History, gen: Gen, pos: nat, t: int, q: nat): History
  {
    History(gen, pos, h.ids + [Pack(t, gen.datacenterId, gen.workerId, q)],
      h.used[t := if t in h.used && h.used[t] > q then h.used[t] else q])
  }

  function StepRun(h: History, clock: Clock): History
  {
    var c := NextId(h.gen, clock, h.pos);
    if c.id == 0 then h.(gen := c.gen, pos := h.pos + c.used)
    else Issue(h, c.gen, h.pos + c.used, c.gen.last, c.gen.sequence)
  }

  function RunCalls(d: nat, w: nat, clock: Clock, n: nat): History
  {
    if n == 0 then History(Gen(d, w, 0, -1), 0, [], map[]) else StepRun(RunCalls(d, w, clock, n - 1), clock)
  }

  ghost predicate NoFailure(d: nat, w: nat, clock: Clock, n: nat)
  {
    forall k :: 0 <= k < n ==> var h := RunCalls(d, w, clock, k); NextId(h.gen, clock, h.pos).id != 0
  }

  /** The ids given out are, in each millisecond used, exactly those up to its highest number. */
  ghost predicate IdsInv(h: History)
  {
    (forall x :: x in h.ids ==>
       TimeOf(x) in h.used && SequenceOf(x) <= h.used[TimeOf(x)] &&
       x == Pack(TimeOf(x), h.gen.datacenterId, h.gen.workerId, SequenceOf(x))) &&
    forall t, q :: t in h.used && 0 <= q <= h.used[t] ==> Pack(t, h.gen.datacenterId, h.gen.workerId, q) in h.ids
  }

  /** The generator stands in a millisecond it has used, at or below the highest number there. */
  ghost predicate GenInv(h: History)
  {
    ValidGen(h.gen) && (forall t :: t in h.used ==> EPOCH < t < EPOCH + TWO_TO_41 && h.used[t] <= MAX_SEQUENCE) &&
    if h.gen.last == -1 then h.used == map[] && h.gen.sequence == 0
    else h.gen.last in h.used && h.gen.sequence <= h.used[h.gen.last]
  }

  ghost predicate HistoryInv(h: History) { IdsInv(h) && GenInv(h) }

  lemma RangeAt(clock: Clock, i: nat)
    requires InRange(clock)
    ensures EPOCH < clock(i) < EPOCH + TWO_TO_41
  {
  }

  lemma PackPositive(t: int, d: int, w: int, s: int)
    requires Fields(t, d, w, s)
    ensures Pack(t, d, w, s) > 0 && TimeOf(Pack(t, d, w, s)) == t && SequenceOf(Pack(t, d, w, s)) == s
  {
    Decode(t, d, w, s);
  }

  /** An id is new if and only if its number is above the highest given out in its millisecond. */
  lemma {:induction false} Issued(h: History, gen: Gen, pos: nat, t: int, q: nat)
    requires IdsInv(h) && gen.datacenterId == h.gen.datacenterId && gen.workerId == h.gen.workerId
    requires Fields(t, gen.datacenterId, gen.workerId, q)
    requires if t in h.used then q <= h.used[t] + 1 else q == 0
    ensures IdsInv(Issue(h, gen, pos, t, q))
    ensures Pack(t, gen.datacenterId, gen.workerId, q) in h.ids <==> t in h.used && q <= h.used[t]
  {
    var d, w := gen.datacenterId, gen.workerId;
    var id := Pack(t, d, w, q);
    PackPositive(t, d, w, q);
    hide Pack;
    var v := Issue(h, gen, pos, t, q);
    forall x | x in v.ids
      ensures TimeOf(x) in v.used && SequenceOf(x) <= v.used[TimeOf(x)] && x == Pack(TimeOf(x), d, w, SequenceOf(x))
    {
      if x != id { assert x in h.ids; }
    }
    forall u, k | u in v.used && 0 <= k <= v.used[u] ensures Pack(u, d, w, k) in v.ids {
      if u in h.used && k <= h.used[u] { assert Pack(u, d, w, k) in h.ids; }
    }
  }

  /** The exact condition under which a non-zero id has been given out before, for any clock: the
      clock is in a millisecond whose numbers have been used that far. */
  predicate Repeats(h: History, clock: Clock)
  {
    var g, t := h.gen, clock(h.pos);
    if t != g.last then t in h.used
    else if g.sequence < MAX_SEQUENCE then t in h.used && g.sequence + 1 <= h.used[t]
    else WaitNext(g.last, t, clock, h.pos + 1, 0).timestamp in h.used
  }

  lemma {:induction false} WaitRange(last: int, t: int, clock: Clock, pos: nat, count: nat)
    requires InRange(clock) && EPOCH < t < EPOCH + TWO_TO_41 && count <= 5
    ensures var r := WaitNext(last, t, clock, pos, count);
            count <= r.used <= 5 && EPOCH < r.timestamp < EPOCH + TWO_TO_41
    decreases 5 - count
  {
    if t <= last && count < 5 {
      RangeAt(clock, pos + count);
      if clock(pos + count) >= last { WaitRange(last, clock(pos + count), clock, pos, count + 1); }
    }
  }

  /** The next id at a time and number keeps the history, and is positive. */
  lemma {:induction false} IssuedNext(h: History, pos: nat, t: int, q: nat)
    requires HistoryInv(h) && Fields(t, h.gen.datacenterId, h.gen.workerId, q)
    requires if t in h.used then q <= h.used[t] + 1 else q == 0
    ensures HistoryInv(Issue(h, h.gen.(sequence := q, last := t), pos, t, q))
    ensures var id := Pack(t, h.gen.datacenterId, h.gen.workerId, q);
            id > 0 && (id in h.ids <==> t in h.used && q <= h.used[t])
  {
    PackPositive(t, h.gen.datacenterId, h.gen.workerId, q);
    Issued(h, h.gen.(sequence := q, last := t), pos, t, q);
    hide IdsInv, Pack;
  }

  /** Where the clock has not met a full millisecond, the number follows from its reading. */
  lemma PlainCall(h: History, clock: Clock)
    requires HistoryInv(h) && InRange(clock) && !(h.gen.last == clock(h.pos) && h.gen.sequence == MAX_SEQUENCE)
    ensures var g, t := h.gen, clock(h.pos);
            var q := if t == g.last then g.sequence + 1 else 0;
            var c := NextId(g, clock, h.pos);
            c == Call(g.(sequence := q, last := t), Pack(t, g.datacenterId, g.workerId, q), 1) &&
            Fields(t, g.datacenterId, g.workerId, q) && (Repeats(h, clock) <==> t in h.used && q <= h.used[t]) &&
            if t in h.used then q <= h.used[t] + 1 else q == 0
  {
    RangeAt(clock, h.pos);
    hide IdsInv, Pack, InRange, WaitNext;
  }

  lemma FullCall(h: History, clock: Clock)
    requires HistoryInv(h) && InRange(clock) && h.gen.last == clock(h.pos) && h.gen.sequence == MAX_SEQUENCE
    ensures var g, t := h.gen, clock(h.pos);
            var w := WaitNext(g.last, t, clock, h.pos + 1, 0);
            w.used <= 5 && Fields(w.timestamp, g.datacenterId, g.workerId, 0) &&
            NextId(g, clock, h.pos) ==
              if w.backwards || w.timestamp <= g.last then Call(g.(sequence := 0), 0, 1 + w.used)
              else Call(g.(sequence := 0, last := w.timestamp),
                     Pack(w.timestamp, g.datacenterId, g.workerId, 0), 1 + w.used)
  {
    RangeAt(clock, h.pos);
    WaitRange(h.gen.last, clock(h.pos), clock, h.pos + 1, 0);
    hide IdsInv, Pack, InRange, WaitNext;
  }

  /** One call of nextId on any clock. */
  lemma {:induction false} StepFacts(h: History, clock: Clock)
    requires HistoryInv(h) && InRange(clock)
    ensures var c := NextId(h.gen, clock, h.pos);
            HistoryInv(StepRun(h, clock)) && 1 <= c.used <= 6 &&
            (c.id != 0 ==> c.id > 0 && (c.id in h.ids <==> Repeats(h, clock)))
  {
    if h.gen.last == clock(h.pos) && h.gen.sequence == MAX_SEQUENCE {
      OverflowFacts(h, clock);
    } else {
      PlainCall(h, clock);
      hide HistoryInv, Pack, InRange, NextId, Repeats, Fields;
      var q := if clock(h.pos) == h.gen.last then h.gen.sequence + 1 else 0;
      IssuedNext(h, h.pos + 1, clock(h.pos), q);
    }
  }

  /** The call that meets a full millisecond: it fails, or a later reading gives the id. */
  lemma {:induction false} OverflowFacts(h: History, clock: Clock)
    requires HistoryInv(h) && InRange(clock)
    requires h.gen.last == clock(h.pos) && h.gen.sequence == MAX_SEQUENCE
    ensures var c := NextId(h.gen, clock, h.pos);
            HistoryInv(StepRun(h, clock)) && 1 <= c.used <= 6 &&
            (c.id != 0 ==> c.id > 0 && (c.id in h.ids <==> Repeats(h, clock)))
  {
    FullCall(h, clock);
    assert forall t :: t in h.used ==> h.used[t] >= 0;
    var w := WaitNext(h.gen.last, clock(h.pos), clock, h.pos + 1, 0);
    Failed(h, h.pos + 1 + w.used);
    hide HistoryInv, Pack, InRange, NextId, WaitNext, Fields;
    if !w.backwards && w.timestamp > h.gen.last {
      IssuedNext(h, h.pos + 1 + w.used, w.timestamp, 0);
    }
  }

  lemma Failed(h: History, pos: nat)
    requires HistoryInv(h)
    ensures HistoryInv(h.(gen := h.gen.(sequence := 0), pos := pos))
  {
    SameIds(h, h.(gen := h.gen.(sequence := 0), pos := pos));
    hide IdsInv;
  }

  lemma SameIds(h: History, v: History)
    requires IdsInv(h) && v.ids == h.ids && v.used == h.used
    requires v.gen.datacenterId == h.gen.datacenterId && v.gen.workerId == h.gen.workerId
    ensures IdsInv(v)
  {
  }

  lemma {:induction false} RunInv(d: nat, w: nat, clock: Clock, n: nat)
    requires d <= MAX_DATACENTER_ID && w <= MAX_WORKER_ID && InRange(clock)
    ensures HistoryInv(RunCalls(d, w, clock, n))
  {
    if n == 0 {
      assert RunCalls(d, w, clock, 0) == History(Gen(d, w, 0, -1), 0, [], map[]);
    } else {
      hide HistoryInv, InRange, StepRun, NextId, Repeats;
      RunInv(d, w, clock, n - 1);
      StepFacts(RunCalls(d, w, clock, n - 1), clock);
    }
  }

  /** After any run on any clock, failures and steps back included, exactly when the next non-zero
      id repeats an earlier one. */
  lemma {:induction false} RepeatsExactly(d: nat, w: nat, clock: Clock, n: nat)
    requires d <= MAX_DATACENTER_ID && w <= MAX_WORKER_ID && InRange(clock)
    ensures var h := RunCalls(d, w, clock, n);
            var c := NextId(h.gen, clock, h.pos);
            c.id != 0 ==> (c.id in h.ids <==> Repeats(h, clock))
  {
    RunInv(d, w, clock, n);
    StepFacts(RunCalls(d, w, clock, n), clock);
  }

  // ----- a clock that does not go back -----

  lemma {:induction false} WaitFrom(last: int, clock: Clock, pos: nat, count: nat, k: nat)
    requires count <= k < 5 && forall r :: pos + count <= r < pos + k ==> clock(r) == last
    ensures clock(pos + k) > last ==> WaitNext(last, last, clock, pos, count) == Waited(clock(pos + k), k + 1, false)
    ensures clock(pos + k) < last ==> WaitNext(last, last, clock, pos, count) == Waited(clock(pos + k), k + 1, true)
    ensures clock(pos + k) == last && k == 4 ==> WaitNext(last, last, clock, pos, count) == Waited(last, 5, false)
    decreases k - count
  {
    if count < k {
      assert clock(pos + count) == last;
      WaitFrom(last, clock, pos, count + 1, k);
    }
  }

  /** What a call answers, on any clock. In a new millisecond, or one the clock has gone back to, the
      numbers start from 0; in the same one they go on; once they are used up the first of five more
      readings that differs decides: a later one gives its number 0, an earlier one a failure, as
      does none. */
  lemma {:induction false} NextExactly(g: Gen, clock: Clock, pos: nat, k: nat)
    requires ValidGen(g)
    ensures var c, t := NextId(g, clock, pos), clock(pos);
            (t != g.last ==> c == Call(g.(sequence := 0, last := t), Pack(t, g.datacenterId, g.workerId, 0), 1)) &&
            (t == g.last && g.sequence < 4095 ==>
               c == Call(g.(sequence := g.sequence + 1), Pack(t, g.datacenterId, g.workerId, g.sequence + 1), 1))
    ensures clock(pos) == g.last && g.sequence == 4095 && k < 5 &&
            (forall r :: pos < r <= pos + k ==> clock(r) == g.last) ==>
              var c, t := NextId(g, clock, pos), clock(pos + 1 + k);
              (t > g.last ==>
                 c == Call(g.(sequence := 0, last := t), Pack(t, g.datacenterId, g.workerId, 0), 2 + k)) &&
              (t < g.last || (t == g.last && k == 4) ==> c == Call(g.(sequence := 0), 0, 2 + k))
  {
    if clock(pos) == g.last && g.sequence == 4095 && k < 5 &&
       forall r :: pos < r <= pos + k ==> clock(r) == g.last
    {
      WaitFrom(g.last, clock, pos + 1, 0, k);
    }
    hide WaitNext, Pack;
  }

  lemma {:induction false} WaitFacts(last: int, t: int, clock: Clock, pos: nat, count: nat)
    requires NonDecreasing(clock) && last <= clock(pos) && t >= last && count <= 5
    requires count == 0 || t == clock(pos + count - 1)
    ensures var r := WaitNext(last, t, clock, pos, count);
            !r.backwards && count <= r.used <= 5 && r.timestamp >= last &&
            (r.used > 0 ==> r.timestamp == clock(pos + r.used - 1)) && (r.used == 0 ==> r.timestamp == t) &&
            (r.timestamp <= last ==> r.used == 5)
    decreases 5 - count
  {
    if t <= last && count < 5 {
      assert clock(pos) <= clock(pos + count);
      WaitFacts(last, clock(pos + count), clock, pos, count + 1);
    }
  }

  lemma NoStepBack(clock: Clock, i: nat)
    requires NonDecreasing(clock)
    ensures clock(i) <= clock(i + 1)
  {
  }

  /** Time has come no further than the generator, and the generator no further than the clock. */
  ghost predicate Forward(h: History, clock: Clock)
  {
    h.gen.last <= clock(h.pos) && forall t :: t in h.used ==> t <= h.gen.last
  }

  /** On a clock that does not go back a call moves the generator forward. */
  lemma {:induction false} StepForward(h: History, clock: Clock)
    requires HistoryInv(h) && Forward(h, clock) && InRange(clock) && NonDecreasing(clock)
    ensures Forward(StepRun(h, clock), clock)
    ensures h.gen.last <= StepRun(h, clock).gen.last
  {
    var g, t := h.gen, clock(h.pos);
    NoStepBack(clock, h.pos);
    WaitFacts(g.last, t, clock, h.pos + 1, 0);
    var w := WaitNext(g.last, t, clock, h.pos + 1, 0);
    if t == g.last && g.sequence == MAX_SEQUENCE {
      if w.used > 0 { NoStepBack(clock, h.pos + w.used); }
      FullCall(h, clock);
    } else {
      PlainCall(h, clock);
    }
    StepFacts(h, clock);
    hide HistoryInv, Pack, InRange, NonDecreasing, WaitNext, NextId, Repeats;
  }

  /** There, a number repeats only in the millisecond of the last id, after a failure in it: then its
      numbers are used up but the generator counts again from 0. */
  lemma {:induction false} RepeatsOnForwardClock(h: History, clock: Clock)
    requires HistoryInv(h) && Forward(h, clock) && InRange(clock) && NonDecreasing(clock)
    requires NextId(h.gen, clock, h.pos).id != 0
    ensures Repeats(h, clock) <==>
            h.gen.last == clock(h.pos) && h.gen.sequence != MAX_SEQUENCE && h.gen.sequence < h.used[h.gen.last]
  {
    var g, t := h.gen, clock(h.pos);
    RangeAt(clock, h.pos);
    NoStepBack(clock, h.pos);
    WaitFacts(g.last, t, clock, h.pos + 1, 0);
    hide IdsInv, Pack, InRange, NonDecreasing, WaitNext;
  }

  lemma {:induction false} RunForward(d: nat, w: nat, clock: Clock, n: nat)
    requires d <= MAX_DATACENTER_ID && w <= MAX_WORKER_ID && InRange(clock) && NonDecreasing(clock)
    ensures Forward(RunCalls(d, w, clock, n), clock)
  {
    hide HistoryInv, InRange, NonDecreasing, StepRun, NextId, Pack;
    if n == 0 {
      RangeAt(clock, 0);
      assert RunCalls(d, w, clock, 0).used == map[];
    } else {
      hide Forward;
      RunInv(d, w, clock, n - 1);
      RunForward(d, w, clock, n - 1);
      StepForward(RunCalls(d, w, clock, n - 1), clock);
    }
  }

  /** On a clock that does not go back, any number of calls of which none fails gives strictly
      increasing positive ids. */
  lemma {:induction false} IncreasingWithoutFailure(d: nat, w: nat, clock: Clock, n: nat)
    requires d <= MAX_DATACENTER_ID && w <= MAX_WORKER_ID && InRange(clock) && NonDecreasing(clock)
    requires NoFailure(d, w, clock, n)
    ensures var h := RunCalls(d, w, clock, n);
            |h.ids| == n && (forall i :: 0 <= i < n ==> h.ids[i] > 0) &&
            (forall i, j :: 0 <= i < j < n ==> h.ids[i] < h.ids[j]) && Fresh(h)
  {
    if n > 0 {
      IncreasingWithoutFailure(d, w, clock, n - 1);
      RunInv(d, w, clock, n - 1);
      RunForward(d, w, clock, n - 1);
      var h := RunCalls(d, w, clock, n - 1);
      assert NextId(h.gen, clock, h.pos).id != 0;
      hide NextId, HistoryInv, InRange, NonDecreasing, NoFailure, Forward, StepRun;
      FreshStep(h, clock);
      LastIsGreatest(h.ids, StepRun(h, clock).ids);
      hide Fresh;
    }
  }

  lemma LastIsGreatest(ids: seq<int>, more: seq<int>)
    requires |more| == |ids| + 1 && more[..|ids|] == ids
    requires (forall i :: 0 <= i < |ids| ==> ids[i] > 0) && more[|ids|] > 0
    requires forall i, j :: 0 <= i < j < |ids| ==> ids[i] < ids[j]
    requires ids != [] ==> ids[|ids| - 1] < more[|ids|]
    ensures (forall i :: 0 <= i < |more| ==> more[i] > 0) && forall i, j :: 0 <= i < j < |more| ==> more[i] < more[j]
  {
    assert forall i :: 0 <= i < |ids| ==> more[i] == ids[i];
  }

  /** The generator counts on from the last id, which is the greatest. */
  ghost predicate Fresh(h: History)
  {
    (h.gen.last != -1 ==> h.gen.last in h.used && h.gen.sequence == h.used[h.gen.last] && h.ids != []) &&
    (h.ids != [] ==>
       h.ids[|h.ids| - 1] == Pack(h.gen.last, h.gen.datacenterId, h.gen.workerId, h.gen.sequence) && h.gen.last != -1)
  }

  lemma {:induction false} FreshStep(h: History, clock: Clock)
    requires HistoryInv(h) && Forward(h, clock) && Fresh(h) && InRange(clock) && NonDecreasing(clock)
    requires NextId(h.gen, clock, h.pos).id != 0
    ensures var v := StepRun(h, clock);
            Fresh(v) && |v.ids| == |h.ids| + 1 && v.ids[..|h.ids|] == h.ids && v.ids[|h.ids|] > 0 &&
            (h.ids != [] ==> h.ids[|h.ids| - 1] < v.ids[|h.ids|])
  {
    var g, t := h.gen, clock(h.pos);
    NoStepBack(clock, h.pos);
    WaitFacts(g.last, t, clock, h.pos + 1, 0);
    if g.last == t && g.sequence == MAX_SEQUENCE {
      FullCall(h, clock);
    } else {
      PlainCall(h, clock);
    }
    var c := NextId(g, clock, h.pos);
    StepFacts(h, clock);
    GenIsValid(h);
    assert forall u :: u in h.used ==> u <= g.last;
    hide HistoryInv, InRange, NonDecreasing, WaitNext, Forward, Repeats, NextId, Pack;
    assert c.gen.last > g.last || (c.gen.last == g.last && c.gen.sequence == g.sequence + 1);
    Later(g, c.gen);
  }

  lemma GenIsValid(h: History)
    requires HistoryInv(h)
    ensures ValidGen(h.gen)
  {
  }

  /** A later time, or the next number of the same time, packs to a greater id. */
  lemma Later(g: Gen, k: Gen)
    requires g.datacenterId == k.datacenterId && g.workerId == k.workerId && ValidGen(g) && ValidGen(k)
    requires k.last > g.last || (k.last == g.last && k.sequence > g.sequence)
    ensures Pack(g.last, g.datacenterId, g.workerId, g.sequence) < Pack(k.last, k.datacenterId, k.workerId, k.sequence)
  {
  }

  /** One step back and forth of the clock gives the same id twice. */
  lemma {:induction false} RegressionRepeats(g: Gen, clock: Clock, t: int)
    requires clock(0) == t && clock(1) == t - 1 && clock(2) == t && g.last < t - 1
    ensures var c1 := NextId(g, clock, 0);
            var c2 := NextId(c1.gen, clock, c1.used);
            var c3 := NextId(c2.gen, clock, c1.used + c2.used);
            c1.used == c2.used == 1 && c1.id == c3.id
  {
  }
}
