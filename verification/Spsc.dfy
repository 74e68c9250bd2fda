/** SPSCQueue: one producer and one consumer on a ring of atomic positions, split into their loads,
    checks, slot accesses and publications, and its refinement of a bounded FIFO. */
module Spsc {
  import opened Bits

  /** Where the producer stands inside push; held is the number of published items when it loaded
      the read position. */
  datatype Producer<T> =
    | PIdle
    | PHasWrite(item: T, cw: nat)
    | PHasBoth(item: T, cw: nat, nw: nat, cr: nat, held: nat)
    | PWritten(item: T, nw: nat)
    | PPublished

  /** Where the consumer stands inside pop; held is the number of published items when it loaded
      the write position. */
  datatype Consumer<T> =
    | CIdle
    | CHasRead(cr: nat)
    | CHasBoth(cr: nat, cw: nat, held: nat)
    | CTaken(cr: nat, item: T)
    | CPublished

  /** The shared memory, the two threads, and the items published and handed out so far. */
  datatype State<T> = State(
    capacity: nat, mask: nat, buffer: seq<T>, writePos: nat, readPos: nat,
    pushCount: nat, popCount: nat, dropCount: nat,
    producer: Producer<T>, consumer: Consumer<T>,
    accepted: seq<T>, popped: seq<T>)

  datatype Action<T> =
    | BeginPush(value: T) | LoadRead | FailPush | WriteSlot | PublishWrite | CountPush
    | BeginPop | LoadWrite | FailPop | TakeSlot(residue: T) | PublishRead | CountPop

  predicate Enabled<T>(s: State<T>, a: Action<T>)
  {
    match a
    case BeginPush(_) => s.producer.PIdle?
    case LoadRead => s.producer.PHasWrite?
    case FailPush => s.producer.PHasBoth? && s.producer.nw == s.producer.cr
    case WriteSlot => s.producer.PHasBoth? && s.producer.nw != s.producer.cr && s.producer.cw < |s.buffer|
    case PublishWrite => s.producer.PWritten?
    case CountPush => s.producer.PPublished?
    case BeginPop => s.consumer.CIdle?
    case LoadWrite => s.consumer.CHasRead?
    case FailPop => s.consumer.CHasBoth? && s.consumer.cr == s.consumer.cw
    case TakeSlot(_) => s.consumer.CHasBoth? && s.consumer.cr != s.consumer.cw && s.consumer.cr < |s.buffer|
    case PublishRead => s.consumer.CTaken?
    case CountPop => s.consumer.CPublished?
  }

  function Held<T>(s: State<T>): nat { if |s.popped| <= |s.accepted| then |s.accepted| - |s.popped| else 0 }

  /** One atomic step. A taken slot is moved from, so it is left with any value. */
  function Apply<T>(s: State<T>, a: Action<T>): State<T>
    requires Enabled(s, a)
  {
    match a
    case BeginPush(v) => s.(producer := PHasWrite(v, s.writePos))
    case LoadRead =>
      var p := s.producer;
      s.(producer := PHasBoth(p.item, p.cw, And(p.cw + 1, s.mask), s.readPos, Held(s)))
    case FailPush => s.(producer := PIdle, dropCount := s.dropCount + 1)
    case WriteSlot =>
      var p := s.producer;
      s.(producer := PWritten(p.item, p.nw), buffer := s.buffer[p.cw := p.item])
    case PublishWrite =>
      s.(producer := PPublished, writePos := s.producer.nw, accepted := s.accepted + [s.producer.item])
    case CountPush => s.(producer := PIdle, pushCount := s.pushCount + 1)
    case BeginPop => s.(consumer := CHasRead(s.readPos))
    case LoadWrite => s.(consumer := CHasBoth(s.consumer.cr, s.writePos, Held(s)))
    case FailPop => s.(consumer := CIdle)
    case TakeSlot(residue) =>
      var cr := s.consumer.cr;
      s.(consumer := CTaken(cr, s.buffer[cr]), buffer := s.buffer[cr := residue])
    case PublishRead =>
      var c := s.consumer;
      s.(consumer := CPublished, readPos := And(c.cr + 1, s.mask), popped := s.popped + [c.item])
    case CountPop => s.(consumer := CIdle, popCount := s.popCount + 1)
  }

  ghost predicate Init<T>(s: State<T>)
  {
    IsPow2(s.capacity) && s.mask == s.capacity - 1 && |s.buffer| == s.capacity &&
    s.writePos == s.readPos == 0 && s.pushCount == s.popCount == s.dropCount == 0 &&
    s.producer.PIdle? && s.consumer.CIdle? && s.accepted == [] && s.popped == []
  }

  /** A run by its actions, producer and consumer interleaved in any way. */
  ghost predicate CanRun<T>(s: State<T>, actions: seq<Action<T>>)
    decreases |actions|
  {
    actions == [] || (Enabled(s, actions[0]) && CanRun(Apply(s, actions[0]), actions[1..]))
  }

  ghost function Run<T>(s: State<T>, actions: seq<Action<T>>): State<T>
    requires CanRun(s, actions)
    decreases |actions|
  {
    if actions == [] then s else Run(Apply(s, actions[0]), actions[1..])
  }

  // ----- invariant -----

  ghost predicate RingInv<T>(s: State<T>)
  {
    var a, p, c := |s.accepted|, |s.popped|, s.capacity;
    IsPow2(c) && s.mask == c - 1 && |s.buffer| == c &&
    p <= a <= p + c - 1 && s.popped == s.accepted[..p] &&
    s.writePos == a % c && s.readPos == p % c &&
    (forall i :: (if s.consumer.CTaken? then p + 1 else p) <= i < a ==> s.buffer[i % c] == s.accepted[i])
  }

  ghost predicate ProducerInv<T>(s: State<T>)
    requires s.capacity > 0
  {
    var a, p, c := |s.accepted|, |s.popped|, s.capacity;
    match s.producer
    case PIdle => true
    case PHasWrite(_, cw) => cw == a % c
    case PHasBoth(_, cw, nw, cr, held) =>
      cw == a % c && nw == (a + 1) % c && held <= c - 1 && held <= a && a - held <= p && cr == (a - held) % c
    case PWritten(item, nw) => nw == (a + 1) % c && a + 1 <= p + c - 1 && a % c < |s.buffer| &&
        s.buffer[a % c] == item
    case PPublished => true
  }

  ghost predicate ConsumerInv<T>(s: State<T>)
    requires s.capacity > 0
  {
    var a, p, c := |s.accepted|, |s.popped|, s.capacity;
    match s.consumer
    case CIdle => true
    case CHasRead(cr) => cr == p % c
    case CHasBoth(cr, cw, held) => cr == p % c && held <= c - 1 && p + held <= a && cw == (p + held) % c
    case CTaken(cr, item) => cr == p % c && p < a && item == s.accepted[p]
    case CPublished => true
  }

  ghost predicate Inv<T>(s: State<T>) { RingInv(s) && ProducerInv(s) && ConsumerInv(s) }

  lemma {:induction false} ModSame(a: nat, b: nat, m: nat)
    requires m > 0 && a <= b < a + m
    ensures a % m == b % m ==> a == b
  {
    if a % m == b % m {
      var d := b / m - a / m;
      assert b - a == d * m;
      MulBound(d, m);
    }
  }

  lemma {:induction false} ModNext(a: nat, m: nat)
    requires m > 0
    ensures (a % m + 1) % m == (a + 1) % m
  {
    var q, r := a / m, a % m;
    if r + 1 < m {
      DivModUnique(a + 1, m, q, r + 1);
      DivModUnique(r + 1, m, 0, r + 1);
    } else {
      DivModUnique(a + 1, m, q + 1, 0);
      DivModUnique(r + 1, m, 1, 0);
    }
  }

  /** Stepping a position by the mask is stepping the count modulo the capacity. */
  lemma {:induction false} MaskNext(a: nat, m: nat)
    requires IsPow2(m)
    ensures And(a % m + 1, m - 1) == (a + 1) % m
  {
    var k: nat :| m == Pow2(k);
    AndMask(a % m + 1, k);
    ModNext(a, m);
  }

  lemma {:induction false} ProducerStepInv<T>(s: State<T>, a: Action<T>)
    requires Inv(s) && Enabled(s, a)
    requires a.BeginPush? || a.LoadRead? || a.FailPush? || a.WriteSlot? || a.PublishWrite? || a.CountPush?
    ensures Inv(Apply(s, a))
  {
    match a
    case BeginPush(_) =>
    case LoadRead => MaskNext(|s.accepted|, s.capacity);
    case FailPush =>
    case WriteSlot => WriteSlotInv(s);
    case PublishWrite => PublishWriteInv(s);
    case CountPush =>
  }

  lemma {:induction false} WriteSlotInv<T>(s: State<T>)
    requires Inv(s) && Enabled(s, WriteSlot)
    ensures Inv(Apply(s, WriteSlot))
  {
    hide IsPow2;
    var n, p, c := |s.accepted|, |s.popped|, s.capacity;
    var held := s.producer.held;
    if held == c - 1 { WrapOnce(n - held, c); }
    forall i | p <= i < n ensures i % c != n % c { ModSame(i, n, c); }
  }

  lemma {:induction false} PublishWriteInv<T>(s: State<T>)
    requires Inv(s) && Enabled(s, PublishWrite)
    ensures Inv(Apply(s, PublishWrite))
  {
    hide IsPow2;
    var t := Apply(s, PublishWrite);
    if t.consumer.CHasBoth? { assert t.consumer.cw == (|s.popped| + t.consumer.held) % s.capacity; }
  }

  lemma WrapOnce(a: nat, m: nat)
    requires m > 0
    ensures (a + m) % m == a % m
  {
    DivModUnique(a + m, m, a / m + 1, a % m);
  }

  lemma {:induction false} ConsumerStepInv<T>(s: State<T>, a: Action<T>)
    requires Inv(s) && Enabled(s, a)
    requires !(a.BeginPush? || a.LoadRead? || a.FailPush? || a.WriteSlot? || a.PublishWrite? || a.CountPush?)
    ensures Inv(Apply(s, a))
  {
    match a
    case BeginPop =>
    case LoadWrite =>
    case FailPop =>
    case TakeSlot(residue) => TakeSlotInv(s, residue);
    case PublishRead => PublishReadInv(s);
    case CountPop =>
  }

  lemma {:induction false} TakeSlotInv<T>(s: State<T>, residue: T)
    requires Inv(s) && Enabled(s, TakeSlot(residue))
    ensures Inv(Apply(s, TakeSlot(residue)))
  {
    hide IsPow2;
    var n, p, c := |s.accepted|, |s.popped|, s.capacity;
    forall i | p < i < n ensures i % c != p % c { ModSame(p, i, c); }
    if s.producer.PWritten? { ModSame(p, n, c); }
  }

  lemma {:induction false} PublishReadInv<T>(s: State<T>)
    requires Inv(s) && Enabled(s, PublishRead)
    ensures Inv(Apply(s, PublishRead))
  {
    var p := |s.popped|;
    MaskNext(p, s.capacity);
    hide IsPow2;
    assert s.accepted[..p] + [s.accepted[p]] == s.accepted[..p + 1];
  }

  lemma {:induction false} StepInv<T>(s: State<T>, a: Action<T>)
    requires Inv(s) && Enabled(s, a)
    ensures Inv(Apply(s, a))
  {
    if a.BeginPush? || a.LoadRead? || a.FailPush? || a.WriteSlot? || a.PublishWrite? || a.CountPush? {
      ProducerStepInv(s, a);
    } else {
      ConsumerStepInv(s, a);
    }
  }

  lemma {:induction false} RunInv<T>(s: State<T>, actions: seq<Action<T>>)
    requires Inv(s) && CanRun(s, actions)
    ensures Inv(Run(s, actions))
    decreases |actions|
  {
    if actions != [] {
      StepInv(s, actions[0]);
      RunInv(Apply(s, actions[0]), actions[1..]);
    }
  }

  // ----- what holds in every interleaving -----

  /** In every run from an empty queue the values handed out are a prefix of the values accepted,
      and at most capacity - 1 are held. */
  lemma {:induction false} PoppedIsPrefix<T>(s: State<T>, actions: seq<Action<T>>)
    requires Init(s) && CanRun(s, actions)
    ensures var t := Run(s, actions);
            t.popped <= t.accepted && |t.accepted| - |t.popped| <= t.capacity - 1 && t.capacity == s.capacity
    decreases |actions|
  {
    RunInv(s, actions);
    CapacityFixed(s, actions);
  }

  lemma {:induction false} CapacityFixed<T>(s: State<T>, actions: seq<Action<T>>)
    requires CanRun(s, actions)
    ensures Run(s, actions).capacity == s.capacity
    decreases |actions|
  {
    if actions != [] { CapacityFixed(Apply(s, actions[0]), actions[1..]); }
  }

  /** A push fails exactly when capacity - 1 items were held as it loaded the read position. */
  lemma {:induction false} PushFailsOnlyWhenFull<T>(s: State<T>)
    requires Inv(s) && s.producer.PHasBoth?
    ensures Enabled(s, FailPush) <==> s.producer.held == s.capacity - 1
    ensures Enabled(s, FailPush) || Enabled(s, WriteSlot)
  {
    var n, c, held := |s.accepted|, s.capacity, s.producer.held;
    if held == c - 1 { WrapOnce(n - held, c); }
    if held < c - 1 { ModSame(n - held, n + 1, c); }
  }

  /** A pop fails exactly when the ring was empty as it loaded the write position. */
  lemma {:induction false} PopFailsOnlyWhenEmpty<T>(s: State<T>, residue: T)
    requires Inv(s) && s.consumer.CHasBoth?
    ensures Enabled(s, FailPop) <==> s.consumer.held == 0
    ensures Enabled(s, FailPop) || Enabled(s, TakeSlot(residue))
  {
    ModSame(|s.popped|, |s.popped| + s.consumer.held, s.capacity);
  }

  /** The slot about to be written is no readable slot, nor the one the consumer is about to take. */
  lemma {:induction false} WrittenSlotUnreadable<T>(s: State<T>, i: nat, residue: T)
    requires Inv(s) && Enabled(s, WriteSlot)
    ensures |s.popped| <= i < |s.accepted| ==> s.producer.cw != i % s.capacity
    ensures Enabled(s, TakeSlot(residue)) ==> s.producer.cw != s.consumer.cr
  {
    var n, p, c := |s.accepted|, |s.popped|, s.capacity;
    var held := s.producer.held;
    if held == c - 1 { WrapOnce(n - held, c); }
    if p <= i < n { ModSame(i, n, c); }
    if Enabled(s, TakeSlot(residue)) { ModSame(p, n, c); }
  }

  // ----- refinement of a bounded FIFO -----

  ghost function Queue<T>(s: State<T>): seq<T>
    requires |s.popped| <= |s.accepted|
  {
    s.accepted[|s.popped|..]
  }

  /** The abstract queue: an enqueue with room, a dequeue of the first item, or no change. */
  ghost predicate FifoStep<T>(q: seq<T>, r: seq<T>, bound: nat, a: Action<T>, s: State<T>)
  {
    match a
    case PublishWrite => s.producer.PWritten? && |q| < bound && r == q + [s.producer.item]
    case PublishRead => s.consumer.CTaken? && q != [] && s.consumer.item == q[0] && r == q[1..]
    case _ => r == q
  }

  /** Publications are the linearization points; every other step leaves the abstract queue alone. */
  lemma {:induction false} StepRefinesFifo<T>(s: State<T>, a: Action<T>)
    requires Inv(s) && Enabled(s, a)
    ensures Inv(Apply(s, a))
    ensures FifoStep(Queue(s), Queue(Apply(s, a)), s.capacity - 1, a, s)
  {
    StepInv(s, a);
    if a.PublishWrite? {
      assert (s.accepted + [s.producer.item])[|s.popped|..] == Queue(s) + [s.producer.item];
    }
  }

  /** A push that no other step interrupts. */
  lemma {:induction false} PushAlone<T>(s: State<T>, item: T)
    requires Inv(s) && s.producer.PIdle?
    ensures s.writePos < |s.buffer| && |Queue(s)| <= s.capacity - 1
    ensures And(s.writePos + 1, s.mask) == s.readPos <==> |Queue(s)| == s.capacity - 1
    ensures |Queue(s)| == s.capacity - 1 ==>
              var t := s.(dropCount := s.dropCount + 1); Inv(t) && Queue(t) == Queue(s)
    ensures |Queue(s)| < s.capacity - 1 ==>
              var t := s.(writePos := And(s.writePos + 1, s.mask), pushCount := s.pushCount + 1,
                          accepted := s.accepted + [item], buffer := s.buffer[s.writePos := item]);
              Inv(t) && Queue(t) == Queue(s) + [item]
  {
    var s1 := Apply(s, BeginPush(item));
    ProducerStepInv(s, BeginPush(item));
    var s2 := Apply(s1, LoadRead);
    ProducerStepInv(s1, LoadRead);
    PushFailsOnlyWhenFull(s2);
    if s2.producer.nw == s2.producer.cr {
      ProducerStepInv(s2, FailPush);
    } else {
      WriteAlone(s2);
    }
    hide And, IsPow2, Pow2;
  }

  lemma WriteAlone<T>(s: State<T>)
    requires Inv(s) && Enabled(s, WriteSlot)
    ensures var t := s.(writePos := s.producer.nw, pushCount := s.pushCount + 1, producer := PIdle,
                        accepted := s.accepted + [s.producer.item],
                        buffer := s.buffer[s.producer.cw := s.producer.item]);
            Inv(t) && Queue(t) == Queue(s) + [s.producer.item]
  {
    hide And, IsPow2, Pow2, Inv;
    var s3 := Apply(s, WriteSlot);
    ProducerStepInv(s, WriteSlot);
    var s4 := Apply(s3, PublishWrite);
    ProducerStepInv(s3, PublishWrite);
    ProducerStepInv(s4, CountPush);
    QueueGrows(s, s.producer.item);
  }

  lemma QueueGrows<T>(s: State<T>, item: T)
    requires Inv(s)
    ensures |s.popped| <= |s.accepted| && (s.accepted + [item])[|s.popped|..] == Queue(s) + [item]
  {
  }

  /** A pop that no other step interrupts. */
  lemma {:induction false} PopAlone<T>(s: State<T>, residue: T)
    requires Inv(s) && s.consumer.CIdle?
    ensures s.readPos < |s.buffer| && (s.readPos == s.writePos <==> Queue(s) == [])
    ensures Queue(s) != [] ==>
              var t := s.(readPos := And(s.readPos + 1, s.mask), popCount := s.popCount + 1,
                          popped := s.popped + [Queue(s)[0]], buffer := s.buffer[s.readPos := residue]);
              s.buffer[s.readPos] == Queue(s)[0] && Inv(t) && Queue(t) == Queue(s)[1..]
  {
    hide And, IsPow2, Pow2;
    var s1 := Apply(s, BeginPop);
    ConsumerStepInv(s, BeginPop);
    var s2 := Apply(s1, LoadWrite);
    ConsumerStepInv(s1, LoadWrite);
    PopFailsOnlyWhenEmpty(s2, residue);
    if s.readPos != s.writePos { TakeAlone(s2, residue); }
  }

  lemma {:induction false} TakeAlone<T>(s: State<T>, residue: T)
    requires Inv(s) && Enabled(s, TakeSlot(residue))
    ensures var t := s.(readPos := And(s.consumer.cr + 1, s.mask), popCount := s.popCount + 1, consumer := CIdle,
                        popped := s.popped + [s.buffer[s.consumer.cr]],
                        buffer := s.buffer[s.consumer.cr := residue]);
            Inv(t) && Queue(s) == [s.buffer[s.consumer.cr]] + Queue(t)
  {
    hide And, IsPow2, Pow2;
    var s3 := Apply(s, TakeSlot(residue));
    ConsumerStepInv(s, TakeSlot(residue));
    var s4 := Apply(s3, PublishRead);
    ConsumerStepInv(s3, PublishRead);
    ConsumerStepInv(s4, CountPop);
  }

  lemma RunCons<T>(s: State<T>, a: Action<T>, rest: seq<Action<T>>)
    requires Enabled(s, a) && CanRun(Apply(s, a), rest)
    ensures CanRun(s, [a] + rest) && Run(s, [a] + rest) == Run(Apply(s, a), rest)
  {
    assert ([a] + rest)[1..] == rest;
    hide Enabled, Apply;
  }

  lemma RunNone<T>(s: State<T>)
    ensures CanRun(s, []) && Run(s, []) == s
  {
  }

  /** The steps of a push that no other step interrupts: with room they publish the item and count
      it, without they count a drop and change nothing else. */
  lemma {:induction false} PushRuns<T>(s: State<T>, item: T)
    requires Inv(s) && s.producer.PIdle?
    ensures |Queue(s)| == s.capacity - 1 ==>
              var acts := [BeginPush(item), LoadRead, FailPush];
              CanRun(s, acts) && Run(s, acts) == s.(dropCount := s.dropCount + 1)
    ensures |Queue(s)| < s.capacity - 1 ==>
              var acts := [BeginPush(item), LoadRead, WriteSlot, PublishWrite, CountPush];
              s.writePos < |s.buffer| && CanRun(s, acts) &&
              Run(s, acts) == s.(writePos := And(s.writePos + 1, s.mask), pushCount := s.pushCount + 1,
                                 accepted := s.accepted + [item], buffer := s.buffer[s.writePos := item])
  {
    PushAlone(s, item);
    assert |Queue(s)| == |s.accepted| - |s.popped|;
    hide And, IsPow2, Pow2, Inv, Queue;
    var nw := And(s.writePos + 1, s.mask);
    var s1 := s.(producer := PHasWrite(item, s.writePos));
    var s2 := s.(producer := PHasBoth(item, s.writePos, nw, s.readPos, Held(s)));
    assert Apply(s, BeginPush(item)) == s1 && Apply(s1, LoadRead) == s2;
    if nw == s.readPos {
      var t := s.(dropCount := s.dropCount + 1);
      RunNone(t);
      RunCons(s2, FailPush, []);
      RunCons(s1, LoadRead, [FailPush] + []);
      RunCons(s, BeginPush(item), [LoadRead] + ([FailPush] + []));
      assert [BeginPush(item)] + ([LoadRead] + ([FailPush] + [])) == [BeginPush(item), LoadRead, FailPush];
    } else {
      PushEnds(s, s2, item, nw);
      RunCons(s1, LoadRead, [WriteSlot, PublishWrite, CountPush]);
      RunCons(s, BeginPush(item), [LoadRead] + [WriteSlot, PublishWrite, CountPush]);
      assert [BeginPush(item)] + ([LoadRead] + [WriteSlot, PublishWrite, CountPush]) ==
          [BeginPush(item), LoadRead, WriteSlot, PublishWrite, CountPush];
    }
  }

  lemma PushEnds<T>(s: State<T>, s2: State<T>, item: T, nw: nat)
    requires s.producer.PIdle? && s.writePos < |s.buffer| && nw != s.readPos
    requires s2 == s.(producer := PHasBoth(item, s.writePos, nw, s.readPos, Held(s)))
    ensures var acts := [WriteSlot, PublishWrite, CountPush];
            CanRun(s2, acts) &&
            Run(s2, acts) == s.(writePos := nw, pushCount := s.pushCount + 1, accepted := s.accepted + [item],
                                buffer := s.buffer[s.writePos := item])
  {
    var s3 := s.(producer := PWritten(item, nw), buffer := s.buffer[s.writePos := item]);
    var s4 := s3.(producer := PPublished, writePos := nw, accepted := s.accepted + [item]);
    var t := s4.(producer := PIdle, pushCount := s.pushCount + 1);
    assert Apply(s2, WriteSlot) == s3 && Apply(s3, PublishWrite) == s4 && Apply(s4, CountPush) == t;
    RunNone(t);
    RunCons(s4, CountPush, []);
    RunCons(s3, PublishWrite, [CountPush] + []);
    RunCons(s2, WriteSlot, [PublishWrite] + ([CountPush] + []));
    var acts: seq<Action<T>> := [WriteSlot, PublishWrite, CountPush];
    assert [WriteSlot] + ([PublishWrite] + ([CountPush] + [])) == acts;
  }

  /** The same for a pop: the first item is handed out and counted, or nothing changes at all. */
  lemma {:induction false} PopRuns<T>(s: State<T>, residue: T)
    requires Inv(s) && s.consumer.CIdle?
    ensures Queue(s) == [] ==> var acts := [BeginPop, LoadWrite, FailPop]; CanRun(s, acts) && Run(s, acts) == s
    ensures Queue(s) != [] ==>
              var acts := [BeginPop, LoadWrite, TakeSlot(residue), PublishRead, CountPop];
              s.readPos < |s.buffer| && CanRun(s, acts) &&
              Run(s, acts) == s.(readPos := And(s.readPos + 1, s.mask), popCount := s.popCount + 1,
                                 popped := s.popped + [Queue(s)[0]], buffer := s.buffer[s.readPos := residue])
  {
    PopAlone(s, residue);
    hide And, IsPow2, Pow2, Inv, Queue;
    var s1 := s.(consumer := CHasRead(s.readPos));
    var s2 := s.(consumer := CHasBoth(s.readPos, s.writePos, Held(s)));
    assert Apply(s, BeginPop) == s1 && Apply(s1, LoadWrite) == s2;
    if s.readPos == s.writePos {
      RunNone(s);
      assert Apply(s2, FailPop) == s;
      RunCons(s2, FailPop, []);
      RunCons(s1, LoadWrite, [FailPop] + []);
      RunCons(s, BeginPop, [LoadWrite] + ([FailPop] + []));
      var acts: seq<Action<T>> := [BeginPop, LoadWrite, FailPop];
      assert [BeginPop] + ([LoadWrite] + ([FailPop] + [])) == acts;
    } else {
      PopEnds(s, s2, residue);
      var rest := [TakeSlot(residue), PublishRead, CountPop];
      RunCons(s1, LoadWrite, rest);
      RunCons(s, BeginPop, [LoadWrite] + rest);
      assert [BeginPop] + ([LoadWrite] + rest) == [BeginPop, LoadWrite, TakeSlot(residue), PublishRead, CountPop];
    }
  }

  lemma PopEnds<T>(s: State<T>, s2: State<T>, residue: T)
    requires s.consumer.CIdle? && s.readPos < |s.buffer| && s.readPos != s.writePos
    requires s2 == s.(consumer := CHasBoth(s.readPos, s.writePos, Held(s)))
    ensures var acts := [TakeSlot(residue), PublishRead, CountPop];
            CanRun(s2, acts) &&
            Run(s2, acts) == s.(readPos := And(s.readPos + 1, s.mask), popCount := s.popCount + 1,
                                popped := s.popped + [s.buffer[s.readPos]], buffer := s.buffer[s.readPos := residue])
  {
    var item := s.buffer[s.readPos];
    var s3 := s.(consumer := CTaken(s.readPos, item), buffer := s.buffer[s.readPos := residue]);
    var s4 := s3.(consumer := CPublished, readPos := And(s.readPos + 1, s.mask), popped := s.popped + [item]);
    var t := s4.(consumer := CIdle, popCount := s.popCount + 1);
    hide And;
    assert Apply(s2, TakeSlot(residue)) == s3 && Apply(s3, PublishRead) == s4 && Apply(s4, CountPop) == t;
    RunNone(t);
    RunCons(s4, CountPop, []);
    RunCons(s3, PublishRead, [CountPop] + []);
    RunCons(s2, TakeSlot(residue), [PublishRead] + ([CountPop] + []));
    assert [TakeSlot(residue)] + ([PublishRead] + ([CountPop] + [])) == [TakeSlot(residue), PublishRead, CountPop];
  }

  // ----- the counters -----

  /** How often each of the two threads has begun and failed. */
  datatype Tally = Tally(pushes: nat, failedPushes: nat, pops: nat, failedPops: nat)

  function TallyOf<T>(actions: seq<Action<T>>): Tally
  {
    if actions == [] then Tally(0, 0, 0, 0)
    else
      var t, one := TallyOf(actions[1..]), One(actions[0]);
      Tally(one.pushes + t.pushes, one.failedPushes + t.failedPushes, one.pops + t.pops, one.failedPops + t.failedPops)
  }

  function One<T>(a: Action<T>): Tally
  {
    Tally(if a.BeginPush? then 1 else 0, if a.FailPush? then 1 else 0,
          if a.BeginPop? then 1 else 0, if a.FailPop? then 1 else 0)
  }

  /** The part of the counters that is still under way. */
  function Busy<T>(s: State<T>): (int, int) { (if s.producer.PIdle? then 0 else 1, if s.consumer.CIdle? then 0 else 1) }

  function Uncounted<T>(s: State<T>): (int, int)
  {
    (if s.producer.PPublished? then 1 else 0, if s.consumer.CPublished? then 1 else 0)
  }

  ghost predicate Moves<T>(s: State<T>, n: Tally, t: State<T>)
  {
    t.dropCount == s.dropCount + n.failedPushes &&
    |t.accepted| - t.pushCount - Uncounted(t).0 == |s.accepted| - s.pushCount - Uncounted(s).0 &&
    |t.popped| - t.popCount - Uncounted(t).1 == |s.popped| - s.popCount - Uncounted(s).1 &&
    t.pushCount + t.dropCount + Busy(t).0 == s.pushCount + s.dropCount + Busy(s).0 + n.pushes &&
    t.popCount + n.failedPops + Busy(t).1 == s.popCount + Busy(s).1 + n.pops
  }

  lemma {:induction false} CounterStep<T>(s: State<T>, a: Action<T>)
    requires Enabled(s, a)
    ensures Moves(s, One(a), Apply(s, a))
  {
    hide And;
  }

  lemma {:induction false} CountersMove<T>(s: State<T>, actions: seq<Action<T>>)
    requires CanRun(s, actions)
    ensures Moves(s, TallyOf(actions), Run(s, actions))
    decreases |actions|
  {
    if actions != [] {
      CounterStep(s, actions[0]);
      hide Apply, Enabled, Busy, Uncounted;
      CountersMove(Apply(s, actions[0]), actions[1..]);
    }
  }

  /** Over every run from an empty queue each push that was begun is counted as pushed or dropped, or
      is under way, and each pop as popped or failed, or is under way; the counts of pushes and pops
      are those of the items published, but for the one about to be counted. */
  lemma {:induction false} CountersTell<T>(s: State<T>, actions: seq<Action<T>>)
    requires Init(s) && CanRun(s, actions)
    ensures var t, n := Run(s, actions), TallyOf(actions);
            t.pushCount + t.dropCount == n.pushes - Busy(t).0 && t.dropCount == n.failedPushes &&
            t.popCount + n.failedPops == n.pops - Busy(t).1 &&
            t.pushCount == |t.accepted| - Uncounted(t).0 && t.popCount == |t.popped| - Uncounted(t).1
  {
    CountersMove(s, actions);
  }

  /** size() as computed from the two positions, when fewer than capacity items lie between them. */
  function SizeOf(writePos: nat, readPos: nat, capacity: nat): int
  {
    if writePos >= readPos then writePos - readPos else (capacity - readPos) + writePos
  }

  lemma {:induction false} SizeIsHeld(accepted: nat, popped: nat, capacity: nat)
    requires popped <= accepted < popped + capacity
    ensures SizeOf(accepted % capacity, popped % capacity, capacity) == accepted - popped
  {
    var q, r := popped / capacity, popped % capacity;
    var d := accepted - popped;
    if r + d < capacity {
      DivModUnique(accepted, capacity, q, r + d);
    } else {
      DivModUnique(accepted, capacity, q + 1, r + d - capacity);
    }
  }

  /** The same for any counts: what is between the positions is known modulo the capacity only. */
  lemma {:induction false} SizeModulo(accepted: nat, popped: nat, capacity: nat)
    requires capacity > 0 && popped <= accepted
    ensures SizeOf(accepted % capacity, popped % capacity, capacity) == (accepted - popped) % capacity
  {
    var n := (accepted - popped) % capacity;
    var rounds := (accepted - popped) / capacity;
    SizeIsHeld(popped + n, popped, capacity);
    assert accepted == rounds * capacity + (popped + n);
    var q, r := (popped + n) / capacity, (popped + n) % capacity;
    assert (rounds + q) * capacity == rounds * capacity + q * capacity;
    DivModUnique(accepted, capacity, rounds + q, r);
  }

  /** Histories only grow. */
  lemma {:induction false} CountsGrow<T>(s: State<T>, actions: seq<Action<T>>)
    requires CanRun(s, actions)
    ensures |s.accepted| <= |Run(s, actions).accepted| && |s.popped| <= |Run(s, actions).popped|
    decreases |actions|
  {
    if actions != [] { CountsGrow(Apply(s, actions[0]), actions[1..]); }
  }

  /** size() and empty() on any thread: the read position is loaded first, and any steps may come
      before the write position is. The difference counts the items held at the first load and those
      accepted since, modulo the capacity. So the answer is exact for the second moment if nothing was
      popped in between, as on the consumer, and for the first if nothing was accepted, as on the
      producer; and it is that count at all if and only if fewer than capacity items were met. */
  lemma {:induction false} SizeBetweenLoads<T>(s: State<T>, actions: seq<Action<T>>)
    requires Inv(s) && CanRun(s, actions)
    ensures var t := Run(s, actions);
            var met := |t.accepted| - |s.popped|;
            var size := SizeOf(t.writePos, s.readPos, s.capacity);
            met >= 0 && size == met % s.capacity &&
            (size == met <==> met < s.capacity) &&
            (|t.popped| == |s.popped| ==> size == |Queue(t)|) &&
            (|t.accepted| == |s.accepted| ==> size == |Queue(s)|) &&
            (s.readPos == t.writePos <==> met % s.capacity == 0)
  {
    RunInv(s, actions);
    CapacityFixed(s, actions);
    CountsGrow(s, actions);
    var t := Run(s, actions);
    var a, p, c := |t.accepted|, |s.popped|, s.capacity;
    assert 0 < c && t.writePos == a % c && s.readPos == p % c;
    assert p <= |s.accepted| <= p + c - 1 && |t.popped| <= a <= |t.popped| + c - 1;
    hide Inv, Run, CanRun;
    SizeModulo(a, p, c);
    if a - p < c { DivModUnique(a - p, c, 0, a - p); }
  }

  // ----- capacity -----

  const SIZE_T := 0x1_0000_0000_0000_0000

  ghost predicate LeastPow2(r: nat, n: nat)
  {
    IsPow2(r) && n <= r && forall k: nat :: n <= Pow2(k) ==> r <= Pow2(k)
  }

  lemma {:induction false} Pow2Monotone(j: nat, k: nat)
    requires j <= k
    ensures Pow2(j) <= Pow2(k)
  {
    if j < k { Pow2Monotone(j, k - 1); }
  }

  lemma {:induction false} LeastPow2Is(k: nat, n: nat)
    requires n <= Pow2(k) && (k > 0 ==> Pow2(k - 1) < n)
    ensures LeastPow2(Pow2(k), n)
  {
    forall j: nat | n <= Pow2(j) ensures Pow2(k) <= Pow2(j) {
      if j < k { Pow2Monotone(j, k - 1); } else { Pow2Monotone(k, j); }
    }
  }

  lemma Pow2Top()
    ensures Pow2(63) == 0x8000_0000_0000_0000 && Pow2(64) == SIZE_T
  {
    assert Pow2(8) == 0x100;
    assert Pow2(16) == 0x100 * Pow2(8) by { Pow2Sum(8, 8); }
    assert Pow2(32) == 0x1_0000 * Pow2(16) by { Pow2Sum(16, 16); }
    assert Pow2(48) == 0x1_0000 * Pow2(32) by { Pow2Sum(16, 32); }
    assert Pow2(64) == 0x1_0000 * Pow2(48) by { Pow2Sum(16, 48); }
  }

  lemma {:induction false} Pow2Sum(j: nat, k: nat)
    ensures Pow2(j + k) == Pow2(j) * Pow2(k)
  {
    if j > 0 {
      Pow2Sum(j - 1, k);
      assert Pow2(j + k) == 2 * Pow2(j - 1 + k);
      assert 2 * (Pow2(j - 1) * Pow2(k)) == (2 * Pow2(j - 1)) * Pow2(k);
    }
  }

  /** The value of the doubling loop after k rounds, in a 64-bit size_t. */
  function Doubled(k: nat): nat { Pow2(k) % SIZE_T }

  /** The doubling loop of the capacity computation leaves its guard exactly for n <= 2^63. */
  lemma {:induction false} DoublingEnds(n: nat)
    requires n < SIZE_T
    ensures (exists k: nat :: Doubled(k) >= n) <==> n <= 0x8000_0000_0000_0000
  {
    Pow2Top();
    if n <= 0x8000_0000_0000_0000 {
      assert Doubled(63) >= n;
    } else {
      forall k: nat ensures Doubled(k) < n {
        if k <= 63 {
          Pow2Monotone(k, 63);
        } else {
          Pow2Sum(64, k - 64);
          DivModUnique(Pow2(k), SIZE_T, Pow2(k - 64), 0);
        }
      }
    }
  }

  predicate IsPowerOfTwo(n: nat) { n != 0 && And(n, n - 1) == 0 }

  method NextPowerOfTwo(n: nat) returns (result: nat)
    requires n <= 0x8000_0000_0000_0000
    ensures LeastPow2(result, n)
    ensures result <= 0x8000_0000_0000_0000
  {
    Pow2Top();
    if n == 0 {
      LeastPow2Is(0, n);
      return 1;
    }
    if IsPowerOfTwo(n) {
      ClearLowestBit(n);
      ghost var j: nat :| n == Pow2(j);
      return n;
    }
    result := 1;
    ghost var k := 0;
    while result < n
      invariant k <= 63 && result == Pow2(k) && (k > 0 ==> Pow2(k - 1) < n)
      decreases 63 - k
    {
      result := (result * 2) % SIZE_T;
      k := k + 1;
      Pow2Monotone(k, 63);
    }
    LeastPow2Is(k, n);
    Pow2Monotone(k, 63);
  }

  // ----- the queue object -----

  /** The queue as one thread at a time uses it: each method is an uninterrupted run of the atomic
      steps above. */
  class SpscQueue<T(0)> {
    var buffer: array<T>
    var capacity: nat
    var mask: nat
    var writePos: nat
    var readPos: nat
    var pushCount: nat
    var popCount: nat
    var dropCount: nat
    ghost var accepted: seq<T>
    ghost var popped: seq<T>

    ghost function Snapshot(): State<T>
      reads this, buffer
    {
      State(capacity, mask, buffer[..], writePos, readPos, pushCount, popCount, dropCount, PIdle, CIdle,
          accepted, popped)
    }

    ghost predicate Valid()
      reads this, buffer
    {
      Inv(Snapshot())
    }

    ghost function Contents(): seq<T>
      reads this, buffer
      requires Valid()
    {
      Queue(Snapshot())
    }

    constructor (n: nat)
      requires n <= 0x8000_0000_0000_0000
      ensures Valid() && fresh(buffer) && Contents() == []
      ensures LeastPow2(capacity, n) && Init(Snapshot())
    {
      new;
      var c := NextPowerOfTwo(n);
      capacity := c;
      mask := c - 1;
      buffer := new T[c];
      writePos, readPos, pushCount, popCount, dropCount := 0, 0, 0, 0, 0;
      accepted, popped := [], [];
    }

    method Push(item: T) returns (ok: bool)
      requires Valid()
      modifies this`writePos, this`pushCount, this`dropCount, this`accepted, buffer
      ensures Valid()
      ensures ok == (|old(Contents())| < capacity - 1)
      ensures Contents() == if ok then old(Contents()) + [item] else old(Contents())
      ensures pushCount == old(pushCount) + (if ok then 1 else 0)
      ensures dropCount == old(dropCount) + (if ok then 0 else 1)
    {
      PushAlone(Snapshot(), item);
      var currentWrite := writePos;
      var nextWrite := And(currentWrite + 1, mask);
      var currentRead := readPos;
      if nextWrite == currentRead {
        dropCount := dropCount + 1;
        return false;
      }
      buffer[currentWrite] := item;
      writePos := nextWrite;
      accepted := accepted + [item];
      pushCount := pushCount + 1;
      return true;
    }

    method Pop() returns (ok: bool, item: T)
      requires Valid()
      modifies this`readPos, this`popCount, this`popped
      ensures Valid()
      ensures ok == (old(Contents()) != [])
      ensures ok ==> item == old(Contents())[0] && Contents() == old(Contents())[1..]
      ensures !ok ==> Contents() == old(Contents())
      ensures popCount == old(popCount) + if ok then 1 else 0
    {
      item := buffer[0];
      var currentRead := readPos;
      PopAlone(Snapshot(), if currentRead < buffer.Length then buffer[currentRead] else item);
      var currentWrite := writePos;
      if currentRead == currentWrite {
        return false, item;
      }
      item := buffer[currentRead];
      ghost var s := Snapshot();
      assert s.buffer[currentRead := item] == s.buffer;
      readPos := And(currentRead + 1, mask);
      popped := popped + [item];
      popCount := popCount + 1;
      return true, item;
    }

    method Size() returns (n: nat)
      requires Valid()
      ensures n == |Contents()|
    {
      SizeIsHeld(|accepted|, |popped|, capacity);
      var currentRead := readPos;
      var currentWrite := writePos;
      if currentWrite >= currentRead {
        n := currentWrite - currentRead;
      } else {
        n := (capacity - currentRead) + currentWrite;
      }
    }

    method Empty() returns (b: bool)
      requires Valid()
      ensures b == (Contents() == [])
    {
      ModSame(|popped|, |accepted|, capacity);
      b := readPos == writePos;
    }

    method Clear()
      requires Valid()
      modifies this`readPos, this`popCount, this`popped
      ensures Valid() && Contents() == []
    {
      var ok, item := Pop();
      while ok
        invariant Valid() && (!ok ==> Contents() == [])
        decreases ok, |Contents()|
      {
        ok, item := Pop();
      }
    }
  }
}
