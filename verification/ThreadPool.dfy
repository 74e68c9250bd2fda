/** SupervisedThreadPool between start and stop: submitters, workers and the supervisor, each step
    that another thread can come between being a step of its own. Waits may end spuriously, and a
    worker may leave by an exception out of its wait or out of its error logging. */
module ThreadPool {
  import opened Wrappers

  type Tid = nat
  type Wid = nat
  type Task = nat

  datatype WorkerPc =
    | Top                       // at the test of running
    | WantLock
    | LoopTest                  // holds the task mutex, at the wait loop
    | Sleeping                  // inside wait
    | PostTest                  // holds the task mutex, after the wait loop
    | Holding(task: Task)       // has taken a task
    | Running(task: Task)
    | Leaving                   // left the loop, exit notice not yet given
    | Notified
    | Gone

  datatype Thread = Thread(wid: Wid, pc: WorkerPc)

  datatype SupervisorPc =
    | STop | SWantLock | STest | SSleeping | SPost
    | SGot(id: Wid)             // has taken a finished id
    | SJoined(id: Wid)          // its thread is over
    | SSpawning(id: Wid)
    | SGone

  /** The pool, its threads by identity, its slots, and the history of its tasks. */
  datatype Pool = Pool(
    running: bool, cap: nat, tasks: seq<Task>, tasksLock: Option<Tid>,
    finishedIds: seq<Wid>, finishedLock: bool,
    threads: map<Tid, Thread>, slots: seq<Tid>, sup: SupervisorPc,
    submitting: map<nat, Task>, nextTask: Task,
    accepted: seq<Task>, taken: seq<Task>, started: seq<Task>, over: set<Task>)

  datatype Act =
    | SubmitCheck(sub: nat) | SubmitPush(sub: nat)
    | WTop(tid: Tid) | WLock(tid: Tid) | WLoopTest(tid: Tid) | WWake(tid: Tid) | WInterrupted(tid: Tid)
    | WPostTest(tid: Tid) | WStart(tid: Tid) | WFinish(tid: Tid, escapes: bool)
    | WNotify(tid: Tid, lost: bool) | WEnd(tid: Tid)
    | STopTest | SLock | STestStep | SWake | SPostTest | SSkip | SJoin | SCheck | SSpawn(newTid: Tid)
    | Stop

  predicate At(p: Pool, tid: Tid, pc: WorkerPc) { tid in p.threads && p.threads[tid].pc == pc }

  predicate Enabled(p: Pool, a: Act)
  {
    match a
    case SubmitCheck(sub) => sub !in p.submitting && p.running
    case SubmitPush(sub) => sub in p.submitting && p.tasksLock.None?
    case WTop(t) => At(p, t, Top)
    case WLock(t) => At(p, t, WantLock) && p.tasksLock.None?
    case WLoopTest(t) => At(p, t, LoopTest)
    case WWake(t) => At(p, t, Sleeping)
    case WInterrupted(t) => At(p, t, Sleeping)
    case WPostTest(t) => At(p, t, PostTest)
    case WStart(t) => t in p.threads && p.threads[t].pc.Holding?
    case WFinish(t, _) => t in p.threads && p.threads[t].pc.Running?
    case WNotify(t, _) => At(p, t, Leaving) && !p.finishedLock
    case WEnd(t) => At(p, t, Notified)
    case STopTest => p.sup.STop?
    case SLock => p.sup.SWantLock? && !p.finishedLock
    case STestStep => p.sup.STest?
    case SWake => p.sup.SSleeping?
    case SPostTest => p.sup.SPost?
    case SSkip => p.sup.SGot? && p.sup.id >= |p.slots|
    case SJoin => p.sup.SGot? && p.sup.id < |p.slots| && At(p, p.slots[p.sup.id], Gone)
    case SCheck => p.sup.SJoined?
    case SSpawn(newTid) => p.sup.SSpawning? && p.sup.id < |p.slots| && newTid !in p.threads
    case Stop => p.running
  }

  function Goto(p: Pool, t: Tid, pc: WorkerPc): Pool
    requires t in p.threads
  {
    p.(threads := p.threads[t := p.threads[t].(pc := pc)])
  }

  function Apply(p: Pool, a: Act): Pool
    requires Enabled(p, a)
  {
    match a
    case SubmitCheck(sub) => p.(submitting := p.submitting[sub := p.nextTask], nextTask := p.nextTask + 1)
    case SubmitPush(sub) =>
      var task := p.submitting[sub];
      var p1 := p.(submitting := p.submitting - {sub});
      if p.cap > 0 && |p.tasks| >= p.cap then p1
      else p1.(tasks := p.tasks + [task], accepted := p.accepted + [task])
    case WTop(t) => Goto(p, t, if p.running then WantLock else Leaving)
    case WLock(t) => Goto(p.(tasksLock := Some(t)), t, LoopTest)
    case WLoopTest(t) =>
      if p.tasks == [] && p.running then Goto(p.(tasksLock := None), t, Sleeping) else Goto(p, t, PostTest)
    case WWake(t) => Goto(p, t, WantLock)
    case WInterrupted(t) => Goto(p, t, Leaving)
    case WPostTest(t) =>
      var p1 := p.(tasksLock := None);
      if !p.running then Goto(p1, t, Leaving)
      else if p.tasks == [] then Goto(p1, t, Top)
      else Goto(p1.(tasks := p.tasks[1..], taken := p.taken + [p.tasks[0]]), t, Holding(p.tasks[0]))
    case WStart(t) =>
      var task := p.threads[t].pc.task;
      Goto(p.(started := p.started + [task]), t, Running(task))
    case WFinish(t, escapes) =>
      Goto(p.(over := p.over + {p.threads[t].pc.task}), t, if escapes then Leaving else Top)
    case WNotify(t, lost) =>
      Goto(if lost then p else p.(finishedIds := p.finishedIds + [p.threads[t].wid]), t, Notified)
    case WEnd(t) => Goto(p, t, Gone)
    case STopTest => p.(sup := if p.running then SWantLock else SGone)
    case SLock => p.(finishedLock := true, sup := STest)
    case STestStep =>
      if p.finishedIds == [] && p.running then p.(finishedLock := false, sup := SSleeping) else p.(sup := SPost)
    case SWake => p.(sup := SWantLock)
    case SPostTest =>
      if !p.running then p.(finishedLock := false, sup := SGone)
      else if p.finishedIds == [] then p.(finishedLock := false, sup := STop)
      else p.(finishedLock := false, sup := SGot(p.finishedIds[0]), finishedIds := p.finishedIds[1..])
    case SSkip => p.(sup := STop)
    case SJoin => p.(sup := SJoined(p.sup.id))
    case SCheck => p.(sup := if p.running then SSpawning(p.sup.id) else SGone)
    case SSpawn(newTid) =>
      p.(sup := STop, slots := p.slots[p.sup.id := newTid], threads := p.threads[newTid := Thread(p.sup.id, Top)])
    case Stop => p.(running := false)
  }

  ghost predicate NoDup(s: seq<Task>) { forall i, j :: 0 <= i < j < |s| ==> s[i] != s[j] }

  /** What start() sets up. Tasks queued earlier and exit notices of an earlier run may be left. */
  ghost predicate Started(p: Pool, n: nat)
  {
    p.running && p.tasksLock.None? && !p.finishedLock && p.sup.STop? && p.submitting == map[] &&
    |p.slots| == n && (forall i :: 0 <= i < n ==> p.slots[i] == i) &&
    (forall t: Tid :: t in p.threads <==> t < n) && (forall t :: t in p.threads ==> p.threads[t] == Thread(t, Top)) &&
    p.taken == [] && p.started == [] && p.over == {} && p.accepted == p.tasks && NoDup(p.tasks) &&
    (forall t :: t in p.tasks ==> t < p.nextTask) && (p.cap > 0 ==> |p.tasks| <= p.cap)
  }

  ghost predicate CanRun(p: Pool, acts: seq<Act>)
    decreases |acts|
  {
    acts == [] || (Enabled(p, acts[0]) && CanRun(Apply(p, acts[0]), acts[1..]))
  }

  ghost function Run(p: Pool, acts: seq<Act>): Pool
    requires CanRun(p, acts)
    decreases |acts|
  {
    if acts == [] then p else Run(Apply(p, acts[0]), acts[1..])
  }

  // ----- invariant: tasks -----

  predicate InHand(p: Pool, t: Tid, task: Task)
  {
    t in p.threads && (p.threads[t].pc == Holding(task) || p.threads[t].pc == Running(task))
  }

  ghost predicate QueueInv(p: Pool)
  {
    p.accepted == p.taken + p.tasks && NoDup(p.accepted) &&
    (forall t :: t in p.accepted ==> t < p.nextTask) &&
    (forall s :: s in p.submitting ==> p.submitting[s] < p.nextTask && p.submitting[s] !in p.accepted) &&
    (forall s, r :: s in p.submitting && r in p.submitting && s != r ==> p.submitting[s] != p.submitting[r]) &&
    (p.cap > 0 ==> |p.tasks| <= p.cap)
  }

  ghost predicate HandsInv(p: Pool)
  {
    NoDup(p.started) &&
    (forall t, task :: InHand(p, t, task) ==> task in p.taken && task !in p.over) &&
    (forall t, u, task :: InHand(p, t, task) && InHand(p, u, task) ==> t == u) &&
    (forall task :: task in p.taken ==> task in p.over || exists t :: InHand(p, t, task)) &&
    (forall task :: task in p.over ==> task in p.taken && task in p.started) &&
    (forall task :: task in p.started ==> task in p.over || exists t :: At(p, t, Running(task))) &&
    (forall t, task :: At(p, t, Running(task)) ==> task in p.started)
  }

  // ----- invariant: threads -----

  ghost predicate ThreadsInv(p: Pool)
  {
    (forall i :: 0 <= i < |p.slots| ==> p.slots[i] in p.threads && p.threads[p.slots[i]].wid == i) &&
    (forall t :: t in p.threads && !p.threads[t].pc.Gone? ==>
       p.threads[t].wid < |p.slots| && p.slots[p.threads[t].wid] == t) &&
    (p.sup.SJoined? || p.sup.SSpawning? ==> p.sup.id < |p.slots| && At(p, p.slots[p.sup.id], Gone)) &&
    (p.finishedLock <==> p.sup.STest? || p.sup.SPost?) && (p.tasksLock.Some? ==> p.tasksLock.value in p.threads) &&
    (forall t :: t in p.threads ==>
        (p.threads[t].pc.LoopTest? || p.threads[t].pc.PostTest? <==> p.tasksLock == Some(t)))
  }

  ghost predicate Inv(p: Pool) { QueueInv(p) && HandsInv(p) && ThreadsInv(p) }

  // ----- the thread side -----

  predicate IsWorkerAct(a: Act)
  {
    a.WTop? || a.WLock? || a.WLoopTest? || a.WWake? || a.WInterrupted? || a.WPostTest? || a.WStart? || a.WFinish? ||
    a.WNotify? || a.WEnd?
  }

  /** A thread that is not over moves on, entering or leaving the critical section with the lock. */
  lemma {:induction false} GotoThreads(p: Pool, q: Pool, t: Tid, pc: WorkerPc)
    requires ThreadsInv(p) && t in p.threads && !p.threads[t].pc.Gone?
    requires q.threads == p.threads[t := p.threads[t].(pc := pc)] && q.slots == p.slots && q.sup == p.sup &&
        q.finishedLock == p.finishedLock
    requires q.tasksLock == p.tasksLock || (p.tasksLock.None? && q.tasksLock == Some(t)) ||
        (p.tasksLock == Some(t) && q.tasksLock.None?)
    requires pc.LoopTest? || pc.PostTest? <==> q.tasksLock == Some(t)
    ensures ThreadsInv(q)
  {
    assert p.slots[p.threads[t].wid] == t;
  }

  lemma {:induction false} WorkerThreads(p: Pool, a: Act)
    requires ThreadsInv(p) && Enabled(p, a) && IsWorkerAct(a)
    ensures ThreadsInv(Apply(p, a))
  {
    var q := Apply(p, a);
    assert q.threads[a.tid].pc.LoopTest? || q.threads[a.tid].pc.PostTest? <==> q.tasksLock == Some(a.tid);
    GotoThreads(p, q, a.tid, q.threads[a.tid].pc);
  }

  lemma {:induction false} SpawnThreads(p: Pool, newTid: Tid)
    requires ThreadsInv(p) && Enabled(p, SSpawn(newTid))
    ensures ThreadsInv(Apply(p, SSpawn(newTid)))
  {
    var q := Apply(p, SSpawn(newTid));
    var id := p.sup.id;
    forall t | t in p.threads && !p.threads[t].pc.Gone? ensures p.threads[t].wid != id {
      assert p.slots[p.threads[t].wid] == t;
    }
    assert q.threads == p.threads[newTid := Thread(id, Top)] && q.slots == p.slots[id := newTid];
    assert q.tasksLock == p.tasksLock && q.sup == STop && q.finishedLock == p.finishedLock;
    hide Apply, Enabled;
  }

  lemma SameThreads(p: Pool, q: Pool)
    requires ThreadsInv(p) && q.threads == p.threads && q.slots == p.slots && q.tasksLock == p.tasksLock
    requires q.finishedLock <==> q.sup.STest? || q.sup.SPost?
    requires q.sup.SJoined? || q.sup.SSpawning? ==> q.sup.id < |q.slots| && At(q, q.slots[q.sup.id], Gone)
    ensures ThreadsInv(q)
  {
  }

  lemma {:induction false} OtherThreads(p: Pool, a: Act)
    requires ThreadsInv(p) && Enabled(p, a) && !IsWorkerAct(a)
    ensures ThreadsInv(Apply(p, a))
  {
    if a.SSpawn? {
      SpawnThreads(p, a.newTid);
    } else {
      var q := Apply(p, a);
      assert q.threads == p.threads && q.slots == p.slots && q.tasksLock == p.tasksLock;
      assert q.finishedLock <==> q.sup.STest? || q.sup.SPost?;
      assert q.sup.SJoined? || q.sup.SSpawning? ==> q.sup.id < |q.slots| && At(q, q.slots[q.sup.id], Gone);
      SameThreads(p, q);
    }
  }

  // ----- queue and hands -----

  lemma {:induction false} PopQueue(p: Pool, q: Pool)
    requires QueueInv(p) && p.tasks != []
    requires q.tasks == p.tasks[1..] && q.taken == p.taken + [p.tasks[0]] && q.accepted == p.accepted &&
        q.cap == p.cap &&
             q.nextTask == p.nextTask && q.submitting == p.submitting
    ensures QueueInv(q) && p.tasks[0] !in p.taken
  {
    assert p.taken + p.tasks == (p.taken + [p.tasks[0]]) + p.tasks[1..];
    assert p.accepted[|p.taken|] == p.tasks[0];
    forall i | 0 <= i < |p.taken| ensures p.taken[i] != p.tasks[0] { assert p.accepted[i] == p.taken[i]; }
  }

  lemma {:induction false} PushQueue(p: Pool, sub: nat)
    requires QueueInv(p) && sub in p.submitting && p.tasksLock.None?
    ensures QueueInv(Apply(p, SubmitPush(sub)))
  {
    var task := p.submitting[sub];
    assert p.taken + (p.tasks + [task]) == p.accepted + [task];
  }

  lemma {:induction false} QueueStep(p: Pool, a: Act)
    requires QueueInv(p) && Enabled(p, a)
    ensures QueueInv(Apply(p, a))
  {
    if a.WPostTest? && p.running && p.tasks != [] {
      PopQueue(p, Apply(p, a));
      hide QueueInv;
    } else if a.SubmitPush? {
      PushQueue(p, a.sub);
      hide QueueInv;
    } else if a.SubmitCheck? {
      NewSubmission(p, a.sub);
      hide QueueInv;
    } else {
      SameQueue(p, Apply(p, a));
      hide QueueInv;
    }
  }

  lemma NewSubmission(p: Pool, sub: nat)
    requires QueueInv(p) && sub !in p.submitting
    ensures QueueInv(p.(submitting := p.submitting[sub := p.nextTask], nextTask := p.nextTask + 1))
  {
  }

  lemma SameQueue(p: Pool, q: Pool)
    requires QueueInv(p) && q.tasks == p.tasks && q.taken == p.taken && q.accepted == p.accepted && q.cap == p.cap
    requires q.nextTask == p.nextTask && q.submitting == p.submitting
    ensures QueueInv(q)
  {
  }

  /** Nothing changes in anybody's hands. */
  ghost predicate SameHands(p: Pool, q: Pool)
  {
    q.taken == p.taken && q.started == p.started && q.over == p.over &&
    (forall t, task :: InHand(q, t, task) <==> InHand(p, t, task)) &&
    (forall t, task :: At(q, t, Running(task)) <==> At(p, t, Running(task)))
  }

  lemma {:induction false} SameHandsInv(p: Pool, q: Pool)
    requires HandsInv(p) && SameHands(p, q)
    ensures HandsInv(q)
  {
    forall task | task in q.taken && task !in q.over ensures exists t :: InHand(q, t, task) {
      var t :| InHand(p, t, task);
      assert InHand(q, t, task);
    }
    forall task | task in q.started && task !in q.over ensures exists t :: At(q, t, Running(task)) {
      var t :| At(p, t, Running(task));
      assert At(q, t, Running(task));
    }
  }

  predicate HasTask(pc: WorkerPc) { pc.Holding? || pc.Running? }

  lemma {:induction false} GotoSame(p: Pool, q: Pool, t: Tid, th: Thread)
    requires HandsInv(p) && q.taken == p.taken && q.started == p.started && q.over == p.over
    requires q.threads == p.threads[t := th] && !HasTask(th.pc) && (t in p.threads ==> !HasTask(p.threads[t].pc))
    ensures HandsInv(q)
  {
    SameHandsInv(p, q);
  }

  lemma {:induction false} TakeHands(p: Pool, q: Pool, t: Tid, task: Task)
    requires HandsInv(p) && t in p.threads && p.threads[t].pc.PostTest? && task !in p.taken
    requires q.threads == p.threads[t := p.threads[t].(pc := Holding(task))]
    requires q.taken == p.taken + [task] && q.started == p.started && q.over == p.over
    ensures HandsInv(q)
  {
    assert InHand(q, t, task);
    forall x | x in p.taken && x !in p.over ensures exists u :: InHand(q, u, x) {
      var u :| InHand(p, u, x);
      assert InHand(q, u, x);
    }
    forall x | x in p.started && x !in p.over ensures exists u :: At(q, u, Running(x)) {
      var u :| At(p, u, Running(x));
      assert At(q, u, Running(x));
    }
    forall u, x | InHand(q, u, x) ensures x in q.taken && x !in q.over &&
        (u != t ==> InHand(p, u, x) && x != task) {
      if u != t { assert InHand(p, u, x); }
    }
    forall u, x | At(q, u, Running(x)) ensures x in q.started { assert At(p, u, Running(x)); }
  }

  lemma {:induction false} StartHands(p: Pool, q: Pool, t: Tid, task: Task)
    requires HandsInv(p) && At(p, t, Holding(task))
    requires q.threads == p.threads[t := p.threads[t].(pc := Running(task))]
    requires q.taken == p.taken && q.started == p.started + [task] && q.over == p.over
    ensures HandsInv(q)
  {
    assert InHand(p, t, task);
    assert task !in p.started by {
      forall u | At(p, u, Running(task)) ensures u == t { assert InHand(p, u, task); }
    }
    forall u, x | InHand(q, u, x) ensures InHand(p, u, x) {}
    forall x | x in p.taken && x !in p.over ensures exists u :: InHand(q, u, x) {
      var u :| InHand(p, u, x);
      assert InHand(q, u, x);
    }
    assert At(q, t, Running(task));
    forall x | x in p.started && x !in p.over ensures exists u :: At(q, u, Running(x)) {
      var u :| At(p, u, Running(x));
      assert At(q, u, Running(x));
    }
    forall u, x | At(q, u, Running(x)) ensures x in q.started { assert u != t ==> At(p, u, Running(x)); }
  }

  lemma {:induction false} FinishHands(p: Pool, q: Pool, t: Tid, task: Task, pc: WorkerPc)
    requires HandsInv(p) && At(p, t, Running(task)) && (pc.Top? || pc.Leaving?)
    requires q.threads == p.threads[t := p.threads[t].(pc := pc)]
    requires q.taken == p.taken && q.started == p.started && q.over == p.over + {task}
    ensures HandsInv(q)
  {
    assert InHand(p, t, task);
    forall u, x | InHand(q, u, x) ensures InHand(p, u, x) && x != task {
      assert InHand(p, u, x) && u != t;
    }
    forall x | x in p.taken && x !in q.over ensures exists u :: InHand(q, u, x) {
      var u :| InHand(p, u, x);
      assert u != t && InHand(q, u, x);
    }
    forall x | x in p.started && x !in q.over ensures exists u :: At(q, u, Running(x)) {
      var u :| At(p, u, Running(x));
      assert u != t && At(q, u, Running(x));
    }
    forall u, x | At(q, u, Running(x)) ensures x in q.started { assert At(p, u, Running(x)); }
  }

  /** The acts that take, start or finish a task. */
  predicate IsTaskAct(p: Pool, a: Act) { (a.WPostTest? && p.running && p.tasks != []) || a.WStart? || a.WFinish? }

  lemma {:induction false} TaskActHands(p: Pool, a: Act)
    requires QueueInv(p) && HandsInv(p) && Enabled(p, a) && IsTaskAct(p, a)
    ensures HandsInv(Apply(p, a))
  {
    hide HandsInv, QueueInv;
    var q := Apply(p, a);
    if a.WPostTest? {
      PopQueue(p, q);
      TakeHands(p, q, a.tid, p.tasks[0]);
    } else if a.WStart? {
      StartHands(p, q, a.tid, p.threads[a.tid].pc.task);
    } else {
      FinishHands(p, q, a.tid, p.threads[a.tid].pc.task, q.threads[a.tid].pc);
    }
  }

  lemma {:induction false} WorkerMoveHands(p: Pool, a: Act)
    requires HandsInv(p) && Enabled(p, a) && IsWorkerAct(a) && !IsTaskAct(p, a)
    ensures HandsInv(Apply(p, a))
  {
    hide HandsInv;
    var q := Apply(p, a);
    GotoSame(p, q, a.tid, q.threads[a.tid]);
  }

  lemma {:induction false} OtherHands(p: Pool, a: Act)
    requires HandsInv(p) && Enabled(p, a) && !IsWorkerAct(a)
    ensures HandsInv(Apply(p, a))
  {
    hide HandsInv;
    var q := Apply(p, a);
    if a.SSpawn? { GotoSame(p, q, a.newTid, q.threads[a.newTid]); } else { SameHandsInv(p, q); }
  }

  lemma {:induction false} StepInv(p: Pool, a: Act)
    requires Inv(p) && Enabled(p, a)
    ensures Inv(Apply(p, a)) && Apply(p, a).cap == p.cap
  {
    QueueStep(p, a);
    if IsTaskAct(p, a) {
      TaskActHands(p, a);
    } else if IsWorkerAct(a) {
      WorkerMoveHands(p, a);
    } else {
      OtherHands(p, a);
    }
    if IsWorkerAct(a) { WorkerThreads(p, a); } else { OtherThreads(p, a); }
    hide QueueInv, HandsInv, ThreadsInv, Enabled;
  }

  lemma {:induction false} RunInv(p: Pool, acts: seq<Act>)
    requires Inv(p) && CanRun(p, acts)
    ensures Inv(Run(p, acts)) && Run(p, acts).cap == p.cap
    decreases |acts|
  {
    if acts != [] {
      StepInv(p, acts[0]);
      RunInv(Apply(p, acts[0]), acts[1..]);
    }
  }

  lemma {:induction false} StartedInv(p: Pool, n: nat)
    requires Started(p, n)
    ensures Inv(p)
  {
    assert p.taken + p.tasks == p.tasks;
  }

  // ----- the promises, over every run -----

  /** Every accepted task is in exactly one place: the queue, one worker's hands, or over. */
  lemma {:induction false} TasksConserved(p: Pool, n: nat, acts: seq<Act>, task: Task)
    requires Started(p, n) && CanRun(p, acts)
    ensures var q := Run(p, acts);
            (task in q.accepted <==> task in q.tasks || task in q.over || exists t :: InHand(q, t, task)) &&
            !(task in q.tasks && task in q.over) &&
            (forall t :: InHand(q, t, task) ==> task !in q.tasks && task !in q.over) &&
            (forall t, u :: InHand(q, t, task) && InHand(q, u, task) ==> t == u)
  {
    StartedInv(p, n);
    RunInv(p, acts);
    var q := Run(p, acts);
    if task in q.tasks { NotBoth(q, task); }
  }

  lemma NotBoth(q: Pool, task: Task)
    requires QueueInv(q) && task in q.tasks
    ensures task !in q.taken
  {
    var j :| 0 <= j < |q.tasks| && q.tasks[j] == task;
    assert q.accepted[|q.taken| + j] == task;
    forall i | 0 <= i < |q.taken| ensures q.taken[i] != task { assert q.accepted[i] == q.taken[i]; }
  }

  /** Tasks leave the queue in the order in which they were accepted, each starts at most once and
      only after it was taken, and a fixed bound on the queue is never exceeded. */
  lemma {:induction false} FifoAndBounded(p: Pool, n: nat, acts: seq<Act>)
    requires Started(p, n) && CanRun(p, acts)
    ensures var q := Run(p, acts);
            q.taken <= q.accepted && q.accepted == q.taken + q.tasks && NoDup(q.accepted) && NoDup(q.started) &&
            (forall task :: task in q.started ==> task in q.taken) &&
            (p.cap > 0 ==> |q.tasks| <= p.cap)
  {
    StartedInv(p, n);
    RunInv(p, acts);
    var q := Run(p, acts);
    forall task | task in q.started ensures task in q.taken {
      if task !in q.over {
        var t :| At(q, t, Running(task));
        assert InHand(q, t, task);
      }
    }
  }

  predicate Live(q: Pool, t: Tid) { t in q.threads && !q.threads[t].pc.Gone? }

  /** No worker id ever has two threads that are not over. */
  lemma {:induction false} OneLiveThreadPerWorker(p: Pool, n: nat, acts: seq<Act>, t: Tid, u: Tid)
    requires Started(p, n) && CanRun(p, acts)
    ensures var q := Run(p, acts);
            Live(q, t) && Live(q, u) && q.threads[t].wid == q.threads[u].wid ==> t == u
  {
    StartedInv(p, n);
    RunInv(p, acts);
  }

  predicate IsSupervisorAct(a: Act)
  {
    a.STopTest? || a.SLock? || a.STestStep? || a.SWake? || a.SPostTest? || a.SSkip? || a.SJoin? ||
    a.SCheck? || a.SSpawn?
  }

  /** A supervisor that has taken the id of a worker whose thread is not over can take no step until
      that thread ends. */
  lemma {:induction false} SupervisorBlocked(p: Pool, a: Act)
    requires Inv(p) && p.sup.SGot? && p.sup.id < |p.slots| && IsSupervisorAct(a)
    ensures Enabled(p, a) <==> a.SJoin? && p.threads[p.slots[p.sup.id]].pc.Gone?
  {
  }

  /** The exit notices under way: the one the supervisor has taken, and the queue. */
  function Notices(p: Pool): seq<Wid>
  {
    (if p.sup.SGot? || p.sup.SJoined? || p.sup.SSpawning? then [p.sup.id] else []) + p.finishedIds
  }

  predicate HasLeft(p: Pool, id: Wid)
  {
    id < |p.slots| && p.slots[id] in p.threads &&
    (p.threads[p.slots[id]].pc.Notified? || p.threads[p.slots[id]].pc.Gone?)
  }

  /** Each notice under way for one of the n workers is the only one, and that worker has left. */
  ghost predicate NoticeInv(p: Pool, n: nat)
  {
    |p.slots| == n && (forall i :: 0 <= i < |Notices(p)| && Notices(p)[i] < n ==> HasLeft(p, Notices(p)[i])) &&
    forall i, j :: 0 <= i < j < |Notices(p)| && Notices(p)[i] < n ==> Notices(p)[i] != Notices(p)[j]
  }

  lemma NoticesMove(p: Pool, q: Pool, n: nat)
    requires NoticeInv(p, n) && Notices(q) == Notices(p) && |q.slots| == n
    requires forall id :: HasLeft(p, id) ==> HasLeft(q, id)
    ensures NoticeInv(q, n)
  {
  }

  /** The first notice is dealt with; the others are for other workers. */
  lemma NoticesDrop(p: Pool, q: Pool, n: nat)
    requires NoticeInv(p, n) && Notices(p) != [] && Notices(q) == Notices(p)[1..] && |q.slots| == n
    requires forall id :: HasLeft(p, id) && id != Notices(p)[0] ==> HasLeft(q, id)
    requires Notices(p)[0] < n || forall id :: HasLeft(p, id) ==> HasLeft(q, id)
    ensures NoticeInv(q, n)
  {
    assert forall i :: 0 <= i < |Notices(q)| ==> Notices(q)[i] == Notices(p)[i + 1];
  }

  /** A thread that had not left moves on, and a worker that had stays so. */
  lemma MovedLeft(p: Pool, q: Pool, t: Tid)
    requires t in p.threads && p.threads[t].wid < |p.slots| && p.slots[p.threads[t].wid] == t
    requires q.slots == p.slots && q.threads.Keys == p.threads.Keys
    requires forall u :: u in p.threads && u != t ==> q.threads[u] == p.threads[u]
    requires p.threads[t].pc.Notified? || p.threads[t].pc.Gone? ==> q.threads[t].pc.Notified? || q.threads[t].pc.Gone?
    ensures forall id :: HasLeft(p, id) ==> HasLeft(q, id)
  {
  }

  lemma {:induction false} WorkerNotices(p: Pool, a: Act, n: nat)
    requires ThreadsInv(p) && NoticeInv(p, n) && Enabled(p, a) && IsWorkerAct(a)
    ensures NoticeInv(Apply(p, a), n)
  {
    hide NoticeInv, HasLeft;
    var q := Apply(p, a);
    var t := a.tid;
    assert p.threads[t].wid < |p.slots| && p.slots[p.threads[t].wid] == t;
    hide ThreadsInv;
    assert q.threads == p.threads[t := q.threads[t]] && q.slots == p.slots;
    MovedLeft(p, q, t);
    SlotCount(p, n);
    if a.WNotify? && !a.lost {
      NotifyNotices(p, t, n);
    } else {
      assert Notices(q) == Notices(p);
      hide Apply, Enabled, Notices;
      NoticesMove(p, q, n);
    }
  }

  lemma NotifyNotices(p: Pool, t: Tid, n: nat)
    requires NoticeInv(p, n) && Enabled(p, WNotify(t, false))
    requires p.threads[t].wid < |p.slots| && p.slots[p.threads[t].wid] == t
    ensures NoticeInv(Apply(p, WNotify(t, false)), n)
  {
    var q := Apply(p, WNotify(t, false));
    assert Notices(q) == Notices(p) + [p.threads[t].wid];
    MovedLeft(p, q, t);
    PushedNotice(p, q, n, p.threads[t].wid);
  }

  /** A worker that had not left gives its notice. */
  lemma PushedNotice(p: Pool, q: Pool, n: nat, wid: Wid)
    requires NoticeInv(p, n) && Notices(q) == Notices(p) + [wid] && |q.slots| == n
    requires forall id :: HasLeft(p, id) ==> HasLeft(q, id)
    requires !HasLeft(p, wid) && HasLeft(q, wid)
    ensures NoticeInv(q, n)
  {
    assert forall i :: 0 <= i < |Notices(p)| ==> Notices(q)[i] == Notices(p)[i];
  }

  lemma {:induction false} OtherNotices(p: Pool, a: Act, n: nat)
    requires ThreadsInv(p) && NoticeInv(p, n) && Enabled(p, a) && !IsWorkerAct(a)
    ensures NoticeInv(Apply(p, a), n)
  {
    hide ThreadsInv, NoticeInv;
    var q := Apply(p, a);
    assert forall id :: HasLeft(p, id) && q.threads == p.threads && q.slots == p.slots ==> HasLeft(q, id);
    hide HasLeft;
    if a.SSpawn? {
      SpawnNotices(p, a.newTid, n);
    } else if a.SSkip? || (a.SCheck? && !p.running) {
      assert Notices(q) == Notices(p)[1..] && q.slots == p.slots && q.threads == p.threads;
      SlotCount(p, n);
      hide Notices;
      NoticesDrop(p, q, n);
    } else {
      assert Notices(q) == Notices(p) && q.slots == p.slots && q.threads == p.threads;
      SlotCount(p, n);
      hide Notices;
      NoticesMove(p, q, n);
    }
  }

  lemma SlotCount(p: Pool, n: nat)
    requires NoticeInv(p, n)
    ensures |p.slots| == n
  {
  }

  lemma SpawnNotices(p: Pool, newTid: Tid, n: nat)
    requires ThreadsInv(p) && NoticeInv(p, n) && Enabled(p, SSpawn(newTid))
    ensures NoticeInv(Apply(p, SSpawn(newTid)), n)
  {
    hide ThreadsInv;
    var q := Apply(p, SSpawn(newTid));
    SpawnedLeft(p, q, newTid);
    SlotCount(p, n);
    hide NoticeInv, HasLeft;
    assert Notices(q) == Notices(p)[1..] && Notices(p)[0] == p.sup.id;
    NoticesDrop(p, q, n);
  }

  lemma SpawnedLeft(p: Pool, q: Pool, newTid: Tid)
    requires newTid !in p.threads && p.sup.SSpawning? && p.sup.id < |p.slots|
    requires q.slots == p.slots[p.sup.id := newTid] && q.threads == p.threads[newTid := Thread(p.sup.id, Top)]
    ensures forall id: nat :: HasLeft(p, id) && id != p.sup.id ==> HasLeft(q, id)
  {
  }

  lemma {:induction false} RunNotices(p: Pool, acts: seq<Act>, n: nat)
    requires Inv(p) && NoticeInv(p, n) && CanRun(p, acts)
    ensures NoticeInv(Run(p, acts), n)
    decreases |acts|
  {
    if acts != [] {
      StepInv(p, acts[0]);
      if IsWorkerAct(acts[0]) { WorkerNotices(p, acts[0], n); } else { OtherNotices(p, acts[0], n); }
      RunNotices(Apply(p, acts[0]), acts[1..], n);
    }
  }

  /** The supervisor has taken the id of a worker that has not left, and waits for it. */
  predicate WaitsOnWorker(p: Pool) { p.sup.SGot? && p.sup.id < |p.slots| && !HasLeft(p, p.sup.id) }

  ghost predicate CanCome(p: Pool)
  {
    exists acts :: CanRun(p, acts) && WaitsOnWorker(Run(p, acts))
  }

  predicate Leftover(p: Pool, n: nat) { exists i :: 0 <= i < |p.finishedIds| && p.finishedIds[i] < n }

  /** Some run makes the supervisor wait for a worker that has not left, if and only if an exit notice
      for one of the workers is left over from before the start. */
  lemma {:induction false} SupervisorWaitsExactly(p: Pool, n: nat)
    requires Started(p, n)
    ensures CanCome(p) <==> Leftover(p, n)
  {
    if Leftover(p, n) {
      var acts := StaleNoticeBlocks(p, n);
    } else {
      StartedInv(p, n);
      assert Notices(p) == p.finishedIds;
      forall acts | CanRun(p, acts) ensures !WaitsOnWorker(Run(p, acts)) {
        RunNotices(p, acts, n);
        var q := Run(p, acts);
        if q.sup.SGot? { assert Notices(q)[0] == q.sup.id; }
      }
    }
  }

  /** The supervisor alone gets there, past the notices for workers the pool does not have. */
  lemma {:induction false} StaleNoticeBlocks(p: Pool, n: nat) returns (acts: seq<Act>)
    requires Started(p, n) && Leftover(p, n)
    ensures CanRun(p, acts) && WaitsOnWorker(Run(p, acts))
    ensures At(Run(p, acts), Run(p, acts).slots[Run(p, acts).sup.id], Top)
    decreases |p.finishedIds|
  {
    var p1 := p.(sup := SWantLock);
    var p2 := p1.(finishedLock := true, sup := STest);
    var p3 := p2.(sup := SPost);
    var p4 := p3.(finishedLock := false, sup := SGot(p.finishedIds[0]), finishedIds := p.finishedIds[1..]);
    StaleSteps(p, n);
    var rest: seq<Act> := [];
    assert CanRun(p4, []) && Run(p4, []) == p4;
    if p.finishedIds[0] >= n {
      var p5 := p.(finishedIds := p.finishedIds[1..]);
      assert Enabled(p4, SSkip) && Apply(p4, SSkip) == p5;
      LeftoverBehind(p, n);
      rest := StaleNoticeBlocks(p5, n);
      RunCons(p4, SSkip, rest);
      rest := [SSkip] + rest;
    }
    hide CanRun, Run, Apply, Enabled;
    RunCons(p3, SPostTest, rest);
    RunCons(p2, STestStep, [SPostTest] + rest);
    RunCons(p1, SLock, [STestStep] + ([SPostTest] + rest));
    RunCons(p, STopTest, [SLock] + ([STestStep] + ([SPostTest] + rest)));
    acts := [STopTest] + ([SLock] + ([STestStep] + ([SPostTest] + rest)));
  }

  lemma LeftoverBehind(p: Pool, n: nat)
    requires Leftover(p, n) && p.finishedIds[0] >= n
    ensures Leftover(p.(finishedIds := p.finishedIds[1..]), n)
  {
    var i :| 0 <= i < |p.finishedIds| && p.finishedIds[i] < n;
    assert p.finishedIds[1..][i - 1] == p.finishedIds[i];
  }

  lemma StaleSteps(p: Pool, n: nat)
    requires Started(p, n) && p.finishedIds != []
    ensures var p1 := p.(sup := SWantLock);
            var p2 := p1.(finishedLock := true, sup := STest);
            var p3 := p2.(sup := SPost);
            var p4 := p3.(finishedLock := false, sup := SGot(p.finishedIds[0]), finishedIds := p.finishedIds[1..]);
            Enabled(p, STopTest) && Apply(p, STopTest) == p1 &&
            Enabled(p1, SLock) && Apply(p1, SLock) == p2 &&
            Enabled(p2, STestStep) && Apply(p2, STestStep) == p3 &&
            Enabled(p3, SPostTest) && Apply(p3, SPostTest) == p4 &&
            (p.finishedIds[0] < n ==> At(p4, p4.slots[p.finishedIds[0]], Top) && WaitsOnWorker(p4))
  {
  }

  lemma RunCons(p: Pool, a: Act, rest: seq<Act>)
    requires Enabled(p, a) && CanRun(Apply(p, a), rest)
    ensures CanRun(p, [a] + rest) && Run(p, [a] + rest) == Run(Apply(p, a), rest)
  {
    assert ([a] + rest)[1..] == rest;
  }

  function FirstThreads(n: nat): (threads: map<Tid, Thread>)
    ensures forall t: Tid :: t in threads <==> t < n
    ensures forall t :: t in threads ==> threads[t] == Thread(t, Top)
  {
    if n == 0 then map[] else FirstThreads(n - 1)[n - 1 := Thread(n - 1, Top)]
  }

  function FirstSlots(n: nat): (slots: seq<Tid>)
    ensures |slots| == n && forall i :: 0 <= i < n ==> slots[i] == i
  {
    if n == 0 then [] else FirstSlots(n - 1) + [n - 1]
  }

  /** The pool's shared fields; rest holds its threads and its history. Each method is a critical
      section that one thread runs alone. */
  class SupervisedThreadPool {
    var running: bool
    var maxQueueSize: nat
    var tasks: seq<Task>
    var finishedIds: seq<Wid>
    ghost var rest: Pool

    ghost function Snapshot(): Pool
      reads this
    {
      rest.(running := running, cap := maxQueueSize, tasks := tasks, finishedIds := finishedIds)
    }

    /** The pool as its first start leaves it. */
    constructor (n: nat, maxSize: nat)
      ensures Started(Snapshot(), n) && Inv(Snapshot())
      ensures maxQueueSize == maxSize && tasks == [] && !Leftover(Snapshot(), n)
    {
      running, maxQueueSize, tasks, finishedIds := true, maxSize, [], [];
      rest := Pool(true, maxSize, [], None, [], false, FirstThreads(n), FirstSlots(n), STop, map[], 0, [], [], [], {});
      new;
      StartedInv(Snapshot(), n);
    }

    /** submit(): None is the empty function object; a task is known by its number. */
    method Submit(task: Option<Task>, ghost sub: nat) returns (ok: bool)
      requires Inv(Snapshot()) && rest.tasksLock.None? && sub !in rest.submitting
      requires task.Some? ==> task.value == rest.nextTask
      modifies `tasks, `rest
      ensures Inv(Snapshot())
      ensures ok <==> task.Some? && running && (maxQueueSize == 0 || |old(tasks)| < maxQueueSize)
      ensures tasks == if ok then old(tasks) + [task.value] else old(tasks)
      ensures Snapshot() == if task.Some? && running
                            then Apply(Apply(old(Snapshot()), SubmitCheck(sub)), SubmitPush(sub))
                            else old(Snapshot())
    {
      hide Inv;
      if task.None? || !running { return false; }
      ghost var p := Snapshot();
      ghost var p1 := Apply(p, SubmitCheck(sub));
      StepInv(p, SubmitCheck(sub));
      StepInv(p1, SubmitPush(sub));
      rest := Apply(p1, SubmitPush(sub));
      if maxQueueSize > 0 && |tasks| >= maxQueueSize { return false; }
      tasks := tasks + [task.value];
      return true;
    }

    /** A worker's critical section once its wait is over: it leaves, finds nothing, or takes the
        earliest accepted task not yet taken. */
    method Fetch(ghost t: Tid) returns (leaves: bool, task: Option<Task>)
      requires Inv(Snapshot()) && At(Snapshot(), t, PostTest)
      modifies `tasks, `rest
      ensures Inv(Snapshot()) && Snapshot() == Apply(old(Snapshot()), WPostTest(t))
      ensures leaves <==> !running
      ensures task.Some? <==> running && old(tasks) != []
      ensures task.Some? ==> |old(rest.taken)| < |rest.accepted| &&
                             task.value == rest.accepted[|old(rest.taken)|]
    {
      ghost var p := Snapshot();
      StepInv(p, WPostTest(t));
      assert p.tasks != [] ==> p.accepted[|p.taken|] == p.tasks[0];
      hide Inv;
      rest := Apply(p, WPostTest(t));
      if !running { return true, None; }
      if tasks == [] { return false, None; }
      task := Some(tasks[0]);
      tasks := tasks[1..];
      return false, task;
    }

    /** pushFinished(): the exit notice of a worker on its way out. */
    method PushFinished(id: Wid, ghost t: Tid)
      requires Inv(Snapshot()) && At(Snapshot(), t, Leaving) && !rest.finishedLock && rest.threads[t].wid == id
      modifies `finishedIds, `rest
      ensures Inv(Snapshot()) && Snapshot() == Apply(old(Snapshot()), WNotify(t, false))
      ensures HasLeft(Snapshot(), id) && !HasLeft(old(Snapshot()), id)
    {
      ghost var p := Snapshot();
      StepInv(p, WNotify(t, false));
      assert p.slots[id] == t;
      hide Inv;
      rest := Apply(p, WNotify(t, false));
      finishedIds := finishedIds + [id];
    }

    /** The supervisor's critical section once its wait is over. */
    method TakeFinished() returns (leaves: bool, id: Option<Wid>)
      requires Inv(Snapshot()) && rest.sup.SPost?
      modifies `finishedIds, `rest
      ensures Inv(Snapshot()) && Snapshot() == Apply(old(Snapshot()), SPostTest)
      ensures leaves <==> !running
      ensures id.Some? <==> running && old(finishedIds) != []
      ensures old(finishedIds) == (if id.Some? then [id.value] else []) + finishedIds
    {
      ghost var p := Snapshot();
      StepInv(p, SPostTest);
      hide Inv;
      rest := Apply(p, SPostTest);
      if !running { return true, None; }
      if finishedIds == [] { return false, None; }
      id := Some(finishedIds[0]);
      finishedIds := finishedIds[1..];
      return false, id;
    }
  }
}
