/** What the pool can still do from every state that its runs reach: queued tasks can run, workers
    that left can be replaced, and after the stop every thread can end. */
module PoolProgress {
  import opened Wrappers
  import opened ThreadPool

  // ----- critical sections -----

  /** Whoever is inside a critical section is the only one to change what its mutex guards. */
  lemma CriticalSections(p: Pool, a: Act)
    requires Inv(p) && Enabled(p, a)
    ensures p.tasksLock.Some? && Apply(p, a).tasks != p.tasks ==> a == WPostTest(p.tasksLock.value)
    ensures p.finishedLock && Apply(p, a).finishedIds != p.finishedIds ==> a == SPostTest
  {
  }

  /** While the pool runs, whoever is past its wait has something to take. */
  ghost predicate WaitsWell(p: Pool)
  {
    (p.running ==> !p.sup.SGone?) &&
    (p.running && p.tasksLock.Some? && At(p, p.tasksLock.value, PostTest) ==> p.tasks != []) &&
    (p.running && p.sup.SPost? ==> p.finishedIds != [])
  }

  lemma WorkerWaitsWell(p: Pool, a: Act)
    requires ThreadsInv(p) && WaitsWell(p) && Enabled(p, a) && IsWorkerAct(a)
    ensures WaitsWell(Apply(p, a))
  {
  }

  lemma OtherWaitsWell(p: Pool, a: Act)
    requires WaitsWell(p) && Enabled(p, a) && !IsWorkerAct(a)
    requires p.tasksLock.Some? ==> p.tasksLock.value in p.threads
    ensures WaitsWell(Apply(p, a))
  {
  }

  lemma {:induction false} StepWaitsWell(p: Pool, a: Act)
    requires ThreadsInv(p) && WaitsWell(p) && Enabled(p, a)
    ensures WaitsWell(Apply(p, a))
  {
    if IsWorkerAct(a) { WorkerWaitsWell(p, a); } else { OtherWaitsWell(p, a); }
    hide Apply, Enabled, WaitsWell;
  }

  /** Over every run a worker or supervisor that leaves its wait loop while the pool runs finds an
      entry, so neither ever goes round for nothing, and the supervisor stays. */
  lemma {:induction false} NoEmptyWake(p: Pool, n: nat, acts: seq<Act>, t: Tid)
    requires Started(p, n) && CanRun(p, acts)
    ensures var q := Run(p, acts);
            q.running ==> !q.sup.SGone? && (At(q, t, PostTest) ==> q.tasks != []) &&
                          (q.sup.SPost? ==> q.finishedIds != [])
  {
    StartedInv(p, n);
    RunInv(p, acts);
    RunWaitsWell(p, acts);
  }

  lemma {:induction false} RunWaitsWell(p: Pool, acts: seq<Act>)
    requires Inv(p) && WaitsWell(p) && CanRun(p, acts)
    ensures WaitsWell(Run(p, acts))
    decreases |acts|
  {
    if acts != [] {
      StepInv(p, acts[0]);
      StepWaitsWell(p, acts[0]);
      hide Inv, WaitsWell;
      RunWaitsWell(Apply(p, acts[0]), acts[1..]);
    }
  }

  // ----- replacing workers -----

  /** The supervisor's last step puts a new thread at the top of the loop into the slot of the id. */
  lemma SpawnReplaces(p: Pool, newTid: Tid)
    requires Inv(p) && Enabled(p, SSpawn(newTid))
    ensures var id, q := p.sup.id, Apply(p, SSpawn(newTid));
            id < |p.slots| == |q.slots| && q.slots[id] == newTid && Live(q, newTid) && !Live(p, newTid) &&
            q.threads[newTid] == Thread(id, Top) &&
            (forall i :: 0 <= i < |p.slots| && i != id ==> q.slots[i] == p.slots[i]) &&
            (forall t :: t in p.threads ==> t in q.threads && q.threads[t] == p.threads[t])
  {
  }

  /** The worker has not left, or its exit notice is under way, or that notice was lost. */
  predicate Staffed(p: Pool, past: seq<Act>, id: Wid)
  {
    id < |p.slots| && p.slots[id] in p.threads && p.threads[p.slots[id]].wid == id &&
    (!HasLeft(p, id) || id in Notices(p) || WNotify(p.slots[id], true) in past)
  }

  ghost predicate AllStaffed(p: Pool, n: nat, past: seq<Act>)
  {
    |p.slots| == n && (p.running ==> forall id :: 0 <= id < n ==> Staffed(p, past, id))
  }

  /** A step of thread t, which may give its notice or lose it. */
  lemma MovedStaffed(p: Pool, q: Pool, n: nat, past: seq<Act>, a: Act, t: Tid)
    requires AllStaffed(p, n, past) && t in p.threads && t in q.threads && (q.running ==> p.running)
    requires q.slots == p.slots && q.threads == p.threads[t := q.threads[t]] && q.threads[t].wid == p.threads[t].wid
    requires Notices(p) <= Notices(q)
    requires p.threads[t].pc.Notified? || p.threads[t].pc.Gone? || p.threads[t].wid in Notices(q) ||
             a == WNotify(t, true) || !(q.threads[t].pc.Notified? || q.threads[t].pc.Gone?)
    ensures AllStaffed(q, n, past + [a])
  {
    hide Notices;
    forall id | 0 <= id < n && q.running ensures Staffed(q, past + [a], id) { assert Staffed(p, past, id); }
  }

  lemma {:induction false} WorkerStaffed(p: Pool, n: nat, past: seq<Act>, a: Act)
    requires AllStaffed(p, n, past) && Enabled(p, a) && IsWorkerAct(a)
    ensures AllStaffed(Apply(p, a), n, past + [a])
  {
    hide AllStaffed;
    var q, t := Apply(p, a), a.tid;
    var more := if a.WNotify? && !a.lost then [p.threads[t].wid] else [];
    assert q.threads == p.threads[t := q.threads[t]] && q.slots == p.slots && q.threads[t].wid == p.threads[t].wid;
    assert Notices(q) == Notices(p) + more;
    MovedStaffed(p, q, n, past, a, t);
  }

  /** A step that leaves the threads alone and drops no notice of a worker of the pool. */
  lemma KeptStaffed(p: Pool, q: Pool, n: nat, past: seq<Act>, a: Act)
    requires AllStaffed(p, n, past) && q.slots == p.slots && q.threads == p.threads && (q.running ==> p.running)
    requires q.running ==> forall id :: id in Notices(p) && id < n ==> id in Notices(q)
    ensures AllStaffed(q, n, past + [a])
  {
    hide Notices;
    forall id | 0 <= id < n && q.running ensures Staffed(q, past + [a], id) { assert Staffed(p, past, id); }
  }

  lemma SpawnStaffed(p: Pool, n: nat, past: seq<Act>, newTid: Tid)
    requires AllStaffed(p, n, past) && Enabled(p, SSpawn(newTid))
    ensures AllStaffed(Apply(p, SSpawn(newTid)), n, past + [SSpawn(newTid)])
  {
    var a, q := SSpawn(newTid), Apply(p, SSpawn(newTid));
    assert Notices(p) == [p.sup.id] + Notices(q);
    forall id | 0 <= id < n && q.running ensures Staffed(q, past + [a], id) { assert Staffed(p, past, id); }
  }

  lemma {:induction false} OtherStaffed(p: Pool, n: nat, past: seq<Act>, a: Act)
    requires AllStaffed(p, n, past) && Enabled(p, a) && !IsWorkerAct(a)
    ensures AllStaffed(Apply(p, a), n, past + [a])
  {
    var q := Apply(p, a);
    if a.SSpawn? {
      SpawnStaffed(p, n, past, a.newTid);
    } else {
      assert |p.slots| == n;
      hide AllStaffed;
      assert q.slots == p.slots && q.threads == p.threads;
      assert q.running ==> Notices(p) == (if a.SSkip? then [p.sup.id] else []) + Notices(q);
      KeptStaffed(p, q, n, past, a);
    }
  }

  lemma {:induction false} RunStaffed(p: Pool, n: nat, past: seq<Act>, acts: seq<Act>)
    requires Inv(p) && AllStaffed(p, n, past) && CanRun(p, acts)
    ensures AllStaffed(Run(p, acts), n, past + acts)
    decreases |acts|
  {
    if acts == [] {
      assert past + acts == past;
    } else {
      StepInv(p, acts[0]);
      if IsWorkerAct(acts[0]) { WorkerStaffed(p, n, past, acts[0]); } else { OtherStaffed(p, n, past, acts[0]); }
      hide Inv, AllStaffed;
      RunStaffed(Apply(p, acts[0]), n, past + [acts[0]], acts[1..]);
      assert past + acts == past + [acts[0]] + acts[1..];
    }
  }

  /** Over every run, while the pool runs, the slot of every worker holds a thread of that worker that
      has not left, or whose exit notice is under way, or whose notice was lost. */
  lemma {:induction false} EveryWorkerStaffed(p: Pool, n: nat, acts: seq<Act>, id: Wid)
    requires Started(p, n) && CanRun(p, acts) && id < n
    ensures var q := Run(p, acts); q.running ==> Staffed(q, acts, id)
  {
    StartedInv(p, n);
    assert AllStaffed(p, n, []);
    RunStaffed(p, n, [], acts);
    assert [] + acts == acts;
  }

  lemma {:induction false} FreshTid(s: set<Tid>) returns (t: Tid)
    ensures forall u :: u in s ==> u < t
  {
    if s == {} {
      t := 0;
    } else {
      var x :| x in s;
      var r := FreshTid(s - {x});
      t := if r > x then r else x + 1;
      assert forall u :: u in s ==> u == x || u in s - {x};
    }
  }

  function SupRank(s: SupervisorPc): nat
  {
    match s
    case STop => 9 case SSleeping => 9 case SWantLock => 8 case STest => 7 case SPost => 6
    case SGot(_) => 5 case SJoined(_) => 4 case SSpawning(_) => 3 case SGone => 0
  }

  /** Its thread is about to end. */
  predicate Ending(p: Pool) { p.sup.SGot? && p.sup.id < |p.slots| && At(p, p.slots[p.sup.id], Notified) }

  /** The next step towards dealing with the first notice. */
  function Towards(p: Pool, spare: Tid): Act
  {
    match p.sup
    case STop => STopTest
    case SSleeping => SWake
    case SWantLock => SLock
    case STest => STestStep
    case SPost => SPostTest
    case SGot(id) => if id >= |p.slots| then SSkip else if Ending(p) then WEnd(p.slots[id]) else SJoin
    case SJoined(_) => SCheck
    case SSpawning(_) => SSpawn(spare)
    case SGone => Stop
  }

  lemma {:induction false} TowardsFits(p: Pool, n: nat, spare: Tid)
    requires ThreadsInv(p) && NoticeInv(p, n) && p.running && !p.sup.SGone? && Notices(p) != [] && spare !in p.threads
    ensures Enabled(p, Towards(p, spare))
    ensures var q := Apply(p, Towards(p, spare));
            q.running && !q.sup.SGone? && p.threads.Keys <= q.threads.Keys && |q.slots| == n &&
            if p.sup.SSpawning? || (p.sup.SGot? && p.sup.id >= n) then Notices(p) == [Notices(p)[0]] + Notices(q)
            else
              Notices(q) == Notices(p) &&
              (SupRank(q.sup) < SupRank(p.sup) || (SupRank(q.sup) == SupRank(p.sup) && Ending(p) && !Ending(q)))
  {
    if p.sup.SGot? && p.sup.id < n { assert HasLeft(p, Notices(p)[0]); }
  }

  /** From every state a run reaches, as long as the pool runs, the supervisor can still get to every
      notice under way: some run puts a new thread of that worker into its slot. */
  lemma {:induction false} LeftCanBeReplaced(p: Pool, n: nat, id: Wid) returns (acts: seq<Act>)
    requires Inv(p) && NoticeInv(p, n) && p.running && !p.sup.SGone? && id < n && id in Notices(p)
    ensures CanRun(p, acts)
    ensures var q := Run(p, acts);
            q.running && id < |q.slots| && q.slots[id] !in p.threads && q.slots[id] in q.threads &&
            q.threads[q.slots[id]] == Thread(id, Top)
    decreases |Notices(p)|, SupRank(p.sup), if Ending(p) then 1 else 0
  {
    var spare := FreshTid(p.threads.Keys);
    var a := Towards(p, spare);
    TowardsFits(p, n, spare);
    var q := Apply(p, a);
    StepInv(p, a);
    if IsWorkerAct(a) { WorkerNotices(p, a, n); } else { OtherNotices(p, a, n); }
    if p.sup.SSpawning? && p.sup.id == id {
      SpawnReplaces(p, spare);
      assert CanRun(q, []) && Run(q, []) == q;
      RunCons(p, a, []);
      assert [a] + [] == [a];
      acts := [a];
    } else {
      assert p.sup.SGot? && p.sup.id >= n ==> Notices(p)[0] != id;
      hide Inv, NoticeInv, Apply, Enabled, Towards, Ending;
      var rest := LeftCanBeReplaced(q, n, id);
      RunCons(p, a, rest);
      acts := [a] + rest;
    }
  }

  predicate Restored(p: Pool, id: Wid)
  {
    id < |p.slots| && p.slots[id] in p.threads && p.threads[p.slots[id]] == Thread(id, Top)
  }

  /** So over every run without leftovers: while the pool runs, a worker that has left without losing
      its notice can still be replaced. */
  lemma {:induction false} LeaversCanBeReplaced(p: Pool, n: nat, acts: seq<Act>, id: Wid)
    requires Started(p, n) && !Leftover(p, n) && CanRun(p, acts) && id < n
    ensures var q := Run(p, acts);
            q.running && HasLeft(q, id) && WNotify(q.slots[id], true) !in acts ==>
              exists more :: CanRun(q, more) && Restored(Run(q, more), id)
  {
    var q := Run(p, acts);
    StartedInv(p, n);
    RunInv(p, acts);
    RunWaitsWell(p, acts);
    EveryWorkerStaffed(p, n, acts, id);
    assert Notices(p) == p.finishedIds;
    RunNotices(p, acts, n);
    hide Inv, NoticeInv, Started, CanRun, Run;
    if q.running && HasLeft(q, id) && WNotify(q.slots[id], true) !in acts {
      var more := LeftCanBeReplaced(q, n, id);
      assert Restored(Run(q, more), id);
    }
  }

  // ----- running tasks -----

  /** A thread that has not left its loop. */
  predicate Working(p: Pool, t: Tid)
  {
    t in p.threads && !p.threads[t].pc.Leaving? && !p.threads[t].pc.Notified? && !p.threads[t].pc.Gone?
  }

  function WorkRank(pc: WorkerPc): nat
  {
    match pc
    case Holding(_) => 6 case Running(_) => 5 case Top => 4 case Sleeping => 4 case WantLock => 3
    case LoopTest => 2 case PostTest => 1 case _ => 0
  }

  function WorkOn(p: Pool, t: Tid): Act
    requires t in p.threads
  {
    match p.threads[t].pc
    case Holding(_) => WStart(t)
    case Running(_) => WFinish(t, false)
    case Top => WTop(t)
    case Sleeping => WWake(t)
    case WantLock => WLock(t)
    case LoopTest => WLoopTest(t)
    case PostTest => WPostTest(t)
    case _ => WEnd(t)
  }

  lemma {:induction false} WorkOnFits(p: Pool, t: Tid)
    requires Inv(p) && p.running && p.tasks != [] && Working(p, t) && (p.tasksLock.None? || p.tasksLock == Some(t))
    ensures Enabled(p, WorkOn(p, t))
    ensures var q := Apply(p, WorkOn(p, t));
            q.running && t in q.threads && (q.tasksLock.None? || q.tasksLock == Some(t)) &&
            if p.threads[t].pc.PostTest? then
              At(q, t, Holding(p.tasks[0])) && q.tasks == p.tasks[1..] && q.over == p.over && q.tasksLock.None?
            else
              Working(q, t) && q.tasks == p.tasks && p.over <= q.over &&
              WorkRank(q.threads[t].pc) < WorkRank(p.threads[t].pc)
  {
  }

  /** A worker in its loop that has the task mutex, or finds it free, can take and run the first task. */
  lemma {:induction false} WorkerCanRunHead(p: Pool, t: Tid) returns (acts: seq<Act>)
    requires Inv(p) && p.running && p.tasks != [] && Working(p, t) && (p.tasksLock.None? || p.tasksLock == Some(t))
    ensures CanRun(p, acts)
    ensures var q := Run(p, acts);
            q.running && q.tasks == p.tasks[1..] && p.over + {p.tasks[0]} <= q.over && At(q, t, Top) &&
            q.tasksLock.None?
    decreases WorkRank(p.threads[t].pc)
  {
    var a := WorkOn(p, t);
    WorkOnFits(p, t);
    StepInv(p, a);
    var q := Apply(p, a);
    var rest;
    if p.threads[t].pc.PostTest? {
      rest := TwoActs(q, t, p.tasks[0]);
    } else {
      hide Inv, Apply, Enabled, WorkOn;
      rest := WorkerCanRunHead(q, t);
    }
    hide Inv, Apply, Enabled, WorkOn;
    RunCons(p, a, rest);
    acts := [a] + rest;
  }

  lemma TwoActs(p: Pool, t: Tid, task: Task) returns (acts: seq<Act>)
    requires At(p, t, Holding(task))
    ensures acts == [WStart(t), WFinish(t, false)] && CanRun(p, acts)
    ensures Run(p, acts) == Goto(p, t, Top).(started := p.started + [task], over := p.over + {task})
  {
    acts := [WStart(t), WFinish(t, false)];
    var p1 := Goto(p.(started := p.started + [task]), t, Running(task));
    var p2 := Goto(p, t, Top).(started := p.started + [task], over := p.over + {task});
    assert Apply(p, WStart(t)) == p1 && Apply(p1, WFinish(t, false)) == p2;
    assert CanRun(p2, []) && Run(p2, []) == p2;
    RunCons(p1, WFinish(t, false), []);
    assert [WFinish(t, false)] + [] == [WFinish(t, false)];
    RunCons(p, WStart(t), [WFinish(t, false)]);
  }

  lemma {:induction false} RunThen(p: Pool, first: seq<Act>, second: seq<Act>)
    requires CanRun(p, first) && CanRun(Run(p, first), second)
    ensures CanRun(p, first + second) && Run(p, first + second) == Run(Run(p, first), second)
    decreases |first|
  {
    hide Apply, Enabled;
    if first == [] {
      assert first + second == second;
    } else {
      RunThen(Apply(p, first[0]), first[1..], second);
      RunCons(p, first[0], first[1..] + second);
      assert first + second == [first[0]] + (first[1..] + second);
    }
  }

  /** From every state a run reaches, as long as the pool runs and some worker is in its loop, every
      queued task can still be run: some run empties the queue, each task of it over. */
  lemma {:induction false} QueueCanDrain(p: Pool, t: Tid) returns (acts: seq<Act>)
    requires Inv(p) && p.running && Working(p, t)
    ensures CanRun(p, acts)
    ensures var q := Run(p, acts);
            q.running && q.tasks == [] && p.over <= q.over && forall task :: task in p.tasks ==> task in q.over
    decreases |p.tasks|
  {
    if p.tasks == [] {
      acts := [];
    } else {
      var u := if p.tasksLock.Some? then p.tasksLock.value else t;
      HolderWorks(p);
      hide Working;
      var first := WorkerCanRunHead(p, u);
      RunInv(p, first);
      hide Inv, Run, CanRun;
      assert Working(Run(p, first), u) by { AtTopWorks(Run(p, first), u); }
      var q := Run(p, first);
      var rest := QueueCanDrain(q, u);
      RunThen(p, first, rest);
      acts := first + rest;
      HeadOrTail(p, q, Run(p, acts));
    }
  }

  lemma HeadOrTail(p: Pool, q: Pool, r: Pool)
    requires p.tasks != [] && q.tasks == p.tasks[1..] && p.over + {p.tasks[0]} <= q.over <= r.over
    requires forall task :: task in q.tasks ==> task in r.over
    ensures p.over <= r.over && forall task :: task in p.tasks ==> task in r.over
  {
    assert p.tasks == [p.tasks[0]] + p.tasks[1..];
  }

  lemma AtTopWorks(p: Pool, t: Tid)
    requires At(p, t, Top)
    ensures Working(p, t)
  {
  }

  lemma HolderWorks(p: Pool)
    requires Inv(p)
    ensures p.tasksLock.Some? ==> Working(p, p.tasksLock.value)
  {
  }

  // ----- waiting and leaving -----

  /** With nothing queued a worker goes to sleep and lets go of the mutex; woken, it tries again. */
  lemma IdleWorkerSleeps(p: Pool, t: Tid)
    requires p.running && p.tasks == [] && At(p, t, Top) && p.tasksLock.None?
    ensures var acts := [WTop(t), WLock(t), WLoopTest(t)];
            CanRun(p, acts) && Run(p, acts) == Goto(p, t, Sleeping) &&
            Enabled(Goto(p, t, Sleeping), WWake(t)) && Apply(Goto(p, t, Sleeping), WWake(t)) == Goto(p, t, WantLock)
  {
    var p1 := Goto(p, t, WantLock);
    var p2 := Goto(p.(tasksLock := Some(t)), t, LoopTest);
    var p3 := Goto(p, t, Sleeping);
    assert Apply(p, WTop(t)) == p1 && Apply(p1, WLock(t)) == p2 && Apply(p2, WLoopTest(t)) == p3;
    assert Enabled(p, WTop(t)) && Enabled(p1, WLock(t)) && Enabled(p2, WLoopTest(t));
    hide Apply, Enabled;
    ThreeActs(p, WTop(t), WLock(t), WLoopTest(t));
  }

  /** So does the supervisor with no notice to deal with. */
  lemma IdleSupervisorSleeps(p: Pool)
    requires p.running && p.finishedIds == [] && p.sup.STop? && !p.finishedLock
    ensures var acts := [STopTest, SLock, STestStep];
            CanRun(p, acts) && Run(p, acts) == p.(sup := SSleeping)
  {
    var p1 := p.(sup := SWantLock);
    var p2 := p.(finishedLock := true, sup := STest);
    assert Apply(p, STopTest) == p1 && Apply(p1, SLock) == p2 && Apply(p2, STestStep) == p.(sup := SSleeping);
    hide Apply;
    ThreeActs(p, STopTest, SLock, STestStep);
  }

  /** A worker that an exception takes out of its wait, or out of the logging of a failed task, gives
      its notice on the way out. */
  lemma ExceptionGivesNotice(p: Pool, t: Tid)
    requires !p.finishedLock && t in p.threads && (p.threads[t].pc.Sleeping? || p.threads[t].pc.Running?)
    ensures var out := if p.threads[t].pc.Sleeping? then WInterrupted(t) else WFinish(t, true);
            var acts := [out, WNotify(t, false), WEnd(t)];
            CanRun(p, acts) && At(Run(p, acts), t, Gone) &&
            Run(p, acts).finishedIds == p.finishedIds + [p.threads[t].wid] && Run(p, acts).tasks == p.tasks
  {
    var out := if p.threads[t].pc.Sleeping? then WInterrupted(t) else WFinish(t, true);
    var p1 := Apply(p, out);
    assert At(p1, t, Leaving) && p1.threads[t].wid == p.threads[t].wid;
    var p2 := Apply(p1, WNotify(t, false));
    assert At(p2, t, Notified);
    ThreeActs(p, out, WNotify(t, false), WEnd(t));
  }

  lemma ThreeActs(p: Pool, a: Act, b: Act, c: Act)
    requires Enabled(p, a) && Enabled(Apply(p, a), b) && Enabled(Apply(Apply(p, a), b), c)
    ensures CanRun(p, [a, b, c]) && Run(p, [a, b, c]) == Apply(Apply(Apply(p, a), b), c)
  {
    hide Apply, Enabled;
    var p1 := Apply(p, a);
    var p2 := Apply(p1, b);
    var p3 := Apply(p2, c);
    assert CanRun(p3, []) && Run(p3, []) == p3;
    RunCons(p2, c, []);
    RunCons(p1, b, [c] + []);
    RunCons(p, a, [b] + ([c] + []));
    assert [a] + ([b] + ([c] + [])) == [a, b, c];
  }

  // ----- after the stop -----

  /** The pool stops once and for all: it runs exactly as long as no stop has come. */
  lemma {:induction false} StopsForGood(p: Pool, acts: seq<Act>)
    requires CanRun(p, acts)
    ensures Run(p, acts).running <==> p.running && Stop !in acts
    decreases |acts|
  {
    if acts != [] {
      StopsForGood(Apply(p, acts[0]), acts[1..]);
      assert acts == [acts[0]] + acts[1..];
    }
  }

  /** Over every run after the stop no task is taken any more, and only submissions that had passed
      their check before it are still accepted. */
  lemma {:induction false} NothingTakenAfterStop(p: Pool, acts: seq<Act>)
    requires !p.running && CanRun(p, acts)
    ensures var q := Run(p, acts);
            q.taken == p.taken && p.accepted <= q.accepted && p.tasks <= q.tasks &&
            (forall s :: s in q.submitting ==> s in p.submitting && q.submitting[s] == p.submitting[s]) &&
            forall task :: task in q.accepted ==> task in p.accepted || task in p.submitting.Values
    decreases |acts|
  {
    if acts != [] {
      var p1 := Apply(p, acts[0]);
      assert p1.taken == p.taken && p.accepted <= p1.accepted && p.tasks <= p1.tasks;
      NothingTakenAfterStop(p1, acts[1..]);
    }
  }

  function OutRank(pc: WorkerPc): nat
  {
    match pc
    case Holding(_) => 9 case Running(_) => 8 case Sleeping => 7 case WantLock => 6 case LoopTest => 5
    case PostTest => 4 case Top => 3 case Leaving => 2 case Notified => 1 case Gone => 0
  }

  function WayOut(p: Pool, t: Tid): Act
    requires t in p.threads
  {
    match p.threads[t].pc
    case Leaving => WNotify(t, false)
    case Notified => WEnd(t)
    case _ => WorkOn(p, t)
  }

  /** A stopped pool in which nobody but perhaps t is inside a critical section. */
  ghost predicate OnlyIn(p: Pool, t: Tid)
  {
    Inv(p) && !p.running && !p.finishedLock && (p.tasksLock.None? || p.tasksLock == Some(t))
  }

  lemma {:induction false} WayOutFits(p: Pool, t: Tid)
    requires OnlyIn(p, t) && Live(p, t)
    ensures Enabled(p, WayOut(p, t))
    ensures var q := Apply(p, WayOut(p, t));
            OnlyIn(q, t) && q.sup == p.sup && t in q.threads && OutRank(q.threads[t].pc) < OutRank(p.threads[t].pc) &&
            q.threads.Keys == p.threads.Keys && forall u :: u in p.threads && u != t ==> q.threads[u] == p.threads[u]
  {
    WayOutMoves(p, t);
    StepInv(p, WayOut(p, t));
    hide Inv, Apply, Enabled, WayOut;
  }

  lemma WayOutMoves(p: Pool, t: Tid)
    requires ThreadsInv(p) && Live(p, t) && !p.running && !p.finishedLock
    requires p.tasksLock.None? || p.tasksLock == Some(t)
    ensures Enabled(p, WayOut(p, t))
    ensures var q := Apply(p, WayOut(p, t));
            !q.running && !q.finishedLock && (q.tasksLock.None? || q.tasksLock == Some(t)) &&
            q.sup == p.sup && t in q.threads && OutRank(q.threads[t].pc) < OutRank(p.threads[t].pc) &&
            q.threads.Keys == p.threads.Keys && forall u :: u in p.threads && u != t ==> q.threads[u] == p.threads[u]
  {
  }

  lemma {:induction false} ThreadCanEnd(p: Pool, t: Tid) returns (acts: seq<Act>)
    requires OnlyIn(p, t) && t in p.threads
    ensures CanRun(p, acts)
    ensures var q := Run(p, acts);
            OnlyIn(q, t) && q.tasksLock.None? && q.sup == p.sup && At(q, t, Gone) &&
            q.threads.Keys == p.threads.Keys && forall u :: u in p.threads && u != t ==> q.threads[u] == p.threads[u]
    decreases OutRank(p.threads[t].pc)
  {
    if p.threads[t].pc.Gone? {
      acts := [];
    } else {
      WayOutFits(p, t);
      var a := WayOut(p, t);
      hide OnlyIn, Apply, Enabled, WayOut;
      var rest := ThreadCanEnd(Apply(p, a), t);
      RunCons(p, a, rest);
      acts := [a] + rest;
    }
  }

  function LiveTids(p: Pool): set<Tid> { set t | t in p.threads && !p.threads[t].pc.Gone? }

  lemma {:induction false} ThreadsCanEnd(p: Pool, t: Tid) returns (acts: seq<Act>)
    requires OnlyIn(p, t)
    ensures CanRun(p, acts)
    ensures var q := Run(p, acts);
            Inv(q) && !q.running && !q.finishedLock && q.tasksLock.None? && q.sup == p.sup && LiveTids(q) == {}
    decreases |LiveTids(p)|
  {
    if LiveTids(p) == {} {
      acts := [];
      assert p.tasksLock.None?;
    } else {
      var u := if p.tasksLock.Some? then t else var u :| u in LiveTids(p); u;
      assert u in LiveTids(p) && OnlyIn(p, u);
      var first := ThreadCanEnd(p, u);
      var q := Run(p, first);
      assert LiveTids(q) == LiveTids(p) - {u};
      hide OnlyIn, Inv, LiveTids;
      assert OnlyIn(q, u);
      var rest := ThreadsCanEnd(q, u);
      RunThen(p, first, rest);
      acts := first + rest;
    }
  }

  /** The supervisor leaves its critical section, and starts the thread it was about to start. */
  lemma {:induction false} SupervisorLetsGo(p: Pool) returns (acts: seq<Act>)
    requires Inv(p) && !p.running
    ensures CanRun(p, acts)
    ensures var q := Run(p, acts); Inv(q) && !q.running && !q.finishedLock && !q.sup.SSpawning?
    decreases if p.sup.STest? then 2 else if p.sup.SPost? || p.sup.SSpawning? then 1 else 0
  {
    var spare := FreshTid(p.threads.Keys);
    if p.sup.STest? || p.sup.SPost? || p.sup.SSpawning? {
      var a := Towards(p, spare);
      assert Enabled(p, a);
      StepInv(p, a);
      var q := Apply(p, a);
      assert !q.running && (p.sup.STest? ==> q.sup.SPost?) && (!p.sup.STest? ==> q.sup.SGone? || q.sup.STop?);
      hide Apply, Enabled, Towards;
      var rest := SupervisorLetsGo(q);
      RunCons(p, a, rest);
      acts := [a] + rest;
    } else {
      acts := [];
    }
  }

  function StopRank(s: SupervisorPc): nat
  {
    match s
    case SSleeping => 6 case SWantLock => 5 case STest => 4 case SPost => 3
    case SGot(_) => 2 case STop => 1 case SJoined(_) => 1 case _ => 0
  }

  lemma {:induction false} SupervisorCanEnd(p: Pool) returns (acts: seq<Act>)
    requires Inv(p) && !p.running && !p.sup.SSpawning? && LiveTids(p) == {}
    ensures CanRun(p, acts) && Run(p, acts).sup.SGone? && LiveTids(Run(p, acts)) == {}
    decreases StopRank(p.sup)
  {
    if p.sup.SGone? {
      acts := [];
    } else {
      var a := Towards(p, 0);
      StoppedSupervisorMoves(p);
      StepInv(p, a);
      hide Inv, Apply, Enabled, Towards;
      var rest := SupervisorCanEnd(Apply(p, a));
      RunCons(p, a, rest);
      acts := [a] + rest;
    }
  }

  lemma StoppedSupervisorMoves(p: Pool)
    requires Inv(p) && !p.running && !p.sup.SSpawning? && !p.sup.SGone? && LiveTids(p) == {}
    ensures Enabled(p, Towards(p, 0))
    ensures var q := Apply(p, Towards(p, 0));
            !q.running && !q.sup.SSpawning? && LiveTids(q) == {} && StopRank(q.sup) < StopRank(p.sup)
  {
    if p.sup.SGot? && p.sup.id < |p.slots| {
      var t := p.slots[p.sup.id];
      assert t in p.threads && t !in LiveTids(p);
    }
    assert Apply(p, Towards(p, 0)).threads == p.threads;
  }

  /** From every state a run reaches after the stop, everything stop() waits for can end: some run
      leaves no thread live and the supervisor gone. */
  lemma {:induction false} StopCanEnd(p: Pool) returns (acts: seq<Act>)
    requires Inv(p) && !p.running
    ensures CanRun(p, acts)
    ensures Run(p, acts).sup.SGone? && forall t :: !Live(Run(p, acts), t)
  {
    var first := SupervisorLetsGo(p);
    var p1 := Run(p, first);
    var t := if p1.tasksLock.Some? then p1.tasksLock.value else 0;
    assert OnlyIn(p1, t);
    hide OnlyIn, Run, CanRun;
    var second := ThreadsCanEnd(p1, t);
    var p2 := Run(p1, second);
    var third := SupervisorCanEnd(p2);
    hide Inv;
    RunThen(p1, second, third);
    RunThen(p, first, second + third);
    acts := first + (second + third);
    forall u ensures !Live(Run(p, acts), u) { assert u !in LiveTids(Run(p, acts)); }
  }
}
