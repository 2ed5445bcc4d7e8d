/** The C++11 thread pool of project/2_ThreadPool/include/threadPool.h: each region under
    queue_mutex is one step, and so is each notification and each join. */
module ThreadPool {
  import opened Counting

  /** A task is known by its number in the order of enqueuing. */
  type Task = nat
  type Caller = nat

  /** Where a worker is: before the lock, asleep in wait(), running a task, or returned. */
  datatype Worker = Top | Waiting | Busy(task: Task) | Done

  datatype Destructor = Alive | MustNotify | Joining(joined: nat)

  datatype State = State(
    workers: seq<Worker>,
    tasks: seq<Task>,
    stop: bool,
    owing: set<Caller>,     // enqueue calls between the unlock and notify_one
    destructor: Destructor,
    total: nat,             // history: tasks enqueued so far
    log: seq<Task>)         // history: tasks that have run to their end

  // ----- steps of the callers -----

  // threadPool.h:68-74
  predicate Enqueue(s: State, s': State, c: Caller) {
    && c !in s.owing && !s.stop
    && s' == s.(tasks := s.tasks + [s.total], total := s.total + 1, owing := s.owing + {c})
  }

  /** enqueue on a stopped pool throws and leaves nothing behind. */
  // threadPool.h:70-72
  predicate EnqueueThrows(s: State, s': State, c: Caller) {
    c !in s.owing && s.stop && s' == s
  }

  /** notify_one wakes some sleeping worker, if there is one. */
  // threadPool.h:76
  ghost predicate NotifyOne(s: State, s': State, c: Caller, w: nat) {
    && c in s.owing
    && if w < |s.workers| && s.workers[w] == Waiting
       then s' == s.(owing := s.owing - {c}, workers := s.workers[w := Top])
       else Those(s.workers, IsAsleep) == {} && s' == s.(owing := s.owing - {c})
  }

  // ----- steps of the pool's own threads -----

  /** wait() returns at once when its predicate holds; else the worker sleeps. */
  // threadPool.h:35-46
  predicate TestPredicate(s: State, s': State, w: nat) {
    && w < |s.workers| && s.workers[w] == Top
    && s' == if !s.stop && s.tasks == [] then s.(workers := s.workers[w := Waiting])
             else if s.tasks == [] then s.(workers := s.workers[w := Done])
             else s.(workers := s.workers[w := Busy(s.tasks[0])], tasks := s.tasks[1..])
  }

  // threadPool.h:37
  predicate SpuriousWakeup(s: State, s': State, w: nat) {
    w < |s.workers| && s.workers[w] == Waiting && s' == s.(workers := s.workers[w := Top])
  }

  // threadPool.h:47
  predicate FinishTask(s: State, s': State, w: nat) {
    && w < |s.workers| && s.workers[w].Busy?
    && s' == s.(workers := s.workers[w := Top], log := s.log + [s.workers[w].task])
  }

  // threadPool.h:85-88
  predicate SetStop(s: State, s': State) {
    s.destructor == Alive && s' == s.(stop := true, destructor := MustNotify)
  }

  function Woken(ws: seq<Worker>): (r: seq<Worker>)
    ensures |r| == |ws| && forall i :: 0 <= i < |ws| ==> r[i] == if ws[i] == Waiting then Top else ws[i]
  {
    seq(|ws|, i requires 0 <= i < |ws| => if ws[i] == Waiting then Top else ws[i])
  }

  // threadPool.h:89
  predicate NotifyAll(s: State, s': State) {
    s.destructor == MustNotify && s' == s.(workers := Woken(s.workers), destructor := Joining(0))
  }

  // threadPool.h:90-92
  predicate Join(s: State, s': State) {
    && s.destructor.Joining? && s.destructor.joined < |s.workers|
    && s.workers[s.destructor.joined] == Done
    && s' == s.(destructor := Joining(s.destructor.joined + 1))
  }

  ghost predicate CallersMove(s: State, s': State) {
    || (exists c :: Enqueue(s, s', c)) || (exists c :: EnqueueThrows(s, s', c))
    || (exists c, w :: NotifyOne(s, s', c, w))
  }

  /** The steps that concern one worker only. */
  ghost predicate OneWorker(s: State, s': State, w: nat) {
    TestPredicate(s, s', w) || FinishTask(s, s', w) || SpuriousWakeup(s, s', w)
  }

  predicate DestructorMoves(s: State, s': State) {
    SetStop(s, s') || NotifyAll(s, s') || Join(s, s')
  }

  ghost predicate PoolMoves(s: State, s': State) {
    (exists w :: OneWorker(s, s', w)) || DestructorMoves(s, s')
  }

  ghost predicate Next(s: State, s': State) {
    CallersMove(s, s') || PoolMoves(s, s')
  }

  // threadPool.h:29-52
  ghost predicate Created(s: State, n: nat) {
    && s.tasks == [] && !s.stop && s.owing == {} && s.destructor == Alive && s.total == 0 && s.log == []
    && |s.workers| == n && forall i :: 0 <= i < n ==> s.workers[i] == Top
  }

  ghost predicate StepAt(run: seq<State>, i: int)
    requires 0 <= i < |run| - 1
  {
    Next(run[i], run[i + 1])
  }

  ghost predicate Execution(run: seq<State>, n: nat) {
    |run| > 0 && Created(run[0], n) && forall i {:trigger StepAt(run, i)} :: 0 <= i < |run| - 1 ==> StepAt(run, i)
  }

  // ----- counting workers -----

  predicate IsAwake(w: Worker) { w == Top }
  predicate IsAsleep(w: Worker) { w == Waiting }
  predicate IsWorking(w: Worker) { w.Busy? }

  // ----- what every step keeps -----

  /** The queue holds the newest tasks in order; each older one runs on one worker or has
      run, once. */
  ghost predicate Accounted(s: State) {
    && |s.tasks| <= s.total
    && (forall i :: 0 <= i < |s.tasks| ==> s.tasks[i] == s.total - |s.tasks| + i)
    && Once(s.log)
    && (forall k :: k in s.log ==> k < s.total - |s.tasks|)
    && (forall w :: 0 <= w < |s.workers| && s.workers[w].Busy? ==>
          s.workers[w].task < s.total - |s.tasks| && s.workers[w].task !in s.log)
    && (forall v, w :: 0 <= v < w < |s.workers| && s.workers[v].Busy? ==> s.workers[v] != s.workers[w])
    && (forall k: nat {:trigger Runs(s.workers, k)} :: k < s.total - |s.tasks| ==> k in s.log || Runs(s.workers, k))
  }

  ghost predicate Runs(ws: seq<Worker>, k: Task) {
    exists w :: 0 <= w < |ws| && ws[w] == Busy(k)
  }

  ghost predicate Stopping(s: State) {
    && (s.stop <==> s.destructor != Alive)
    && (forall w :: 0 <= w < |s.workers| && s.workers[w] == Done ==> s.stop && s.tasks == [])
    && (s.destructor.Joining? ==>
          && s.destructor.joined <= |s.workers|
          && (forall w :: 0 <= w < |s.workers| ==> s.workers[w] != Waiting)
          && forall w :: 0 <= w < s.destructor.joined ==> s.workers[w] == Done)
  }

  /** While a worker sleeps, every queued task has a worker on its way to it or a
      notification still to come. */
  ghost predicate Notified(s: State) {
    Those(s.workers, IsAsleep) != {} ==> |s.tasks| <= |Those(s.workers, IsAwake)| + |s.owing|
  }

  ghost predicate Inv(s: State) {
    Accounted(s) && Stopping(s) && Notified(s)
  }

  // ----- tasks are neither lost nor run twice -----

  /** Steps that start or end no task. */
  lemma AccountedIdle(s: State, s': State)
    requires Accounted(s) && s'.tasks == s.tasks && s'.total == s.total && s'.log == s.log
    requires |s'.workers| == |s.workers|
    requires forall w :: 0 <= w < |s.workers| && (s.workers[w].Busy? || s'.workers[w].Busy?) ==>
      s'.workers[w] == s.workers[w]
    ensures Accounted(s')
  {
    forall k: nat | k < s.total - |s.tasks| ensures k in s.log || Runs(s'.workers, k) {
      if k !in s.log {
        assert Runs(s.workers, k);
        var w :| 0 <= w < |s.workers| && s.workers[w] == Busy(k);
        assert s'.workers[w] == Busy(k);
      }
    }
  }

  lemma AccountedEnqueue(s: State, s': State, c: Caller)
    requires Accounted(s) && Enqueue(s, s', c)
    ensures Accounted(s')
  {
    assert forall k :: Runs(s.workers, k) ==> Runs(s'.workers, k);
  }

  lemma RunsStays(ws: seq<Worker>, w: nat, to: Worker, k: Task)
    requires w < |ws| && Runs(ws, k) && ws[w] != Busy(k)
    ensures Runs(ws[w := to], k)
  {
    var v :| 0 <= v < |ws| && ws[v] == Busy(k);
    assert ws[w := to][v] == Busy(k);
  }

  lemma AccountedStart(s: State, s': State, w: nat)
    requires Accounted(s) && TestPredicate(s, s', w) && s.tasks != []
    ensures Accounted(s')
  {
    var k0 := s.tasks[0];
    assert s'.workers[w] == Busy(k0);
    forall k: nat | k < s'.total - |s'.tasks| ensures k in s'.log || Runs(s'.workers, k) {
      if k != k0 && k !in s.log {
        RunsStays(s.workers, w, Busy(k0), k);
      }
    }
  }

  lemma AccountedFinish(s: State, s': State, w: nat)
    requires Accounted(s) && FinishTask(s, s', w)
    ensures Accounted(s')
  {
    var k0 := s.workers[w].task;
    OnceMore(s.log, k0);
    forall k: nat | k < s'.total - |s'.tasks| ensures k in s'.log || Runs(s'.workers, k) {
      if k != k0 && k !in s.log {
        RunsStays(s.workers, w, Top, k);
      }
    }
  }

  // ----- no task waits beside a sleeping worker that nobody is going to wake -----

  lemma NotifiedEnqueue(s: State, s': State, c: Caller)
    requires Notified(s) && Enqueue(s, s', c)
    ensures Notified(s')
  {
    WithOrWithout(s'.owing, c);
    assert s'.owing - {c} == s.owing;
  }

  lemma NotifiedNotifyOne(s: State, s': State, c: Caller, w: nat)
    requires Notified(s) && NotifyOne(s, s', c, w)
    ensures Notified(s')
  {
    WithOrWithout(s.owing, c);
    if w < |s.workers| && s.workers[w] == Waiting {
      Changed(s.workers, w, Top, IsAwake);
      assert w in Those(s.workers, IsAsleep);
    }
  }

  lemma NotifiedWorker(s: State, s': State, w: nat)
    requires Notified(s) && OneWorker(s, s', w)
    ensures Notified(s')
  {
    var to := s'.workers[w];
    assert s'.workers == s.workers[w := to];
    Changed(s.workers, w, to, IsAwake);
    if to != Waiting {
      assert Those(s'.workers, IsAsleep) <= Those(s.workers, IsAsleep);
    }
  }

  lemma NotifiedDestructor(s: State, s': State)
    requires Notified(s) && DestructorMoves(s, s')
    ensures Notified(s')
  {
    assert NotifyAll(s, s') ==> Those(s'.workers, IsAsleep) == {};
  }

  // ----- all of it together, part by part -----

  lemma AccountedCallers(s: State, s': State)
    requires Accounted(s) && CallersMove(s, s')
    ensures Accounted(s')
  {
    if c :| Enqueue(s, s', c) {
      AccountedEnqueue(s, s', c);
    } else {
      AccountedIdle(s, s');
    }
  }

  lemma AccountedWorker(s: State, s': State, w: nat)
    requires Accounted(s) && OneWorker(s, s', w)
    ensures Accounted(s')
  {
    if FinishTask(s, s', w) {
      AccountedFinish(s, s', w);
    } else if s.tasks != [] && s.workers[w] == Top {
      AccountedStart(s, s', w);
    } else {
      AccountedIdle(s, s');
    }
  }

  lemma StoppingCallers(s: State, s': State)
    requires Stopping(s) && CallersMove(s, s')
    ensures Stopping(s')
  {
  }

  lemma StoppingWorker(s: State, s': State, w: nat)
    requires Stopping(s) && OneWorker(s, s', w)
    ensures Stopping(s')
  {
  }

  lemma StoppingDestructor(s: State, s': State)
    requires Stopping(s) && DestructorMoves(s, s')
    ensures Stopping(s')
  {
  }

  lemma NotifiedCallers(s: State, s': State)
    requires Notified(s) && CallersMove(s, s')
    ensures Notified(s')
  {
    if c :| Enqueue(s, s', c) {
      NotifiedEnqueue(s, s', c);
    } else if c: Caller, w: nat :| NotifyOne(s, s', c, w) {
      NotifiedNotifyOne(s, s', c, w);
    }
  }

  lemma InvKept(s: State, s': State)
    requires Inv(s) && Next(s, s')
    ensures Inv(s') && |s'.workers| == |s.workers|
  {
    SameWorkers(s, s');
    if CallersMove(s, s') {
      AccountedCallers(s, s');
      StoppingCallers(s, s');
      NotifiedCallers(s, s');
    } else if w: nat :| OneWorker(s, s', w) {
      AccountedWorker(s, s', w);
      StoppingWorker(s, s', w);
      NotifiedWorker(s, s', w);
    } else {
      AccountedIdle(s, s');
      StoppingDestructor(s, s');
      NotifiedDestructor(s, s');
    }
  }

  lemma SameWorkers(s: State, s': State)
    requires Next(s, s')
    ensures |s'.workers| == |s.workers|
  {
  }

  lemma {:induction false} AlwaysInv(run: seq<State>, n: nat, i: nat)
    requires Execution(run, n) && i < |run|
    ensures Inv(run[i]) && |run[i].workers| == n
  {
    if i > 0 {
      AlwaysInv(run, n, i - 1);
      assert StepAt(run, i - 1);
      InvKept(run[i - 1], run[i]);
    }
  }

  ghost predicate Joined(s: State) {
    s.destructor == Joining(|s.workers|)
  }

  /** Every task has run exactly once. */
  ghost predicate AllRun(s: State) {
    Once(s.log) && forall k: nat :: k in s.log <==> k < s.total
  }

  /** When all workers have been joined, each enqueued task has run exactly once, unless
      the pool was made without workers and given tasks. */
  lemma JoinedMeansRun(run: seq<State>, n: nat, i: nat)
    requires Execution(run, n) && i < |run| && Joined(run[i])
    ensures AllRun(run[i]) <==> n > 0 || run[i].total == 0
  {
    AlwaysInv(run, n, i);
    var s := run[i];
    if n > 0 {
      assert s.workers[0] == Done;
      forall k: nat | k < s.total ensures k in s.log {
        assert !Runs(s.workers, k);
      }
    } else {
      NoWorkersNoRuns(run, i);
      assert 0 !in s.log;
    }
  }

  lemma {:induction false} NoWorkersNoRuns(run: seq<State>, i: nat)
    requires Execution(run, 0) && i < |run|
    ensures run[i].log == [] && run[i].workers == []
  {
    if i > 0 {
      NoWorkersNoRuns(run, i - 1);
      assert StepAt(run, i - 1);
    }
  }

  /** A pool without workers is joined at once, with the task that was queued still there. */
  lemma NoWorkersNoWork() returns (run: seq<State>)
    ensures Execution(run, 0) && Joined(run[|run| - 1]) && run[|run| - 1].total == 1 && !AllRun(run[|run| - 1])
  {
    var s0 := State([], [], false, {}, Alive, 0, []);
    var s1 := State([], [0], false, {7}, Alive, 1, []);
    var s2 := State([], [0], true, {7}, MustNotify, 1, []);
    var s3 := State([], [0], true, {7}, Joining(0), 1, []);
    run := [s0, s1, s2, s3];
    assert Woken([]) == [];
    assert Enqueue(s0, s1, 7) && StepAt(run, 0);
    assert SetStop(s1, s2) && StepAt(run, 1);
    assert NotifyAll(s2, s3) && StepAt(run, 2);
    assert 0 !in s3.log;
  }

  /** In every reachable state with queued tasks, some worker is awake or a notification is
      still owed; and if a worker sleeps, there are enough of these for all queued tasks. */
  lemma NoLostNotification(run: seq<State>, n: nat, i: nat)
    requires Execution(run, n) && i < |run| && n > 0 && run[i].tasks != []
    ensures run[i].owing != {} || Those(run[i].workers, IsAwake) != {} || Those(run[i].workers, IsWorking) != {}
    ensures Those(run[i].workers, IsAsleep) != {} ==>
              |run[i].tasks| <= |Those(run[i].workers, IsAwake)| + |run[i].owing|
  {
    AlwaysInv(run, n, i);
    var s := run[i];
    match s.workers[0] {
      case Waiting => assert 0 in Those(s.workers, IsAsleep);
      case Top => assert 0 in Those(s.workers, IsAwake);
      case Busy(_) => assert 0 in Those(s.workers, IsWorking);
    }
  }

  ghost predicate Notifies(s: State, s': State) {
    exists c, w :: NotifyOne(s, s', c, w)
  }

  /** The notifications sent in the first `i` steps. */
  ghost function Notifications(run: seq<State>, i: nat): nat
    requires i < |run|
  {
    if i == 0 then 0 else Notifications(run, i - 1) + if Notifies(run[i - 1], run[i]) then 1 else 0
  }

  /** In every run each task enqueued brings one notification, sent or still owed. */
  lemma {:induction false} NotifiedOnce(run: seq<State>, n: nat, i: nat)
    requires Execution(run, n) && i < |run|
    ensures Notifications(run, i) + |run[i].owing| == run[i].total
  {
    if i > 0 {
      NotifiedOnce(run, n, i - 1);
      assert StepAt(run, i - 1);
      NotificationStep(run[i - 1], run[i]);
    }
  }

  lemma NotificationStep(s: State, s': State)
    requires Next(s, s')
    ensures |s'.owing| + (if Notifies(s, s') then 1 else 0) == |s.owing| + s'.total - s.total
  {
    OwingTells(s, s');
    if c :| Enqueue(s, s', c) {
      assert s'.owing - {c} == s.owing && s'.owing != s.owing;
    } else if c: Caller, w: nat :| NotifyOne(s, s', c, w) {
      assert s'.owing + {c} == s.owing;
    } else {
      OthersOweNothing(s, s');
    }
  }

  lemma OwingTells(s: State, s': State)
    ensures Notifies(s, s') ==> s'.owing < s.owing && s'.total == s.total
  {
  }

  lemma OthersOweNothing(s: State, s': State)
    requires PoolMoves(s, s') || exists c :: EnqueueThrows(s, s', c)
    ensures s'.owing == s.owing && s'.total == s.total
  {
  }

  // ----- the destructor returns -----

  /** What is left to do once the destructor is joining. */
  ghost function Work(s: State): nat
    requires s.destructor.Joining? && s.destructor.joined <= |s.workers|
  {
    2 * |s.tasks| + 2 * |Those(s.workers, IsWorking)| + |Those(s.workers, IsAwake)| + |s.workers| - s.destructor.joined
  }

  lemma WorkShrinks(s: State, s': State)
    requires Inv(s) && s.destructor.Joining? && Next(s, s')
    ensures Inv(s') && s'.destructor.Joining?
    ensures if PoolMoves(s, s') then Work(s') < Work(s) else Work(s') == Work(s)
  {
    InvKept(s, s');
    if PoolMoves(s, s') {
      if w: nat :| OneWorker(s, s', w) {
        var to := s'.workers[w];
        assert s'.workers == s.workers[w := to];
        Changed(s.workers, w, to, IsAwake);
        Changed(s.workers, w, to, IsWorking);
      }
    } else {
      assert s'.workers == s.workers && s'.tasks == s.tasks;
    }
  }

  ghost function PoolSteps(run: seq<State>, i: nat, j: nat): nat
    requires i <= j < |run|
    decreases j - i
  {
    if i == j then 0 else PoolSteps(run, i, j - 1) + if PoolMoves(run[j - 1], run[j]) then 1 else 0
  }

  /** After notify_all the pool's threads make at most `Work` more steps, whatever the
      callers do. */
  lemma {:induction false} ShutdownBound(run: seq<State>, n: nat, i: nat, j: nat)
    requires Execution(run, n) && i <= j < |run| && run[i].destructor.Joining?
    ensures Inv(run[i]) && Inv(run[j]) && run[j].destructor.Joining?
    ensures PoolSteps(run, i, j) + Work(run[j]) <= Work(run[i])
    decreases j
  {
    AlwaysInv(run, n, i);
    if i < j {
      ShutdownBound(run, n, i, j - 1);
      assert StepAt(run, j - 1);
      WorkShrinks(run[j - 1], run[j]);
    }
  }

  /** Until everything is joined some thread of the pool can move, so it is joined in the end. */
  lemma ShutdownProceeds(s: State) returns (s': State)
    requires Inv(s) && s.destructor.Joining? && !Joined(s)
    ensures PoolMoves(s, s')
  {
    var w := s.destructor.joined;
    match s.workers[w] {
      case Done =>
        s' := s.(destructor := Joining(w + 1));
        assert Join(s, s');
      case Busy(k) =>
        s' := s.(workers := s.workers[w := Top], log := s.log + [k]);
        assert OneWorker(s, s', w);
      case Top =>
        s' := if s.tasks == [] then s.(workers := s.workers[w := Done])
              else s.(workers := s.workers[w := Busy(s.tasks[0])], tasks := s.tasks[1..]);
        assert OneWorker(s, s', w);
    }
  }

  // ----- the destructor's code, between moves of the others -----

  /** What a caller or a worker does next. */
  datatype Move = Enqueues(c: Caller) | Notifies(c: Caller, w: nat) | Proceeds(w: nat)

  predicate Possible(s: State, m: Move) {
    match m
    case Enqueues(c) => c !in s.owing
    case Notifies(c, w) =>
      c in s.owing &&
      ((w < |s.workers| && s.workers[w] == Waiting) || forall v :: 0 <= v < |s.workers| ==> s.workers[v] != Waiting)
    case Proceeds(w) => w < |s.workers| && s.workers[w] != Done
  }

  function Moved(s: State, m: Move): State
    requires Possible(s, m)
  {
    match m
    case Enqueues(c) =>
      if s.stop then s else s.(tasks := s.tasks + [s.total], total := s.total + 1, owing := s.owing + {c})
    case Notifies(c, w) =>
      if w < |s.workers| && s.workers[w] == Waiting
      then s.(owing := s.owing - {c}, workers := s.workers[w := Top])
      else s.(owing := s.owing - {c})
    case Proceeds(w) => Proceeded(s, w)
  }

  function Proceeded(s: State, w: nat): State
    requires w < |s.workers| && s.workers[w] != Done
  {
    match s.workers[w]
    case Waiting => s.(workers := s.workers[w := Top])
    case Busy(k) => s.(workers := s.workers[w := Top], log := s.log + [k])
    case Top =>
      if s.tasks != [] then s.(workers := s.workers[w := Busy(s.tasks[0])], tasks := s.tasks[1..])
      else s.(workers := s.workers[w := if s.stop then Done else Waiting])
  }

  /** A run of a pool with `n` workers has come to the state `s`. */
  ghost predicate Reached(n: nat, run: seq<State>, s: State) {
    Execution(run, n) && run[|run| - 1] == s
  }

  lemma Onward(n: nat, run: seq<State>, s: State, s': State) returns (run': seq<State>)
    requires Reached(n, run, s) && Next(s, s')
    ensures Reached(n, run', s')
  {
    run' := run + [s'];
    forall i | 0 <= i < |run'| - 1 ensures StepAt(run', i) {
      assert i < |run| - 1 ==> StepAt(run, i);
    }
  }

  lemma MovedNext(s: State, m: Move)
    requires Possible(s, m)
    ensures Next(s, Moved(s, m)) && (m.Proceeds? ==> PoolMoves(s, Moved(s, m)))
    ensures Moved(s, m).destructor == s.destructor && |Moved(s, m).workers| == |s.workers|
  {
    match m
    case Enqueues(c) =>
      assert Enqueue(s, Moved(s, m), c) || EnqueueThrows(s, Moved(s, m), c);
    case Notifies(c, w) =>
      assert NotifyOne(s, Moved(s, m), c, w);
    case Proceeds(w) =>
      assert OneWorker(s, Moved(s, m), w);
  }

  lemma MovedReached(n: nat, run: seq<State>, s: State, m: Move) returns (run': seq<State>)
    requires Reached(n, run, s) && Possible(s, m)
    ensures Reached(n, run', Moved(s, m)) && LessWork(s, Moved(s, m), m.Proceeds?)
  {
    MovedNext(s, m);
    run' := Onward(n, run, s, Moved(s, m));
    AlwaysInv(run, n, |run| - 1);
    if s.destructor.Joining? {
      WorkShrinks(s, Moved(s, m));
    }
  }

  /** The destructor is where it was, and no work has been added for it to wait for. */
  ghost predicate LessWork(s: State, s': State, less: bool) {
    && s'.destructor == s.destructor && |s'.workers| == |s.workers|
    && (s.destructor.Joining? && s.destructor.joined <= |s.workers| ==>
         if less then Work(s') < Work(s) else Work(s') <= Work(s))
  }

  method Others(n: nat, s0: State, ghost run0: seq<State>, moves: seq<Move>) returns (s: State, ghost run: seq<State>)
    requires Reached(n, run0, s0)
    ensures Reached(n, run, s) && LessWork(s0, s, false)
  {
    s, run := s0, run0;
    for i := 0 to |moves|
      invariant Reached(n, run, s) && LessWork(s0, s, false)
    {
      if Possible(s, moves[i]) {
        run := MovedReached(n, run, s, moves[i]);
        s := Moved(s, moves[i]);
      }
    }
  }

  /** The destructor; `others(k)` is what callers and workers do before its `k`-th step. While
      it waits for a worker in join, that worker goes on. */
  method Destroy(n: nat, s0: State, ghost run0: seq<State>, others: nat -> seq<Move>)
    returns (s: State, ghost run: seq<State>)
    requires Reached(n, run0, s0) && s0.destructor == Alive
    ensures Reached(n, run, s) && Joined(s)
    ensures AllRun(s) <==> n > 0 || s.total == 0
  {
    s, run := StopAndNotifyAll(n, s0, run0, others);
    var k := 2;
    JoinedAtMost(n, run, s);
    while s.destructor.joined < |s.workers|
      invariant Reached(n, run, s) && k >= 0 && s.destructor.Joining? && s.destructor.joined <= |s.workers|
      decreases Work(s)
    {
      s, run := Others(n, s, run, others(k));
      k := k + 1;
      s, run := JoinNext(n, s, run);
    }
    JoinedMeansRun(run, n, |run| - 1);
  }

  lemma JoinedAtMost(n: nat, run: seq<State>, s: State)
    requires Reached(n, run, s) && s.destructor.Joining?
    ensures Inv(s) && s.destructor.joined <= |s.workers|
  {
    AlwaysInv(run, n, |run| - 1);
  }

  /** The destructor, up to its first join. */
  method StopAndNotifyAll(n: nat, s0: State, ghost run0: seq<State>, others: nat -> seq<Move>)
    returns (s: State, ghost run: seq<State>)
    requires Reached(n, run0, s0) && s0.destructor == Alive
    ensures Reached(n, run, s) && s.stop && s.destructor == Joining(0)
    ensures forall w :: 0 <= w < |s.workers| ==> s.workers[w] != Waiting
  {
    s, run := Others(n, s0, run0, others(0));
    ghost var before := s;
    s := s.(stop := true, destructor := MustNotify);
    run := Onward(n, run, before, s);
    s, run := Others(n, s, run, others(1));
    before := s;
    s := s.(workers := Woken(s.workers), destructor := Joining(0));
    run := Onward(n, run, before, s);
    AlwaysInv(run, n, |run| - 1);
  }

  /** The next join, if its worker has returned; else that worker goes on. */
  method JoinNext(n: nat, s0: State, ghost run0: seq<State>) returns (s: State, ghost run: seq<State>)
    requires Reached(n, run0, s0) && s0.destructor.Joining? && s0.destructor.joined < |s0.workers|
    ensures Reached(n, run, s) && s.destructor.Joining? && s.destructor.joined <= |s.workers|
    ensures Work(s) < Work(s0)
  {
    var w := s0.destructor.joined;
    if s0.workers[w] == Done {
      s := s0.(destructor := Joining(w + 1));
      assert Join(s0, s);
      run := Onward(n, run0, s0, s);
    } else {
      s := Proceeded(s0, w);
      run := MovedReached(n, run0, s0, Proceeds(w));
    }
  }

  // ----- the object -----

  class ThreadPool {
    var workers: seq<Worker>
    var tasks: seq<Task>
    var stop: bool
    var total: nat
    ghost var owing: set<Caller>
    ghost var destructor: Destructor
    ghost var log: seq<Task>

    ghost function View(): State
      reads this
    {
      State(workers, tasks, stop, owing, destructor, total, log)
    }

    constructor (threadsNum: nat)
      ensures Created(View(), threadsNum)
    {
      workers := seq(threadsNum, _ => Top);
      tasks, stop, total := [], false, 0;
      owing, destructor, log := {}, Alive, [];
    }

    /** The locked part of enqueue. */
    method Push(ghost c: Caller) returns (accepted: bool)
      requires c !in owing
      modifies this
      ensures if accepted then Enqueue(old(View()), View(), c) else EnqueueThrows(old(View()), View(), c)
    {
      if stop {
        return false;
      }
      tasks := tasks + [total];
      total := total + 1;
      owing := owing + {c};
      return true;
    }

    /** The locked part of a worker's round: sleep, return, or come away with a task. */
    method Take(w: nat) returns (task: Worker)
      requires w < |workers| && workers[w] == Top
      modifies this
      ensures TestPredicate(old(View()), View(), w) && workers[w] == task
    {
      if !(stop || tasks != []) {
        task := Waiting;
      } else if stop && tasks == [] {
        task := Done;
      } else {
        task := Busy(tasks[0]);
        tasks := tasks[1..];
      }
      workers := workers[w := task];
    }

    /** The locked part of the destructor. */
    method Stop()
      requires destructor == Alive
      modifies this
      ensures SetStop(old(View()), View())
    {
      stop := true;
      destructor := MustNotify;
    }

    method NotifyAllWorkers()
      requires destructor == MustNotify
      modifies this
      ensures NotifyAll(old(View()), View())
    {
      workers := Woken(workers);
      destructor := Joining(0);
    }
  }
}
