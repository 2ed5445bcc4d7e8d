/** The dynamic thread pool of project/6_IPV4UDP/server/threadpool.c while it is open. A
    region under mutexPool or mutexBusy is one step, but for the manager's loop over the slots:
    a thread on its way out reads and writes slots under no lock, so each look at a slot is a
    step of its own, on either side. */
module UdpThreadPool {
  import opened Counting

  const NUMSTEP := 5

  /** A task is known by its number in the order of adding; a thread by a nonzero id. */
  type Task = nat
  type ThreadId = nat

  datatype Slot = Empty | Holds(task: Task)

  /** Where a worker is. `Took` holds a task but is not counted busy yet; `Ran` still is. An
      `Exiting` worker looks for its own slot, a `Clearing` one has found it. */
  datatype Worker =
    | Top | Asleep | Took(task: Task) | Running(task: Task) | Ran | Exiting(at: nat) | Clearing(at: nat) | Gone

  /** The manager's round, with the numbers it has read. While it looks at
      slot `at`, or fills it, it holds mutexPool. */
  datatype Manager =
    | Sleeping
    | ReadBusy(live: nat, queued: nat)
    | Decides(live: nat, queued: nat, busy: int)
    | Looks(live: nat, busy: int, at: nat, count: nat)
    | Fills(live: nat, busy: int, at: nat, count: nat)
    | Shrinks(live: nat, busy: int)

  datatype State = State(
    taskQueue: seq<Slot>, queueSize: nat, queueFront: nat, queueRear: nat,
    workerIDs: seq<ThreadId>,
    numMax: nat, numMin: nat, numLive: nat, numBusy: int, numExit: nat,
    threads: seq<Worker>,        // the thread with id t is threads[t - 1]
    manager: Manager,
    added: nat,                  // history: tasks added so far
    log: seq<Task>)              // history: tasks run

  // ----- steps -----

  /** The manager holds mutexPool over several steps. */
  predicate PoolLocked(s: State) {
    s.manager.Looks? || s.manager.Fills?
  }

  /** threadpool_addtask, once the queue is not full. */
  // threadpool.c:346-365
  predicate MayAdd(s: State) {
    !PoolLocked(s) && s.queueSize < |s.taskQueue| && s.queueRear < |s.taskQueue|
  }

  function Added(s: State): State
    requires MayAdd(s)
  {
    s.(taskQueue := s.taskQueue[s.queueRear := Holds(s.added)],
       queueRear := (s.queueRear + 1) % |s.taskQueue|,
       queueSize := s.queueSize + 1, added := s.added + 1)
  }

  predicate AddTask(s: State, s': State) {
    MayAdd(s) && s' == Added(s)
  }

  predicate At(s: State, w: nat, x: Worker) {
    w < |s.threads| && s.threads[w] == x
  }

  predicate CanTake(s: State, w: nat) {
    w < |s.threads| && s.queueSize > 0 && s.queueFront < |s.taskQueue| && s.taskQueue[s.queueFront].Holds?
  }

  /** A worker that holds mutexPool and finds the queue not empty takes the front task. */
  // threadpool.c:107-114
  function TakenBy(s: State, w: nat): State
    requires CanTake(s, w)
  {
    s.(threads := s.threads[w := Took(s.taskQueue[s.queueFront].task)],
       taskQueue := s.taskQueue[s.queueFront := Empty],
       queueFront := (s.queueFront + 1) % |s.taskQueue|,
       queueSize := s.queueSize - 1)
  }

  predicate Takes(s: State, s': State, w: nat) {
    CanTake(s, w) && s' == TakenBy(s, w)
  }

  /** The thread at place `w` can go on: it is not gone, and has mutexPool where it needs it. */
  predicate MayStep(s: State, w: nat) {
    && w < |s.threads|
    && match s.threads[w]
       case Top => !PoolLocked(s) && (s.queueSize == 0 || CanTake(s, w))
       case Asleep => !PoolLocked(s) && (s.queueSize == 0 || CanTake(s, w))
       case Clearing(at) => at < |s.workerIDs|
       case Gone => false
       case _ => true
  }

  // threadpool.c:87-89
  function Entered(s: State, w: nat): State
    requires w < |s.threads| && (s.queueSize == 0 || CanTake(s, w))
  {
    if s.queueSize == 0 then s.(threads := s.threads[w := Asleep]) else TakenBy(s, w)
  }

  /** A sleeper wakes up, for whatever reason, and has mutexPool again. */
  // threadpool.c:88-99
  function Woken(s: State, w: nat): State
    requires w < |s.threads| && (s.queueSize == 0 || CanTake(s, w))
  {
    var t := if s.numExit > 0 then s.(numExit := s.numExit - 1) else s;
    if s.numExit > 0 && s.numLive > s.numMin then
      t.(numLive := t.numLive - 1, threads := t.threads[w := Exiting(0)])
    else if t.queueSize == 0 then t
    else TakenBy(t, w)
  }

  /** threadexit_unlock, under no lock: one slot is compared with the thread's own id. */
  // threadpool.c:378-382
  function AfterLook(ids: seq<ThreadId>, at: nat, t: ThreadId): Worker {
    if at >= |ids| then Gone else if ids[at] == t then Clearing(at) else Exiting(at + 1)
  }

  /** The next step of the thread at place `w`. */
  function Stepped(s: State, w: nat): State
    requires MayStep(s, w)
  {
    match s.threads[w]
    case Top => Entered(s, w)
    case Asleep => Woken(s, w)
    // threadpool.c:116-118
    case Took(k) => s.(threads := s.threads[w := Running(k)], numBusy := s.numBusy + 1)
    // threadpool.c:123
    case Running(k) => s.(threads := s.threads[w := Ran], log := s.log + [k])
    // threadpool.c:140-142
    case Ran => s.(threads := s.threads[w := Top], numBusy := s.numBusy - 1)
    case Exiting(at) => s.(threads := s.threads[w := AfterLook(s.workerIDs, at, w + 1)])
    // threadpool.c:383-384
    case Clearing(at) => s.(threads := s.threads[w := Gone], workerIDs := s.workerIDs[at := 0])
    case Gone => s
  }

  predicate WorkerMoves(s: State, s': State, w: nat) {
    MayStep(s, w) && s' == Stepped(s, w)
  }

  predicate Scans(s: State, s': State, w: nat) {
    WorkerMoves(s, s', w) && s.threads[w].Exiting?
  }

  predicate Clears(s: State, s': State, w: nat) {
    WorkerMoves(s, s', w) && s.threads[w].Clearing?
  }

  /** The head of the loop over the slots, and the look at the slot. */
  // threadpool.c:187-188
  function Looked(s: State): State
    requires s.manager.Looks?
  {
    var Looks(l, b, i, count) := s.manager;
    s.(manager :=
      if i < |s.workerIDs| && count < NUMSTEP && s.numLive < s.numMax then
        if s.workerIDs[i] == 0 then Fills(l, b, i, count) else Looks(l, b, i + 1, count)
      else Shrinks(l, b))
  }

  // threadpool.c:189-191
  function Filled(s: State): State
    requires s.manager.Fills? && s.manager.at < |s.workerIDs|
  {
    var Fills(l, b, i, count) := s.manager;
    Created(s, i).(manager := Looks(l, b, i + 1, count + 1))
  }

  // threadpool.c:189-191
  function Created(s: State, i: nat): State
    requires i < |s.workerIDs|
  {
    s.(workerIDs := s.workerIDs[i := |s.threads| + 1], threads := s.threads + [Top], numLive := s.numLive + 1)
  }

  /** Whether to create threads: at most NUMSTEP of them. */
  // threadpool.c:183-184
  predicate Short(s: State, live: nat, queued: nat, busy: int) {
    (live < queued || 5 * busy > 4 * live) && live < s.numMax
  }

  /** Whether threads are to exit. */
  // threadpool.c:197
  predicate Spare(s: State, live: nat, busy: int) {
    busy * 2 < live && live > s.numMin
  }

  predicate ManagerMay(s: State) {
    s.manager.Fills? ==> s.manager.at < |s.workerIDs|
  }

  /** The manager's next step. */
  function Managed(s: State): State
    requires ManagerMay(s)
  {
    match s.manager
    // threadpool.c:172-180
    case Sleeping => s.(manager := ReadBusy(s.numLive, s.queueSize))
    case ReadBusy(l, q) => s.(manager := Decides(l, q, s.numBusy))
    case Decides(l, q, b) => s.(manager := if Short(s, l, q, b) then Looks(l, b, 0, 0) else Shrinks(l, b))
    case Looks(_, _, _, _) => Looked(s)
    case Fills(_, _, _, _) => Filled(s)
    // threadpool.c:197-205
    case Shrinks(l, b) => s.(manager := Sleeping, numExit := if Spare(s, l, b) then NUMSTEP else s.numExit)
  }

  predicate ManagerMoves(s: State, s': State) {
    ManagerMay(s) && s' == Managed(s)
  }

  predicate ManagerFills(s: State, s': State) {
    ManagerMoves(s, s') && s.manager.Fills?
  }

  predicate ManagerLooks(s: State, s': State) {
    ManagerMoves(s, s') && s.manager.Looks?
  }

  ghost predicate Next(s: State, s': State) {
    AddTask(s, s') || (exists w :: WorkerMoves(s, s', w)) || ManagerMoves(s, s')
  }

  /** What threadpool_create leaves. */
  // threadpool.c:223-276
  function Fresh(min: nat, max: nat, capacity: nat): State
    requires min <= max
  {
    State(seq(capacity, _ => Empty), 0, 0, 0,
          seq(max, i requires 0 <= i < max => if i < min then i + 1 else 0),
          max, min, min, 0, 0, seq(min, _ => Top), Sleeping, 0, [])
  }

  ghost predicate StepAt(run: seq<State>, i: int)
    requires 0 <= i < |run| - 1
  {
    Next(run[i], run[i + 1])
  }

  ghost predicate Execution(run: seq<State>, min: nat, max: nat, capacity: nat) {
    && min <= max && |run| > 0 && run[0] == Fresh(min, max, capacity)
    && forall i {:trigger StepAt(run, i)} :: 0 <= i < |run| - 1 ==> StepAt(run, i)
  }

  // ----- the counters -----

  predicate Lives(w: Worker) { !w.Exiting? && !w.Clearing? && !w.Gone? }
  predicate Works(w: Worker) { w.Running? || w.Ran? }
  predicate Leaves(w: Worker) { w.Exiting? || w.Clearing? }
  predicate Used(t: ThreadId) { t != 0 }

  ghost predicate Counted(s: State) {
    && s.numMin <= s.numLive <= s.numMax && s.numExit <= NUMSTEP
    && s.numLive == |Those(s.threads, Lives)|
    && s.numBusy == |Those(s.threads, Works)|
    && |Those(s.workerIDs, Used)| == s.numLive + |Those(s.threads, Leaves)|
  }

  /** Every thread that is not gone has exactly one slot, which a thread on its way out has
      not passed yet, and the other slots are free. */
  ghost predicate Registered(s: State) {
    && |s.workerIDs| == s.numMax
    && (forall i :: 0 <= i < |s.workerIDs| && s.workerIDs[i] != 0 ==>
          s.workerIDs[i] <= |s.threads| && s.threads[s.workerIDs[i] - 1] != Gone)
    && (forall i, j :: 0 <= i < j < |s.workerIDs| && s.workerIDs[i] != 0 ==> s.workerIDs[i] != s.workerIDs[j])
    && (forall w: nat {:trigger HasSlot(s.workerIDs, s.threads, w)} ::
          w < |s.threads| && s.threads[w] != Gone ==> HasSlot(s.workerIDs, s.threads, w))
  }

  ghost predicate HasSlot(ids: seq<ThreadId>, ws: seq<Worker>, w: nat)
    requires w < |ws|
  {
    match ws[w]
    case Clearing(at) => at < |ids| && ids[at] == w + 1
    case Exiting(at) => exists i :: at <= i < |ids| && ids[i] == w + 1
    case _ => exists i :: 0 <= i < |ids| && ids[i] == w + 1
  }

  /** The slot that the manager is about to fill is free. */
  ghost predicate Growing(s: State) {
    s.manager.Fills? ==>
      s.manager.at < |s.workerIDs| && s.workerIDs[s.manager.at] == 0 && s.numLive < s.numMax
  }

  // ----- the ring -----

  /** How far slot `j` is behind the front. */
  function Behind(s: State, j: nat): int {
    if j >= s.queueFront then j - s.queueFront else j - s.queueFront + |s.taskQueue|
  }

  /** The ring holds the newest tasks in order of adding, from the front on; the rest of it
      is cleared. */
  ghost predicate Ring(s: State) {
    && s.queueSize <= |s.taskQueue| && s.queueSize <= s.added
    && (|s.taskQueue| > 0 ==>
          && s.queueFront < |s.taskQueue| && s.queueRear < |s.taskQueue|
          && s.queueRear == (if s.queueFront + s.queueSize < |s.taskQueue| then s.queueFront + s.queueSize
                             else s.queueFront + s.queueSize - |s.taskQueue|))
    && forall j :: 0 <= j < |s.taskQueue| ==>
         s.taskQueue[j] == if Behind(s, j) < s.queueSize then Holds(s.added - s.queueSize + Behind(s, j)) else Empty
  }

  // ----- the tasks that have left the ring -----

  predicate HasTask(w: Worker) {
    w.Took? || w.Running?
  }

  ghost predicate Held(ws: seq<Worker>, k: Task) {
    exists w :: 0 <= w < |ws| && HasTask(ws[w]) && ws[w].task == k
  }

  /** Each task that has left the ring is with exactly one worker or has run, once. */
  ghost predicate Accounted(ws: seq<Worker>, log: seq<Task>, left: nat) {
    && Once(log) && (forall k :: k in log ==> k < left)
    && (forall w :: 0 <= w < |ws| && HasTask(ws[w]) ==> ws[w].task < left && ws[w].task !in log)
    && (forall v, w :: 0 <= v < w < |ws| && HasTask(ws[v]) && HasTask(ws[w]) ==> ws[v].task != ws[w].task)
    && (forall k: nat {:trigger Held(ws, k)} :: k < left ==> k in log || Held(ws, k))
  }

  ghost predicate Inv(s: State) {
    && Counted(s) && Registered(s) && Growing(s) && Ring(s)
    && Accounted(s.threads, s.log, s.added - s.queueSize)
  }

  // ----- what every step keeps: the ring and the tasks -----

  lemma AddTaskRing(s: State, s': State)
    requires Ring(s) && AddTask(s, s')
    ensures Ring(s') && s'.added - s'.queueSize == s.added - s.queueSize
  {
    NextIndex(s.queueRear, |s.taskQueue|);
  }

  lemma TakesRing(s: State, s': State, w: nat)
    requires Ring(s) && Takes(s, s', w)
    ensures Ring(s') && s'.threads == s.threads[w := Took(s.added - s.queueSize)]
  {
    NextIndex(s.queueFront, |s.taskQueue|);
  }

  /** The ring does not depend on anything else. */
  lemma RingSame(s: State, s': State)
    requires Ring(s) && s'.taskQueue == s.taskQueue && s'.queueSize == s.queueSize && s'.added == s.added
    requires s'.queueFront == s.queueFront && s'.queueRear == s.queueRear
    ensures Ring(s')
  {
    forall j | 0 <= j < |s'.taskQueue| ensures Behind(s', j) == Behind(s, j) {
    }
  }

  lemma NextIndex(i: nat, n: nat)
    requires i < n
    ensures (i + 1) % n == if i + 1 < n then i + 1 else 0
  {
    if i + 1 == n {
      assert (i + 1) % n == 0;
    }
  }

  lemma HeldStays(ws: seq<Worker>, w: nat, x: Worker, k: Task)
    requires w < |ws| && Held(ws, k)
    requires HasTask(ws[w]) && ws[w].task == k ==> HasTask(x) && x.task == k
    ensures Held(ws[w := x], k)
  {
    var v :| 0 <= v < |ws| && HasTask(ws[v]) && ws[v].task == k;
    assert HasTask(ws[w := x][v]) && ws[w := x][v].task == k;
  }

  lemma AccountedTake(ws: seq<Worker>, log: seq<Task>, left: nat, w: nat)
    requires Accounted(ws, log, left) && w < |ws| && !HasTask(ws[w])
    ensures Accounted(ws[w := Took(left)], log, left + 1)
  {
    var ws' := ws[w := Took(left)];
    assert HasTask(ws'[w]) && ws'[w].task == left;
    forall k: nat | k < left + 1 ensures k in log || Held(ws', k) {
      if k < left && k !in log {
        HeldStays(ws, w, Took(left), k);
      }
    }
  }

  /** The worker keeps its task, or keeps having none. */
  lemma AccountedSame(ws: seq<Worker>, log: seq<Task>, left: nat, w: nat, x: Worker)
    requires Accounted(ws, log, left) && w < |ws|
    requires HasTask(x) == HasTask(ws[w]) && (HasTask(x) ==> x.task == ws[w].task)
    ensures Accounted(ws[w := x], log, left)
  {
    forall k: nat | k < left ensures k in log || Held(ws[w := x], k) {
      if k !in log {
        HeldStays(ws, w, x, k);
      }
    }
  }

  lemma AccountedRun(ws: seq<Worker>, log: seq<Task>, left: nat, w: nat)
    requires Accounted(ws, log, left) && w < |ws| && ws[w].Running?
    ensures Accounted(ws[w := Ran], log + [ws[w].task], left)
  {
    var k0 := ws[w].task;
    OnceMore(log, k0);
    forall k: nat | k < left ensures k in log + [k0] || Held(ws[w := Ran], k) {
      if k != k0 && k !in log {
        HeldStays(ws, w, Ran, k);
      }
    }
  }

  lemma AccountedSpawn(ws: seq<Worker>, log: seq<Task>, left: nat)
    requires Accounted(ws, log, left)
    ensures Accounted(ws + [Top], log, left)
  {
    forall k: nat | k < left ensures k in log || Held(ws + [Top], k) {
      if k !in log {
        assert Held(ws, k);
        var w :| 0 <= w < |ws| && HasTask(ws[w]) && ws[w].task == k;
        assert HasTask((ws + [Top])[w]);
      }
    }
  }

  // ----- the counters and the slots -----

  lemma Recount(ws: seq<Worker>, w: nat, x: Worker)
    requires w < |ws|
    ensures |Those(ws[w := x], Lives)| ==
            |Those(ws, Lives)| - (if Lives(ws[w]) then 1 else 0) + (if Lives(x) then 1 else 0)
    ensures |Those(ws[w := x], Works)| ==
            |Those(ws, Works)| - (if Works(ws[w]) then 1 else 0) + (if Works(x) then 1 else 0)
    ensures |Those(ws[w := x], Leaves)| ==
            |Those(ws, Leaves)| - (if Leaves(ws[w]) then 1 else 0) + (if Leaves(x) then 1 else 0)
  {
    Changed(ws, w, x, Lives);
    Changed(ws, w, x, Works);
    Changed(ws, w, x, Leaves);
  }

  predicate OnWayOut(w: Worker) {
    w.Exiting? || w.Clearing? || w.Gone?
  }

  lemma RegisteredSame(s: State, s': State, w: nat, x: Worker)
    requires Registered(s) && w < |s.threads| && !OnWayOut(s.threads[w]) && (!OnWayOut(x) || x == Exiting(0))
    requires s'.threads == s.threads[w := x] && s'.workerIDs == s.workerIDs && s'.numMax == s.numMax
    ensures Registered(s')
  {
    RegisteredAs(s, s', w, x);
  }

  /** A worker changes its place and keeps its slot. */
  lemma RegisteredAs(s: State, s': State, w: nat, x: Worker)
    requires Registered(s) && w < |s.threads| && s.threads[w] != Gone && x != Gone
    requires HasSlot(s.workerIDs, s.threads, w) ==> HasSlot(s.workerIDs, s.threads[w := x], w)
    requires s'.threads == s.threads[w := x] && s'.workerIDs == s.workerIDs && s'.numMax == s.numMax
    ensures Registered(s')
  {
    forall v: nat | v < |s'.threads| && s'.threads[v] != Gone ensures HasSlot(s'.workerIDs, s'.threads, v) {
      assert HasSlot(s.workerIDs, s.threads, v);
    }
  }

  /** A thread on its way out never comes to the end of the slots without its own. */
  lemma ScansRegistered(s: State, s': State, w: nat)
    requires Registered(s) && Scans(s, s', w)
    ensures Registered(s') && Leaves(s'.threads[w])
  {
    var at := s.threads[w].at;
    assert HasSlot(s.workerIDs, s.threads, w);
    assert at < |s.workerIDs| && s.workerIDs[at] != w + 1 ==>
      exists i :: at + 1 <= i < |s.workerIDs| && s.workerIDs[i] == w + 1;
    RegisteredAs(s, s', w, AfterLook(s.workerIDs, at, w + 1));
  }

  lemma ScansKeeps(s: State, s': State, w: nat)
    requires Inv(s) && Scans(s, s', w)
    ensures Inv(s')
  {
    ScansRegistered(s, s', w);
    Recount(s.threads, w, s'.threads[w]);
    RingSame(s, s');
    AccountedSame(s.threads, s.log, s.added - s.queueSize, w, s'.threads[w]);
  }

  lemma ClearsKeeps(s: State, s': State, w: nat)
    requires Inv(s) && Clears(s, s', w)
    ensures Inv(s')
  {
    assert HasSlot(s.workerIDs, s.threads, w);
    ClearsCounted(s, s', w);
    ClearsRegistered(s, s', w);
    RingSame(s, s');
    AccountedSame(s.threads, s.log, s.added - s.queueSize, w, Gone);
  }

  lemma ClearsCounted(s: State, s': State, w: nat)
    requires Counted(s) && Clears(s, s', w) && s.workerIDs[s.threads[w].at] == w + 1
    ensures Counted(s')
  {
    Recount(s.threads, w, Gone);
    Changed(s.workerIDs, s.threads[w].at, 0, Used);
  }

  lemma ClearsRegistered(s: State, s': State, w: nat)
    requires Registered(s) && Clears(s, s', w) && s.workerIDs[s.threads[w].at] == w + 1
    ensures Registered(s')
  {
    forall v: nat | v < |s'.threads| && s'.threads[v] != Gone ensures HasSlot(s'.workerIDs, s'.threads, v) {
      assert HasSlot(s.workerIDs, s.threads, v);
      OtherSlotStays(s.workerIDs, s.threads, v, s.threads[w].at, 0);
    }
  }

  /** Writing to a slot that is not the thread's own leaves it its slot. */
  lemma OtherSlotStays(ids: seq<ThreadId>, ws: seq<Worker>, w: nat, i: nat, y: ThreadId)
    requires w < |ws| && HasSlot(ids, ws, w) && i < |ids| && ids[i] != w + 1
    ensures HasSlot(ids[i := y], ws, w)
  {
    var ids' := ids[i := y];
    if !ws[w].Clearing? {
      var j: nat :| (ws[w].Exiting? ==> ws[w].at <= j) && j < |ids| && ids[j] == w + 1;
      assert ids'[j] == w + 1;
    }
  }

  lemma CreatedKeeps(s: State, i: nat)
    requires Inv(s) && i < |s.workerIDs| && s.workerIDs[i] == 0 && s.numLive < s.numMax
    ensures Counted(Created(s, i)) && Registered(Created(s, i)) && Ring(Created(s, i))
    ensures var s' := Created(s, i); Accounted(s'.threads, s'.log, s'.added - s'.queueSize)
  {
    CreatedCounted(s, i);
    CreatedRegistered(s, i);
    RingSame(s, Created(s, i));
    AccountedSpawn(s.threads, s.log, s.added - s.queueSize);
  }

  lemma CreatedCounted(s: State, i: nat)
    requires Counted(s) && i < |s.workerIDs| && s.workerIDs[i] == 0 && s.numLive < s.numMax
    ensures Counted(Created(s, i))
  {
    var id: ThreadId := |s.threads| + 1;
    Changed(s.workerIDs, i, id, Used);
    Appended(s.threads, Top, Lives);
    Appended(s.threads, Top, Works);
    Appended(s.threads, Top, Leaves);
  }

  lemma CreatedRegistered(s: State, i: nat)
    requires Registered(s) && i < |s.workerIDs| && s.workerIDs[i] == 0
    ensures Registered(Created(s, i))
  {
    var s' := Created(s, i);
    forall v: nat | v < |s'.threads| && s'.threads[v] != Gone ensures HasSlot(s'.workerIDs, s'.threads, v) {
      CreatedHasSlot(s, i, v);
    }
  }

  lemma CreatedHasSlot(s: State, i: nat, v: nat)
    requires Registered(s) && i < |s.workerIDs| && s.workerIDs[i] == 0
    requires v <= |s.threads| && (v < |s.threads| ==> s.threads[v] != Gone)
    ensures HasSlot(Created(s, i).workerIDs, Created(s, i).threads, v)
  {
    if v == |s.threads| {
      assert Created(s, i).workerIDs[i] == v + 1;
    } else {
      assert HasSlot(s.workerIDs, s.threads, v);
      OtherSlotStays(s.workerIDs, s.threads, v, i, |s.threads| + 1);
    }
  }

  lemma TakesKeeps(s: State, s': State, w: nat)
    requires Inv(s) && Takes(s, s', w) && (s.threads[w] == Top || s.threads[w] == Asleep)
    ensures Inv(s')
  {
    TakesRing(s, s', w);
    TakesCounted(s, s', w);
    TakesAccounted(s, s', w);
  }

  lemma TakesAccounted(s: State, s': State, w: nat)
    requires Ring(s) && Accounted(s.threads, s.log, s.added - s.queueSize)
    requires Takes(s, s', w) && (s.threads[w] == Top || s.threads[w] == Asleep)
    ensures Accounted(s'.threads, s'.log, s'.added - s'.queueSize)
  {
    var left := s.added - s.queueSize;
    TakesRing(s, s', w);
    AccountedTake(s.threads, s.log, left, w);
    assert s'.added - s'.queueSize == left + 1;
  }

  lemma TakesCounted(s: State, s': State, w: nat)
    requires Counted(s) && Registered(s) && Takes(s, s', w) && (s.threads[w] == Top || s.threads[w] == Asleep)
    ensures Counted(s') && Registered(s') && (Growing(s) ==> Growing(s'))
  {
    WorkerCounted(s, s', w, s'.threads[w]);
    RegisteredSame(s, s', w, s'.threads[w]);
  }

  /** Steps of one worker that leave the ring and the slots alone. */
  lemma WorkerOnly(s: State, s': State, w: nat, x: Worker)
    requires Inv(s) && w < |s.threads| && !OnWayOut(s.threads[w]) && (!OnWayOut(x) || x == Exiting(0))
    requires PoolLocked(s) ==> s'.numLive == s.numLive
    requires s' == s.(threads := s.threads[w := x], numLive := s'.numLive, numBusy := s'.numBusy,
                      numExit := s'.numExit, log := s'.log)
    requires s'.numMin <= s'.numLive && s'.numExit <= NUMSTEP
    requires s'.numLive == s.numLive - (if Leaves(x) then 1 else 0) && Lives(s.threads[w])
    requires s'.numBusy == s.numBusy - (if Works(s.threads[w]) then 1 else 0) + (if Works(x) then 1 else 0)
    requires Accounted(s'.threads, s'.log, s.added - s.queueSize)
    ensures Inv(s')
  {
    WorkerCounted(s, s', w, x);
    RegisteredSame(s, s', w, x);
    RingSame(s, s');
  }

  lemma WorkerCounted(s: State, s': State, w: nat, x: Worker)
    requires Counted(s) && w < |s.threads| && x != Gone && s'.threads == s.threads[w := x]
    requires s'.numMin == s.numMin && s'.numMax == s.numMax && s'.workerIDs == s.workerIDs
    requires s'.numMin <= s'.numLive && s'.numExit <= NUMSTEP
    requires s'.numLive == s.numLive - (if Leaves(x) then 1 else 0) && Lives(s.threads[w])
    requires s'.numBusy == s.numBusy - (if Works(s.threads[w]) then 1 else 0) + (if Works(x) then 1 else 0)
    ensures Counted(s')
  {
    Recount(s.threads, w, x);
  }

  lemma WakesKeeps(s: State, s': State, w: nat)
    requires Inv(s) && WorkerMoves(s, s', w) && s.threads[w] == Asleep
    ensures Inv(s')
  {
    var t := if s.numExit > 0 then s.(numExit := s.numExit - 1) else s;
    ManagerVariables(s, s.manager, t.numExit);
    if s.numExit > 0 && s.numLive > s.numMin {
      AccountedSame(s.threads, s.log, s.added - s.queueSize, w, Exiting(0));
      WorkerOnly(s, s', w, Exiting(0));
    } else if t.queueSize > 0 {
      TakesKeeps(t, s', w);
    }
  }

  lemma EntersKeeps(s: State, s': State, w: nat)
    requires Inv(s) && WorkerMoves(s, s', w) && s.threads[w] == Top
    ensures Inv(s')
  {
    if s.queueSize > 0 {
      TakesKeeps(s, s', w);
    } else {
      AccountedSame(s.threads, s.log, s.added - s.queueSize, w, Asleep);
      WorkerOnly(s, s', w, Asleep);
    }
  }

  lemma RunsTaskKeeps(s: State, s': State, w: nat)
    requires Inv(s) && WorkerMoves(s, s', w) && s.threads[w].Running?
    ensures Inv(s')
  {
    AccountedRun(s.threads, s.log, s.added - s.queueSize, w);
    WorkerOnly(s, s', w, Ran);
  }

  lemma BusyKeeps(s: State, s': State, w: nat)
    requires Inv(s) && WorkerMoves(s, s', w) && (s.threads[w].Took? || s.threads[w] == Ran)
    ensures Inv(s')
  {
    AccountedSame(s.threads, s.log, s.added - s.queueSize, w, s'.threads[w]);
    WorkerOnly(s, s', w, s'.threads[w]);
  }

  lemma WorkerKeeps(s: State, s': State, w: nat)
    requires Inv(s) && WorkerMoves(s, s', w)
    ensures Inv(s')
  {
    match s.threads[w] {
      case Top => EntersKeeps(s, s', w);
      case Asleep => WakesKeeps(s, s', w);
      case Running(_) => RunsTaskKeeps(s, s', w);
      case Exiting(_) => ScansKeeps(s, s', w);
      case Clearing(_) => ClearsKeeps(s, s', w);
      case _ => BusyKeeps(s, s', w);
    }
  }

  lemma ManagerVariables(s: State, m: Manager, e: nat)
    requires Inv(s) && e <= NUMSTEP && Growing(s.(manager := m, numExit := e))
    ensures Inv(s.(manager := m, numExit := e))
  {
    RingSame(s, s.(manager := m, numExit := e));
  }

  lemma ManagerOnly(s: State, s': State)
    requires Counted(s) && Registered(s) && Ring(s) && Accounted(s.threads, s.log, s.added - s.queueSize)
    requires s' == s.(manager := s'.manager) && Growing(s')
    ensures Inv(s')
  {
    RingSame(s, s');
  }

  lemma ManagerFillsKeeps(s: State, s': State)
    requires Inv(s) && ManagerFills(s, s')
    ensures Inv(s')
  {
    CreatedKeeps(s, s.manager.at);
    ManagerOnly(Created(s, s.manager.at), s');
  }

  lemma ManagerKeeps(s: State, s': State)
    requires Inv(s) && ManagerMoves(s, s')
    ensures Inv(s')
  {
    if ManagerFills(s, s') {
      ManagerFillsKeeps(s, s');
    } else {
      ManagerVariablesOnly(s, s');
      ManagerVariables(s, s'.manager, s'.numExit);
    }
  }

  lemma ManagerVariablesOnly(s: State, s': State)
    requires ManagerMoves(s, s') && !s.manager.Fills? && s.numExit <= NUMSTEP
    ensures s' == s.(manager := s'.manager, numExit := s'.numExit) && s'.numExit <= NUMSTEP && Growing(s')
  {
  }

  lemma InvKept(s: State, s': State)
    requires Inv(s) && Next(s, s')
    ensures Inv(s')
  {
    if AddTask(s, s') {
      AddTaskRing(s, s');
    } else if w: nat :| WorkerMoves(s, s', w) {
      WorkerKeeps(s, s', w);
    } else {
      ManagerKeeps(s, s');
    }
  }

  // ----- results over all interleavings -----

  lemma FreshCounted(min: nat, max: nat, capacity: nat)
    requires min <= max
    ensures Counted(Fresh(min, max, capacity))
  {
    var s := Fresh(min, max, capacity);
    NodesAre(min);
    assert Those(s.threads, Lives) == Nodes(min);
    assert Those(s.workerIDs, Used) == Nodes(min);
    assert Those(s.threads, Works) == {};
    assert Those(s.threads, Leaves) == {};
  }

  lemma FreshRegistered(min: nat, max: nat, capacity: nat)
    requires min <= max
    ensures Registered(Fresh(min, max, capacity))
  {
    var s := Fresh(min, max, capacity);
    forall w: nat | w < min ensures HasSlot(s.workerIDs, s.threads, w) {
      assert s.workerIDs[w] == w + 1;
    }
  }

  lemma FreshInv(min: nat, max: nat, capacity: nat)
    requires min <= max
    ensures Inv(Fresh(min, max, capacity))
  {
    FreshCounted(min, max, capacity);
    FreshRegistered(min, max, capacity);
  }

  lemma {:induction false} AlwaysInv(run: seq<State>, min: nat, max: nat, capacity: nat, i: nat)
    requires Execution(run, min, max, capacity) && i < |run|
    ensures Inv(run[i])
  {
    if i == 0 {
      FreshInv(min, max, capacity);
    } else {
      AlwaysInv(run, min, max, capacity, i - 1);
      assert StepAt(run, i - 1);
      InvKept(run[i - 1], run[i]);
    }
  }

  /** In every interleaving: the numbers stay within their bounds, also across the two
      locks, and the slots in use are the living threads and those about to exit. */
  lemma NumbersInBounds(run: seq<State>, min: nat, max: nat, capacity: nat, i: nat)
    requires Execution(run, min, max, capacity) && i < |run|
    ensures run[i].numMin <= run[i].numLive <= run[i].numMax
    ensures 0 <= run[i].numBusy <= run[i].numLive
    ensures |Those(run[i].workerIDs, Used)| == run[i].numLive + |Those(run[i].threads, Leaves)|
  {
    AlwaysInv(run, min, max, capacity, i);
    SubsetSize(Those(run[i].threads, Works), Those(run[i].threads, Lives));
  }

  /** In every interleaving: the next task to be delivered is the oldest one not delivered,
      and each delivered task is with one worker or has run once. */
  lemma FirstInFirstOut(run: seq<State>, min: nat, max: nat, capacity: nat, i: nat)
    requires Execution(run, min, max, capacity) && i < |run|
    ensures run[i].queueSize <= run[i].added
    ensures var s := run[i]; var left := s.added - s.queueSize;
      && (s.queueSize > 0 ==> s.queueFront < |s.taskQueue| && s.taskQueue[s.queueFront] == Holds(left))
      && (s.queueSize < |s.taskQueue| ==> s.queueRear < |s.taskQueue| && s.taskQueue[s.queueRear] == Empty)
      && Accounted(s.threads, s.log, left)
  {
    AlwaysInv(run, min, max, capacity, i);
  }

  // ----- how many leave -----

  ghost predicate Orders(s: State, s': State) {
    ManagerMoves(s, s') && s.manager.Shrinks? && Spare(s, s.manager.live, s.manager.busy)
  }

  /** How often in the first `n` steps the manager has ordered threads to exit. */
  ghost function OrdersIn(run: seq<State>, n: nat): nat
    requires n < |run|
  {
    if n == 0 then 0 else OrdersIn(run, n - 1) + if Orders(run[n - 1], run[n]) then 1 else 0
  }

  /** In every interleaving each order sends at most NUMSTEP threads off; with those that have
      gone, the threads ever created are the ones that live. */
  lemma LeaversBounded(run: seq<State>, min: nat, max: nat, capacity: nat, n: nat)
    requires Execution(run, min, max, capacity) && n < |run|
    ensures |Those(run[n].threads, OnWayOut)| + run[n].numExit <= NUMSTEP * OrdersIn(run, n)
    ensures |run[n].threads| == run[n].numLive + |Those(run[n].threads, OnWayOut)|
  {
    AlwaysInv(run, min, max, capacity, n);
    LiveOrLeave(run[n].threads);
    LeaversUpTo(run, min, max, capacity, n);
  }

  lemma {:induction false} LeaversUpTo(run: seq<State>, min: nat, max: nat, capacity: nat, n: nat)
    requires Execution(run, min, max, capacity) && n < |run|
    ensures |Those(run[n].threads, OnWayOut)| + run[n].numExit <= NUMSTEP * OrdersIn(run, n)
  {
    if n == 0 {
      NoneLeft(min, max, capacity);
    } else {
      LeaversUpTo(run, min, max, capacity, n - 1);
      assert StepAt(run, n - 1);
      LeaversStep(run[n - 1], run[n]);
    }
  }

  lemma NoneLeft(min: nat, max: nat, capacity: nat)
    requires min <= max
    ensures |Those(Fresh(min, max, capacity).threads, OnWayOut)| + Fresh(min, max, capacity).numExit == 0
  {
    assert Those(Fresh(min, max, capacity).threads, OnWayOut) == {};
  }

  lemma LiveOrLeave(ws: seq<Worker>)
    ensures |ws| == |Those(ws, Lives)| + |Those(ws, OnWayOut)|
  {
    NodesAre(|ws|);
    assert Nodes(|ws|) == Those(ws, Lives) + Those(ws, OnWayOut);
    assert Those(ws, Lives) !! Those(ws, OnWayOut);
  }

  lemma LeaversStep(s: State, s': State)
    requires Next(s, s')
    ensures |Those(s'.threads, OnWayOut)| + s'.numExit <=
            |Those(s.threads, OnWayOut)| + s.numExit + if Orders(s, s') then NUMSTEP else 0
  {
    if AddTask(s, s') {
    } else if w: nat :| WorkerMoves(s, s', w) {
      WorkerLeaves(s, w);
      Changed(s.threads, w, s'.threads[w], OnWayOut);
    } else {
      Appended(s.threads, Top, OnWayOut);
      ManagerSendsOff(s, s');
    }
  }

  /** A thread that leaves uses up an order. */
  lemma WorkerLeaves(s: State, w: nat)
    requires MayStep(s, w)
    ensures var s' := Stepped(s, w);
      && |s'.threads| == |s.threads| && s'.threads == s.threads[w := s'.threads[w]]
      && s'.numExit <= s.numExit - if OnWayOut(s'.threads[w]) && !OnWayOut(s.threads[w]) then 1 else 0
  {
  }

  lemma ManagerSendsOff(s: State, s': State)
    requires ManagerMoves(s, s')
    ensures s'.threads == s.threads || s'.threads == s.threads + [Top]
    ensures s'.numExit == if Orders(s, s') then NUMSTEP else s.numExit
  {
  }

  // ----- what a worker does undisturbed -----

  function Smaller(a: nat, b: nat): nat {
    if a < b then a else b
  }

  /** The sleepers `ws` wake up, one after the other, with nothing to do. */
  ghost function WokenAll(s: State, ws: seq<nat>): State
    requires s.queueSize == 0 && forall i :: 0 <= i < |ws| ==> ws[i] < |s.threads|
    decreases |ws|
  {
    if ws == [] then s else WokenAll(Woken(s, ws[0]), ws[1..])
  }

  /** Of sleepers that wake up with nothing to do as many leave as have been ordered to, down
      to the least number of threads; each that finds an order uses it up. */
  lemma {:induction false} OrdersCarriedOut(s: State, ws: seq<nat>)
    requires s.queueSize == 0 && s.numMin <= s.numLive && Once(ws)
    requires forall i :: 0 <= i < |ws| ==> ws[i] < |s.threads| && s.threads[ws[i]] == Asleep
    ensures var s', k := WokenAll(s, ws), Smaller(|ws|, Smaller(s.numExit, s.numLive - s.numMin));
      && s'.numLive == s.numLive - k && s'.numExit == s.numExit - Smaller(|ws|, s.numExit)
      && |s'.threads| == |s.threads|
      && (forall i :: 0 <= i < |ws| ==> s'.threads[ws[i]] == if i < k then Exiting(0) else Asleep)
      && (forall v :: 0 <= v < |s.threads| && v !in ws ==> s'.threads[v] == s.threads[v])
    decreases |ws|
  {
    if ws != [] {
      var t, rest := Woken(s, ws[0]), ws[1..];
      OrdersCarriedOut(t, rest);
      assert forall v :: v in ws <==> v == ws[0] || v in rest;
      assert forall i :: 0 < i < |ws| ==> ws[i] == rest[i - 1];
    }
  }

  /** An idle worker that gets mutexPool takes the oldest task, if there is one and, when it
      has been asleep, no order to exit stands. */
  lemma IdleTakesOldest(s: State, w: nat)
    requires Inv(s) && (At(s, w, Top) || At(s, w, Asleep)) && !PoolLocked(s)
    ensures MayStep(s, w)
    ensures s.queueSize > 0 && (s.threads[w] == Asleep ==> s.numExit == 0 || s.numLive == s.numMin) ==>
      var oldest: Task, s' := s.added - s.queueSize, Stepped(s, w);
      s'.threads == s.threads[w := Took(oldest)] && s'.queueSize == s.queueSize - 1
  {
  }

  // ----- the object -----

  class ThreadPool {
    const taskQueue: array<Slot>
    var queueSize: nat
    var queueFront: nat
    var queueRear: nat
    const workerIDs: array<ThreadId>
    const numMax: nat
    const numMin: nat
    var numLive: nat
    var numBusy: int
    var numExit: nat
    var threads: seq<Worker>
    var added: nat
    var manager: Manager
    ghost var log: seq<Task>

    ghost function View(): State
      reads this, taskQueue, workerIDs
    {
      State(taskQueue[..], queueSize, queueFront, queueRear, workerIDs[..], numMax, numMin, numLive, numBusy, numExit,
            threads, manager, added, log)
    }

    constructor (min: nat, max: nat, capacity: nat)
      requires min <= max
      ensures View() == Fresh(min, max, capacity) && fresh(taskQueue) && fresh(workerIDs)
    {
      taskQueue := new Slot[capacity](_ => Empty);
      queueSize, queueFront, queueRear := 0, 0, 0;
      workerIDs := new ThreadId[max](i => if i < min then i + 1 else 0);
      numMax, numMin, numLive, numBusy, numExit := max, min, min, 0, 0;
      threads := seq(min, _ => Top);
      added, manager, log := 0, Sleeping, [];
    }

    method Add()
      requires MayAdd(View())
      modifies this, taskQueue
      ensures AddTask(old(View()), View())
    {
      taskQueue[queueRear] := Holds(added);
      queueRear := (queueRear + 1) % taskQueue.Length;
      queueSize := queueSize + 1;
      added := added + 1;
    }

    method Take(w: nat) returns (task: Task)
      requires CanTake(View(), w)
      modifies this, taskQueue
      ensures Takes(old(View()), View(), w) && threads[w] == Took(task)
    {
      task := taskQueue[queueFront].task;
      taskQueue[queueFront] := Empty;
      queueFront := (queueFront + 1) % taskQueue.Length;
      queueSize := queueSize - 1;
      threads := threads[w := Took(task)];
    }

    // ----- the slots: one access at a time -----

    method LookAtSlot()
      requires manager.Looks? && manager.at < workerIDs.Length && manager.count < NUMSTEP && numLive < numMax
      modifies this`manager
      ensures ManagerLooks(old(View()), View())
    {
      var Looks(l, b, i, count) := manager;
      manager := if workerIDs[i] == 0 then Fills(l, b, i, count) else Looks(l, b, i + 1, count);
    }

    method FillSlot()
      requires manager.Fills? && manager.at < workerIDs.Length
      modifies this`manager, this`threads, this`numLive, workerIDs
      ensures ManagerFills(old(View()), View())
    {
      var Fills(l, b, i, count) := manager;
      workerIDs[i] := |threads| + 1;
      threads := threads + [Top];
      numLive := numLive + 1;
      manager := Looks(l, b, i + 1, count + 1);
    }

    method ScanSlot(w: nat)
      requires w < |threads| && threads[w].Exiting?
      modifies this`threads
      ensures Scans(old(View()), View(), w)
    {
      threads := threads[w := AfterLook(workerIDs[..], threads[w].at, w + 1)];
    }

    method ClearSlot(w: nat)
      requires w < |threads| && threads[w].Clearing? && threads[w].at < workerIDs.Length
      modifies this`threads, workerIDs
      ensures Clears(old(View()), View(), w)
    {
      workerIDs[threads[w].at] := 0;
      threads := threads[w := Gone];
    }
  }

  // ----- the two loops over the slots, run against each other -----

  datatype Setup = Setup(min: nat, max: nat, capacity: nat)

  /** A run of the pool has come to the state `s`. */
  ghost predicate Reached(p: Setup, run: seq<State>, s: State) {
    Execution(run, p.min, p.max, p.capacity) && run[|run| - 1] == s
  }

  /** Whose step is next: the manager's, a thread's, or that of somebody who adds a task. */
  datatype Move = ByManager | ByThread(w: nat) | ByProducer

  predicate Possible(s: State, m: Move) {
    match m
    case ByManager => ManagerMay(s)
    case ByThread(w) => MayStep(s, w)
    case ByProducer => MayAdd(s)
  }

  function Moved(s: State, m: Move): State
    requires Possible(s, m)
  {
    match m
    case ByManager => Managed(s)
    case ByThread(w) => Stepped(s, w)
    case ByProducer => Added(s)
  }

  lemma MovedReached(p: Setup, run: seq<State>, s: State, m: Move) returns (run': seq<State>)
    requires Reached(p, run, s) && Possible(s, m)
    ensures Reached(p, run', Moved(s, m)) && run' == run + [Moved(s, m)]
  {
    var s' := Moved(s, m);
    assert Next(s, s') by {
      if m.ByThread? { assert WorkerMoves(s, s', m.w); }
    }
    run' := run + [s'];
    forall i | 0 <= i < |run'| - 1 ensures StepAt(run', i) {
      assert i < |run| - 1 ==> StepAt(run, i);
    }
  }

  /** What moves leave alone that are not those of `own`. */
  predicate Spared(s: State, s': State, own: Move) {
    && |s.threads| <= |s'.threads| && |s'.workerIDs| == |s.workerIDs|
    && s'.numMax == s.numMax && s'.numMin == s.numMin
    && (own.ByThread? && own.w < |s.threads| ==> s'.threads[own.w] == s.threads[own.w])
    && (own.ByManager? ==>
          && s'.manager == s.manager && |s'.threads| == |s.threads| && s'.numExit <= s.numExit
          && (PoolLocked(s) ==> s'.numLive == s.numLive))
  }

  lemma OthersSpare(s: State, m: Move, own: Move)
    requires Possible(s, m) && m != own
    ensures Spared(s, Moved(s, m), own)
  {
  }

  /** The run has gone on with the manager where it was. */
  ghost predicate Waited(run0: seq<State>, run: seq<State>, m: Manager) {
    run0 <= run && forall i :: |run0| <= i < |run| ==> run[i].manager == m
  }

  /** Moves by others than `own`; what is not possible is passed over. */
  method Others(p: Setup, s0: State, ghost run0: seq<State>, moves: seq<Move>, own: Move)
    returns (s: State, ghost run: seq<State>)
    requires Reached(p, run0, s0)
    ensures Reached(p, run, s) && Spared(s0, s, own) && (moves == [] ==> s == s0)
    ensures own.ByManager? ==> Waited(run0, run, s0.manager)
  {
    s, run := s0, run0;
    for i := 0 to |moves|
      invariant Reached(p, run, s) && Spared(s0, s, own) && (i == 0 ==> s == s0)
      invariant own.ByManager? ==> Waited(run0, run, s0.manager)
    {
      if moves[i] != own && Possible(s, moves[i]) {
        OthersSpare(s, moves[i], own);
        run := MovedReached(p, run, s, moves[i]);
        s := Moved(s, moves[i]);
      }
    }
  }

  /** A thread on its way out has its slot at or ahead of where it is. */
  lemma SlotAhead(p: Setup, run: seq<State>, s: State, w: nat)
    requires Reached(p, run, s) && w < |s.threads|
    ensures s.threads[w].Exiting? || s.threads[w].Clearing? ==> s.threads[w].at < |s.workerIDs|
    ensures s.threads[w] == Gone ==> w + 1 !in s.workerIDs
  {
    AlwaysInv(run, p.min, p.max, p.capacity, |run| - 1);
    if s.threads[w] != Gone {
      assert HasSlot(s.workerIDs, s.threads, w);
    }
  }

  /** threadexit_unlock, run by the thread at place `w`; `others(k)` is what the manager and
      other threads do to the slots before its `k`-th access to them. */
  method ThreadExit(p: Setup, s0: State, ghost run0: seq<State>, w: nat, others: nat -> seq<Move>)
    returns (s: State, ghost run: seq<State>)
    requires Reached(p, run0, s0) && At(s0, w, Exiting(0))
    ensures Reached(p, run, s) && At(s, w, Gone) && w + 1 !in s.workerIDs
  {
    s, run := s0, run0;
    var k := 0;
    while s.threads[w] != Gone
      invariant Reached(p, run, s) && w < |s.threads| && k >= 0
      invariant s.threads[w] == Gone || s.threads[w].Clearing? || s.threads[w].Exiting?
      decreases match s.threads[w] case Exiting(at) => |s.workerIDs| - at + 2 case Clearing(_) => 1 case _ => 0
    {
      SlotAhead(p, run, s, w);
      s, run := Others(p, s, run, others(k), ByThread(w));
      SlotAhead(p, run, s, w);
      run := MovedReached(p, run, s, ByThread(w));
      s := Moved(s, ByThread(w));
      k := k + 1;
    }
    SlotAhead(p, run, s, w);
  }

  /** The manager has been in its loop over the slots since the run was `run0`. */
  ghost predicate Looped(run0: seq<State>, run: seq<State>) {
    exists i :: |run0| <= i < |run| && run[i].manager.Looks?
  }

  lemma LoopedInParts(a: seq<State>, b: seq<State>, c: seq<State>)
    requires a <= b <= c
    ensures Looped(a, c) <==> Looped(a, b) || Looped(b, c)
  {
  }

  /** The manager's next step, after the `moves` of others; it finds the pool in the state `t`. */
  method ManagerStep(p: Setup, s0: State, ghost run0: seq<State>, moves: seq<Move>)
    returns (ghost t: State, s: State, ghost run: seq<State>)
    requires Reached(p, run0, s0)
    ensures Reached(p, run, s) && ManagerMay(t) && s == Managed(t) && Spared(s0, t, ByManager)
    ensures |run| > |run0| && run0 <= run && Reached(p, run[..|run| - 1], t) && run[|run| - 2] == t
    ensures !s0.manager.Looks? ==> (Looped(run0, run) <==> s.manager.Looks?)
    ensures moves == [] ==> t == s0
  {
    s, run := Others(p, s0, run0, moves, ByManager);
    ManagerGoesOn(p, run, s);
    t := s;
    ghost var sofar := run;
    run := MovedReached(p, run, s, ByManager);
    s := Moved(s, ByManager);
    assert run[..|run| - 1] == sofar && run[|run| - 1] == s;
  }

  lemma ManagerGoesOn(p: Setup, run: seq<State>, s: State)
    requires Reached(p, run, s)
    ensures ManagerMay(s)
  {
    AlwaysInv(run, p.min, p.max, p.capacity, |run| - 1);
  }

  /** The manager's loop over the slots; `others(k)` is what all other threads do before its
      `k`-th access to them. */
  method CreateThreads(p: Setup, s0: State, ghost run0: seq<State>, others: nat -> seq<Move>)
    returns (s: State, ghost run: seq<State>)
    requires Reached(p, run0, s0) && s0.manager.Looks? && s0.manager.at == s0.manager.count == 0
    ensures Reached(p, run, s) && s.manager == Shrinks(s0.manager.live, s0.manager.busy) && run0 <= run
    ensures |s.threads| - |s0.threads| == s.numLive - s0.numLive && 0 <= s.numLive - s0.numLive <= NUMSTEP
    ensures s.numMin == s0.numMin && s.numMax == s0.numMax && s.numExit <= s0.numExit
    ensures Quiet(others) ==>
      s.numLive - s0.numLive == NUMSTEP || s.numLive == s.numMax || 0 !in s.workerIDs
    ensures Quiet(others) ==> OnlyGrown(s0, s)
  {
    s, run := s0, run0;
    var k := 0;
    while s.manager.Looks? || s.manager.Fills?
      invariant Reached(p, run, s) && k >= 0 && CreatedSoFar(s0, s) && run0 <= run
      invariant s.numMin == s0.numMin && s.numMax == s0.numMax && s.numExit <= s0.numExit
      invariant Quiet(others) ==> OnlyGrown(s0, s)
      invariant Quiet(others) && s.manager.Shrinks? ==>
        s.numLive - s0.numLive == NUMSTEP || s.numLive == s.numMax || 0 !in s.workerIDs
      invariant Quiet(others) && !s.manager.Shrinks? ==> 0 !in s.workerIDs[..s.manager.at]
      decreases if s.manager.Shrinks? then 0 else |s.workerIDs| - s.manager.at + 1, s.manager.Looks?
    {
      ghost var t;
      t, s, run := ManagerStep(p, s, run, others(k));
      LoopEnds(p, run[..|run| - 1], t);
      k := k + 1;
    }
  }

  /** Only threads have been created. */
  predicate OnlyGrown(s0: State, s: State) {
    s == s0.(workerIDs := s.workerIDs, threads := s.threads, numLive := s.numLive, manager := s.manager)
  }

  /** The loop ends when enough threads have been created, or all slots have been passed. */
  lemma LoopEnds(p: Setup, run: seq<State>, s: State)
    requires Reached(p, run, s)
    ensures s.manager.Looks? && s.manager.at <= |s.workerIDs| && Looked(s).manager.Shrinks? ==>
      s.manager.count >= NUMSTEP || s.numLive == s.numMax || s.workerIDs[..s.manager.at] == s.workerIDs
  {
    AlwaysInv(run, p.min, p.max, p.capacity, |run| - 1);
  }

  /** How far the loop has come, by the manager's variables. */
  predicate CreatedSoFar(s0: State, s: State) {
    && s0.manager.Looks? && |s.threads| - |s0.threads| == s.numLive - s0.numLive
    && match s.manager
       case Looks(l, b, at, count) =>
         && l == s0.manager.live && b == s0.manager.busy
         && s.numLive - s0.numLive == count <= NUMSTEP && at <= |s.workerIDs|
       case Fills(l, b, at, count) =>
         && l == s0.manager.live && b == s0.manager.busy
         && s.numLive - s0.numLive == count < NUMSTEP && at < |s.workerIDs|
       case Shrinks(l, b) =>
         l == s0.manager.live && b == s0.manager.busy && 0 <= s.numLive - s0.numLive <= NUMSTEP
       case _ => false
  }

  ghost predicate Quiet(others: nat -> seq<Move>) {
    forall k: nat :: others(k) == []
  }

  /** These were the numbers of the pool at two moments since the run was `run0`. */
  ghost predicate NumbersOf(run0: seq<State>, run: seq<State>, live: nat, queued: nat, busy: int) {
    exists i, j ::
      |run0| - 1 <= i < j < |run| && i >= 0 &&
      run[i].numLive == live && run[i].queueSize == queued && run[j].numBusy == busy
  }

  /** The manager reads the numbers, under one lock after the other. */
  method ReadNumbers(p: Setup, s0: State, ghost run0: seq<State>, others: nat -> seq<Move>)
    returns (s: State, ghost run: seq<State>, live: nat, queued: nat, busy: int)
    requires Reached(p, run0, s0) && s0.manager == Sleeping
    ensures Reached(p, run, s) && s.manager == Decides(live, queued, busy) && run0 <= run
    ensures NumbersOf(run0, run, live, queued, busy) && !Looped(run0, run)
    ensures |s.threads| == |s0.threads| && s.numMin == s0.numMin && s.numMax == s0.numMax && s.numExit <= s0.numExit
    ensures Quiet(others) ==>
      live == s0.numLive && queued == s0.queueSize && busy == s0.numBusy && s == s0.(manager := s.manager)
  {
    ghost var t;
    t, s, run := ManagerStep(p, s0, run0, others(0));
    ghost var first, run1 := |run| - 2, run;
    live, queued := s.manager.live, s.manager.queued;
    t, s, run := ManagerStep(p, s, run, others(1));
    busy := s.manager.busy;
    LoopedInParts(run0, run1, run);
    assert run[first].numLive == live && run[first].queueSize == queued && run[|run| - 2].numBusy == busy;
  }

  lemma NumbersStay(run0: seq<State>, run: seq<State>, run': seq<State>, live: nat, queued: nat, busy: int)
    requires NumbersOf(run0, run, live, queued, busy) && run <= run'
    ensures NumbersOf(run0, run', live, queued, busy)
  {
    var i, j :| |run0| - 1 <= i < j < |run| && i >= 0 &&
      run[i].numLive == live && run[i].queueSize == queued && run[j].numBusy == busy;
    assert run'[i] == run[i] && run'[j] == run[j];
  }

  /** Threads are created if the numbers read ask for it. */
  method GrowIfShort(p: Setup, s0: State, ghost run0: seq<State>, moves: seq<Move>, within: nat -> seq<Move>)
    returns (s: State, ghost run: seq<State>)
    requires Reached(p, run0, s0) && s0.manager.Decides?
    ensures Reached(p, run, s) && s.manager == Shrinks(s0.manager.live, s0.manager.busy) && run0 <= run
    ensures var Decides(live, queued, busy) := s0.manager;
      Looped(run0, run) <==> (live < queued || 5 * busy > 4 * live) && live < s0.numMax
    ensures 0 <= |s.threads| - |s0.threads| <= NUMSTEP && (!Looped(run0, run) ==> |s.threads| == |s0.threads|)
    ensures s.numMin == s0.numMin && s.numMax == s0.numMax && s.numExit <= s0.numExit
    ensures moves == [] && Quiet(within) ==>
      && OnlyGrown(s0, s) && s.numLive - s0.numLive == |s.threads| - |s0.threads|
      && (Looped(run0, run) ==>
            s.numLive - s0.numLive == NUMSTEP || s.numLive == s.numMax || 0 !in s.workerIDs)
  {
    ghost var t;
    t, s, run := ManagerStep(p, s0, run0, moves);
    ghost var run1 := run;
    if s.manager.Looks? {
      s, run := CreateThreads(p, s, run, within);
      LoopedInParts(run0, run1, run);
    }
  }

  /** A round of the manager, from one sleep to the next; `others(k)` is what all other threads
      do before its `k`-th step, `within(k)` what they do before its `k`-th access to the slots. */
  method ManagerRound(p: Setup, s0: State, ghost run0: seq<State>, others: nat -> seq<Move>, within: nat -> seq<Move>)
    returns (s: State, ghost run: seq<State>, live: nat, queued: nat, busy: int)
    requires Reached(p, run0, s0) && s0.manager == Sleeping
    ensures Reached(p, run, s) && s.manager == Sleeping && run0 <= run
    ensures NumbersOf(run0, run, live, queued, busy)
    ensures Looped(run0, run) <==> (live < queued || 5 * busy > 4 * live) && live < s0.numMax
    ensures 0 <= |s.threads| - |s0.threads| <= NUMSTEP && (!Looped(run0, run) ==> |s.threads| == |s0.threads|)
    ensures busy * 2 < live && live > s0.numMin ==> s.numExit == NUMSTEP
    ensures !(busy * 2 < live && live > s0.numMin) ==> s.numExit <= s0.numExit
    ensures Quiet(others) && Quiet(within) ==>
      && live == s0.numLive && queued == s0.queueSize && busy == s0.numBusy
      && OnlyGrown(s0, s.(numExit := s0.numExit)) && s.numLive - s0.numLive == |s.threads| - |s0.threads|
      && (Looped(run0, run) ==>
            s.numLive - s0.numLive == NUMSTEP || s.numLive == s.numMax || 0 !in s.workerIDs)
      && (s.numExit != s0.numExit ==> busy * 2 < live && live > s0.numMin)
  {
    s, run, live, queued, busy := ReadNumbers(p, s0, run0, others);
    ghost var run1 := run;
    s, run := GrowIfShort(p, s, run, others(2), within);
    ghost var t, run2 := s, run;
    t, s, run := ManagerStep(p, s, run, others(3));
    LoopedInParts(run0, run1, run2);
    LoopedInParts(run0, run2, run);
    NumbersStay(run0, run1, run, live, queued, busy);
  }

  // ----- the thread function of a worker, undisturbed -----

  /** The tasks from `a` up to `b`, in the order of adding. */
  ghost function Tasks(a: nat, b: nat): seq<Task>
    requires a <= b
  {
    seq(b - a, i requires 0 <= i < b - a => a + i)
  }

  /** Only the queue has got shorter, and tasks have been run. */
  predicate OnlyServed(s0: State, s: State) {
    s == s0.(taskQueue := s.taskQueue, queueFront := s.queueFront, queueSize := s.queueSize, log := s.log)
  }

  /** From the top of its loop to the top again: a worker runs the oldest task. */
  method ServeOne(p: Setup, s0: State, ghost run0: seq<State>, w: nat) returns (s: State, ghost run: seq<State>)
    requires Reached(p, run0, s0) && At(s0, w, Top) && !PoolLocked(s0) && s0.queueSize > 0
    ensures Reached(p, run, s) && OnlyServed(s0, s) && s.queueSize == s0.queueSize - 1 && s0.queueSize <= s0.added
    ensures s.log == s0.log + [s0.added - s0.queueSize]
  {
    AlwaysInv(run0, p.min, p.max, p.capacity, |run0| - 1);
    ghost var states := OnceRound(s0, w);
    s, run := s0, run0;
    for k := 0 to 4
      invariant Reached(p, run, s) && s == states[k]
    {
      run := MovedReached(p, run, s, ByThread(w));
      s := Moved(s, ByThread(w));
    }
  }

  /** The states of such a round. */
  lemma OnceRound(s: State, w: nat) returns (states: seq<State>)
    requires Inv(s) && At(s, w, Top) && !PoolLocked(s) && s.queueSize > 0
    ensures |states| == 5 && states[0] == s
    ensures forall k :: 0 <= k < 4 ==> MayStep(states[k], w) && states[k + 1] == Stepped(states[k], w)
    ensures OnlyServed(s, states[4]) && s.queueSize <= s.added && states[4].queueSize == s.queueSize - 1
    ensures states[4].log == s.log + [s.added - s.queueSize]
  {
    IdleTakesOldest(s, w);
    var a := Stepped(s, w);
    var b, c := FromTaken(s, a, w, s.added - s.queueSize);
    states := [s, a, b, c, Stepped(c, w)];
  }

  /** A task that has been taken is run, and the worker comes back to the top. */
  lemma FromTaken(s: State, a: State, w: nat, k: Task) returns (b: State, c: State)
    requires At(s, w, Top) && At(a, w, Took(k)) && a.threads == s.threads[w := Took(k)]
    ensures b == Stepped(a, w) && MayStep(b, w) && c == Stepped(b, w) && MayStep(c, w)
    ensures Stepped(c, w) == a.(threads := s.threads, log := a.log + [k])
  {
    b := Stepped(a, w);
    assert b == a.(threads := a.threads[w := Running(k)], numBusy := a.numBusy + 1);
    c := Stepped(b, w);
    assert c == b.(threads := b.threads[w := Ran], log := b.log + [k]);
    assert c.threads[w := Top] == s.threads;
  }

  /** A worker that is left alone runs all tasks there are, in order, each once, and only then
      goes to sleep. */
  method ServeAll(p: Setup, s0: State, ghost run0: seq<State>, w: nat) returns (s: State, ghost run: seq<State>)
    requires Reached(p, run0, s0) && At(s0, w, Top) && !PoolLocked(s0)
    ensures Reached(p, run, s) && At(s, w, Asleep) && s.queueSize == 0 && s0.queueSize <= s0.added
    ensures s.log == s0.log + Tasks(s0.added - s0.queueSize, s0.added)
    ensures OnlyServed(s0.(threads := s0.threads[w := Asleep]), s)
  {
    s, run := s0, run0;
    InOrderOfAdding(p, run, s);
    while s.queueSize > 0
      invariant Reached(p, run, s) && OnlyServed(s0, s) && s.queueSize <= s0.queueSize <= s0.added
      invariant s.log == s0.log + Tasks(s0.added - s0.queueSize, s0.added - s.queueSize)
      decreases s.queueSize
    {
      OneTaskMore(s0.log, s0.added - s0.queueSize, s0.added - s.queueSize);
      s, run := ServeOne(p, s, run, w);
    }
    run := MovedReached(p, run, s, ByThread(w));
    s := Moved(s, ByThread(w));
  }

  lemma InOrderOfAdding(p: Setup, run: seq<State>, s: State)
    requires Reached(p, run, s)
    ensures s.queueSize <= s.added && s.log + Tasks(s.added - s.queueSize, s.added - s.queueSize) == s.log
  {
    AlwaysInv(run, p.min, p.max, p.capacity, |run| - 1);
  }

  lemma OneTaskMore(log: seq<Task>, a: nat, b: nat)
    requires a <= b
    ensures log + Tasks(a, b) + [b] == log + Tasks(a, b + 1)
  {
    assert Tasks(a, b + 1) == Tasks(a, b) + [b];
  }
}
