/** The event loop of project/7_myMuduo/EventLoop.cc and the threads that queue work on
    it. Every region under the mutex, and every access to an atomic or to the eventfd, is
    one step; between two steps of a thread any other thread may move. */
module EventLoop {

  /** A functor is known by its identity; a thread by its id. */
  type Functor = nat
  type Thread = nat

  /** The largest value an eventfd counter can hold: 2^64 - 2. */
  const EVENTFD_MAX := 0xffff_ffff_ffff_fffe

  /** Where the loop's own thread is. `Outside` is before loop() is called, `Inside` inside a
      queued functor, `Handle` among the channel callbacks. */
  datatype Pc = Outside | Check | Poll | Handle | Begin | Swap | Run | Inside | Exited

  datatype State = State(
    pc: Pc,
    woken: bool,             // poll reported the wakeup channel, not handled yet
    quit: bool,
    calling: bool,           // callingPendingFunctors_
    counter: nat,            // the eventfd
    pending: seq<Functor>,   // pendingFunctors_
    batch: seq<Functor>,     // what is left of the swapped-out vector
    owing: set<Thread>,      // other threads that must still call wakeup()
    loopOwes: bool,          // so must the loop's own thread
    queued: seq<Functor>,    // history: everything queued, in the order of the mutex
    executed: seq<Functor>)  // history: everything started, in order

  /** write() on the eventfd; at its maximum the call fails and changes nothing. */
  // EventLoop.cc:138-144
  function Written(counter: nat): (c: nat)
    ensures c > 0
  {
    if counter < EVENTFD_MAX then counter + 1 else counter
  }

  // ----- steps of the other threads -----

  // EventLoop.cc:125-131
  predicate QueueInLoop(s: State, s': State, t: Thread, f: Functor) {
    t !in s.owing && s' == s.(pending := s.pending + [f], queued := s.queued + [f], owing := s.owing + {t})
  }

  // EventLoop.cc:105-109
  predicate QuitLoop(s: State, s': State, t: Thread) {
    t !in s.owing && s' == s.(quit := true, owing := s.owing + {t})
  }

  // EventLoop.cc:132, 138-144
  predicate Wakeup(s: State, s': State, t: Thread) {
    t in s.owing && s' == s.(counter := Written(s.counter), owing := s.owing - {t})
  }

  // ----- steps of the loop's thread -----

  /** The loop's thread is free to call queueInLoop: in a callback, or before loop(). */
  predicate Free(s: State) {
    (s.pc.Outside? || s.pc.Handle? || s.pc.Inside?) && !s.loopOwes
  }

  // EventLoop.cc:125-131
  predicate QueueOwn(s: State, s': State, f: Functor) {
    Free(s) && s' == s.(pending := s.pending + [f], queued := s.queued + [f], loopOwes := s.calling)
  }

  // EventLoop.cc:132
  predicate WakeupOwn(s: State, s': State) {
    s.loopOwes && s' == s.(counter := Written(s.counter), loopOwes := false)
  }

  // EventLoop.cc:106
  predicate QuitOwn(s: State, s': State) {
    Free(s) && s' == s.(quit := true)
  }

  /** loop() is called; it resets `quit_`. */
  // EventLoop.cc:67-69
  predicate EnterLoop(s: State, s': State) {
    s.pc == Outside && s' == s.(pc := Check, quit := false)
  }

  // EventLoop.cc:73
  predicate TestQuit(s: State, s': State) {
    s.pc == Check && s' == s.(pc := if s.quit then Exited else Poll)
  }

  /** poll returns: by timeout, signal or event. It need not report every ready channel. */
  // EventLoop.cc:74-78
  predicate PollReturns(s: State, s': State, woken: bool) {
    s.pc == Poll && (woken ==> s.counter > 0) && s' == s.(pc := Handle, woken := woken)
  }

  /** read() on the eventfd empties it, or fails. */
  // EventLoop.cc:57-64
  predicate HandleRead(s: State, s': State, ok: bool) {
    s.pc == Handle && s.woken && s' == s.(woken := false, counter := if ok then 0 else s.counter)
  }

  // EventLoop.cc:79-82
  predicate HandlersDone(s: State, s': State) {
    s.pc == Handle && !s.woken && s' == s.(pc := Begin)
  }

  // EventLoop.cc:161
  predicate BeginPending(s: State, s': State) {
    s.pc == Begin && s' == s.(calling := true, pc := Swap)
  }

  // EventLoop.cc:162-165
  predicate SwapPending(s: State, s': State) {
    s.pc == Swap && s' == s.(batch := s.pending, pending := [], pc := Run)
  }

  // EventLoop.cc:166-167
  predicate StartFunctor(s: State, s': State) {
    && s.pc == Run && s.batch != []
    && s' == s.(executed := s.executed + [s.batch[0]], batch := s.batch[1..], pc := Inside)
  }

  // EventLoop.cc:168
  predicate FinishFunctor(s: State, s': State) {
    s.pc == Inside && !s.loopOwes && s' == s.(pc := Run)
  }

  // EventLoop.cc:170
  predicate EndPending(s: State, s': State) {
    s.pc == Run && s.batch == [] && s' == s.(calling := false, pc := Check)
  }

  ghost predicate OthersMove(s: State, s': State) {
    || (exists t, f :: QueueInLoop(s, s', t, f))
    || (exists t :: QuitLoop(s, s', t))
    || (exists t :: Wakeup(s, s', t))
  }

  ghost predicate CallbackMoves(s: State, s': State) {
    (exists f :: QueueOwn(s, s', f)) || WakeupOwn(s, s') || QuitOwn(s, s')
  }

  ghost predicate TurnMoves(s: State, s': State) {
    || EnterLoop(s, s') || TestQuit(s, s') || (exists woken :: PollReturns(s, s', woken))
    || (exists ok :: HandleRead(s, s', ok)) || HandlersDone(s, s')
  }

  predicate PendingMoves(s: State, s': State) {
    || BeginPending(s, s') || SwapPending(s, s')
    || StartFunctor(s, s') || FinishFunctor(s, s') || EndPending(s, s')
  }

  ghost predicate LoopMoves(s: State, s': State) {
    CallbackMoves(s, s') || TurnMoves(s, s') || PendingMoves(s, s')
  }

  ghost predicate Next(s: State, s': State) {
    OthersMove(s, s') || LoopMoves(s, s')
  }

  // EventLoop.cc:26-48
  function Constructed(): State {
    State(Outside, false, false, false, 0, [], [], {}, false, [], [])
  }

  /** loop() has just been entered, whatever has been queued and whoever is at work. */
  // EventLoop.cc:67-69
  ghost predicate Entered(s: State) {
    && s.pc == Check && !s.quit && !s.calling && !s.loopOwes && !s.woken
    && s.batch == [] && s.executed + s.pending == s.queued
  }

  ghost predicate StepAt(run: seq<State>, i: int)
    requires 0 <= i < |run| - 1
  {
    Next(run[i], run[i + 1])
  }

  ghost predicate Steps(run: seq<State>) {
    |run| > 0 && forall i {:trigger StepAt(run, i)} :: 0 <= i < |run| - 1 ==> StepAt(run, i)
  }

  /** A run from the construction of the loop, or from any moment it is entered. */
  ghost predicate Execution(run: seq<State>) {
    Steps(run) && (run[0] == Constructed() || Entered(run[0]))
  }

  lemma Extend(run: seq<State>, s: State) returns (run': seq<State>)
    requires Execution(run) && Next(run[|run| - 1], s)
    ensures Execution(run') && run' == run + [s]
  {
    run' := run + [s];
    forall i | 0 <= i < |run'| - 1 ensures StepAt(run', i) {
      assert i < |run| - 1 ==> StepAt(run, i);
    }
  }

  // ----- what every step keeps: order -----

  predicate Conserved(s: State) {
    s.executed + s.batch + s.pending == s.queued
  }

  predicate Ordered(s: State) {
    && Conserved(s)
    && (s.pc.Run? || s.pc.Inside? || s.batch == [])
    && (s.calling <==> s.pc.Swap? || s.pc.Run? || s.pc.Inside?)
    && (s.loopOwes ==> s.pc.Inside?)
    && (s.woken ==> s.pc.Handle?)
  }

  lemma QueueOne(a: seq<Functor>, b: seq<Functor>, p: seq<Functor>, f: Functor)
    ensures a + b + (p + [f]) == a + b + p + [f]
  {
  }

  lemma TakeOne(a: seq<Functor>, b: seq<Functor>)
    requires b != []
    ensures (a + [b[0]]) + b[1..] == a + b
  {
  }

  lemma OthersKeepOrder(s: State, s': State)
    requires Ordered(s) && OthersMove(s, s')
    ensures Ordered(s')
  {
    if t, f :| QueueInLoop(s, s', t, f) {
      QueueOne(s.executed, s.batch, s.pending, f);
    }
  }

  lemma CallbacksKeepOrder(s: State, s': State)
    requires Ordered(s) && CallbackMoves(s, s')
    ensures Ordered(s')
  {
    if f :| QueueOwn(s, s', f) {
      QueueOne(s.executed, s.batch, s.pending, f);
    }
  }

  lemma TurnKeepsOrder(s: State, s': State)
    requires Ordered(s) && TurnMoves(s, s')
    ensures Ordered(s')
  {
  }

  lemma PendingKeepsOrder(s: State, s': State)
    requires Ordered(s) && PendingMoves(s, s')
    ensures Ordered(s')
  {
    if StartFunctor(s, s') {
      TakeOne(s.executed, s.batch);
    } else if SwapPending(s, s') {
      assert s.executed + s.pending + [] == s.executed + [] + s.pending;
    }
  }

  lemma OrderKept(s: State, s': State)
    requires Ordered(s) && Next(s, s')
    ensures Ordered(s')
  {
    if OthersMove(s, s') {
      OthersKeepOrder(s, s');
    } else if CallbackMoves(s, s') {
      CallbacksKeepOrder(s, s');
    } else if TurnMoves(s, s') {
      TurnKeepsOrder(s, s');
    } else {
      PendingKeepsOrder(s, s');
    }
  }

  lemma {:induction false} AlwaysOrdered(run: seq<State>, i: nat)
    requires Execution(run) && i < |run|
    ensures Ordered(run[i])
  {
    if i == 0 {
      assert run[0].executed + [] + run[0].pending == run[0].executed + run[0].pending;
    } else {
      AlwaysOrdered(run, i - 1);
      assert StepAt(run, i - 1);
      OrderKept(run[i - 1], run[i]);
    }
  }

  /** In every run from the construction on, the state in which loop() is entered is one of
      the states that the results below start from. */
  lemma EnteringEnters(run: seq<State>, i: nat)
    requires Execution(run) && i + 1 < |run| && run[i].pc == Outside && run[i + 1].pc == Check
    ensures Entered(run[i + 1])
  {
    AlwaysOrdered(run, i);
    assert StepAt(run, i);
    assert run[i].executed + [] == run[i].executed;
  }

  // ----- what every step keeps: wakeups -----

  /** Somebody has woken the loop or is going to. */
  predicate Roused(s: State) {
    s.counter > 0 || s.owing != {} || s.loopOwes
  }

  /** The loop blocks in poll with work or a quit request, and nothing will wake it: only
      the timeout of poll or an event of some other channel ends the wait. */
  predicate Stuck(s: State) {
    s.pc == Poll && (s.pending != [] || s.quit) && !Roused(s)
  }

  /** Where no swap and no test of `quit_` lies ahead of poll. */
  predicate Wakeful(s: State) {
    && s.pc != Outside
    && ((s.pc.Run? || s.pc.Inside? || s.pc.Check? || s.pc.Poll?) && s.pending != [] ==> Roused(s))
    && (s.pc == Poll && s.quit ==> Roused(s))
  }

  lemma OthersKeep(s: State, s': State)
    requires Wakeful(s) && OthersMove(s, s')
    ensures Wakeful(s')
  {
    if t, f :| QueueInLoop(s, s', t, f) {
      assert t in s'.owing;
    } else if t :| QuitLoop(s, s', t) {
      assert t in s'.owing;
    }
  }

  lemma LoopKeeps(s: State, s': State)
    requires Ordered(s) && Wakeful(s) && LoopMoves(s, s')
    ensures Wakeful(s')
  {
    if CallbackMoves(s, s') {
      assert s.calling <==> s.pc.Swap? || s.pc.Run? || s.pc.Inside?;
    } else if TurnMoves(s, s') {
      TurnKeepsWakeful(s, s');
    }
  }

  lemma TurnKeepsWakeful(s: State, s': State)
    requires Wakeful(s) && TurnMoves(s, s')
    ensures Wakeful(s')
  {
  }

  lemma {:induction false} AlwaysWakeful(run: seq<State>, i: nat)
    requires Steps(run) && Entered(run[0]) && i < |run| && (run[0].pending != [] ==> Roused(run[0]))
    ensures Wakeful(run[i])
  {
    if i > 0 {
      AlwaysWakeful(run, i - 1);
      AlwaysOrdered(run, i - 1);
      assert StepAt(run, i - 1);
      if OthersMove(run[i - 1], run[i]) {
        OthersKeep(run[i - 1], run[i]);
      } else {
        LoopKeeps(run[i - 1], run[i]);
      }
    }
  }

  ghost predicate NeverStuck(s: State) {
    forall run, i :: Steps(run) && run[0] == s && 0 <= i < |run| ==> !Stuck(run[i])
  }

  /** No wakeup is ever lost, in any interleaving, exactly when the loop is entered with no
      pending functors or with a wakeup written or owed for them. */
  lemma NoLostWakeup(s: State)
    requires Entered(s)
    ensures NeverStuck(s) <==> s.pending == [] || Roused(s)
  {
    if s.pending == [] || Roused(s) {
      forall run, i | Steps(run) && run[0] == s && 0 <= i < |run| ensures !Stuck(run[i]) {
        AlwaysWakeful(run, i);
      }
    } else {
      assert TestQuit(s, s.(pc := Poll));
      var run := Extend([s], s.(pc := Poll));
      assert Stuck(run[1]);
    }
  }

  /** A functor that the loop's own thread queues before it calls loop() brings no wakeup
      along: the loop then blocks in poll although there is work. */
  lemma QueuedBeforeLoop(f: Functor) returns (run: seq<State>)
    ensures Execution(run) && run[0] == Constructed() && run[|run| - 1].pending == [f] && Stuck(run[|run| - 1])
  {
    var s0 := Constructed();
    var s1 := s0.(pending := [f], queued := [f]);
    var s2 := s1.(pc := Check);
    var s3 := s2.(pc := Poll);
    assert s0.pending + [f] == [f];
    assert QueueOwn(s0, s1, f) && EnterLoop(s1, s2) && TestQuit(s2, s3);
    run := Extend([s0], s1);
    run := Extend(run, s2);
    run := Extend(run, s3);
  }

  // ----- wakeups and reads -----

  ghost predicate Writes(s: State, s': State) {
    (exists t :: Wakeup(s, s', t)) || WakeupOwn(s, s')
  }

  ghost predicate Reads(s: State, s': State) {
    HandleRead(s, s', true)
  }

  ghost predicate ReadFails(s: State, s': State) {
    HandleRead(s, s', false) && !Reads(s, s')
  }

  ghost predicate PollsWoken(s: State, s': State) {
    PollReturns(s, s', true)
  }

  /** How many of the first `n` steps are of that kind. */
  ghost function Times(run: seq<State>, n: nat, kind: (State, State) -> bool): nat
    requires n < |run|
  {
    if n == 0 then 0 else Times(run, n - 1, kind) + if kind(run[n - 1], run[n]) then 1 else 0
  }

  /** The wakeups written since the last successful read. */
  ghost function SinceRead(run: seq<State>, n: nat): nat
    requires n < |run|
  {
    if n == 0 || Reads(run[n - 1], run[n]) then 0
    else SinceRead(run, n - 1) + if Writes(run[n - 1], run[n]) then 1 else 0
  }

  function OneIf(b: bool): nat {
    if b then 1 else 0
  }

  lemma CounterMoves(s: State, s': State)
    requires Next(s, s') && (s.woken ==> s.counter > 0) && (s.woken ==> s.pc == Handle)
    ensures s'.woken ==> s'.counter > 0 && s'.pc == Handle
    ensures s'.counter == if Reads(s, s') then 0 else if Writes(s, s') then Written(s.counter) else s.counter
    ensures Reads(s, s') ==> s.counter > 0 && !Writes(s, s')
    ensures OneIf(s'.woken) + OneIf(Reads(s, s')) + OneIf(ReadFails(s, s')) == OneIf(s.woken) + OneIf(PollsWoken(s, s'))
  {
    if OthersMove(s, s') || CallbackMoves(s, s') {
      OutsideCounter(s, s');
    } else {
      LoopCounter(s, s');
    }
  }

  lemma OutsideCounter(s: State, s': State)
    requires OthersMove(s, s') || CallbackMoves(s, s')
    ensures s'.pc == s.pc && s'.woken == s.woken && !Reads(s, s') && !ReadFails(s, s') && !PollsWoken(s, s')
    ensures s'.counter == if Writes(s, s') then Written(s.counter) else s.counter
  {
    OnlyWoken(s, s');
  }

  /** A read or a poll can be told from what it does to `woken`, a write from what it does to
      the threads that owe one. */
  lemma OnlyWoken(s: State, s': State)
    ensures Reads(s, s') || ReadFails(s, s') ==> s.woken && !s'.woken && s'.pc == s.pc == Handle
    ensures PollsWoken(s, s') ==> s'.woken && s.pc == Poll && s'.pc == Handle
    ensures Writes(s, s') ==> s'.owing != s.owing || s'.loopOwes != s.loopOwes
  {
  }

  lemma LoopCounter(s: State, s': State)
    requires TurnMoves(s, s') || PendingMoves(s, s')
    requires (s.woken ==> s.counter > 0) && (s.woken ==> s.pc == Handle)
    ensures s'.woken ==> s'.counter > 0 && s'.pc == Handle
    ensures s'.counter == (if Reads(s, s') then 0 else s.counter) && !Writes(s, s')
    ensures Reads(s, s') ==> s.counter > 0
    ensures OneIf(s'.woken) + OneIf(Reads(s, s')) + OneIf(ReadFails(s, s')) == OneIf(s.woken) + OneIf(PollsWoken(s, s'))
  {
    OnlyWoken(s, s');
    if ok :| HandleRead(s, s', ok) {
      assert Reads(s, s') != ReadFails(s, s');
    } else if woken :| PollReturns(s, s', woken) {
      assert woken == PollsWoken(s, s');
    } else {
      RestLeavesCounter(s, s');
    }
  }

  lemma RestLeavesCounter(s: State, s': State)
    requires EnterLoop(s, s') || TestQuit(s, s') || HandlersDone(s, s') || PendingMoves(s, s')
    ensures s'.counter == s.counter && s'.woken == s.woken && s'.owing == s.owing && s'.loopOwes == s.loopOwes
    ensures s.woken && s.pc == Handle ==> s'.pc == Handle
  {
  }

  /** A step after which a wakeup is owed: another thread queues or quits, or a functor being
      called queues. */
  ghost predicate Asks(s: State, s': State) {
    (exists t, f :: QueueInLoop(s, s', t, f)) || (exists t :: QuitLoop(s, s', t)) ||
    (s.calling && exists f :: QueueOwn(s, s', f))
  }

  lemma OwedMoves(s: State, s': State)
    requires Next(s, s') && Ordered(s)
    ensures |s'.owing| + OneIf(s'.loopOwes) + OneIf(Writes(s, s')) == |s.owing| + OneIf(s.loopOwes) + OneIf(Asks(s, s'))
  {
    if OthersMove(s, s') {
      OthersOwe(s, s');
    } else if CallbackMoves(s, s') {
      CallbacksOwe(s, s');
    } else {
      LoopOwesNoMore(s, s');
    }
  }

  lemma OthersOwe(s: State, s': State)
    requires OthersMove(s, s')
    ensures s'.loopOwes == s.loopOwes && |s'.owing| + OneIf(Writes(s, s')) == |s.owing| + OneIf(Asks(s, s'))
  {
    OnlyOwing(s, s');
    var asks := Asks(s, s');
    if t, f :| QueueInLoop(s, s', t, f) {
      assert asks;
      OneMoreOwes(s.owing, t);
    } else if t :| QuitLoop(s, s', t) {
      assert asks;
      OneMoreOwes(s.owing, t);
    } else {
      var t :| Wakeup(s, s', t);
      OneMoreOwes(s'.owing, t);
    }
  }

  lemma OneMoreOwes(owing: set<Thread>, t: Thread)
    requires t !in owing
    ensures owing < owing + {t} && |owing + {t}| == |owing| + 1 && owing + {t} - {t} == owing
  {
  }

  /** A wakeup written can be told from a request: fewer threads owe one, not more. */
  lemma OnlyOwing(s: State, s': State)
    ensures Writes(s, s') ==>
      s'.queued == s.queued && (s'.owing < s.owing || (s'.owing == s.owing && s.loopOwes && !s'.loopOwes))
    ensures Asks(s, s') ==> s.owing < s'.owing || (s'.owing == s.owing && |s'.queued| > |s.queued|)
  {
    WritesOwing(s, s');
    AsksOwing(s, s');
  }

  lemma WritesOwing(s: State, s': State)
    ensures Writes(s, s') ==>
      s'.queued == s.queued && (s'.owing < s.owing || (s'.owing == s.owing && s.loopOwes && !s'.loopOwes))
  {
  }

  lemma AsksOwing(s: State, s': State)
    ensures Asks(s, s') ==> s.owing < s'.owing || (s'.owing == s.owing && |s'.queued| > |s.queued|)
  {
  }

  lemma CallbacksOwe(s: State, s': State)
    requires CallbackMoves(s, s') && (s.loopOwes ==> s.calling)
    ensures s'.owing == s.owing && OneIf(s'.loopOwes) + OneIf(Writes(s, s')) == OneIf(s.loopOwes) + OneIf(Asks(s, s'))
  {
  }

  lemma LoopOwesNoMore(s: State, s': State)
    requires TurnMoves(s, s') || PendingMoves(s, s')
    ensures s'.owing == s.owing && s'.loopOwes == s.loopOwes && !Writes(s, s') && !Asks(s, s')
  {
    OnlyOwing(s, s');
    LoopLeavesOwing(s, s');
  }

  lemma LoopLeavesOwing(s: State, s': State)
    requires TurnMoves(s, s') || PendingMoves(s, s')
    ensures s'.owing == s.owing && s'.loopOwes == s.loopOwes && s'.queued == s.queued
  {
  }

  /** In every run each request of another thread, and each functor queued while functors are
      called, brings one wakeup: it has been written or is owed. */
  lemma {:induction false} WakeupsOwed(run: seq<State>, n: nat)
    requires Steps(run) && run[0] == Constructed() && n < |run|
    ensures Times(run, n, Writes) + |run[n].owing| + OneIf(run[n].loopOwes) == Times(run, n, Asks)
  {
    if n > 0 {
      WakeupsOwed(run, n - 1);
      AlwaysOrdered(run, n - 1);
      assert StepAt(run, n - 1);
      OwedMoves(run[n - 1], run[n]);
    }
  }

  /** In every run the eventfd counts the wakeups written since the last successful read. Hence
      each successful read, and each poll that reports the wakeup channel but for those that
      only repeat a failed read, has a wakeup of its own. */
  lemma {:induction false} WakeupsPaired(run: seq<State>, n: nat)
    requires Steps(run) && run[0] == Constructed() && n < |run|
    ensures run[n].counter == if SinceRead(run, n) < EVENTFD_MAX then SinceRead(run, n) else EVENTFD_MAX
    ensures Times(run, n, Reads) + SinceRead(run, n) <= Times(run, n, Writes)
    ensures Times(run, n, PollsWoken) <= Times(run, n, Writes) + Times(run, n, ReadFails)
    ensures run[n].woken ==> run[n].counter > 0 && run[n].pc == Handle
    ensures Times(run, n, PollsWoken) == Times(run, n, Reads) + Times(run, n, ReadFails) + OneIf(run[n].woken)
  {
    if n > 0 {
      WakeupsPaired(run, n - 1);
      assert StepAt(run, n - 1);
      CounterMoves(run[n - 1], run[n]);
    }
  }

  // ----- quit requests -----

  ghost predicate Requests(s: State, s': State) {
    (exists t :: QuitLoop(s, s', t)) || QuitOwn(s, s')
  }

  /** Somebody asked for the end between the entry of loop() and the `j`-th state. */
  ghost predicate RequestedInside(run: seq<State>, j: nat)
    requires j < |run|
  {
    exists k :: 0 <= k < j && run[k].pc != Outside && Requests(run[k], run[k + 1])
  }

  /** While the loop runs a quit request stands exactly when it was made after loop() had
      been entered. */
  lemma {:induction false} QuitStands(run: seq<State>, j: nat)
    requires Steps(run) && run[0] == Constructed() && j < |run|
    ensures run[j].pc != Outside ==> (run[j].quit <==> RequestedInside(run, j))
    ensures run[j].pc == Outside ==> !RequestedInside(run, j)
  {
    if j > 0 {
      QuitStands(run, j - 1);
      QuitChangesAt(run, j - 1);
      StillRequested(run, j - 1);
    }
  }

  lemma QuitChangesAt(run: seq<State>, j: nat)
    requires Steps(run) && j + 1 < |run|
    ensures run[j].pc != Outside ==>
      run[j + 1].pc != Outside && (run[j + 1].quit <==> run[j].quit || Requests(run[j], run[j + 1]))
    ensures run[j].pc == Outside && run[j + 1].pc != Outside ==> !run[j + 1].quit
  {
    assert StepAt(run, j);
    QuitChanges(run[j], run[j + 1]);
  }

  lemma StillRequested(run: seq<State>, j: nat)
    requires j + 1 < |run|
    ensures RequestedInside(run, j + 1) <==>
      RequestedInside(run, j) || (run[j].pc != Outside && Requests(run[j], run[j + 1]))
  {
  }

  /** Only a request sets the flag, and only the entry of loop() resets it. */
  lemma QuitChanges(s: State, s': State)
    requires Next(s, s')
    ensures s.pc != Outside ==> s'.pc != Outside && (s'.quit <==> s.quit || Requests(s, s'))
    ensures s.pc == Outside && s'.pc != Outside ==> !s'.quit
  {
    RequestSets(s, s');
    if OthersMove(s, s') || CallbackMoves(s, s') {
      OutsideQuitStays(s, s');
    } else {
      LoopQuitStays(s, s');
    }
  }

  lemma RequestSets(s: State, s': State)
    ensures Requests(s, s') ==> s'.quit
  {
  }

  lemma OutsideQuitStays(s: State, s': State)
    requires OthersMove(s, s') || CallbackMoves(s, s')
    ensures s'.pc == s.pc && (s'.quit <==> s.quit || Requests(s, s'))
  {
  }

  lemma LoopQuitStays(s: State, s': State)
    requires TurnMoves(s, s') || PendingMoves(s, s')
    ensures s.pc != Outside ==> s'.pc != Outside && s'.quit == s.quit
    ensures s.pc == Outside && s'.pc != Outside ==> !s'.quit
  {
  }

  /** A request that stands ends the loop at its next test. */
  lemma QuitHonoured(run: seq<State>, k: nat, j: nat)
    requires Steps(run) && run[0] == Constructed() && k <= j && j + 1 < |run|
    requires run[k].pc != Outside && run[k].quit && TestQuit(run[j], run[j + 1])
    ensures run[j + 1].pc == Exited
  {
    QuitStands(run, k);
    QuitStands(run, j);
    assert RequestedInside(run, j);
  }

  /** A request made before loop() is entered is lost: the loop goes on to poll. */
  lemma QuitBeforeLoop() returns (run: seq<State>)
    ensures Execution(run) && run[0] == Constructed() && |run| == 4 && run[1].quit
    ensures run[3].pc == Poll && !run[3].quit
  {
    var s0 := Constructed();
    var s1 := s0.(quit := true);
    var s2 := s0.(pc := Check);
    var s3 := s0.(pc := Poll);
    assert QuitOwn(s0, s1) && EnterLoop(s1, s2) && TestQuit(s2, s3);
    run := Extend([s0], s1);
    run := Extend(run, s2);
    run := Extend(run, s3);
  }

  // ----- delay -----

  /** Everything in `upTo` has been swapped out and only has to be called. */
  predicate TakenUp(s: State, upTo: seq<Functor>) {
    if s.pc.Handle? || s.pc.Begin? || s.pc.Swap? then upTo <= s.queued else upTo <= s.executed + s.batch
  }

  lemma OthersLeaveTakenUp(s: State, s': State, upTo: seq<Functor>)
    requires OthersMove(s, s') && TakenUp(s, upTo)
    ensures TakenUp(s', upTo)
  {
  }

  lemma TurnLeavesTakenUp(s: State, s': State, upTo: seq<Functor>)
    requires Ordered(s) && (CallbackMoves(s, s') || TurnMoves(s, s')) && TakenUp(s, upTo)
    ensures TakenUp(s', upTo)
  {
    if s.pc == Poll {
      assert s.executed + [] + s.pending == s.queued;
      assert upTo <= s.executed + [];
    }
  }

  lemma PendingLeavesTakenUp(s: State, s': State, upTo: seq<Functor>)
    requires Ordered(s) && PendingMoves(s, s') && TakenUp(s, upTo)
    ensures TakenUp(s', upTo)
  {
    if SwapPending(s, s') {
      assert s.executed + [] + s.pending == s.executed + s.pending;
    } else if StartFunctor(s, s') {
      TakeOne(s.executed, s.batch);
    }
  }

  lemma TakenUpStays(s: State, s': State, upTo: seq<Functor>)
    requires Ordered(s) && Next(s, s') && TakenUp(s, upTo)
    ensures TakenUp(s', upTo)
  {
    if OthersMove(s, s') {
      OthersLeaveTakenUp(s, s', upTo);
    } else if PendingMoves(s, s') {
      PendingLeavesTakenUp(s, s', upTo);
    } else {
      TurnLeavesTakenUp(s, s', upTo);
    }
  }

  lemma TakenUpNext(run: seq<State>, j: nat, upTo: seq<Functor>)
    requires Execution(run) && j + 1 < |run| && TakenUp(run[j], upTo)
    ensures TakenUp(run[j + 1], upTo)
  {
    var s, s' := run[j], run[j + 1];
    AlwaysOrdered(run, j);
    assert Next(s, s') by { assert StepAt(run, j); }
    TakenUpStays(s, s', upTo);
  }

  lemma {:induction false} TakenUpLater(run: seq<State>, k: nat, j: nat, upTo: seq<Functor>)
    requires Execution(run) && k <= j < |run| && TakenUp(run[k], upTo)
    ensures TakenUp(run[j], upTo)
  {
    if j > k {
      TakenUpLater(run, k, j - 1, upTo);
      TakenUpNext(run, j - 1, upTo);
    }
  }

  /** In every run, what has been called, what is being called and what is pending make up
      what was queued, in order; and a functor queued before poll returned has been called,
      in its turn, by the time the loop is back at its test. */
  lemma InOrderWithinOneTurn(run: seq<State>, k: nat, j: nat)
    requires Execution(run) && k <= j < |run|
    ensures Conserved(run[j])
    ensures run[k].pc == Handle && (run[j].pc.Check? || run[j].pc.Poll? || run[j].pc.Exited?) ==>
              run[k].queued <= run[j].executed
  {
    AlwaysOrdered(run, j);
    if run[k].pc == Handle && (run[j].pc.Check? || run[j].pc.Poll? || run[j].pc.Exited?) {
      TakenUpLater(run, k, j, run[k].queued);
      assert run[j].executed + [] == run[j].executed;
    }
  }

  // ----- the object -----

  datatype Move = Queues(t: Thread, f: Functor) | Quits(t: Thread) | Wakes(t: Thread)

  /** What moves of other threads leave to the loop's thread. */
  predicate Beside(s: State, s': State) {
    && s.queued <= s'.queued && s.pending <= s'.pending
    && s'.pc == s.pc && s'.batch == s.batch && s'.executed == s.executed
    && s'.loopOwes == s.loopOwes && s'.calling == s.calling
  }

  lemma BesideStep(s: State, m: State, s': State)
    requires Beside(s, m) && (s' == m || OthersMove(m, s'))
    ensures Beside(s, s')
  {
  }

  ghost predicate Quiet(others: nat -> seq<Move>) {
    forall k: nat :: others(k) == []
  }

  predicate Inv(s: State) {
    Ordered(s) && Wakeful(s)
  }

  lemma StillInv(s: State, s': State)
    requires Inv(s) && (s' == s || Next(s, s'))
    ensures Inv(s')
  {
    if s' != s {
      OrderKept(s, s');
      if OthersMove(s, s') {
        OthersKeep(s, s');
      } else {
        LoopKeeps(s, s');
      }
    }
  }

  ghost function Spawned(spawn: Functor -> seq<Functor>, fs: seq<Functor>): seq<Functor> {
    if fs == [] then [] else spawn(fs[0]) + Spawned(spawn, fs[1..])
  }

  /** Without other threads, pending is what the functors called so far have queued. */
  ghost predicate AsQueued(s: State, spawn: Functor -> seq<Functor>, done: seq<Functor>, owing: set<Thread>,
                           quit: bool) {
    s.owing == owing && s.quit == quit && s.pending == Spawned(spawn, done) && (s.pending != [] ==> s.counter > 0)
  }

  lemma NothingLeft(done: seq<Functor>, s: State)
    requires Conserved(s) && s.batch == []
    ensures done + s.batch == done && s.executed + s.pending == s.queued
  {
    assert s.executed + [] == s.executed;
  }

  lemma {:induction false} SpawnedOne(spawn: Functor -> seq<Functor>, fs: seq<Functor>, f: Functor)
    ensures Spawned(spawn, fs + [f]) == Spawned(spawn, fs) + spawn(f)
  {
    if fs != [] {
      SpawnedOne(spawn, fs[1..], f);
      assert (fs + [f])[1..] == fs[1..] + [f];
    }
  }

  class EventLoop {
    var quit: bool
    var callingPendingFunctors: bool
    var pendingFunctors: seq<Functor>
    var functors: seq<Functor>
    var wakeupFd: nat
    var activeWakeup: bool
    ghost var pc: Pc
    var owing: set<Thread>
    ghost var loopOwes: bool
    ghost var queued: seq<Functor>
    ghost var executed: seq<Functor>

    ghost function View(): State
      reads this
    {
      State(pc, activeWakeup, quit, callingPendingFunctors, wakeupFd, pendingFunctors, functors,
            owing, loopOwes, queued, executed)
    }

    constructor ()
      ensures View() == Constructed()
    {
      quit, callingPendingFunctors, pendingFunctors, functors := false, false, [], [];
      wakeupFd, activeWakeup := 0, false;
      pc, owing, loopOwes, queued, executed := Outside, {}, false, [], [];
    }

    /** The first lines of loop(). */
    method Enter()
      requires pc == Outside
      modifies this
      ensures EnterLoop(old(View()), View())
    {
      quit := false;
      pc := Check;
    }

    method Append(t: Thread, isInLoopThread: bool, f: Functor) returns (mustWake: bool)
      requires if isInLoopThread then Free(View()) else t !in owing
      modifies this
      ensures isInLoopThread ==> QueueOwn(old(View()), View(), f) && mustWake == loopOwes
      ensures !isInLoopThread ==> QueueInLoop(old(View()), View(), t, f) && mustWake
    {
      pendingFunctors := pendingFunctors + [f];
      queued := queued + [f];
      mustWake := !isInLoopThread || callingPendingFunctors;
      if isInLoopThread {
        loopOwes := mustWake;
      } else {
        owing := owing + {t};
      }
    }

    method WriteWakeup(t: Thread, isInLoopThread: bool)
      requires if isInLoopThread then loopOwes else t in owing
      modifies this
      ensures if isInLoopThread then WakeupOwn(old(View()), View()) else Wakeup(old(View()), View(), t)
    {
      if wakeupFd < EVENTFD_MAX {
        wakeupFd := wakeupFd + 1;
      }
      if isInLoopThread {
        loopOwes := false;
      } else {
        owing := owing - {t};
      }
    }

    method Quit(t: Thread, isInLoopThread: bool)
      requires if isInLoopThread then Free(View()) else t !in owing
      modifies this
      ensures if isInLoopThread then QuitOwn(old(View()), View()) else QuitLoop(old(View()), View(), t)
    {
      quit := true;
      if !isInLoopThread {
        owing := owing + {t};
      }
    }

    method ReadWakeup(ok: bool)
      requires pc == Handle && activeWakeup
      modifies this
      ensures HandleRead(old(View()), View(), ok)
    {
      if ok {
        wakeupFd := 0;
      }
      activeWakeup := false;
    }

    /** What other threads do at some moment; a move that its thread cannot make is none. */
    method Others(moves: seq<Move>)
      requires Inv(View())
      modifies this
      ensures Inv(View()) && Beside(old(View()), View())
      ensures moves == [] ==> View() == old(View())
    {
      for k := 0 to |moves|
        invariant Inv(View()) && Beside(old(View()), View())
        invariant k == 0 ==> View() == old(View())
      {
        ghost var before := View();
        Other(moves[k]);
        StillInv(before, View());
        BesideStep(old(View()), before, View());
      }
    }

    method Other(move: Move)
      modifies this
      ensures View() == old(View()) || OthersMove(old(View()), View())
    {
      match move {
        case Queues(t, f) =>
          if t !in owing {
            var mustWake := Append(t, false, f);
          }
        case Quits(t) =>
          if t !in owing {
            Quit(t, false);
          }
        case Wakes(t) =>
          if t in owing {
            WriteWakeup(t, false);
          }
      }
    }

    /** doPendingFunctors, while other threads move: `others(k)` is what they do at the
        `k`-th moment between two steps. Functor `f`, when called, queues `spawn(f)` on its
        own loop; these wait for the next turn, with a wakeup written. */
    method DoPendingFunctors(spawn: Functor -> seq<Functor>, others: nat -> seq<Move>)
      requires Inv(View()) && pc == Begin
      modifies this
      ensures Inv(View()) && pc == Check
      ensures old(queued) <= executed && executed + pendingFunctors == queued
      ensures Quiet(others) ==>
                && executed == old(executed) + old(pendingFunctors)
                && pendingFunctors == Spawned(spawn, old(pendingFunctors))
                && owing == old(owing) && quit == old(quit) && (pendingFunctors != [] ==> wakeupFd > 0)
    {
      TakeAll(others);
      ghost var taken, done, before := functors, [], executed;
      var moment := 1;
      while functors != []
        invariant Inv(View()) && pc == Run && moment >= 1
        invariant taken == done + functors && executed == before + done
        invariant Quiet(others) ==> AsQueued(View(), spawn, done, old(owing), old(quit))
        decreases |functors|
      {
        SpawnedOne(spawn, done, functors[0]);
        TakeOne(done, functors);
        assert before + (done + [functors[0]]) == before + done + [functors[0]];
        done := done + [functors[0]];
        CallOne(spawn, others, moment);
        moment := moment + 1;
      }
      NothingLeft(done, View());
      callingPendingFunctors, pc := false, Check;
    }

    method TakeAll(others: nat -> seq<Move>)
      requires Inv(View()) && pc == Begin
      modifies this
      ensures Inv(View()) && pc == Run && executed == old(executed) && pendingFunctors == []
      ensures old(queued) <= executed + functors
      ensures Quiet(others) ==> functors == old(pendingFunctors) && owing == old(owing) && quit == old(quit)
    {
      ghost var before := View();
      callingPendingFunctors, pc := true, Swap;
      StillInv(before, View());
      Others(others(0));
      before := View();
      functors, pendingFunctors, pc := pendingFunctors, [], Run;
      StillInv(before, View());
      assert executed + [] + functors == executed + functors;
    }

    method CallOne(spawn: Functor -> seq<Functor>, others: nat -> seq<Move>, moment: nat)
      requires Inv(View()) && pc == Run && functors != []
      modifies this
      ensures Inv(View()) && pc == Run
      ensures functors == old(functors[1..]) && executed == old(executed) + [old(functors[0])]
      ensures Quiet(others) ==>
                && owing == old(owing) && quit == old(quit)
                && pendingFunctors == old(pendingFunctors) + spawn(old(functors[0]))
                && (wakeupFd > 0 || (wakeupFd == old(wakeupFd) && spawn(old(functors[0])) == []))
    {
      var functor := functors[0];
      ghost var before := View();
      functors := functors[1..];
      executed := executed + [functor];
      pc := Inside;
      assert StartFunctor(before, View());
      StillInv(before, View());
      Others(others(moment));
      QueueAll(spawn(functor));
      before := View();
      pc := Run;
      assert FinishFunctor(before, View());
      StillInv(before, View());
    }

    /** A functor being called queues `fs`, one by one. */
    method QueueAll(fs: seq<Functor>)
      requires Inv(View()) && pc == Inside && !loopOwes
      modifies this
      ensures Inv(View()) && pc == Inside && !loopOwes
      ensures pendingFunctors == old(pendingFunctors) + fs
      ensures fs == [] ==> wakeupFd == old(wakeupFd)
      ensures fs != [] ==> wakeupFd > 0
      ensures functors == old(functors) && executed == old(executed)
      ensures owing == old(owing) && quit == old(quit) && callingPendingFunctors == old(callingPendingFunctors)
    {
      for i := 0 to |fs|
        invariant Inv(View()) && pc == Inside && !loopOwes
        invariant pendingFunctors == old(pendingFunctors) + fs[..i]
        invariant if i == 0 then wakeupFd == old(wakeupFd) else wakeupFd > 0
        invariant functors == old(functors) && executed == old(executed)
        invariant owing == old(owing) && quit == old(quit) && callingPendingFunctors == old(callingPendingFunctors)
      {
        QueueOwnFunctor(fs[i]);
        assert fs[..i] + [fs[i]] == fs[..i + 1];
      }
    }

    /** queueInLoop from a functor being called, with the wakeup that follows. */
    method QueueOwnFunctor(f: Functor)
      requires Inv(View()) && pc == Inside && !loopOwes
      modifies this
      ensures Inv(View()) && pc == Inside && !loopOwes && wakeupFd > 0
      ensures pendingFunctors == old(pendingFunctors) + [f] && functors == old(functors) && executed == old(executed)
      ensures owing == old(owing) && quit == old(quit) && callingPendingFunctors == old(callingPendingFunctors)
    {
      ghost var before := View();
      var mustWake := Append(0, true, f);
      StillInv(before, View());
      before := View();
      if mustWake {
        WriteWakeup(0, true);
        StillInv(before, View());
      }
    }
  }
}
