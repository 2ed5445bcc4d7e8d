/** The writer thread of project/1_ffmpeg/src/videoOutMP4File.cpp beside the two encoder
    threads. The queues are guarded by their mutexes, the done flags by nothing. */
module VideoOutMp4 {
  import opened Merging

  /** A packet; its key is its timestamp, on a scale common to both streams. */
  type Packet = Keyed

  // ----- the threads -----

  /** Where the writer is. Before the loop it reads the queues and flags without a lock; in
      the loop it holds the video mutex from `LockAudio` on and the audio mutex from
      `WaitVideo` on, except that a sleeper gives up the mutex it sleeps on. */
  datatype Pc =
    | FirstVideoEmpty | FirstVideoDone | FirstAudioEmpty | FirstAudioDone
    | LoopTest | LockVideo | LockAudio
    | WaitVideo | AsleepVideo | WaitAudio | AsleepAudio
    | Choose | TestVideo | TestAudio | Write | Finished

  datatype State = State(
    pc: Pc,
    videoQueue: seq<Packet>, audioQueue: seq<Packet>,
    videoFlag: bool, audioFlag: bool,        // doneVideoFrameEncoderReading, ...
    videoDone: bool, audioDone: bool,        // the writer's variables
    packetToWrite: seq<Packet>,              // at most one
    written: seq<Packet>,
    videoMade: nat, audioMade: nat,          // how much each encoder has pushed
    videoTaken: nat, audioTaken: nat,        // how much the writer has popped
    rounds: nat)                             // how often the loop body was entered

  predicate HoldsVideo(pc: Pc) {
    pc.LockAudio? || pc.WaitVideo? || pc.WaitAudio? || pc.AsleepAudio? || pc.Choose? || pc.TestVideo? || pc.TestAudio?
  }

  predicate HoldsAudio(pc: Pc) {
    pc.WaitVideo? || pc.AsleepVideo? || pc.WaitAudio? || pc.Choose? || pc.TestVideo? || pc.TestAudio?
  }

  /** `v` and `a` are everything the encoders will ever push. */
  // videoFrameEncoding.cpp:34-36, 68-70
  predicate PushVideo(v: seq<Packet>, s: State, s': State) {
    && !HoldsVideo(s.pc) && s.videoMade < |v|
    && s' == s.(videoQueue := s.videoQueue + [v[s.videoMade]], videoMade := s.videoMade + 1)
  }

  predicate PushAudio(a: seq<Packet>, s: State, s': State) {
    && !HoldsAudio(s.pc) && s.audioMade < |a|
    && s' == s.(audioQueue := s.audioQueue + [a[s.audioMade]], audioMade := s.audioMade + 1)
  }

  // videoFrameEncoding.cpp:76
  predicate FlagVideo(v: seq<Packet>, s: State, s': State) {
    s.videoMade == |v| && s' == s.(videoFlag := true)
  }

  predicate FlagAudio(a: seq<Packet>, s: State, s': State) {
    s.audioMade == |a| && s' == s.(audioFlag := true)
  }

  /** `queue.empty() && flag` before the loop, as two reads. */
  // videoOutMP4File.cpp:55-56
  predicate FirstTest(s: State, s': State) {
    match s.pc
    case FirstVideoEmpty =>
      s' == if s.videoQueue == [] then s.(pc := FirstVideoDone) else s.(pc := FirstAudioEmpty, videoDone := false)
    case FirstVideoDone => s' == s.(pc := FirstAudioEmpty, videoDone := s.videoFlag)
    case FirstAudioEmpty =>
      s' == if s.audioQueue == [] then s.(pc := FirstAudioDone) else s.(pc := LoopTest, audioDone := false)
    case FirstAudioDone => s' == s.(pc := LoopTest, audioDone := s.audioFlag)
    case _ => false
  }

  // videoOutMP4File.cpp:57
  predicate LoopGuard(s: State, s': State) {
    && s.pc == LoopTest
    && s' == if !s.videoDone || !s.audioDone then s.(pc := LockVideo, rounds := s.rounds + 1) else s.(pc := Finished)
  }

  // videoOutMP4File.cpp:62-63
  predicate Locks(s: State, s': State) {
    || (s.pc == LockVideo && s' == s.(pc := LockAudio))
    || (s.pc == LockAudio && s' == s.(pc := WaitVideo))
    || (s.pc == AsleepVideo && s' == s.(pc := WaitVideo))
    || (s.pc == AsleepAudio && s' == s.(pc := WaitAudio))
  }

  // videoOutMP4File.cpp:66-68
  predicate Waits(s: State, s': State) {
    match s.pc
    case WaitVideo => s' == s.(pc := if s.videoQueue != [] || s.videoFlag then WaitAudio else AsleepVideo)
    case WaitAudio => s' == s.(pc := if s.audioQueue != [] || s.audioFlag then Choose else AsleepAudio)
    case _ => false
  }

  // videoOutMP4File.cpp:78-80
  predicate PicksVideo(s: State) {
    s.videoQueue != [] && (s.audioQueue == [] || s.videoQueue[0].key <= s.audioQueue[0].key)
  }

  // videoOutMP4File.cpp:78-94
  predicate Chooses(s: State, s': State) {
    && s.pc == Choose
    && s' == if PicksVideo(s) then
               s.(pc := TestVideo, packetToWrite := [s.videoQueue[0]], videoQueue := s.videoQueue[1..],
                  videoTaken := s.videoTaken + 1)
             else if s.audioQueue != [] then
               s.(pc := TestVideo, packetToWrite := [s.audioQueue[0]], audioQueue := s.audioQueue[1..],
                  audioTaken := s.audioTaken + 1)
             else s.(pc := TestVideo)
  }

  // videoOutMP4File.cpp:95-99
  predicate Tests(s: State, s': State) {
    || (s.pc == TestVideo && s' == s.(pc := TestAudio, videoDone := s.videoQueue == [] && s.videoFlag))
    || (s.pc == TestAudio && s' == s.(pc := Write, audioDone := s.audioQueue == [] && s.audioFlag))
  }

  // videoOutMP4File.cpp:102-107
  predicate Writes(s: State, s': State) {
    s.pc == Write && s' == s.(pc := LoopTest, written := s.written + s.packetToWrite, packetToWrite := [])
  }

  predicate EncodersMove(v: seq<Packet>, a: seq<Packet>, s: State, s': State) {
    PushVideo(v, s, s') || PushAudio(a, s, s') || FlagVideo(v, s, s') || FlagAudio(a, s, s')
  }

  predicate WriterMoves(s: State, s': State) {
    FirstTest(s, s') || LoopGuard(s, s') || Locks(s, s') || Waits(s, s') || Tests(s, s') || Writes(s, s')
  }

  ghost predicate Next(v: seq<Packet>, a: seq<Packet>, s: State, s': State) {
    EncodersMove(v, a, s, s') || WriterMoves(s, s') || Chooses(s, s')
  }

  function Start(): State {
    State(FirstVideoEmpty, [], [], false, false, false, false, [], [], 0, 0, 0, 0, 0)
  }

  ghost predicate StepAt(v: seq<Packet>, a: seq<Packet>, run: seq<State>, i: int)
    requires 0 <= i < |run| - 1
  {
    Next(v, a, run[i], run[i + 1])
  }

  ghost predicate Execution(v: seq<Packet>, a: seq<Packet>, run: seq<State>) {
    && |run| > 0 && run[0] == Start()
    && forall i {:trigger StepAt(v, a, run, i)} :: 0 <= i < |run| - 1 ==> StepAt(v, a, run, i)
  }

  // ----- what every step keeps -----

  ghost predicate Queues(v: seq<Packet>, a: seq<Packet>, s: State) {
    && s.videoTaken <= s.videoMade <= |v| && s.videoQueue == v[s.videoTaken..s.videoMade]
    && s.audioTaken <= s.audioMade <= |a| && s.audioQueue == a[s.audioTaken..s.audioMade]
    && (s.videoFlag ==> s.videoMade == |v|) && (s.audioFlag ==> s.audioMade == |a|)
  }

  predicate BeforeLoop(pc: Pc) {
    pc.FirstVideoEmpty? || pc.FirstVideoDone? || pc.FirstAudioEmpty? || pc.FirstAudioDone?
  }

  /** What the writer knows at each place. */
  ghost predicate Knows(v: seq<Packet>, a: seq<Packet>, s: State) {
    && ((s.pc.WaitAudio? || s.pc.AsleepAudio? || s.pc.Choose?) ==> s.videoQueue != [] || s.videoTaken == |v|)
    && (s.pc == Choose ==> s.audioQueue != [] || s.audioTaken == |a|)
    && ((s.pc.TestVideo? || s.pc.TestAudio? || s.pc.Write?) || s.packetToWrite == [])
    && ((s.pc.TestAudio? || s.pc.Write?) && s.videoDone ==> s.videoTaken == |v|)
    && (s.pc == Write && s.audioDone ==> s.audioTaken == |a|)
    && ((s.pc.LoopTest? || s.pc.Finished?) && s.rounds > 0 ==>
          (s.videoDone ==> s.videoTaken == |v|) && (s.audioDone ==> s.audioTaken == |a|))
    && (BeforeLoop(s.pc) ==> s.rounds == 0)
    && (s.rounds > 0 || BeforeLoop(s.pc) || (s.pc.LoopTest? || s.pc.Finished?))
    && (s.pc == Finished ==> s.videoDone && s.audioDone)
    && (s.videoDone ==> s.videoFlag) && (s.audioDone ==> s.audioFlag)
    && (s.rounds == 0 ==> s.written == [] && s.videoTaken == 0 && s.audioTaken == 0)
  }

  /** What is written, in hand and still to come is the merge. */
  ghost predicate OnCourse(v: seq<Packet>, a: seq<Packet>, s: State)
    requires Queues(v, a, s)
  {
    s.written + s.packetToWrite + Merge(v[s.videoTaken..], a[s.audioTaken..]) == Merge(v, a)
  }

  ghost predicate Inv(v: seq<Packet>, a: seq<Packet>, s: State) {
    Queues(v, a, s) && Knows(v, a, s) && OnCourse(v, a, s)
  }

  lemma PushKnows(v: seq<Packet>, a: seq<Packet>, s: State, s': State)
    requires Queues(v, a, s) && Knows(v, a, s)
    requires PushVideo(v, s, s') || PushAudio(a, s, s')
    ensures Queues(v, a, s') && Knows(v, a, s') && NothingPopped(s, s')
  {
    OneMore(v, s.videoTaken, s.videoMade);
    OneMore(a, s.audioTaken, s.audioMade);
  }

  lemma FlagKnows(v: seq<Packet>, a: seq<Packet>, s: State, s': State)
    requires Queues(v, a, s) && Knows(v, a, s)
    requires FlagVideo(v, s, s') || FlagAudio(a, s, s')
    ensures Queues(v, a, s') && Knows(v, a, s') && NothingPopped(s, s')
  {
  }

  lemma OneMore(v: seq<Packet>, i: nat, j: nat)
    requires i <= j <= |v|
    ensures j < |v| ==> v[i..j + 1] == v[i..j] + [v[j]]
  {
  }

  predicate NothingPopped(s: State, s': State) {
    && s'.videoTaken == s.videoTaken && s'.audioTaken == s.audioTaken
    && ((s'.written == s.written && s'.packetToWrite == s.packetToWrite)
        || (s'.written == s.written + s.packetToWrite && s'.packetToWrite == []))
  }

  predicate SameQueues(s: State, s': State) {
    && s'.videoQueue == s.videoQueue && s'.audioQueue == s.audioQueue
    && s'.videoTaken == s.videoTaken && s'.audioTaken == s.audioTaken
    && s'.videoMade == s.videoMade && s'.audioMade == s.audioMade
    && s'.videoFlag == s.videoFlag && s'.audioFlag == s.audioFlag
  }

  /** What an empty queue and a set flag tell together. */
  predicate Exhausted(v: seq<Packet>, a: seq<Packet>, s: State) {
    && (s.videoQueue == [] && s.videoFlag ==> s.videoTaken == |v|)
    && (s.audioQueue == [] && s.audioFlag ==> s.audioTaken == |a|)
  }

  lemma QueuesTell(v: seq<Packet>, a: seq<Packet>, s: State)
    requires Queues(v, a, s)
    ensures Exhausted(v, a, s)
  {
  }

  lemma FirstTestKnows(v: seq<Packet>, a: seq<Packet>, s: State, s': State)
    requires Knows(v, a, s) && (FirstTest(s, s') || LoopGuard(s, s'))
    ensures Knows(v, a, s') && NothingPopped(s, s') && SameQueues(s, s')
  {
  }

  lemma TestsKnow(v: seq<Packet>, a: seq<Packet>, s: State, s': State)
    requires Exhausted(v, a, s) && Knows(v, a, s) && Tests(s, s')
    ensures Knows(v, a, s') && NothingPopped(s, s') && SameQueues(s, s')
  {
  }

  lemma LocksKnow(v: seq<Packet>, a: seq<Packet>, s: State, s': State)
    requires Knows(v, a, s) && Locks(s, s')
    ensures Knows(v, a, s') && NothingPopped(s, s') && SameQueues(s, s')
  {
  }

  lemma WaitsKnow(v: seq<Packet>, a: seq<Packet>, s: State, s': State)
    requires Exhausted(v, a, s) && Knows(v, a, s) && Waits(s, s')
    ensures Knows(v, a, s') && NothingPopped(s, s') && SameQueues(s, s')
  {
  }

  lemma WritesKnow(v: seq<Packet>, a: seq<Packet>, s: State, s': State)
    requires Knows(v, a, s) && Writes(s, s')
    ensures Knows(v, a, s') && NothingPopped(s, s') && SameQueues(s, s')
  {
  }

  lemma ChooseQueues(v: seq<Packet>, a: seq<Packet>, s: State, s': State)
    requires Queues(v, a, s) && Chooses(s, s')
    ensures Queues(v, a, s')
  {
    OneFewer(v, s.videoTaken, s.videoMade);
    OneFewer(a, s.audioTaken, s.audioMade);
  }

  lemma OneFewer(v: seq<Packet>, i: nat, j: nat)
    requires i <= j <= |v|
    ensures i < j ==> v[i..j][1..] == v[i + 1..j]
  {
  }

  lemma ChooseKnows(v: seq<Packet>, a: seq<Packet>, s: State, s': State)
    requires Knows(v, a, s) && Chooses(s, s')
    ensures Knows(v, a, s')
  {
  }

  /** Steps that move no packet. */
  lemma SameCourse(v: seq<Packet>, a: seq<Packet>, s: State, s': State)
    requires Queues(v, a, s) && OnCourse(v, a, s) && Queues(v, a, s')
    requires NothingPopped(s, s')
    ensures OnCourse(v, a, s')
  {
    assert s'.written + [] == s'.written;
  }

  lemma ChooseOnCourse(v: seq<Packet>, a: seq<Packet>, s: State, s': State)
    requires Queues(v, a, s) && OnCourse(v, a, s) && s.packetToWrite == []
    requires (s.videoQueue != [] || s.videoTaken == |v|) && (s.audioQueue != [] || s.audioTaken == |a|)
    requires Chooses(s, s') && Queues(v, a, s')
    ensures OnCourse(v, a, s')
  {
    var vs, as_ := v[s.videoTaken..], a[s.audioTaken..];
    MergePicks(vs, as_);
    var m' := Merge(v[s'.videoTaken..], a[s'.audioTaken..]);
    assert Merge(vs, as_) == s'.packetToWrite + m' by {
      assert s'.videoTaken > s.videoTaken ==> vs[1..] == v[s'.videoTaken..];
      assert s'.audioTaken > s.audioTaken ==> as_[1..] == a[s'.audioTaken..];
    }
    Reassociate(s.written, s'.packetToWrite, m');
  }

  lemma Reassociate(x: seq<Packet>, y: seq<Packet>, z: seq<Packet>)
    ensures x + y + z == x + [] + (y + z)
  {
  }

  lemma InvKept(v: seq<Packet>, a: seq<Packet>, s: State, s': State)
    requires Inv(v, a, s) && Next(v, a, s, s')
    ensures Inv(v, a, s')
  {
    if Chooses(s, s') {
      ChooseQueues(v, a, s, s');
      ChooseKnows(v, a, s, s');
      ChooseOnCourse(v, a, s, s');
    } else {
      QueuesTell(v, a, s);
      if PushVideo(v, s, s') || PushAudio(a, s, s') {
        PushKnows(v, a, s, s');
      } else if FlagVideo(v, s, s') || FlagAudio(a, s, s') {
        FlagKnows(v, a, s, s');
      } else if FirstTest(s, s') || LoopGuard(s, s') {
        FirstTestKnows(v, a, s, s');
      } else if Tests(s, s') {
        TestsKnow(v, a, s, s');
      } else if Locks(s, s') {
        LocksKnow(v, a, s, s');
      } else if Waits(s, s') {
        WaitsKnow(v, a, s, s');
      } else {
        WritesKnow(v, a, s, s');
      }
      SameCourse(v, a, s, s');
    }
  }

  lemma StartInv(v: seq<Packet>, a: seq<Packet>)
    ensures Inv(v, a, Start())
  {
    assert [] + [] + Merge(v[0..], a[0..]) == Merge(v, a);
  }

  lemma {:induction false} AlwaysInv(v: seq<Packet>, a: seq<Packet>, run: seq<State>, i: nat)
    requires Execution(v, a, run) && i < |run|
    ensures Inv(v, a, run[i])
  {
    if i == 0 {
      StartInv(v, a);
    } else {
      AlwaysInv(v, a, run, i - 1);
      assert StepAt(v, a, run, i - 1);
      InvKept(v, a, run[i - 1], run[i]);
    }
  }

  // ----- results over all interleavings -----

  /** What has been written is always a prefix of the one merge of the two streams. */
  lemma WrittenIsPrefix(v: seq<Packet>, a: seq<Packet>, run: seq<State>, i: nat)
    requires Execution(v, a, run) && i < |run|
    ensures run[i].written <= Merge(v, a)
  {
    AlwaysInv(v, a, run, i);
  }

  /** When the writer is done both encoders are; everything has been written exactly when the
      writer entered the loop at all or there was nothing to write. */
  lemma CompleteAtExit(v: seq<Packet>, a: seq<Packet>, run: seq<State>, i: nat)
    requires Execution(v, a, run) && i < |run| && run[i].pc == Finished
    ensures run[i].videoFlag && run[i].audioFlag && run[i].videoMade == |v| && run[i].audioMade == |a|
    ensures run[i].written == Merge(v, a) <==> run[i].rounds > 0 || (v == [] && a == [])
  {
    AlwaysInv(v, a, run, i);
    FinishedWith(v, a, run[i]);
  }

  lemma FinishedWith(v: seq<Packet>, a: seq<Packet>, s: State)
    requires Inv(v, a, s) && s.pc == Finished
    ensures s.written == Merge(v, a) <==> s.rounds > 0 || (v == [] && a == [])
  {
    if s.rounds > 0 {
      assert s.written + [] + [] == s.written;
    } else {
      MergeBag(v, a);
      assert Merge(v, a) == [] ==> |multiset(v) + multiset(a)| == 0;
    }
  }

  lemma InBounds(v: seq<Packet>, a: seq<Packet>, run: seq<State>, s: State)
    requires Reached(v, a, run, s)
    ensures s.videoMade <= |v| && s.audioMade <= |a| && s.videoTaken <= |v| && s.audioTaken <= |a|
  {
    AlwaysInv(v, a, run, |run| - 1);
  }

  ghost predicate Reached(v: seq<Packet>, a: seq<Packet>, run: seq<State>, s: State) {
    Execution(v, a, run) && run[|run| - 1] == s
  }

  lemma Onward(v: seq<Packet>, a: seq<Packet>, run: seq<State>, s: State, s': State) returns (run': seq<State>)
    requires Reached(v, a, run, s) && (WriterMoves(s, s') || Chooses(s, s'))
    ensures Reached(v, a, run', s')
  {
    run' := Extend(v, a, run, s');
  }

  /** The unlocked first test can skip the loop although there are packets: each queue is
      seen empty before the first push, each flag after it is set. */
  lemma FirstTestCanSkip(p: Packet) returns (run: seq<State>)
    ensures Execution([p], [], run) && run[|run| - 1].pc == Finished && run[|run| - 1].written == []
  {
    var s := Start();
    run := [s];
    run := Extend([p], [], run, s.(pc := FirstVideoDone));
    run := Extend([p], [], run, run[1].(videoQueue := [p], videoMade := 1));
    run := Extend([p], [], run, run[2].(videoFlag := true));
    run := Extend([p], [], run, run[3].(pc := FirstAudioEmpty, videoDone := true));
    run := Extend([p], [], run, run[4].(pc := FirstAudioDone));
    run := Extend([p], [], run, run[5].(audioFlag := true));
    run := Extend([p], [], run, run[6].(pc := LoopTest, audioDone := true));
    run := Extend([p], [], run, run[7].(pc := Finished));
  }

  lemma Extend(v: seq<Packet>, a: seq<Packet>, run: seq<State>, s: State) returns (run': seq<State>)
    requires Execution(v, a, run) && Next(v, a, run[|run| - 1], s)
    ensures Execution(v, a, run') && run' == run + [s]
  {
    run' := run + [s];
    forall i | 0 <= i < |run'| - 1 ensures StepAt(v, a, run', i) {
      if i < |run| - 1 {
        assert StepAt(v, a, run, i);
        assert run'[i] == run[i] && run'[i + 1] == run[i + 1];
      } else {
        assert run'[i] == run[|run| - 1] && run'[i + 1] == s;
      }
    }
  }

  // ----- the writer's code, between moves of the encoders -----

  /** A move of the encoders; what is not possible at the time is passed over. */
  datatype Move = MoreVideo | MoreAudio | VideoOver | AudioOver

  predicate Possible(v: seq<Packet>, a: seq<Packet>, s: State, m: Move) {
    match m
    case MoreVideo => s.videoMade < |v| && !HoldsVideo(s.pc)
    case MoreAudio => s.audioMade < |a| && !HoldsAudio(s.pc)
    case VideoOver => s.videoMade == |v|
    case AudioOver => s.audioMade == |a|
  }

  function Moved(v: seq<Packet>, a: seq<Packet>, s: State, m: Move): State
    requires Possible(v, a, s, m)
  {
    match m
    case MoreVideo => s.(videoQueue := s.videoQueue + [v[s.videoMade]], videoMade := s.videoMade + 1)
    case MoreAudio => s.(audioQueue := s.audioQueue + [a[s.audioMade]], audioMade := s.audioMade + 1)
    case VideoOver => s.(videoFlag := true)
    case AudioOver => s.(audioFlag := true)
  }

  /** What the encoders leave alone: flags stay set, queues only grow, and a locked one not. */
  predicate Beside(s: State, s': State) {
    && s'.pc == s.pc && s'.written == s.written && s'.packetToWrite == s.packetToWrite && s'.rounds == s.rounds
    && s'.videoDone == s.videoDone && s'.audioDone == s.audioDone
    && s'.videoTaken == s.videoTaken && s'.audioTaken == s.audioTaken
    && (s.videoQueue != [] ==> s'.videoQueue != []) && (s.audioQueue != [] ==> s'.audioQueue != [])
    && (s.videoFlag ==> s'.videoFlag) && (s.audioFlag ==> s'.audioFlag)
    && (HoldsVideo(s.pc) ==> s'.videoQueue == s.videoQueue)
    && (HoldsAudio(s.pc) ==> s'.audioQueue == s.audioQueue)
  }

  lemma MovedBeside(v: seq<Packet>, a: seq<Packet>, run: seq<State>, s: State, m: Move) returns (run': seq<State>)
    requires Reached(v, a, run, s) && Possible(v, a, s, m)
    ensures Reached(v, a, run', Moved(v, a, s, m)) && Beside(s, Moved(v, a, s, m))
  {
    run' := Extend(v, a, run, Moved(v, a, s, m));
  }

  method Others(v: seq<Packet>, a: seq<Packet>, s0: State, ghost run0: seq<State>, moves: seq<Move>)
    returns (s: State, ghost run: seq<State>)
    requires Reached(v, a, run0, s0)
    ensures Reached(v, a, run, s) && Beside(s0, s)
  {
    s, run := s0, run0;
    for i := 0 to |moves|
      invariant Reached(v, a, run, s) && Beside(s0, s)
    {
      if Possible(v, a, s, moves[i]) {
        run := MovedBeside(v, a, run, s, moves[i]);
        s := Moved(v, a, s, moves[i]);
      }
    }
  }

  /** What is still to be taken, and whether the loop is to end. */
  function Left(v: seq<Packet>, a: seq<Packet>, s: State): int {
    |v| - s.videoTaken + |a| - s.audioTaken + if s.videoDone && s.audioDone then 0 else 1
  }

  /** The writer's thread from its start to its end; `others(k)` is what the encoders, which
      have `v` and `a` to push, do before its `k`-th access to what they share. */
  method WriteOut(v: seq<Packet>, a: seq<Packet>, others: nat -> seq<Move>) returns (s: State, ghost run: seq<State>)
    ensures Reached(v, a, run, s) && s.pc == Finished && s.written <= Merge(v, a)
    ensures s.videoFlag && s.audioFlag && s.videoMade == |v| && s.audioMade == |a|
    ensures s.written == Merge(v, a) <==> s.rounds > 0 || (v == [] && a == [])
  {
    s, run := Start(), [Start()];
    s, run := FirstTests(v, a, s, run, others);
    var k := 4;
    while !s.videoDone || !s.audioDone
      invariant Reached(v, a, run, s) && s.pc == LoopTest
      decreases Left(v, a, s)
    {
      InBounds(v, a, run, s);
      s, run := Round(v, a, s, run, others, k);
      k := k + 10;
    }
    run := Onward(v, a, run, s, s.(pc := Finished));
    s := s.(pc := Finished);
    CompleteAtExit(v, a, run, |run| - 1);
    WrittenIsPrefix(v, a, run, |run| - 1);
  }

  /** `empty() && flag` for both streams, nothing locked. */
  method FirstTests(v: seq<Packet>, a: seq<Packet>, s0: State, ghost run0: seq<State>, others: nat -> seq<Move>)
    returns (s: State, ghost run: seq<State>)
    requires Reached(v, a, run0, s0) && s0.pc == FirstVideoEmpty
    ensures Reached(v, a, run, s) && s.pc == LoopTest
  {
    s, run := Others(v, a, s0, run0, others(0));
    s, run := FirstTestVideo(v, a, s, run, others(1));
    s, run := Others(v, a, s, run, others(2));
    s, run := FirstTestAudio(v, a, s, run, others(3));
  }

  method FirstTestVideo(v: seq<Packet>, a: seq<Packet>, s0: State, ghost run0: seq<State>, between: seq<Move>)
    returns (s: State, ghost run: seq<State>)
    requires Reached(v, a, run0, s0) && s0.pc == FirstVideoEmpty
    ensures Reached(v, a, run, s) && s.pc == FirstAudioEmpty
  {
    s, run := s0, run0;
    ghost var before;
    if s.videoQueue == [] {
      before, s := s, s.(pc := FirstVideoDone);
      run := Onward(v, a, run, before, s);
      s, run := Others(v, a, s, run, between);
      before, s := s, s.(pc := FirstAudioEmpty, videoDone := s.videoFlag);
    } else {
      before, s := s, s.(pc := FirstAudioEmpty, videoDone := false);
    }
    run := Onward(v, a, run, before, s);
  }

  method FirstTestAudio(v: seq<Packet>, a: seq<Packet>, s0: State, ghost run0: seq<State>, between: seq<Move>)
    returns (s: State, ghost run: seq<State>)
    requires Reached(v, a, run0, s0) && s0.pc == FirstAudioEmpty
    ensures Reached(v, a, run, s) && s.pc == LoopTest
  {
    s, run := s0, run0;
    ghost var before;
    if s.audioQueue == [] {
      before, s := s, s.(pc := FirstAudioDone);
      run := Onward(v, a, run, before, s);
      s, run := Others(v, a, s, run, between);
      before, s := s, s.(pc := LoopTest, audioDone := s.audioFlag);
    } else {
      before, s := s, s.(pc := LoopTest, audioDone := false);
    }
    run := Onward(v, a, run, before, s);
  }

  /** The loop body. */
  method Round(v: seq<Packet>, a: seq<Packet>, s0: State, ghost run0: seq<State>, others: nat -> seq<Move>, k: nat)
    returns (s: State, ghost run: seq<State>)
    requires Reached(v, a, run0, s0) && s0.pc == LoopTest && (!s0.videoDone || !s0.audioDone)
    ensures Reached(v, a, run, s) && s.pc == LoopTest && Left(v, a, s) < Left(v, a, s0)
  {
    s, run := Lock(v, a, s0, run0, others, k);
    s, run := AwaitVideo(v, a, s, run, others(k + 2), others(k + 3));
    s, run := Others(v, a, s, run, others(k + 4));
    s, run := AwaitAudio(v, a, s, run, others(k + 5), others(k + 6));
    s, run := Others(v, a, s, run, others(k + 7));
    s, run := ChoosePacket(v, a, s, run);
    s, run := TestDone(v, a, s, run, others(k + 8), others(k + 9));
    ghost var before := s;
    s := s.(pc := LoopTest, written := s.written + s.packetToWrite, packetToWrite := []);
    run := Onward(v, a, run, before, s);
  }

  predicate SameTaken(s: State, s': State) {
    s'.videoTaken == s.videoTaken && s'.audioTaken == s.audioTaken
  }

  /** Into the loop body and through both mutexes. */
  method Lock(v: seq<Packet>, a: seq<Packet>, s0: State, ghost run0: seq<State>, others: nat -> seq<Move>, k: nat)
    returns (s: State, ghost run: seq<State>)
    requires Reached(v, a, run0, s0) && s0.pc == LoopTest && (!s0.videoDone || !s0.audioDone)
    ensures Reached(v, a, run, s) && s.pc == WaitVideo && SameTaken(s0, s)
  {
    s := s0.(pc := LockVideo, rounds := s0.rounds + 1);
    run := Onward(v, a, run0, s0, s);
    s, run := Others(v, a, s, run, others(k));
    ghost var before := s;
    s := s.(pc := LockAudio);
    run := Onward(v, a, run, before, s);
    s, run := Others(v, a, s, run, others(k + 1));
    before := s;
    s := s.(pc := WaitVideo);
    run := Onward(v, a, run, before, s);
  }

  /** A wait returns when there is a packet or the flag is set; if there is neither, the
      encoder moves on while the writer sleeps. */
  method AwaitVideo(v: seq<Packet>, a: seq<Packet>, s0: State, ghost run0: seq<State>, before: seq<Move>,
                    after: seq<Move>)
    returns (s: State, ghost run: seq<State>)
    requires Reached(v, a, run0, s0) && s0.pc == WaitVideo
    ensures Reached(v, a, run, s) && s.pc == WaitAudio && SameTaken(s0, s)
    ensures s.videoQueue != [] || s.videoFlag
  {
    s, run := s0, run0;
    if s.videoQueue == [] && !s.videoFlag {
      s, run := SleepVideo(v, a, s, run, before, after);
    }
    ghost var was := s;
    s := s.(pc := WaitAudio);
    run := Onward(v, a, run, was, s);
  }

  method SleepVideo(v: seq<Packet>, a: seq<Packet>, s0: State, ghost run0: seq<State>, before: seq<Move>,
                    after: seq<Move>)
    returns (s: State, ghost run: seq<State>)
    requires Reached(v, a, run0, s0) && s0.pc == WaitVideo && s0.videoQueue == [] && !s0.videoFlag
    ensures Reached(v, a, run, s) && s.pc == WaitVideo && SameTaken(s0, s)
    ensures s.videoQueue != [] || s.videoFlag
  {
    s := s0.(pc := AsleepVideo);
    run := Onward(v, a, run0, s0, s);
    s, run := Others(v, a, s, run, before);
    InBounds(v, a, run, s);
    var m := if s.videoMade < |v| then MoreVideo else VideoOver;
    run := MovedBeside(v, a, run, s, m);
    s := Moved(v, a, s, m);
    s, run := Others(v, a, s, run, after);
    ghost var was := s;
    s := s.(pc := WaitVideo);
    run := Onward(v, a, run, was, s);
  }

  method AwaitAudio(v: seq<Packet>, a: seq<Packet>, s0: State, ghost run0: seq<State>, before: seq<Move>,
                    after: seq<Move>)
    returns (s: State, ghost run: seq<State>)
    requires Reached(v, a, run0, s0) && s0.pc == WaitAudio && (s0.videoQueue != [] || s0.videoFlag)
    ensures Reached(v, a, run, s) && s.pc == Choose && SameTaken(s0, s)
    ensures (s.videoQueue != [] || s.videoFlag) && (s.audioQueue != [] || s.audioFlag)
  {
    s, run := s0, run0;
    if s.audioQueue == [] && !s.audioFlag {
      s, run := SleepAudio(v, a, s, run, before, after);
    }
    ghost var was := s;
    s := s.(pc := Choose);
    run := Onward(v, a, run, was, s);
  }

  method SleepAudio(v: seq<Packet>, a: seq<Packet>, s0: State, ghost run0: seq<State>, before: seq<Move>,
                    after: seq<Move>)
    returns (s: State, ghost run: seq<State>)
    requires Reached(v, a, run0, s0) && s0.pc == WaitAudio && s0.audioQueue == [] && !s0.audioFlag
    ensures Reached(v, a, run, s) && s.pc == WaitAudio && SameTaken(s0, s)
    ensures s.audioQueue != [] || s.audioFlag
    ensures s0.videoQueue != [] || s0.videoFlag ==> s.videoQueue != [] || s.videoFlag
  {
    s := s0.(pc := AsleepAudio);
    run := Onward(v, a, run0, s0, s);
    s, run := Others(v, a, s, run, before);
    InBounds(v, a, run, s);
    var m := if s.audioMade < |a| then MoreAudio else AudioOver;
    run := MovedBeside(v, a, run, s, m);
    s := Moved(v, a, s, m);
    s, run := Others(v, a, s, run, after);
    ghost var was := s;
    s := s.(pc := WaitAudio);
    run := Onward(v, a, run, was, s);
  }

  /** The packet with the smaller timestamp, the video one on a tie. */
  method ChoosePacket(v: seq<Packet>, a: seq<Packet>, s0: State, ghost run0: seq<State>)
    returns (s: State, ghost run: seq<State>)
    requires Reached(v, a, run0, s0) && s0.pc == Choose
    ensures Reached(v, a, run, s) && s.pc == TestVideo
    ensures s.videoFlag == s0.videoFlag && s.audioFlag == s0.audioFlag
    ensures if s0.videoQueue == [] && s0.audioQueue == []
      then s.videoQueue == [] && s.audioQueue == [] && SameTaken(s0, s)
      else s.videoTaken + s.audioTaken == s0.videoTaken + s0.audioTaken + 1
  {
    s := s0.(pc := TestVideo);
    if s.videoQueue != [] && (s.audioQueue == [] || s.videoQueue[0].key <= s.audioQueue[0].key) {
      s := s.(packetToWrite := [s.videoQueue[0]], videoQueue := s.videoQueue[1..], videoTaken := s.videoTaken + 1);
    } else if s.audioQueue != [] {
      s := s.(packetToWrite := [s.audioQueue[0]], audioQueue := s.audioQueue[1..], audioTaken := s.audioTaken + 1);
    }
    run := Onward(v, a, run0, s0, s);
  }

  method TestDone(v: seq<Packet>, a: seq<Packet>, s0: State, ghost run0: seq<State>, before: seq<Move>,
                  between: seq<Move>)
    returns (s: State, ghost run: seq<State>)
    requires Reached(v, a, run0, s0) && s0.pc == TestVideo
    ensures Reached(v, a, run, s) && s.pc == Write && SameTaken(s0, s)
    ensures s0.videoQueue == [] && s0.videoFlag ==> s.videoDone
    ensures s0.audioQueue == [] && s0.audioFlag ==> s.audioDone
  {
    s, run := Others(v, a, s0, run0, before);
    ghost var was := s;
    s := s.(pc := TestAudio, videoDone := s.videoQueue == [] && s.videoFlag);
    run := Onward(v, a, run, was, s);
    s, run := Others(v, a, s, run, between);
    was := s;
    s := s.(pc := Write, audioDone := s.audioQueue == [] && s.audioFlag);
    run := Onward(v, a, run, was, s);
  }
}
