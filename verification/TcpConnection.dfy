/** The output side of project/7_myMuduo/TcpConnection.cc: what is written to the socket,
    what is buffered, and when the callbacks and the half-close happen. */
module TcpConnection {
  import opened Buffer
  import opened ChannelEvents

  datatype StateE = Disconnected | Connecting | Connected | Disconnecting

  /** What ::write came back with. `Fault` is EPIPE or ECONNRESET. */
  datatype WriteResult = Wrote(n: nat) | WouldBlock | Fault | OtherError

  datatype Callback = WriteComplete | HighWater(size: nat)

  /** Which callbacks the user has set. */
  datatype Settings = Settings(onWriteComplete: bool, onHighWater: bool, highWaterMark: nat)

  datatype Conn = Conn(
    state: StateE,
    events: Events,
    output: seq<byte>,          // the readable bytes of outputBuffer_
    written: seq<byte>,         // history: what the socket has taken
    accepted: seq<seq<byte>>,   // history: the messages not dropped
    callbacks: seq<Callback>,   // history: callbacks queued on the loop
    shut: bool,                 // the write side of the socket has been shut down
    removed: bool)              // the channel has been removed from the poller

  // ----- what each handler does -----

  predicate Direct(c: Conn) {
    !IsWriting(c.events) && c.output == []
  }

  // TcpConnection.cc:117-131
  function Keep(c: Conn, u: Settings, rest: seq<byte>): Conn {
    if rest == [] then c
    else
      var size := |c.output| + |rest|;
      c.(callbacks := if size >= u.highWaterMark && |c.output| < u.highWaterMark && u.onHighWater
                      then c.callbacks + [HighWater(size)] else c.callbacks,
         output := c.output + rest,
         events := if IsWriting(c.events) then c.events else c.events | WRITE_EVENT)
  }

  // TcpConnection.cc:81-132
  function SendInLoop(c: Conn, u: Settings, data: seq<byte>, w: WriteResult): Conn
    requires w.Wrote? ==> w.n <= |data|
  {
    if c.state == Disconnected then c
    else if Direct(c) && w == Fault then c
    else if Direct(c) && w.Wrote? then
      var done := if w.n == |data| && u.onWriteComplete then c.callbacks + [WriteComplete] else c.callbacks;
      Keep(c.(written := c.written + data[..w.n], accepted := c.accepted + [data], callbacks := done), u, data[w.n..])
    else Keep(c.(accepted := c.accepted + [data]), u, data)
  }

  // TcpConnection.cc:144-148
  function ShutdownInLoop(c: Conn): Conn {
    if IsWriting(c.events) then c else c.(shut := true)
  }

  // TcpConnection.cc:184-208
  function HandleWrite(c: Conn, u: Settings, w: WriteResult): Conn
    requires w.Wrote? ==> w.n <= |c.output|
  {
    if !IsWriting(c.events) || !w.Wrote? || w.n == 0 then c
    else
      var d := c.(written := c.written + c.output[..w.n], output := c.output[w.n..]);
      if d.output != [] then d
      else
        var e := d.(events := d.events & !WRITE_EVENT,
                    callbacks := if u.onWriteComplete then d.callbacks + [WriteComplete] else d.callbacks);
        if e.state == Disconnected then ShutdownInLoop(e) else e
  }

  // ----- runs -----

  datatype Event =
    | Establish                                  // connectEstablished
    | Send(data: seq<byte>, sent: WriteResult)   // sendInLoop
    | Writable(took: WriteResult)                // handleWrite
    | Shutdown                                   // shutdown, on the loop's thread or not
    | HalfClose                                  // shutdownInLoop
    | Close                                      // handleClose
    | Destroy                                    // connectDestroyed

  /** What the program and the kernel allow. A connection is established once; sendInLoop and
      shutdownInLoop come from calls made when it was. */
  predicate Enabled(c: Conn, e: Event) {
    match e
    case Establish => c.state == Connecting
    case Send(data, w) => c.state != Connecting && (w.Wrote? ==> w.n <= |data|)
    case Writable(w) => w.Wrote? ==> w.n <= |c.output|
    case HalfClose => c.state != Connecting
    case _ => true
  }

  function Apply(c: Conn, u: Settings, e: Event): Conn
    requires Enabled(c, e)
  {
    match e
    case Establish => c.(state := Connected, events := c.events | READ_EVENT)
    case Send(data, w) => SendInLoop(c, u, data, w)
    case Writable(w) => HandleWrite(c, u, w)
    case Shutdown => if c.state == Connected then c.(state := Disconnecting) else c
    case HalfClose => ShutdownInLoop(c)
    case Close => c.(state := Disconnected, events := NONE_EVENT)
    case Destroy =>
      if c.state == Connected then c.(state := Disconnected, events := NONE_EVENT, removed := true)
      else c.(removed := true)
  }

  // TcpConnection.cc:23-36
  function Fresh(): Conn {
    Conn(Connecting, NONE_EVENT, [], [], [], [], false, false)
  }

  ghost predicate StepAt(run: seq<Conn>, u: Settings, es: seq<Event>, i: int)
    requires |run| == |es| + 1 && 0 <= i < |es|
  {
    Enabled(run[i], es[i]) && run[i + 1] == Apply(run[i], u, es[i])
  }

  ghost predicate Run(run: seq<Conn>, u: Settings, es: seq<Event>) {
    && |run| == |es| + 1 && run[0] == Fresh()
    && forall i {:trigger StepAt(run, u, es, i)} :: 0 <= i < |es| ==> StepAt(run, u, es, i)
  }

  // ----- conservation -----

  ghost function Joined(ms: seq<seq<byte>>): seq<byte> {
    if ms == [] then [] else Joined(ms[..|ms| - 1]) + ms[|ms| - 1]
  }

  lemma JoinedMore(ms: seq<seq<byte>>, m: seq<byte>)
    ensures Joined(ms + [m]) == Joined(ms) + m
  {
    assert (ms + [m])[..|ms|] == ms;
  }

  ghost predicate Conserved(c: Conn) {
    c.written + c.output == Joined(c.accepted)
  }

  lemma SendConserves(c: Conn, u: Settings, data: seq<byte>, w: WriteResult)
    requires Conserved(c) && (w.Wrote? ==> w.n <= |data|)
    ensures Conserved(SendInLoop(c, u, data, w))
  {
    JoinedMore(c.accepted, data);
    if Direct(c) && w.Wrote? {
      assert c.written + [] == c.written;
      assert c.written + data[..w.n] + data[w.n..] == c.written + data;
      assert c.written + data[..w.n] + [] == c.written + data[..w.n];
    } else {
      assert c.written + (c.output + data) == c.written + c.output + data;
    }
  }

  lemma WriteConserves(c: Conn, u: Settings, w: WriteResult)
    requires Conserved(c) && (w.Wrote? ==> w.n <= |c.output|)
    ensures Conserved(HandleWrite(c, u, w))
  {
    if w.Wrote? {
      assert c.written + c.output[..w.n] + c.output[w.n..] == c.written + c.output;
    }
  }

  /** In every run, the bytes the socket has taken followed by the bytes still buffered are
      the messages accepted, in order. */
  lemma {:induction false} StreamConserved(run: seq<Conn>, u: Settings, es: seq<Event>, i: nat)
    requires Run(run, u, es) && i < |run|
    ensures Conserved(run[i])
  {
    if i > 0 {
      StreamConserved(run, u, es, i - 1);
      assert StepAt(run, u, es, i - 1);
      match es[i - 1] {
        case Send(data, w) => SendConserves(run[i - 1], u, data, w);
        case Writable(w) => WriteConserves(run[i - 1], u, w);
        case _ =>
      }
    }
  }

  /** The callbacks that a step has queued. */
  function Queued(c: Conn, d: Conn): seq<Callback> {
    if c.callbacks <= d.callbacks then d.callbacks[|c.callbacks|..] else []
  }

  lemma KeepQueues(c: Conn, u: Settings, rest: seq<byte>)
    ensures var d := Keep(c, u, rest);
      c.callbacks <= d.callbacks && WriteComplete !in Queued(c, d) && (d.output == [] <==> c.output == [] && rest == [])
  {
  }

  lemma SendQueues(c: Conn, u: Settings, data: seq<byte>, w: WriteResult)
    requires w.Wrote? ==> w.n <= |data|
    ensures var d := SendInLoop(c, u, data, w);
      && c.callbacks <= d.callbacks
      && (WriteComplete in Queued(c, d) <==> u.onWriteComplete && d.output == [] && Finishes(c, Send(data, w)))
  {
    if c.state != Disconnected && Direct(c) && w.Wrote? && w.n < |data| {
      KeepQueues(c.(written := c.written + data[..w.n], accepted := c.accepted + [data]), u, data[w.n..]);
    } else if c.state != Disconnected && !(Direct(c) && w == Fault) && !(Direct(c) && w.Wrote?) {
      KeepQueues(c.(accepted := c.accepted + [data]), u, data);
    }
  }

  /** Over one step: the write-complete callback is queued only by a step that leaves
      nothing pending, having written everything it had, and then it is. */
  lemma WriteCompleteMeansEmpty(c: Conn, u: Settings, e: Event)
    requires Enabled(c, e)
    ensures var d := Apply(c, u, e);
      && c.callbacks <= d.callbacks
      && (WriteComplete in Queued(c, d) <==> u.onWriteComplete && d.output == [] && Finishes(c, e))
  {
    if e.Send? {
      SendQueues(c, u, e.data, e.sent);
    }
  }

  /** Over one step: the high-water callback is queued, once and with the new size, exactly by
      a step that brings what is buffered from below the mark up to it or beyond. */
  lemma HighWaterMeansCrossed(c: Conn, u: Settings, e: Event, n: nat)
    requires Enabled(c, e)
    ensures var d := Apply(c, u, e);
      && |Queued(c, d)| <= 1
      && (HighWater(n) in Queued(c, d) <==>
          u.onHighWater && |c.output| < u.highWaterMark <= |d.output| && n == |d.output|)
  {
    if e.Send? {
      SendCrosses(c, u, e.data, e.sent, n);
    }
  }

  lemma SendCrosses(c: Conn, u: Settings, data: seq<byte>, w: WriteResult, n: nat)
    requires w.Wrote? ==> w.n <= |data|
    ensures var d := SendInLoop(c, u, data, w);
      && |Queued(c, d)| <= 1
      && (HighWater(n) in Queued(c, d) <==>
          u.onHighWater && |c.output| < u.highWaterMark <= |d.output| && n == |d.output|)
  {
    if c.state != Disconnected && Direct(c) && w.Wrote? && w.n < |data| {
      KeepCrosses(c.(written := c.written + data[..w.n], accepted := c.accepted + [data]), u, data[w.n..], n);
    } else if c.state != Disconnected && !(Direct(c) && w == Fault) && !(Direct(c) && w.Wrote?) {
      KeepCrosses(c.(accepted := c.accepted + [data]), u, data, n);
    }
  }

  lemma KeepCrosses(c: Conn, u: Settings, rest: seq<byte>, n: nat)
    ensures var d := Keep(c, u, rest);
      && c.callbacks <= d.callbacks && |Queued(c, d)| <= 1
      && (HighWater(n) in Queued(c, d) <==>
          u.onHighWater && |c.output| < u.highWaterMark <= |d.output| && n == |d.output|)
  {
  }

  /** The socket takes the last byte there is to send. */
  predicate Finishes(c: Conn, e: Event) {
    match e
    case Send(data, w) => c.state != Disconnected && Direct(c) && w == Wrote(|data|)
    case Writable(w) => IsWriting(c.events) && w == Wrote(|c.output|) && c.output != []
    case _ => false
  }

  // ----- when buffered bytes are written -----

  predicate EventsByState(c: Conn) {
    match c.state
    case Connecting => c.events == NONE_EVENT && c.output == []
    case Disconnected => c.events == NONE_EVENT
    case _ => c.events == READ_EVENT || c.events == READ_EVENT | WRITE_EVENT
  }

  lemma EventsByStateKept(c: Conn, u: Settings, e: Event)
    requires EventsByState(c) && Enabled(c, e)
    ensures EventsByState(Apply(c, u, e)) && !IsWriting(c.events)
  {
  }

  lemma {:induction false} NeverOnlyWriting(run: seq<Conn>, u: Settings, es: seq<Event>, i: nat)
    requires Run(run, u, es) && i < |run|
    ensures EventsByState(run[i]) && !IsWriting(run[i].events)
  {
    if i > 0 {
      NeverOnlyWriting(run, u, es, i - 1);
      assert StepAt(run, u, es, i - 1);
      EventsByStateKept(run[i - 1], u, es[i - 1]);
    }
  }

  /** Since an established connection also reads, bytes that were once buffered stay
      buffered, and nothing after them is written. */
  lemma {:induction false} BufferedStaysBuffered(run: seq<Conn>, u: Settings, es: seq<Event>, i: nat, j: nat)
    requires Run(run, u, es) && i <= j < |run| && run[i].output != []
    ensures run[i].output <= run[j].output && run[j].written == run[i].written
    decreases j
  {
    if i < j {
      BufferedStaysBuffered(run, u, es, i, j - 1);
      NeverOnlyWriting(run, u, es, j - 1);
      assert StepAt(run, u, es, j - 1);
    }
  }

  /** The half-close does not wait for buffered bytes. */
  lemma HalfCloseAtOnce(run: seq<Conn>, u: Settings, es: seq<Event>, i: nat)
    requires Run(run, u, es) && i < |es| && es[i] == HalfClose
    ensures run[i + 1].shut && run[i + 1].output == run[i].output
  {
    NeverOnlyWriting(run, u, es, i);
    assert StepAt(run, u, es, i);
  }

  /** Every accepted byte has reached the socket exactly when each message, when it was sent,
      went out in one write. */
  lemma {:induction false} DeliveredIffWhole(run: seq<Conn>, u: Settings, es: seq<Event>, i: nat)
    requires Run(run, u, es) && i < |run|
    ensures run[i].written == Joined(run[i].accepted) <==> forall k :: 0 <= k < i ==> Whole(run[k], es[k])
  {
    StreamConserved(run, u, es, i);
    NothingBufferedIff(run, u, es, i);
    assert run[i].written + [] == run[i].written;
    assert run[i].output != [] ==> |run[i].written + run[i].output| > |run[i].written|;
  }

  /** A message that meets a full socket is accepted and never sent, whatever the socket
      can take later. */
  lemma FullSocketStrands(m: seq<byte>, later: seq<Event>, u: Settings, run: seq<Conn>, i: nat)
    requires m != [] && Run(run, u, [Establish, Send(m, WouldBlock)] + later) && 2 <= i < |run|
    ensures m in run[i].accepted && run[i].written == [] && m <= run[i].output
  {
    var es := [Establish, Send(m, WouldBlock)] + later;
    assert StepAt(run, u, es, 0) && StepAt(run, u, es, 1);
    assert run[1].output == [] && run[2].output == m;
    BufferedStaysBuffered(run, u, es, 2, i);
    AcceptedGrows(run, u, es, 2, i);
    assert run[2].accepted == [m] && run[i].accepted[0] == m;
  }

  lemma {:induction false} AcceptedGrows(run: seq<Conn>, u: Settings, es: seq<Event>, i: nat, j: nat)
    requires Run(run, u, es) && i <= j < |run|
    ensures run[i].accepted <= run[j].accepted
    decreases j
  {
    if i < j {
      AcceptedGrows(run, u, es, i, j - 1);
      assert StepAt(run, u, es, j - 1);
    }
  }

  /** There is such a run. */
  lemma FullSocketRun(m: seq<byte>, u: Settings) returns (run: seq<Conn>)
    requires m != []
    ensures Run(run, u, [Establish, Send(m, WouldBlock)])
    ensures run[2].written != Joined(run[2].accepted)
  {
    var es := [Establish, Send(m, WouldBlock)];
    var c1 := Apply(Fresh(), u, es[0]);
    run := [Fresh(), c1, Apply(c1, u, es[1])];
    assert StepAt(run, u, es, 0) && StepAt(run, u, es, 1);
    assert es + [] == es && run[2].accepted == [m];
    FullSocketStrands(m, [], u, run, 2);
    JoinedMore([], m);
    assert [] + [m] == [m] && Joined([]) + m == m;
  }

  /** If the event is a message that is accepted, the socket takes all of it at once. */
  predicate Whole(c: Conn, e: Event) {
    e.Send? && c.state != Disconnected ==>
      e.data == [] || e.sent == Fault || e.sent == Wrote(|e.data|)
  }

  lemma {:induction false} NothingBufferedIff(run: seq<Conn>, u: Settings, es: seq<Event>, i: nat)
    requires Run(run, u, es) && i < |run|
    ensures run[i].output == [] <==> forall k :: 0 <= k < i ==> Whole(run[k], es[k])
  {
    if i > 0 {
      NothingBufferedIff(run, u, es, i - 1);
      NeverOnlyWriting(run, u, es, i - 1);
      assert StepAt(run, u, es, i - 1);
      if run[i - 1].output != [] {
        BufferedStaysBuffered(run, u, es, i - 1, i);
      }
    }
  }

  // ----- a connection that only writes -----

  ghost function Sum(ns: seq<nat>): nat {
    if ns == [] then 0 else ns[0] + Sum(ns[1..])
  }

  /** handleWrite over and over; the socket takes `ns[k]` bytes the `k`-th time. */
  ghost function WriteOut(c: Conn, u: Settings, ns: seq<nat>): Conn
    requires Sum(ns) <= |c.output|
    decreases |ns|
  {
    if ns == [] then c else WriteOut(HandleWrite(c, u, Wrote(ns[0])), u, ns[1..])
  }

  /** What handleWrite is for: were the mask the write event alone, as isWriting demands, all
      that is buffered would go out in order, however the socket takes it; then, and only
      then, writing is disabled, the callback queued and a closed connection half-closed. */
  lemma {:induction false} OnlyWritingDrains(c: Conn, u: Settings, ns: seq<nat>)
    requires IsWriting(c.events) && c.output != [] && Sum(ns) <= |c.output|
    ensures var d, k := WriteOut(c, u, ns), Sum(ns);
      && d.written == c.written + c.output[..k] && d.output == c.output[k..]
      && d.accepted == c.accepted && d.state == c.state && d.removed == c.removed
      && (if d.output == [] then
            && d.events == NONE_EVENT && d.shut == (c.shut || c.state == Disconnected)
            && d.callbacks == c.callbacks + if u.onWriteComplete then [WriteComplete] else []
          else d.events == c.events && d.callbacks == c.callbacks && d.shut == c.shut)
    decreases |ns|
  {
    if ns != [] {
      var d := HandleWrite(c, u, Wrote(ns[0]));
      OneWrite(c, u, ns[0]);
      if d.output == [] {
        NothingMore(d, u, ns[1..]);
      } else {
        OnlyWritingDrains(d, u, ns[1..]);
      }
      InParts(c.written, c.output, ns[0], Sum(ns[1..]));
    }
  }

  lemma OneWrite(c: Conn, u: Settings, n: nat)
    requires IsWriting(c.events) && n <= |c.output| && c.output != []
    ensures var d := HandleWrite(c, u, Wrote(n));
      && d.written == c.written + c.output[..n] && d.output == c.output[n..]
      && d.accepted == c.accepted && d.state == c.state && d.removed == c.removed
      && (if n == |c.output| then
            && d.events == NONE_EVENT && d.shut == (c.shut || c.state == Disconnected)
            && d.callbacks == c.callbacks + if u.onWriteComplete then [WriteComplete] else []
          else d.events == c.events && d.callbacks == c.callbacks && d.shut == c.shut)
  {
    assert WRITE_EVENT & !WRITE_EVENT == NONE_EVENT;
    assert c.written + c.output[..0] == c.written;
    assert c.callbacks + [] == c.callbacks;
  }

  lemma InParts(before: seq<byte>, s: seq<byte>, n: nat, k: nat)
    requires n + k <= |s|
    ensures before + s[..n] + s[n..][..k] == before + s[..n + k] && s[n..][k..] == s[n + k..]
  {
    assert s[..n + k] == s[..n] + s[n..][..k];
  }

  lemma {:induction false} NothingMore(c: Conn, u: Settings, ns: seq<nat>)
    requires c.output == [] && Sum(ns) == 0
    ensures WriteOut(c, u, ns) == c
    decreases |ns|
  {
    if ns != [] {
      NothingMore(c, u, ns[1..]);
    }
  }

  // ----- the life of a connection -----

  /** None of the events that end it has come from the `k`-th up to the `i`-th. */
  ghost predicate Undisturbed(es: seq<Event>, k: nat, i: nat)
    requires i <= |es|
  {
    forall j :: k <= j < i ==> !es[j].Shutdown? && !es[j].Close? && !es[j].Destroy?
  }

  ghost predicate Came(es: seq<Event>, i: nat, e: Event)
    requires i <= |es|
  {
    exists j :: 0 <= j < i && es[j] == e
  }

  /** It is connected from its establishment up to the first shutdown, close or destruction. */
  ghost predicate EstablishedStill(es: seq<Event>, i: nat)
    requires i <= |es|
  {
    exists k :: 0 <= k < i && es[k] == Establish && Undisturbed(es, k + 1, i)
  }

  /** In every run the state is what the events so far make it. */
  lemma {:induction false} StateByEvents(run: seq<Conn>, u: Settings, es: seq<Event>, i: nat)
    requires Run(run, u, es) && i < |run|
    ensures run[i].state == Connecting <==> !Came(es, i, Establish) && !Came(es, i, Close)
    ensures run[i].state == Connected <==> EstablishedStill(es, i)
    ensures run[i].state == Disconnected <==> Came(es, i, Close) || DestroyedConnected(run, es, i)
    ensures run[i].removed <==> Came(es, i, Destroy)
    ensures run[i].shut <==> Came(es, i, HalfClose)
  {
    if i > 0 {
      var k := i - 1;
      StateByEvents(run, u, es, k);
      NeverOnlyWriting(run, u, es, k);
      assert StepAt(run, u, es, k);
      StateStep(run[k], u, es[k]);
      CameStep(es, k, Establish);
      CameStep(es, k, Close);
      CameStep(es, k, Destroy);
      CameStep(es, k, HalfClose);
      StillStep(es, k);
    }
  }

  /** A connection was destroyed while it was connected. */
  ghost predicate DestroyedConnected(run: seq<Conn>, es: seq<Event>, i: nat)
    requires i <= |es| <= |run|
  {
    exists k :: 0 <= k < i && es[k] == Destroy && run[k].state == Connected
  }

  lemma CameStep(es: seq<Event>, k: nat, e: Event)
    requires k < |es|
    ensures Came(es, k + 1, e) <==> Came(es, k, e) || es[k] == e
  {
  }

  lemma StillStep(es: seq<Event>, k: nat)
    requires k < |es|
    ensures EstablishedStill(es, k + 1) <==>
      es[k] == Establish || (EstablishedStill(es, k) && !es[k].Shutdown? && !es[k].Close? && !es[k].Destroy?)
  {
    if es[k] == Establish {
      assert Undisturbed(es, k + 1, k + 1);
    }
    if j :| 0 <= j < k && es[j] == Establish && Undisturbed(es, j + 1, k) {
      assert !es[k].Shutdown? && !es[k].Close? && !es[k].Destroy? ==> Undisturbed(es, j + 1, k + 1);
    }
    if j :| 0 <= j < k + 1 && es[j] == Establish && Undisturbed(es, j + 1, k + 1) {
      assert j < k ==> Undisturbed(es, j + 1, k) && !es[k].Shutdown? && !es[k].Close? && !es[k].Destroy?;
    }
  }

  /** Only these events change the state, and how. */
  lemma StateStep(c: Conn, u: Settings, e: Event)
    requires Enabled(c, e) && !IsWriting(c.events)
    ensures var d := Apply(c, u, e);
      && (e.Send? || e.Writable? || e.HalfClose? ==> d.state == c.state)
      && d.removed == (c.removed || e.Destroy?) && d.shut == (c.shut || e.HalfClose?)
  {
  }

  /** Once shut down, closed or destroyed, a connection that had been established is never
      connected again: a second shutdown half-closes nothing. */
  lemma ShutdownOnce(run: seq<Conn>, u: Settings, es: seq<Event>, k: nat, j: nat)
    requires Run(run, u, es) && k < |es| && k < j < |run| && run[k].state != Connecting
    requires es[k].Shutdown? || es[k].Close? || es[k].Destroy?
    ensures run[j].state != Connected && run[j].state != Connecting
  {
    StateByEvents(run, u, es, k);
    StateByEvents(run, u, es, j);
    forall m | k < m < j ensures es[m] != Establish {
      StateByEvents(run, u, es, m);
      assert StepAt(run, u, es, m);
      assert Came(es, k, Establish) ==> Came(es, m, Establish);
      assert Came(es, k, Close) ==> Came(es, m, Close);
    }
    assert Came(es, k, Establish) ==> Came(es, j, Establish);
    assert Came(es, k, Close) ==> Came(es, j, Close);
  }

  // ----- the object -----

  class TcpConnection {
    const settings: Settings
    const outputBuffer: Buffer
    var state: StateE
    var events: Events
    ghost var written: seq<byte>
    ghost var accepted: seq<seq<byte>>
    ghost var callbacks: seq<Callback>
    ghost var shut: bool
    ghost var removed: bool

    ghost predicate Valid()
      reads this, outputBuffer
    {
      outputBuffer.Valid()
    }

    ghost function View(): Conn
      reads this, outputBuffer
      requires Valid()
    {
      Conn(state, events, outputBuffer.Contents(), written, accepted, callbacks, shut, removed)
    }

    constructor (u: Settings)
      ensures Valid() && View() == Fresh() && settings == u && fresh(outputBuffer)
    {
      settings := u;
      outputBuffer := new Buffer(INITIAL_SIZE);
      state, events := Connecting, NONE_EVENT;
      written, accepted, callbacks, shut, removed := [], [], [], false, false;
    }

    method ConnectEstablished()
      requires Valid() && state == Connecting
      modifies this
      ensures Valid() && View() == Apply(old(View()), settings, Establish)
    {
      state := Connected;
      events := events | READ_EVENT;
    }

    /** The state change of shutdown; the half-close follows as a step of its own. */
    method BeginShutdown() returns (halfCloses: bool)
      requires Valid()
      modifies this
      ensures Valid() && View() == Apply(old(View()), settings, Shutdown)
      ensures halfCloses <==> old(state) == Connected
    {
      halfCloses := state == Connected;
      if halfCloses {
        state := Disconnecting;
      }
    }

    method HandleClose()
      requires Valid()
      modifies this
      ensures Valid() && View() == Apply(old(View()), settings, Close)
    {
      state := Disconnected;
      events := NONE_EVENT;
    }

    method ConnectDestroyed()
      requires Valid()
      modifies this
      ensures Valid() && View() == Apply(old(View()), settings, Destroy)
    {
      if state == Connected {
        state := Disconnected;
        events := NONE_EVENT;
      }
      removed := true;
    }

    method Send(data: seq<byte>, w: WriteResult)
      requires Valid() && (w.Wrote? ==> w.n <= |data|)
      modifies this, outputBuffer
      ensures Valid() && View() == SendInLoop(old(View()), settings, data, w)
    {
      var nwrote, remaining, faultError := 0, |data|, false;
      if state == Disconnected {
        return;
      }
      if !IsWriting(events) && outputBuffer.ReadableBytes() == 0 {
        match w {
          case Wrote(n) =>
            nwrote := n;
            remaining := |data| - nwrote;
            written := written + data[..n];
            if remaining == 0 && settings.onWriteComplete {
              callbacks := callbacks + [WriteComplete];
            }
          case Fault =>
            faultError := true;
          case _ =>
        }
      }
      if !faultError {
        accepted := accepted + [data];
      }
      if !faultError && remaining > 0 {
        BufferRest(data[nwrote..]);
      }
    }

    /** The end of sendInLoop: what was not written is buffered and writing enabled. */
    method BufferRest(rest: seq<byte>)
      requires Valid() && rest != []
      modifies this, outputBuffer
      ensures Valid() && View() == Keep(old(View()), settings, rest)
    {
      var oldLen, remaining := outputBuffer.ReadableBytes(), |rest|;
      if oldLen + remaining >= settings.highWaterMark && oldLen < settings.highWaterMark && settings.onHighWater {
        callbacks := callbacks + [HighWater(oldLen + remaining)];
      }
      outputBuffer.Append(rest);
      if !IsWriting(events) {
        events := events | WRITE_EVENT;
      }
    }

    method HalfClose()
      requires Valid()
      modifies this
      ensures Valid() && View() == ShutdownInLoop(old(View()))
    {
      if !IsWriting(events) {
        shut := true;
      }
    }

    method Writable(w: WriteResult)
      requires Valid() && (w.Wrote? ==> w.n <= |outputBuffer.Contents()|)
      modifies this, outputBuffer
      ensures Valid() && View() == HandleWrite(old(View()), settings, w)
    {
      if IsWriting(events) {
        var n := if w.Wrote? then w.n else -1;
        if n > 0 {
          written := written + outputBuffer.Contents()[..n];
          outputBuffer.Retrieve(n);
          if outputBuffer.ReadableBytes() == 0 {
            events := events & !WRITE_EVENT;
            if settings.onWriteComplete {
              callbacks := callbacks + [WriteComplete];
            }
            if state == Disconnected {
              HalfClose();
            }
          }
        }
      }
    }
  }
}
