/** The token bucket of project/6_IPV4UDP/server/tokenbucket.c and the channel reader that
    spends its tokens, mlib_readchn of medialib.c. */
module TokenBucket {

  const EINVAL := 22

  // ----- the bucket: each operation runs under the bucket's mutex -----

  datatype Bucket = Bucket(cps: nat, burst: nat, token: int)

  /** What any thread may do to the bucket. */
  datatype Op = Refill | Fetch(size: int) | Return(size: int) | Check

  function Clamp(x: int, burst: nat): (r: int)
    ensures r <= x && r <= burst && (r == x || r == burst)
  {
    if x > burst then burst else x
  }

  /** A fetch waits until there is a token. */
  predicate Enabled(b: Bucket, op: Op) {
    op.Fetch? && op.size > 0 ==> b.token > 0
  }

  function Apply(b: Bucket, op: Op): Bucket
    requires Enabled(b, op)
  {
    match op
    case Refill => b.(token := Clamp(b.token + b.cps, b.burst))
    case Fetch(size) => if size <= 0 then b else b.(token := b.token - Least(b.token, size))
    case Return(size) => if size <= 0 then b else b.(token := Clamp(b.token + size, b.burst))
    case Check => b
  }

  function Least(a: int, b: int): int {
    if a < b then a else b
  }

  /** What the call answers. */
  function Answer(b: Bucket, op: Op): int
    requires Enabled(b, op)
  {
    match op
    case Refill => 0
    case Fetch(size) => if size <= 0 then -EINVAL else Least(b.token, size)
    case Return(size) => if size <= 0 then -EINVAL else size
    case Check => b.token
  }

  function Over(x: int, burst: nat): nat {
    if x > burst then x - burst else 0
  }

  /** The tokens that the burst cuts off. */
  function Cut(b: Bucket, op: Op): nat {
    match op
    case Refill => Over(b.token + b.cps, b.burst)
    case Return(size) => if size <= 0 then 0 else Over(b.token + size, b.burst)
    case _ => 0
  }

  ghost predicate Valid(b: Bucket) {
    0 <= b.token <= b.burst
  }

  /** Tokens are cut off only by an operation that leaves the bucket full. */
  lemma CutMeansFull(b: Bucket, op: Op)
    requires Valid(b) && Enabled(b, op) && Cut(b, op) > 0
    ensures (op.Refill? || op.Return?) && Apply(b, op).token == b.burst
  {
  }

  // ----- runs of operations by any threads, in any order -----

  ghost predicate Runs(b: Bucket, ops: seq<Op>)
    decreases |ops|
  {
    ops == [] || (Enabled(b, ops[0]) && Runs(Apply(b, ops[0]), ops[1..]))
  }

  ghost function After(b: Bucket, ops: seq<Op>): Bucket
    requires Runs(b, ops)
    decreases |ops|
  {
    if ops == [] then b else After(Apply(b, ops[0]), ops[1..])
  }

  ghost function Refills(ops: seq<Op>): nat {
    if ops == [] then 0 else (if ops[0] == Refill then 1 else 0) + Refills(ops[1..])
  }

  /** Tokens handed out less tokens handed back. */
  ghost function NetTaken(b: Bucket, ops: seq<Op>): int
    requires Runs(b, ops)
    decreases |ops|
  {
    if ops == [] then 0
    else
      (match ops[0]
       case Fetch(size) => if size <= 0 then 0 else Answer(b, ops[0])
       case Return(size) => if size <= 0 then 0 else -size
       case _ => 0) + NetTaken(Apply(b, ops[0]), ops[1..])
  }

  ghost function AllCut(b: Bucket, ops: seq<Op>): nat
    requires Runs(b, ops)
    decreases |ops|
  {
    if ops == [] then 0 else Cut(b, ops[0]) + AllCut(Apply(b, ops[0]), ops[1..])
  }

  lemma OneMore(cps: nat, n: nat)
    ensures cps * (n + 1) == cps * n + cps
  {
  }

  /** No token appears or vanishes, but for those cut off at a full bucket. */
  lemma {:induction false} TokensBalance(b: Bucket, ops: seq<Op>)
    requires Valid(b) && Runs(b, ops)
    ensures Valid(After(b, ops)) && After(b, ops).cps == b.cps && After(b, ops).burst == b.burst
    ensures NetTaken(b, ops) + After(b, ops).token + AllCut(b, ops) == b.token + b.cps * Refills(ops)
    decreases |ops|
  {
    if ops != [] {
      var b' := Apply(b, ops[0]);
      TokensBalance(b', ops[1..]);
      OneMore(b.cps, Refills(ops[1..]));
      assert Refills(ops) == Refills(ops[1..]) + if ops[0] == Refill then 1 else 0;
    }
  }

  /** In any window the net tokens taken are at most the burst plus one step per refill. */
  lemma WindowBound(b: Bucket, ops: seq<Op>)
    requires Valid(b) && Runs(b, ops)
    ensures Valid(After(b, ops))
    ensures NetTaken(b, ops) <= b.burst + b.cps * Refills(ops)
  {
    TokensBalance(b, ops);
  }

  /** A full bucket, emptied, refilled and emptied again: the bound is reached. */
  lemma WindowBoundReached(cps: nat, burst: nat)
    requires 0 < cps <= burst
    ensures var b := Bucket(cps, burst, burst); var ops := [Fetch(burst), Refill, Fetch(burst)];
      Runs(b, ops) && NetTaken(b, ops) == burst + cps * Refills(ops)
  {
    var b := Bucket(cps, burst, burst);
    var ops := [Fetch(burst), Refill, Fetch(burst)];
    FetchAll(b.(token := cps), burst, ops[2..]);
    assert ops[1..][1..] == ops[2..] && ops[1..][0] == Refill && ops[2..] == [Fetch(burst)];
    assert Apply(b, Fetch(burst)) == b.(token := 0) && Apply(b.(token := 0), Refill) == b.(token := cps);
    assert Runs(b.(token := 0), ops[1..]) && NetTaken(b.(token := 0), ops[1..]) == cps && Refills(ops[1..]) == 1;
  }

  lemma FetchAll(b: Bucket, size: int, ops: seq<Op>)
    requires 0 < b.token <= size && ops == [Fetch(size)]
    ensures Runs(b, ops) && NetTaken(b, ops) == b.token && Refills(ops) == 0
  {
    assert ops[1..] == [];
  }

  // ----- a channel: its reader thread and the refilling thread -----

  datatype Reader = Idle | Reading(token: nat) | Returning(token: nat)

  /** `songs` are the lengths of the channel's files. */
  datatype Channel = Channel(
    bucket: Bucket, songs: seq<nat>, pos: nat, offset: nat, reader: Reader,
    refills: nat,      // history: refills so far
    delivered: nat,    // history: bytes handed to the caller
    lost: nat,         // history: tokens neither spent nor given back
    cut: nat)          // history: tokens cut off at the burst

  // tokenbucket.c:47-53
  predicate RefillStep(c: Channel, c': Channel) {
    c' == c.(bucket := Apply(c.bucket, Refill), refills := c.refills + 1, cut := c.cut + Cut(c.bucket, Refill))
  }

  // medialib.c:255
  predicate FetchStep(c: Channel, c': Channel, size: int) {
    && c.reader == Idle && size > 0 && c.bucket.token > 0
    && c' == c.(bucket := Apply(c.bucket, Fetch(size)), reader := Reading(Least(c.bucket.token, size)))
  }

  /** pread is interrupted: the call answers 0 and keeps the tokens. */
  // medialib.c:260-262
  predicate Interrupted(c: Channel, c': Channel) {
    c.reader.Reading? && c' == c.(reader := Idle, lost := c.lost + c.reader.token)
  }

  /** Another error: the next song that can be opened, and once more. */
  // medialib.c:263-264
  predicate ReadFails(c: Channel, c': Channel, pos: nat) {
    c.reader.Reading? && pos < |c.songs| && c' == c.(pos := pos)
  }

  /** The song is over: the next one, and all tokens go back. open_next leaves `offset`. */
  // medialib.c:265-268, 274-277
  predicate SongOver(c: Channel, c': Channel, pos: nat) {
    && c.reader.Reading? && c.pos < |c.songs| && c.offset >= c.songs[c.pos] && pos < |c.songs|
    && c' == c.(pos := pos, reader := Returning(c.reader.token))
  }

  // medialib.c:269-272, 274
  predicate ReadsData(c: Channel, c': Channel, len: nat) {
    && c.reader.Reading? && c.pos < |c.songs| && 0 < len <= c.reader.token && c.offset + len <= c.songs[c.pos]
    && c' == c.(offset := c.offset + len, delivered := c.delivered + len,
                reader := if len < c.reader.token then Returning(c.reader.token - len) else Idle)
  }

  // medialib.c:274-277
  predicate ReturnStep(c: Channel, c': Channel) {
    && c.reader.Returning?
    && c' == c.(bucket := Apply(c.bucket, Return(c.reader.token)), reader := Idle,
                cut := c.cut + Cut(c.bucket, Return(c.reader.token)))
  }

  ghost predicate Next(c: Channel, c': Channel) {
    || RefillStep(c, c') || (exists size :: FetchStep(c, c', size)) || Interrupted(c, c')
    || (exists pos :: ReadFails(c, c', pos)) || (exists pos :: SongOver(c, c', pos))
    || (exists len :: ReadsData(c, c', len)) || ReturnStep(c, c')
  }

  // medialib.c:91, 112-113
  function Opened(cps: nat, burst: nat, songs: seq<nat>): Channel {
    Channel(Bucket(cps, burst, 0), songs, 0, 0, Idle, 0, 0, 0, 0)
  }

  ghost predicate StepAt(run: seq<Channel>, i: int)
    requires 0 <= i < |run| - 1
  {
    Next(run[i], run[i + 1])
  }

  ghost predicate Execution(run: seq<Channel>, cps: nat, burst: nat, songs: seq<nat>) {
    && |songs| > 0 && |run| > 0 && run[0] == Opened(cps, burst, songs)
    && forall i {:trigger StepAt(run, i)} :: 0 <= i < |run| - 1 ==> StepAt(run, i)
  }

  function Held(r: Reader): nat {
    if r == Idle then 0 else r.token
  }

  ghost predicate Inv(c: Channel) {
    && Valid(c.bucket) && c.pos < |c.songs|
    && c.bucket.token + Held(c.reader) + c.delivered + c.lost + c.cut == c.bucket.cps * c.refills
    && c.delivered == c.offset
    && (c.offset == 0 || Within(c.songs, c.offset))
  }

  ghost predicate Within(songs: seq<nat>, offset: nat) {
    exists i :: 0 <= i < |songs| && offset <= songs[i]
  }

  lemma RefillKeeps(c: Channel, c': Channel)
    requires Inv(c) && RefillStep(c, c')
    ensures Inv(c')
  {
    assert c.bucket.cps * (c.refills + 1) == c.bucket.cps * c.refills + c.bucket.cps;
  }

  lemma ReaderKeeps(c: Channel, c': Channel)
    requires Inv(c) && Next(c, c') && !RefillStep(c, c')
    ensures Inv(c')
  {
    assert c'.bucket.cps * c'.refills == c.bucket.cps * c.refills;
    if len: nat :| ReadsData(c, c', len) {
      assert Within(c.songs, c'.offset);
    }
  }

  lemma InvKept(c: Channel, c': Channel)
    requires Inv(c) && Next(c, c')
    ensures Inv(c') && c'.songs == c.songs && c'.bucket.cps == c.bucket.cps && c'.bucket.burst == c.bucket.burst
    ensures c'.offset >= c.offset && c'.refills >= c.refills
  {
    if RefillStep(c, c') {
      RefillKeeps(c, c');
    } else {
      ReaderKeeps(c, c');
    }
  }

  lemma {:induction false} AlwaysInv(run: seq<Channel>, cps: nat, burst: nat, songs: seq<nat>, i: nat)
    requires Execution(run, cps, burst, songs) && i < |run|
    ensures Inv(run[i]) && run[i].songs == songs && run[i].bucket.cps == cps && run[i].bucket.burst == burst
  {
    if i > 0 {
      AlwaysInv(run, cps, burst, songs, i - 1);
      assert StepAt(run, i - 1);
      InvKept(run[i - 1], run[i]);
    }
  }

  /** In every interleaving the bytes delivered are one step per refill, less the tokens that
      are there, held by the reader, cut off or lost. */
  lemma RateBound(run: seq<Channel>, cps: nat, burst: nat, songs: seq<nat>, i: nat)
    requires Execution(run, cps, burst, songs) && i < |run|
    ensures var c := run[i];
      c.delivered == cps * c.refills - c.bucket.token - Held(c.reader) - c.cut - c.lost <= cps * c.refills
    ensures 0 <= run[i].bucket.token <= burst
  {
    AlwaysInv(run, cps, burst, songs, i);
  }

  /** The offset is not reset between songs, so a channel delivers in all its life no more
      than its longest song. */
  lemma LifetimeBound(run: seq<Channel>, cps: nat, burst: nat, songs: seq<nat>, i: nat, longest: nat)
    requires Execution(run, cps, burst, songs) && i < |run| && forall k :: 0 <= k < |songs| ==> songs[k] <= longest
    ensures run[i].delivered <= longest
  {
    AlwaysInv(run, cps, burst, songs, i);
  }

  /** The next read can bring data. */
  ghost predicate CanDeliver(c: Channel) {
    exists c', len :: ReadsData(c, c', len)
  }

  /** A song yields data exactly when it is longer than everything delivered before it. */
  lemma DeliversIffLonger(run: seq<Channel>, cps: nat, burst: nat, songs: seq<nat>, i: nat)
    requires Execution(run, cps, burst, songs) && i < |run| && run[i].reader.Reading? && run[i].reader.token > 0
    ensures run[i].pos < |songs|
    ensures CanDeliver(run[i]) <==> run[i].delivered < songs[run[i].pos]
  {
    AlwaysInv(run, cps, burst, songs, i);
    var c := run[i];
    if c.delivered < songs[c.pos] {
      var c' := c.(offset := c.offset + 1, delivered := c.delivered + 1,
                   reader := if 1 < c.reader.token then Returning(c.reader.token - 1) else Idle);
      assert ReadsData(c, c', 1);
    }
  }

  lemma Extend(run: seq<Channel>, cps: nat, burst: nat, songs: seq<nat>, c: Channel) returns (run': seq<Channel>)
    requires Execution(run, cps, burst, songs) && Next(run[|run| - 1], c)
    ensures Execution(run', cps, burst, songs) && run' == run + [c]
  {
    run' := run + [c];
    forall i | 0 <= i < |run'| - 1 ensures StepAt(run', i) {
      assert i < |run| - 1 ==> StepAt(run, i);
    }
  }

  /** A channel with two songs of length 1 and room for one token. */
  function TwoSongs(token: int, pos: nat, sofar: nat, reader: Reader, refills: nat): Channel {
    Channel(Bucket(1, 1, token), [1, 1], pos, sofar, reader, refills, sofar, 0, 0)
  }

  lemma ExtendRefill(run: seq<Channel>, pos: nat, sofar: nat, refills: nat) returns (run': seq<Channel>)
    requires Execution(run, 1, 1, [1, 1]) && run[|run| - 1] == TwoSongs(0, pos, sofar, Idle, refills)
    ensures Execution(run', 1, 1, [1, 1]) && run'[|run'| - 1] == TwoSongs(1, pos, sofar, Idle, refills + 1)
  {
    var c, c' := TwoSongs(0, pos, sofar, Idle, refills), TwoSongs(1, pos, sofar, Idle, refills + 1);
    assert Next(c, c') by { assert RefillStep(c, c'); }
    run' := Extend(run, 1, 1, [1, 1], c');
  }

  lemma ExtendFetch(run: seq<Channel>, pos: nat, sofar: nat, refills: nat) returns (run': seq<Channel>)
    requires Execution(run, 1, 1, [1, 1]) && run[|run| - 1] == TwoSongs(1, pos, sofar, Idle, refills)
    ensures Execution(run', 1, 1, [1, 1]) && run'[|run'| - 1] == TwoSongs(0, pos, sofar, Reading(1), refills)
  {
    var c, c' := TwoSongs(1, pos, sofar, Idle, refills), TwoSongs(0, pos, sofar, Reading(1), refills);
    assert Next(c, c') by { assert FetchStep(c, c', 1); }
    run' := Extend(run, 1, 1, [1, 1], c');
  }

  lemma NothingPlayed() returns (run: seq<Channel>)
    ensures Execution(run, 1, 1, [1, 1]) && run[|run| - 1] == TwoSongs(0, 0, 0, Idle, 0)
  {
    run := [TwoSongs(0, 0, 0, Idle, 0)];
  }

  lemma FirstSongPlayed() returns (run: seq<Channel>)
    ensures Execution(run, 1, 1, [1, 1]) && run[|run| - 1] == TwoSongs(0, 0, 1, Idle, 1)
  {
    run := NothingPlayed();
    run := ExtendRefill(run, 0, 0, 0);
    run := ExtendFetch(run, 0, 0, 1);
    var c, c' := TwoSongs(0, 0, 0, Reading(1), 1), TwoSongs(0, 0, 1, Idle, 1);
    assert Next(c, c') by { assert ReadsData(c, c', 1); }
    run := Extend(run, 1, 1, [1, 1], c');
  }

  lemma SecondSongOpened() returns (run: seq<Channel>)
    ensures Execution(run, 1, 1, [1, 1]) && run[|run| - 1] == TwoSongs(1, 1, 1, Idle, 2)
  {
    run := FirstSongPlayed();
    run := ExtendRefill(run, 0, 1, 1);
    run := ExtendFetch(run, 0, 1, 2);
    var c, c' := TwoSongs(0, 0, 1, Reading(1), 2), TwoSongs(0, 1, 1, Returning(1), 2);
    assert Next(c, c') by { assert SongOver(c, c', 1); }
    run := Extend(run, 1, 1, [1, 1], c');
    run := GivenBack(run);
  }

  lemma GivenBack(run: seq<Channel>) returns (run': seq<Channel>)
    requires Execution(run, 1, 1, [1, 1]) && run[|run| - 1] == TwoSongs(0, 1, 1, Returning(1), 2)
    ensures Execution(run', 1, 1, [1, 1]) && run'[|run'| - 1] == TwoSongs(1, 1, 1, Idle, 2)
  {
    var c, c' := TwoSongs(0, 1, 1, Returning(1), 2), TwoSongs(1, 1, 1, Idle, 2);
    assert Next(c, c') by { assert ReturnStep(c, c'); }
    run' := Extend(run, 1, 1, [1, 1], c');
  }

  /** Two songs of the same length: the second one, when its turn has come, yields nothing. */
  lemma SecondSongSilent() returns (run: seq<Channel>)
    ensures Execution(run, 1, 1, [1, 1]) && run[|run| - 1] == TwoSongs(0, 1, 1, Reading(1), 2)
    ensures !CanDeliver(run[|run| - 1])
  {
    run := SecondSongOpened();
    run := ExtendFetch(run, 1, 1, 2);
  }

  // ----- the objects -----

  class TokenBucket {
    const cps: nat
    const burst: nat
    var token: int

    ghost function View(): Bucket
      reads this
    {
      Bucket(cps, burst, token)
    }

    constructor (cps: nat, burst: nat)
      ensures View() == Bucket(cps, burst, 0)
    {
      this.cps, this.burst, token := cps, burst, 0;
    }

    /** What the refilling thread does to the bucket each second. */
    method AddTokens()
      modifies this
      ensures View() == Apply(old(View()), Refill) && token == Least(burst, old(token) + cps)
    {
      token := token + cps;
      if token > burst {
        token := burst;
      }
    }

    /** Refilled `k` times in a row, the bucket has one step more for each, until it is full. */
    method RefillTimes(k: nat)
      requires 0 <= token <= burst
      modifies this
      ensures token == Least(burst, old(token) + cps * k) && 0 <= token <= burst
    {
      for i := 0 to k
        invariant token == Least(burst, old(token) + cps * i) && 0 <= token <= burst
      {
        OneMore(cps, i);
        AddTokens();
      }
    }

    method FetchToken(size: int) returns (n: int)
      requires size > 0 ==> token > 0
      modifies this
      ensures View() == Apply(old(View()), Fetch(size)) && n == Answer(old(View()), Fetch(size))
      ensures size > 0 ==> n <= size && n <= old(token) && token == old(token) - n && (n == size || token == 0)
    {
      if size <= 0 {
        return -EINVAL;
      }
      n := token;
      n := if n < size then n else size;
      token := token - n;
    }

    method ReturnToken(size: int) returns (n: int)
      modifies this
      ensures View() == Apply(old(View()), Return(size)) && n == Answer(old(View()), Return(size))
      ensures size > 0 ==> n == size && token == Least(burst, old(token) + size)
    {
      if size <= 0 {
        return -EINVAL;
      }
      token := token + size;
      if token > burst {
        token := burst;
      }
      return size;
    }
  }

  /** What a fetch of `size` tokens answers when there are `token`. */
  function Fetched(token: int, size: int): int {
    if size <= 0 then -EINVAL else Least(token, size)
  }

  /** What pread comes back with. */
  datatype Pread = Eintr | Error(nextPos: nat) | Got(len: nat, nextPos: nat)

  class ChannelContext {
    const tb: TokenBucket
    const songs: seq<nat>
    var pos: nat
    var offset: nat

    constructor (tb: TokenBucket, songs: seq<nat>)
      requires |songs| > 0
      ensures this.tb == tb && this.songs == songs && pos == 0 && offset == 0
    {
      this.tb, this.songs, pos, offset := tb, songs, 0, 0;
    }

    /** mlib_readchn. `preads` are the answers of the kernel, the last of which is no retryable
        error; `refills[i]` is how often the bucket is refilled before the i-th of them, and
        the last entry how often before tokens go back. Asked for nothing the call takes no
        tokens, and what it reads is not limited by them. */
    method ReadChn(size: int, preads: seq<Pread>, refills: seq<nat>) returns (len: nat)
      requires 0 <= tb.token <= tb.burst && (size > 0 ==> tb.token > 0) && pos < |songs|
      requires preads != [] && !preads[|preads| - 1].Error? && |refills| == |preads| + 1
      requires forall i :: 0 <= i < |preads| ==> Possible(preads[i], Fetched(tb.token, size))
      modifies this, tb
      ensures pos == OpenedBy(preads, old(pos)) < |songs|
      ensures offset == old(offset) + len && 0 <= tb.token <= tb.burst
      ensures len == if FirstAnswer(preads).Got? then FirstAnswer(preads).len else 0
      ensures size > 0 ==> len <= Least(old(tb.token), size)
      ensures tb.token == Least(tb.burst,
        old(tb.token) - Spent(old(tb.token), size, preads, len) + tb.cps * RefillsBy(preads, refills))
    {
      ghost var there := tb.token;
      var token := tb.FetchToken(size);
      ghost var taken := there - tb.token;
      var interrupted;
      len, interrupted := ReadSong(token, preads, refills);
      ghost var sofar, more := Total(refills[..FirstAt(preads) + 1]), refills[|preads|];
      if interrupted {
        return;
      }
      GiveBack(token, len, refills[|preads|]);
      BothRefills(tb.burst, there - taken, tb.cps, sofar, more, if len < token then token - len else 0);
    }

    /** The end of the call: what was fetched and not used goes back. */
    method GiveBack(token: int, len: nat, refills: nat)
      requires 0 <= tb.token <= tb.burst
      modifies tb
      ensures 0 <= tb.token <= tb.burst
      ensures tb.token ==
        Least(tb.burst, old(tb.token) + tb.cps * refills + if len < token then token - len else 0)
    {
      tb.RefillTimes(refills);
      if len < token {
        var n := tb.ReturnToken(token - len);
      }
    }

    /** The loop: reads until the kernel has data, the song is over, or the call is interrupted. */
    method ReadSong(token: int, preads: seq<Pread>, refills: seq<nat>) returns (len: nat, interrupted: bool)
      requires 0 <= tb.token <= tb.burst && pos < |songs|
      requires preads != [] && !preads[|preads| - 1].Error? && |refills| == |preads| + 1
      requires forall i :: 0 <= i < |preads| ==> Possible(preads[i], token)
      modifies this, tb
      ensures pos == OpenedBy(preads, old(pos)) < |songs|
      ensures offset == old(offset) + len && 0 <= tb.token <= tb.burst
      ensures interrupted <==> FirstAnswer(preads).Eintr?
      ensures len == if FirstAnswer(preads).Got? then FirstAnswer(preads).len else 0
      ensures token >= 0 ==> len <= token
      ensures tb.token == Least(tb.burst, old(tb.token) + tb.cps * Total(refills[..FirstAt(preads) + 1]))
    {
      var i := 0;
      len, interrupted := 0, false;
      while true
        invariant 0 <= i < |preads| && pos < |songs| && offset == old(offset) && len == 0 && !interrupted
        invariant forall j :: 0 <= j < i ==> preads[j].Error?
        invariant pos == if i == 0 then old(pos) else preads[i - 1].nextPos
        invariant 0 <= tb.token <= tb.burst
        invariant tb.token == Least(tb.burst, old(tb.token) + tb.cps * Total(refills[..i]))
        decreases |preads| - i
      {
        tb.RefillTimes(refills[i]);
        RefilledOn(tb.burst, old(tb.token), tb.cps, refills, i);
        match preads[i] {
          case Eintr =>
            interrupted := true;
            return;
          case Error(nextPos) =>
            pos := nextPos;
            i := i + 1;
          case Got(n, nextPos) =>
            len := n;
            if n == 0 {
              pos := nextPos;
            } else {
              offset := offset + n;
            }
            return;
        }
      }
    }

    /** The kernel gives at most what is asked for, and a negative count asks for more than
        there is; the next song is one of the channel's. */
    predicate Possible(p: Pread, token: int) {
      match p
      case Eintr => true
      case Error(nextPos) => nextPos < |songs|
      case Got(len, nextPos) => (token >= 0 ==> len <= token) && nextPos < |songs|
    }
  }

  /** Which answer is the first that is no retryable error. */
  function FirstAt(preads: seq<Pread>): (k: nat)
    requires preads != [] && !preads[|preads| - 1].Error?
    ensures k < |preads| && !preads[k].Error? && forall j :: 0 <= j < k ==> preads[j].Error?
  {
    if preads[0].Error? then 1 + FirstAt(preads[1..]) else 0
  }

  function FirstAnswer(preads: seq<Pread>): (p: Pread)
    requires preads != [] && !preads[|preads| - 1].Error?
    ensures !p.Error? && p in preads
  {
    preads[FirstAt(preads)]
  }

  /** The song that is open afterwards: the one opened when the last was over or, before that,
      could not be read. */
  function OpenedBy(preads: seq<Pread>, pos: nat): nat
    requires preads != [] && !preads[|preads| - 1].Error?
  {
    var k := FirstAt(preads);
    if preads[k].Got? && preads[k].len == 0 then preads[k].nextPos
    else if k > 0 then preads[k - 1].nextPos
    else pos
  }

  /** The tokens a call takes for good: for the bytes it delivers, or all it has fetched when
      it is interrupted. */
  function Spent(token: int, size: int, preads: seq<Pread>, len: nat): int
    requires preads != [] && !preads[|preads| - 1].Error?
  {
    if size <= 0 then 0 else if FirstAnswer(preads).Eintr? then Least(token, size) else len
  }

  /** The refills while a call is under way. */
  ghost function RefillsBy(preads: seq<Pread>, refills: seq<nat>): nat
    requires preads != [] && !preads[|preads| - 1].Error? && |refills| == |preads| + 1
  {
    Total(refills[..FirstAt(preads) + 1]) + if FirstAnswer(preads).Eintr? then 0 else refills[|preads|]
  }

  ghost function Total(refills: seq<nat>): nat {
    if refills == [] then 0 else Total(refills[..|refills| - 1]) + refills[|refills| - 1]
  }

  lemma TotalMore(cps: nat, refills: seq<nat>, i: nat)
    requires i < |refills|
    ensures Total(refills[..i + 1]) == Total(refills[..i]) + refills[i]
    ensures cps * Total(refills[..i + 1]) == cps * Total(refills[..i]) + cps * refills[i]
  {
    assert refills[..i + 1][..i] == refills[..i];
  }

  lemma BothRefills(burst: nat, token: int, cps: nat, sofar: nat, more: nat, back: nat)
    ensures Least(burst, Least(burst, token + cps * sofar) + cps * more + back) ==
      Least(burst, token + back + cps * (sofar + more))
  {
    assert cps * (sofar + more) == cps * sofar + cps * more;
    assert cps * more >= 0;
  }

  lemma RefilledOn(burst: nat, token: int, cps: nat, refills: seq<nat>, i: nat)
    requires i < |refills|
    ensures Least(burst, Least(burst, token + cps * Total(refills[..i])) + cps * refills[i]) ==
      Least(burst, token + cps * Total(refills[..i + 1]))
  {
    TotalMore(cps, refills, i);
    assert cps * refills[i] >= 0;
  }
}
