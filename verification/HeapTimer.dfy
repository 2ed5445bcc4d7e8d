/** The timer heap of project/5_tinyWebServer/cppcode/heaptimer.cpp: a vector that is a
    min-heap by expiry, and a map from ids to positions in it. */
module HeapTimer {
  import opened HeapShape
  import opened Counting

  /** Times are in nanoseconds; a callback is known by its identity. */
  datatype TimerNode = TimerNode(id: int, expires: int, cb: nat)

  const MS := 1_000_000

  /** duration_cast to milliseconds truncates toward zero. */
  function CastMs(d: int): (ms: int)
    ensures d >= 0 ==> ms * MS <= d < (ms + 1) * MS
    ensures d <= 0 ==> (ms - 1) * MS < d <= ms * MS
  {
    if d >= 0 then d / MS else -((-d) / MS)
  }

  // ----- the heap -----

  ghost predicate Ordered(h: seq<TimerNode>, k: int)
    requires 0 < k < |h|
  {
    h[Parent(k)].expires <= h[k].expires
  }

  /** The first `n` nodes form a min-heap. */
  ghost predicate Heap(h: seq<TimerNode>, n: nat)
    requires n <= |h|
  {
    forall k {:trigger Ordered(h, k)} :: 0 < k < n ==> Ordered(h, k)
  }

  /** The children of `i` may take their grandparent as parent. */
  ghost predicate Bridged(h: seq<TimerNode>, n: nat, i: nat)
    requires n <= |h| && i < |h|
  {
    i > 0 ==> forall c {:trigger Parent(c)} :: 0 < c < n && Parent(c) == i ==> h[Parent(i)].expires <= h[c].expires
  }

  /** A heap, but for `i` against its parent. */
  ghost predicate HeapBelow(h: seq<TimerNode>, n: nat, i: nat)
    requires n <= |h| && i < n
  {
    && (forall k {:trigger Ordered(h, k)} :: 0 < k < n && k != i ==> Ordered(h, k))
    && Bridged(h, n, i)
  }

  /** A heap, but for `i` against its parent and its children. */
  ghost predicate HeapAround(h: seq<TimerNode>, n: nat, i: nat)
    requires n <= |h| && i < n
  {
    && (forall k {:trigger Ordered(h, k)} :: 0 < k < n && k != i && Parent(k) != i ==> Ordered(h, k))
    && Bridged(h, n, i)
  }

  lemma {:induction false} RootIsMin(h: seq<TimerNode>, n: nat, k: nat)
    requires n <= |h| && Heap(h, n) && k < n
    ensures h[0].expires <= h[k].expires
    decreases k
  {
    if k > 0 {
      assert Ordered(h, k);
      RootIsMin(h, n, Parent(k));
    }
  }

  // ----- the map of positions -----

  /** `ref` is exactly the inverse of position-to-id. */
  ghost predicate Indexed(h: seq<TimerNode>, ref: map<int, nat>) {
    && (forall i :: 0 <= i < |h| ==> h[i].id in ref && ref[h[i].id] == i)
    && (forall id :: id in ref ==> ref[id] < |h| && h[ref[id]].id == id)
  }

  /** What the structure means: the timers by id. */
  ghost function Timers(h: seq<TimerNode>, ref: map<int, nat>): map<int, TimerNode>
    requires Indexed(h, ref)
  {
    map id | id in ref :: h[ref[id]]
  }

  function Swapped(h: seq<TimerNode>, i: nat, j: nat): (s: seq<TimerNode>)
    requires i < |h| && j < |h|
  {
    h[i := h[j]][j := h[i]]
  }

  function Reindexed(h: seq<TimerNode>, ref: map<int, nat>, i: nat, j: nat): map<int, nat>
    requires i < |h| && j < |h|
  {
    ref[h[i].id := i][h[j].id := j]
  }

  lemma SwapKeepsTimers(h: seq<TimerNode>, ref: map<int, nat>, i: nat, j: nat)
    requires Indexed(h, ref) && i < |h| && j < |h|
    ensures var h' := Swapped(h, i, j); var ref' := Reindexed(h', ref, i, j);
      Indexed(h', ref') && Timers(h', ref') == Timers(h, ref)
  {
    var h' := Swapped(h, i, j);
    var ref' := Reindexed(h', ref, i, j);
    forall id | id in ref ensures id in ref' && h'[ref'[id]] == h[ref[id]] {
    }
    assert ref'.Keys == ref.Keys;
    assert Timers(h', ref').Keys == Timers(h, ref).Keys;
  }

  // ----- one exchange with the parent, or with a child -----

  lemma SwapUp(h: seq<TimerNode>, n: nat, i: nat)
    requires i < n <= |h| && i > 0 && HeapBelow(h, n, i) && h[Parent(i)].expires > h[i].expires
    ensures HeapBelow(Swapped(h, i, Parent(i)), n, Parent(i))
  {
    var p, s := Parent(i), Swapped(h, i, Parent(i));
    forall k | 0 < k < n && k != p ensures Ordered(s, k) {
      if k != i {
        assert Ordered(h, k);
      }
    }
    if p > 0 {
      assert Ordered(h, p);
      forall c | 0 < c < n && Parent(c) == p ensures s[Parent(p)].expires <= s[c].expires {
        if c != i {
          assert Ordered(h, c);
        }
      }
    }
  }

  /** `child` is the child of `i` with the smallest expiry. */
  ghost predicate LeastChild(h: seq<TimerNode>, n: nat, i: nat, child: nat)
    requires n <= |h|
  {
    && 0 < child < n && Parent(child) == i
    && forall c {:trigger Parent(c)} :: 0 < c < n && Parent(c) == i ==> h[child].expires <= h[c].expires
  }

  lemma SwapDown(h: seq<TimerNode>, n: nat, i: nat, child: nat)
    requires i < n <= |h| && HeapAround(h, n, i) && LeastChild(h, n, i, child)
    requires h[child].expires < h[i].expires
    ensures var s := Swapped(h, i, child);
      HeapAround(s, n, child) && Ordered(s, child) && (i > 0 ==> Ordered(s, i))
  {
    var s := Swapped(h, i, child);
    if i > 0 {
      assert s[i] == h[child] && s[Parent(i)] == h[Parent(i)];
    }
    forall k | 0 < k < n && k != child && Parent(k) != child ensures Ordered(s, k) {
      if k != i && Parent(k) != i {
        assert Ordered(h, k);
      }
    }
    forall c | 0 < c < n && Parent(c) == child ensures s[Parent(child)].expires <= s[c].expires {
      assert Ordered(h, c);
    }
  }

  class HeapTimer {
    var heap: seq<TimerNode>
    var ref: map<int, nat>

    ghost predicate Valid()
      reads this
    {
      Indexed(heap, ref) && Heap(heap, |heap|)
    }

    ghost function Contents(): map<int, TimerNode>
      reads this
      requires Valid()
    {
      Timers(heap, ref)
    }

    constructor ()
      ensures Valid() && Contents() == map[]
    {
      heap, ref := [], map[];
    }

    method SwapNode(i: nat, j: nat)
      requires i < |heap| && j < |heap| && Indexed(heap, ref)
      modifies this
      ensures heap == Swapped(old(heap), i, j)
      ensures Indexed(heap, ref) && Timers(heap, ref) == old(Timers(heap, ref))
    {
      SwapKeepsTimers(heap, ref, i, j);
      heap := heap[i := heap[j]][j := heap[i]];
      ref := ref[heap[i].id := i];
      ref := ref[heap[j].id := j];
    }

    /** Sifts up node `i` of the first `n`. */
    method SiftUp(start: nat, ghost n: nat)
      requires start < n <= |heap| && Indexed(heap, ref) && HeapBelow(heap, n, start)
      modifies this
      ensures |heap| == old(|heap|) && heap[n..] == old(heap[n..]) && Heap(heap, n)
      ensures Indexed(heap, ref) && Timers(heap, ref) == old(Timers(heap, ref))
    {
      var i: nat := start;
      var parent := if i == 0 then -1 else (i - 1) / 2;
      while parent >= 0
        invariant i < n <= |heap| && |heap| == old(|heap|) && heap[n..] == old(heap[n..])
        invariant parent == if i == 0 then -1 else Parent(i)
        invariant Indexed(heap, ref) && Timers(heap, ref) == old(Timers(heap, ref))
        invariant HeapBelow(heap, n, i)
        decreases i
      {
        if heap[parent].expires > heap[i].expires {
          SwapUp(heap, n, i);
          SwapNode(i, parent);
          i := parent;
          parent := if i == 0 then -1 else (i - 1) / 2;
        } else {
          assert Ordered(heap, i);
          break;
        }
      }
    }

    /** Sifts down node `i` of the first `n`; says whether it moved. */
    method SiftDown(i: nat, n: nat) returns (moved: bool)
      requires i < n <= |heap| && Indexed(heap, ref) && HeapAround(heap, n, i)
      modifies this
      ensures |heap| == old(|heap|) && heap[n..] == old(heap[n..])
      ensures Indexed(heap, ref) && Timers(heap, ref) == old(Timers(heap, ref))
      ensures moved ==> Heap(heap, n)
      ensures !moved ==> heap == old(heap) && HeapBelow(heap, n, i)
    {
      var index := i;
      var child := 2 * index + 1;
      while child < n
        invariant i <= index < n <= |heap| && child == 2 * index + 1
        invariant |heap| == old(|heap|) && heap[n..] == old(heap[n..])
        invariant Indexed(heap, ref) && Timers(heap, ref) == old(Timers(heap, ref))
        invariant HeapAround(heap, n, index)
        invariant index == i ==> heap == old(heap)
        invariant index > i ==> Ordered(heap, index)
        decreases n - index
      {
        if child + 1 < n && heap[child + 1].expires < heap[child].expires {
          child := child + 1;
        }
        assert LeastChild(heap, n, index, child) by {
          forall c | c > 0 { ChildrenOf(index, c); }
        }
        if heap[child].expires < heap[index].expires {
          SwapDown(heap, n, index, child);
          SwapNode(index, child);
          index := child;
          child := 2 * child + 1;
        } else {
          break;
        }
      }
      Settled(heap, n, i, index);
      return index > i;
    }

    /** Restores the order around a node whose expiry has been changed. */
    method Restore(i: nat, n: nat)
      requires i < n <= |heap| && Indexed(heap, ref) && HeapAround(heap, n, i)
      modifies this
      ensures |heap| == old(|heap|) && heap[n..] == old(heap[n..]) && Heap(heap, n)
      ensures Indexed(heap, ref) && Timers(heap, ref) == old(Timers(heap, ref))
    {
      var moved := SiftDown(i, n);
      if !moved {
        SiftUp(i, n);
      }
    }

    /** Deletes the node at a position. */
    method Del(index: nat)
      requires Valid() && index < |heap|
      modifies this
      ensures Valid() && |heap| == old(|heap|) - 1
      ensures Contents() == old(Contents()) - {old(heap[index].id)}
    {
      var n := |heap| - 1;
      ghost var tail := [heap[index]];
      if index < |heap| - 1 {
        PatchHole(heap, index);
        SwapNode(index, |heap| - 1);
        assert heap[n..] == tail;
        Restore(index, n);
      }
      assert heap[n..] == tail;
      PopBack();
    }

    method PopBack()
      requires heap != [] && Indexed(heap, ref) && Heap(heap, |heap| - 1)
      modifies this
      ensures Valid() && |heap| == old(|heap|) - 1
      ensures Contents() == old(Timers(heap, ref)) - {old(heap[|heap| - 1..][0].id)}
    {
      DropLast(heap, ref);
      ref := ref - {heap[|heap| - 1].id};
      heap := heap[..|heap| - 1];
    }

    method Adjust(id: int, newExpires: int, now: int)
      requires Valid() && id in Contents()
      modifies this
      ensures Valid()
      ensures Contents() == old(Contents())[id := old(Contents())[id].(expires := now + newExpires * MS)]
    {
      Rekey(heap, ref, id, heap[ref[id]].(expires := now + newExpires * MS));
      heap := heap[ref[id] := heap[ref[id]].(expires := now + newExpires * MS)];
      Restore(ref[id], |heap|);
    }

    method Add(id: int, timeOut: int, cb: nat, now: int)
      requires Valid() && id >= 0
      modifies this
      ensures Valid()
      ensures Contents() == old(Contents())[id := TimerNode(id, now + timeOut * MS, cb)]
    {
      var node := TimerNode(id, now + timeOut * MS, cb);
      if id in ref {
        var tmp := ref[id];
        Rekey(heap, ref, id, node);
        ghost var renewed := heap[tmp := node];
        heap := heap[tmp := heap[tmp].(expires := now + timeOut * MS)];
        heap := heap[tmp := heap[tmp].(cb := cb)];
        assert heap == renewed;
        Restore(tmp, |heap|);
      } else {
        var n := |heap|;
        Pushed(heap, ref, node);
        ref := ref[id := n];
        heap := heap + [node];
        SiftUp(n, |heap|);
      }
    }

    /** Calls the callback of a timer and deletes it; `called` holds what was called. */
    method DoWork(id: int) returns (called: seq<TimerNode>)
      requires Valid()
      modifies this
      ensures Valid() && Contents() == old(Contents()) - {id}
      ensures called == if id in old(Contents()) then [old(Contents())[id]] else []
    {
      if heap == [] || id !in ref {
        return [];
      }
      var i := ref[id];
      called := [heap[i]];
      Del(i);
    }

    method Pop()
      requires Valid() && heap != []
      modifies this
      ensures Valid() && |heap| == old(|heap|) - 1
      ensures Contents() == old(Contents()) - {old(heap[0].id)}
    {
      Del(0);
    }

    /** Calls and deletes everything that is due; `clock(k)` is the clock's `k`-th reading.
        `called` holds what was called, in order. */
    method Tick(clock: nat -> int) returns (called: seq<TimerNode>, ghost last: nat)
      requires Valid()
      modifies this
      ensures Valid() && Drained(old(Contents()), Contents(), called)
      ensures forall id :: id in Contents() ==> Contents()[id].expires >= clock(|called|) + MS
      ensures Monotone(clock) ==> forall id :: id in old(Contents()) ==>
                (id !in Contents() <==> old(Contents())[id].expires < clock(last) + MS)
      ensures Prompt(called, clock)
      ensures NeverEarly(called, clock) <==> !exists k: nat :: CalledEarlyAt(old(Contents()), clock, k)
    {
      called, last := [], 0;
      DrainedNothing(heap, ref);
      if heap == [] {
        NeverEarlyIff(old(Contents()), Contents(), called, clock);
        return;
      }
      while heap != []
        invariant Valid() && |called| - 1 <= last <= |called|
        invariant Drained(old(Contents()), Contents(), called) && Prompt(called, clock)
        decreases |heap|
      {
        var node := heap[0];
        last := |called|;
        RootDueOrNone(heap, ref, old(Contents()), called, clock);
        if CastMs(node.expires - clock(|called|)) > 0 {
          break;
        }
        called := called + [node];
        Pop();
      }
      NeverEarlyIff(old(Contents()), Contents(), called, clock);
      if Monotone(clock) {
        ExactlyDue(old(Contents()), Contents(), called, clock, last);
      }
    }

    /** Milliseconds until the next timer is due, -1 for none; what is due is called first. */
    method GetNextTick(clock: nat -> int, now: int) returns (res: int, called: seq<TimerNode>)
      requires Valid()
      modifies this
      ensures Valid() && Drained(old(Contents()), Contents(), called)
      ensures res == -1 <==> Contents() == map[]
      ensures res != -1 ==> res >= 0 && exists id ::
                Earliest(Contents(), id) && WholeMs(Contents()[id].expires - now, res)
    {
      ghost var last;
      called, last := Tick(clock);
      res := UntilEarliest(now);
    }

    method UntilEarliest(now: int) returns (res: int)
      requires Valid()
      ensures res == -1 <==> Contents() == map[]
      ensures res != -1 ==> res >= 0 && exists id ::
                Earliest(Contents(), id) && WholeMs(Contents()[id].expires - now, res)
    {
      res := -1;
      if heap != [] {
        RootBelowAll(heap, ref);
        res := CastMs(heap[0].expires - now);
        if res < 0 {
          res := 0;
        }
        assert Earliest(Contents(), heap[0].id);
      } else {
        NoNodesNoTimers(heap, ref);
      }
    }

    method Clear()
      modifies this
      ensures Valid() && Contents() == map[]
    {
      ref, heap := map[], [];
    }
  }

  lemma PatchHole(h: seq<TimerNode>, i: nat)
    requires i < |h| - 1 && Heap(h, |h|)
    ensures HeapAround(Swapped(h, i, |h| - 1), |h| - 1, i)
  {
    var n, s := |h| - 1, Swapped(h, i, |h| - 1);
    forall k | 0 < k < n && k != i && Parent(k) != i ensures Ordered(s, k) {
      assert Ordered(h, k);
    }
    if i > 0 {
      assert Ordered(h, i);
      forall c | 0 < c < n && Parent(c) == i ensures s[Parent(i)].expires <= s[c].expires {
        assert Ordered(h, c);
      }
    }
  }

  lemma DropLast(h: seq<TimerNode>, ref: map<int, nat>)
    requires h != [] && Indexed(h, ref)
    ensures var n := |h| - 1;
      && Indexed(h[..n], ref - {h[n].id})
      && Timers(h[..n], ref - {h[n].id}) == Timers(h, ref) - {h[n].id}
      && (Heap(h, n) ==> Heap(h[..n], n))
  {
    var n := |h| - 1;
    if Heap(h, n) {
      forall k | 0 < k < n ensures Ordered(h[..n], k) {
        assert Ordered(h, k);
      }
    }
    var ref' := ref - {h[n].id};
    forall id | id in ref' ensures h[..n][ref'[id]] == h[ref[id]] {
      assert ref[id] != n;
    }
    assert ref'.Keys == ref.Keys - {h[n].id};
    assert Timers(h[..n], ref').Keys == (Timers(h, ref) - {h[n].id}).Keys;
    assert Timers(h[..n], ref - {h[n].id}) == Timers(h, ref) - {h[n].id};
  }

  /** A node replaced by another one with the same id. */
  lemma Rekey(h: seq<TimerNode>, ref: map<int, nat>, id: int, node: TimerNode)
    requires Indexed(h, ref) && Heap(h, |h|) && id in ref && node.id == id
    ensures var h' := h[ref[id] := node];
      Indexed(h', ref) && HeapAround(h', |h'|, ref[id]) && Timers(h', ref) == Timers(h, ref)[id := node]
  {
    var i, h' := ref[id], h[ref[id] := node];
    forall k | 0 < k < |h| && k != i && Parent(k) != i ensures Ordered(h', k) {
      assert Ordered(h, k);
    }
    if i > 0 {
      assert Ordered(h, i);
      forall c | 0 < c < |h| && Parent(c) == i ensures h'[Parent(i)].expires <= h'[c].expires {
        assert Ordered(h, c);
      }
    }
    forall k | k in ref && k != id ensures h'[ref[k]] == h[ref[k]] {
      assert ref[k] != i;
    }
    assert Timers(h', ref).Keys == Timers(h, ref)[id := node].Keys;
    assert Timers(h', ref) == Timers(h, ref)[id := node];
  }

  lemma Pushed(h: seq<TimerNode>, ref: map<int, nat>, node: TimerNode)
    requires Indexed(h, ref) && Heap(h, |h|) && node.id !in ref
    ensures var h' := h + [node]; var ref' := ref[node.id := |h|];
      Indexed(h', ref') && HeapBelow(h', |h'|, |h|) && Timers(h', ref') == Timers(h, ref)[node.id := node]
  {
    var h' := h + [node];
    forall k | 0 < k < |h| ensures Ordered(h', k) {
      assert Ordered(h, k);
    }
    var ref' := ref[node.id := |h|];
    forall k | k in ref ensures ref'[k] == ref[k] && h'[ref[k]] == h[ref[k]] {
    }
    assert Indexed(h', ref');
    assert ref'.Keys == ref.Keys + {node.id};
    assert Timers(h', ref').Keys == Timers(h, ref)[node.id := node].Keys;
    assert Timers(h', ref') == Timers(h, ref)[node.id := node];
  }

  lemma Settled(h: seq<TimerNode>, n: nat, i: nat, index: nat)
    requires i <= index < n <= |h| && HeapAround(h, n, index) && (index > i ==> Ordered(h, index))
    requires forall c {:trigger Parent(c)} :: 0 < c < n && Parent(c) == index ==> h[index].expires <= h[c].expires
    ensures if index > i then Heap(h, n) else HeapBelow(h, n, i)
  {
    forall k | 0 < k < n && (k != index || index > i) ensures Ordered(h, k) {
    }
  }

  // ----- tick -----

  /** `called` are timers of `before`, each once, in the order of their expiries; `after`
      are the others, none of which expires earlier. */
  ghost predicate Drained(before: map<int, TimerNode>, after: map<int, TimerNode>, called: seq<TimerNode>) {
    && (forall i, j :: 0 <= i < j < |called| ==> called[i].id != called[j].id && called[i].expires <= called[j].expires)
    && (forall x :: x in called ==> x.id in before && before[x.id] == x && x.id !in after)
    && (forall id :: id in after ==> id in before && before[id] == after[id])
    && (forall id :: id in before && id !in after ==> before[id] in called)
    && (forall x, id :: x in called && id in after ==> x.expires <= after[id].expires)
  }

  ghost predicate Monotone(clock: nat -> int) {
    forall i: nat, j: nat :: i <= j ==> clock(i) <= clock(j)
  }

  /** `ms` is how many whole milliseconds there are in `d`, none when that time has passed. */
  ghost predicate WholeMs(d: int, ms: int) {
    if d >= 0 then ms * MS <= d < (ms + 1) * MS else ms == 0
  }

  ghost predicate Earliest(timers: map<int, TimerNode>, id: int) {
    id in timers && forall k :: k in timers ==> timers[id].expires <= timers[k].expires
  }

  /** The `k`-th timer called was due, to the millisecond, at the `k`-th reading. */
  ghost predicate Prompt(called: seq<TimerNode>, clock: nat -> int) {
    forall k :: 0 <= k < |called| ==> called[k].expires < clock(k) + MS
  }

  lemma ExactlyDue(before: map<int, TimerNode>, after: map<int, TimerNode>, called: seq<TimerNode>,
                   clock: nat -> int, last: nat)
    requires Drained(before, after, called) && Prompt(called, clock) && Monotone(clock) && |called| - 1 <= last
    requires forall id :: id in after ==> after[id].expires >= clock(last) + MS
    ensures forall id :: id in before ==> (id !in after <==> before[id].expires < clock(last) + MS)
  {
    forall id | id in before && id !in after ensures before[id].expires < clock(last) + MS {
      var k :| 0 <= k < |called| && called[k] == before[id];
      assert clock(k) <= clock(last);
    }
  }

  lemma DueIff(d: int)
    ensures CastMs(d) > 0 <==> d >= MS
  {
  }

  /** Either the root is due, and is the next timer called, or no timer is. */
  lemma RootDueOrNone(h: seq<TimerNode>, ref: map<int, nat>, before: map<int, TimerNode>, called: seq<TimerNode>,
                      clock: nat -> int)
    requires h != [] && Indexed(h, ref) && Heap(h, |h|)
    requires Drained(before, Timers(h, ref), called) && Prompt(called, clock)
    ensures if CastMs(h[0].expires - clock(|called|)) > 0
            then forall id :: id in ref ==> Timers(h, ref)[id].expires >= clock(|called|) + MS
            else Drained(before, Timers(h, ref) - {h[0].id}, called + [h[0]]) && Prompt(called + [h[0]], clock)
  {
    RootBelowAll(h, ref);
    DueIff(h[0].expires - clock(|called|));
    if CastMs(h[0].expires - clock(|called|)) <= 0 {
      DrainedOneMore(before, Timers(h, ref), called, h[0]);
    }
  }

  // ----- when a timer is called before its expiry -----

  /** Each timer called has expired at the reading that led to the call. */
  ghost predicate NeverEarly(called: seq<TimerNode>, clock: nat -> int) {
    forall k :: 0 <= k < |called| ==> called[k].expires <= clock(k)
  }

  ghost predicate Keyed(timers: map<int, TimerNode>) {
    forall id :: id in timers ==> timers[id].id == id
  }

  ghost predicate InOrder(ids: seq<int>, timers: map<int, TimerNode>) {
    && Once(ids) && (forall i :: 0 <= i < |ids| ==> ids[i] in timers) && (forall id :: id in timers ==> id in ids)
    && forall i, j :: 0 <= i <= j < |ids| ==> timers[ids[i]].expires <= timers[ids[j]].expires
  }

  lemma {:induction false} SomeOrder(timers: map<int, TimerNode>) returns (ids: seq<int>)
    ensures InOrder(ids, timers)
    decreases |timers|
  {
    if x :| x in timers {
      var id := SomeLatest(timers, x);
      var rest := SomeOrder(timers - {id});
      LastInOrder(timers, id, rest);
      ids := rest + [id];
    } else {
      ids := [];
    }
  }

  ghost predicate Latest(timers: map<int, TimerNode>, id: int) {
    id in timers && forall k :: k in timers ==> timers[k].expires <= timers[id].expires
  }

  lemma {:induction false} SomeLatest(timers: map<int, TimerNode>, x: int) returns (id: int)
    requires x in timers
    ensures Latest(timers, id)
    decreases |timers|
  {
    if y :| y in timers && timers[y].expires > timers[x].expires {
      var rest := timers - {x};
      id := SomeLatest(rest, y);
      assert rest[y].expires <= rest[id].expires;
      forall k | k in timers ensures timers[k].expires <= timers[id].expires {
        if k != x { assert k in rest; }
      }
    } else {
      id := x;
    }
  }

  lemma LastInOrder(timers: map<int, TimerNode>, id: int, rest: seq<int>)
    requires Latest(timers, id) && InOrder(rest, timers - {id})
    ensures InOrder(rest + [id], timers)
  {
    var ids, fewer := rest + [id], timers - {id};
    OnceMore(rest, id);
    forall x | x in timers ensures x in ids {
      assert x != id ==> x in fewer;
    }
    forall i | 0 <= i < |ids| ensures ids[i] in timers {
      assert i < |rest| ==> ids[i] == rest[i];
    }
    forall i, j | 0 <= i <= j < |ids| ensures timers[ids[i]].expires <= timers[ids[j]].expires {
      if j < |rest| {
        assert ids[i] == rest[i] && ids[j] == rest[j] && rest[i] in fewer && rest[j] in fewer;
        assert fewer[rest[i]].expires <= fewer[rest[j]].expires;
      } else {
        var x := ids[i];
        assert x in timers && timers[x].expires <= timers[id].expires;
      }
    }
  }

  /** The ids of all timers, by ascending expiry. */
  ghost function ByExpiry(timers: map<int, TimerNode>): (ids: seq<int>)
    ensures InOrder(ids, timers)
  {
    HasOrder(timers);
    var ids :| InOrder(ids, timers);
    ids
  }

  lemma HasOrder(timers: map<int, TimerNode>)
    ensures exists ids :: InOrder(ids, timers)
  {
    var ids := SomeOrder(timers);
  }

  /** The `k`-th smallest expiry. */
  ghost function Expiry(timers: map<int, TimerNode>, k: nat): int
    requires k < |ByExpiry(timers)|
  {
    timers[ByExpiry(timers)[k]].expires
  }

  /** At the `k`-th reading the next timer expires within the millisecond to come, and at no
      reading before it the one next then was further away. */
  ghost predicate CalledEarlyAt(timers: map<int, TimerNode>, clock: nat -> int, k: nat) {
    && k < |ByExpiry(timers)| && clock(k) < Expiry(timers, k) < clock(k) + MS
    && forall j :: 0 <= j < k ==> Expiry(timers, j) < clock(j) + MS
  }

  ghost function IdsOf(called: seq<TimerNode>): (ids: seq<int>)
    ensures |ids| == |called| && forall i :: 0 <= i < |ids| ==> ids[i] == called[i].id
  {
    seq(|called|, i requires 0 <= i < |called| => called[i].id)
  }

  lemma NotAmong(p: seq<int>, q: seq<int>) returns (i: nat)
    requires Once(p) && Once(q) && |p| > |q|
    ensures i < |p| && p[i] !in q
  {
    OnceCount(p);
    OnceCount(q);
    if Elements(p) <= Elements(q) {
      SubsetSize(Elements(p), Elements(q));
    }
    var x :| x in Elements(p) && x !in Elements(q);
    i :| i < |p| && p[i] == x;
  }

  /** What has been called are the first timers by expiry. */
  lemma CalledInOrder(before: map<int, TimerNode>, after: map<int, TimerNode>, called: seq<TimerNode>, ids: seq<int>,
                      k: nat)
    requires Drained(before, after, called) && Keyed(before) && InOrder(ids, before) && k < |called|
    ensures k < |ids| && called[k].expires == before[ids[k]].expires
  {
    CalledAreTimers(before, after, called, ids);
    CalledNotSooner(before, after, called, ids, k);
    CalledNotLater(before, after, called, ids, k);
  }

  lemma CalledAreTimers(before: map<int, TimerNode>, after: map<int, TimerNode>, called: seq<TimerNode>, ids: seq<int>)
    requires Drained(before, after, called) && InOrder(ids, before)
    ensures |called| <= |ids| && Once(IdsOf(called)) && forall i :: 0 <= i < |called| ==> called[i].id in before
  {
    var p := IdsOf(called);
    forall i | 0 <= i < |called| ensures p[i] in ids {
      assert called[i] in called;
    }
    OnceCount(p);
    OnceCount(ids);
    SubsetSize(Elements(p), Elements(ids));
  }

  lemma CalledNotSooner(before: map<int, TimerNode>, after: map<int, TimerNode>, called: seq<TimerNode>, ids: seq<int>,
                        k: nat)
    requires Drained(before, after, called) && Keyed(before) && InOrder(ids, before) && k < |called| && k < |ids|
    ensures called[k].expires >= before[ids[k]].expires
  {
    CalledAreTimers(before, after, called, ids);
    var q := ids[..k];
    var i := NotAmong(IdsOf(called)[..k + 1], q);
    var x := called[i].id;
    var m: nat :| m < |ids| && ids[m] == x;
    assert k <= m by {
      assert forall n :: 0 <= n < k ==> q[n] in q;
    }
    assert called[i] in called && called[i].expires <= called[k].expires;
    assert before[ids[k]].expires <= before[ids[m]].expires;
  }

  lemma CalledNotLater(before: map<int, TimerNode>, after: map<int, TimerNode>, called: seq<TimerNode>, ids: seq<int>,
                       k: nat)
    requires Drained(before, after, called) && Keyed(before) && InOrder(ids, before) && k < |called| && k < |ids|
    ensures called[k].expires <= before[ids[k]].expires
  {
    var q := IdsOf(called)[..k];
    var i := NotAmong(ids[..k + 1], q);
    var x := ids[i];
    assert forall m :: 0 <= m < k ==> q[m] in q && q[m] == called[m].id;
    assert forall m :: 0 <= m < |called| && called[m] == before[x] ==> k <= m;
    assert called[k] in called && before[x].expires <= before[ids[k]].expires;
    assert x in after || before[x] in called;
  }

  /** The other timers expire no earlier than the earliest of those left. */
  lemma RestInOrder(before: map<int, TimerNode>, after: map<int, TimerNode>, called: seq<TimerNode>, ids: seq<int>,
                    k: nat, least: int)
    requires Drained(before, after, called) && Keyed(before) && InOrder(ids, before) && |called| <= k < |ids|
    requires forall id :: id in after ==> after[id].expires >= least
    ensures before[ids[k]].expires >= least
  {
    var p := IdsOf(called);
    var i := NotAmong(ids[..k + 1], p);
    var x := ids[i];
    forall m | 0 <= m < |called| ensures called[m].id != x {
      assert p[m] in p;
    }
    assert x in after && before[x].expires <= before[ids[k]].expires;
  }

  lemma EarlyIsEarlyAt(before: map<int, TimerNode>, after: map<int, TimerNode>, called: seq<TimerNode>,
                       clock: nat -> int, k: nat)
    requires Drained(before, after, called) && Prompt(called, clock) && Keyed(before)
    requires k < |called| && called[k].expires > clock(k)
    ensures CalledEarlyAt(before, clock, k)
  {
    var ids := ByExpiry(before);
    forall j: nat | j <= k ensures j < |ids| && Expiry(before, j) < clock(j) + MS {
      CalledInOrder(before, after, called, ids, j);
    }
    CalledInOrder(before, after, called, ids, k);
  }

  lemma EarlyAtIsEarly(before: map<int, TimerNode>, after: map<int, TimerNode>, called: seq<TimerNode>,
                       clock: nat -> int, k: nat)
    requires Drained(before, after, called) && Keyed(before) && CalledEarlyAt(before, clock, k)
    requires forall id :: id in after ==> after[id].expires >= clock(|called|) + MS
    ensures k < |called| && called[k].expires > clock(k)
  {
    var ids := ByExpiry(before);
    if k < |called| {
      CalledInOrder(before, after, called, ids, k);
    } else {
      assert Expiry(before, |called|) < clock(|called|) + MS;
      RestInOrder(before, after, called, ids, |called|, clock(|called|) + MS);
    }
  }

  /** A timer is called before its expiry exactly when some reading finds the next one, by
      expiry, less than a millisecond away, and no reading before that ends the calls. */
  lemma NeverEarlyIff(before: map<int, TimerNode>, after: map<int, TimerNode>, called: seq<TimerNode>,
                      clock: nat -> int)
    requires Drained(before, after, called) && Prompt(called, clock) && Keyed(before)
    requires forall id :: id in after ==> after[id].expires >= clock(|called|) + MS
    ensures NeverEarly(called, clock) <==> !exists k: nat :: CalledEarlyAt(before, clock, k)
  {
    if !NeverEarly(called, clock) {
      var k: nat :| k < |called| && called[k].expires > clock(k);
      EarlyIsEarlyAt(before, after, called, clock, k);
    }
    if k: nat :| CalledEarlyAt(before, clock, k) {
      EarlyAtIsEarly(before, after, called, clock, k);
    }
  }

  /** No timer expires within the millisecond after `at`. */
  ghost predicate NoneAlmostDue(timers: map<int, TimerNode>, at: int) {
    forall id :: id in timers ==> timers[id].expires <= at || timers[id].expires >= at + MS
  }

  /** With a clock that stands still while the calls are made the condition is about the
      timers alone. */
  lemma StillClock(timers: map<int, TimerNode>, clock: nat -> int, at: int)
    requires forall k: nat :: clock(k) == at
    ensures (exists k: nat :: CalledEarlyAt(timers, clock, k)) <==> !NoneAlmostDue(timers, at)
  {
    var ids := ByExpiry(timers);
    if k: nat :| CalledEarlyAt(timers, clock, k) {
      var id := ids[k];
      assert id in timers && timers[id].expires == Expiry(timers, k) && clock(k) == at;
    }
    if !NoneAlmostDue(timers, at) {
      var id :| id in timers && at < timers[id].expires < at + MS;
      var k: nat :| k < |ids| && ids[k] == id;
      forall j: nat | j < k ensures Expiry(timers, j) < clock(j) + MS {
        assert timers[ids[j]].expires <= timers[ids[k]].expires;
      }
      assert CalledEarlyAt(timers, clock, k);
    }
  }

  lemma DrainedNothing(h: seq<TimerNode>, ref: map<int, nat>)
    requires Indexed(h, ref)
    ensures Drained(Timers(h, ref), Timers(h, ref), [])
  {
  }

  lemma NoNodesNoTimers(h: seq<TimerNode>, ref: map<int, nat>)
    requires h == [] && Indexed(h, ref)
    ensures Timers(h, ref) == map[]
  {
    assert forall id :: id in ref ==> ref[id] < |h|;
  }

  lemma RootBelowAll(h: seq<TimerNode>, ref: map<int, nat>)
    requires h != [] && Indexed(h, ref) && Heap(h, |h|)
    ensures h[0].id in ref && Timers(h, ref)[h[0].id] == h[0]
    ensures forall id :: id in ref ==> h[0].expires <= Timers(h, ref)[id].expires
  {
    forall id | id in ref ensures h[0].expires <= Timers(h, ref)[id].expires {
      RootIsMin(h, |h|, ref[id]);
    }
  }

  lemma DrainedOneMore(before: map<int, TimerNode>, after: map<int, TimerNode>, called: seq<TimerNode>, x: TimerNode)
    requires Drained(before, after, called) && x.id in after && after[x.id] == x
    requires forall id :: id in after ==> x.expires <= after[id].expires
    ensures Drained(before, after - {x.id}, called + [x])
  {
    var more := called + [x];
    assert forall i :: 0 <= i < |called| ==> called[i] in called;
    assert forall y :: y in more <==> y in called || y == x;
  }

  /** A timer set for one millisecond is called one nanosecond after it was set. */
  method CalledEarly() returns (called: seq<TimerNode>)
    ensures called == [TimerNode(3, MS, 8)] && !NeverEarly(called, _ => 1)
  {
    var timer := new HeapTimer();
    timer.Add(3, 1, 8, 0);
    ghost var last;
    ghost var timers := timer.Contents();
    called, last := timer.Tick(_ => 1);
    assert 3 in timers && timers[3] in called;
    SoleTimer(called, 3);
  }

  lemma SoleTimer(called: seq<TimerNode>, id: int)
    requires forall i, j :: 0 <= i < j < |called| ==> called[i].id != called[j].id
    requires forall x :: x in called ==> x.id == id
    ensures |called| <= 1
  {
    if |called| >= 2 {
      TwoTimers(called);
    }
  }

  lemma TwoTimers(called: seq<TimerNode>)
    requires |called| >= 2 && called[0].id != called[1].id
    ensures exists x, y :: x in called && y in called && x.id != y.id
  {
    assert called[0] in called && called[1] in called;
  }
}
