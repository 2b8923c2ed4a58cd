/**
 * InstalldNativeService::freeCache on tracker objects: a max-heap of trackers whose keys change
 * while the loop runs, and the loop itself, which follows the state machine of `Bounce`.
 */
module FreeCache {
  import opened Common
  import opened CacheItems
  import opened CacheItemFacts
  import opened CacheTrackers
  import opened Purging
  import opened EvictionRuns
  import Bounce

  // ----- The priority queue -----

  // A tracker is referred to by its place in the list of all trackers.

  /** The key of every tracker right now: how far it is over its quota. */
  ghost function Keys(trackers: seq<CacheTracker>): (keys: seq<int>)
    reads trackers
  {
    seq(|trackers|, i requires 0 <= i < |trackers| reads trackers => trackers[i].GetCacheRatio())
  }

  function Parent(i: int): int
    requires i > 0
  {
    (i - 1) / 2
  }

  ghost predicate InBounds(keys: seq<int>, queue: seq<nat>) {
    forall i :: 0 <= i < |queue| ==> queue[i] < |keys|
  }

  /** The order std::priority_queue keeps its elements in. */
  ghost predicate Heap(keys: seq<int>, queue: seq<nat>) {
    && InBounds(keys, queue)
    && forall i :: 0 < i < |queue| ==> keys[queue[i]] <= keys[queue[Parent(i)]]
  }

  lemma {:induction false} TopIsLargest(keys: seq<int>, queue: seq<nat>, i: nat)
    requires Heap(keys, queue) && i < |queue|
    ensures keys[queue[i]] <= keys[queue[0]]
    decreases i
  {
    if i > 0 {
      TopIsLargest(keys, queue, Parent(i));
    }
  }

  function Swapped(q: seq<nat>, i: nat, j: nat): (r: seq<nat>)
    requires i < |q| && j < |q|
    ensures |r| == |q| && multiset(r) == multiset(q)
  {
    q[i := q[j]][j := q[i]]
  }

  /** The heap order, except that the element at `hole` may be larger than its parent. */
  ghost predicate RisingHeap(keys: seq<int>, queue: seq<nat>, hole: nat) {
    && InBounds(keys, queue)
    && (forall i :: 0 < i < |queue| && i != hole ==> keys[queue[i]] <= keys[queue[Parent(i)]])
    && (forall i :: 0 < i < |queue| && 0 < hole < |queue| && Parent(i) == hole ==>
          keys[queue[i]] <= keys[queue[Parent(hole)]])
  }

  lemma Rise(keys: seq<int>, q: seq<nat>, i: nat)
    requires RisingHeap(keys, q, i) && 0 < i < |q| && keys[q[Parent(i)]] < keys[q[i]]
    ensures RisingHeap(keys, Swapped(q, i, Parent(i)), Parent(i))
  {
    var p := Parent(i);
    var r := Swapped(q, i, p);
    assert forall k :: 0 <= k < |r| ==> r[k] == if k == i then q[p] else if k == p then q[i] else q[k];
  }

  method Push(trackers: seq<CacheTracker>, queue: seq<nat>, x: nat) returns (r: seq<nat>)
    requires Heap(Keys(trackers), queue) && x < |trackers|
    ensures Heap(Keys(trackers), r)
    ensures multiset(r) == multiset(queue) + multiset{x}
  {
    ghost var keys := Keys(trackers);
    r := queue + [x];
    var i := |queue|;
    while i > 0 && trackers[r[Parent(i)]].GetCacheRatio() < trackers[r[i]].GetCacheRatio()
      invariant 0 <= i < |r| == |queue| + 1
      invariant RisingHeap(keys, r, i)
      invariant multiset(r) == multiset(queue) + multiset{x}
    {
      var p := Parent(i);
      assert keys[r[p]] < keys[r[i]];
      Rise(keys, r, i);
      r := Swapped(r, i, p);
      i := p;
    }
    assert i > 0 ==> keys[r[i]] <= keys[r[Parent(i)]];
  }

  /** The heap order, except that the element at `hole` may be smaller than its children. */
  ghost predicate SinkingHeap(keys: seq<int>, queue: seq<nat>, hole: nat) {
    && InBounds(keys, queue)
    && (forall i :: 0 < i < |queue| && Parent(i) != hole ==> keys[queue[i]] <= keys[queue[Parent(i)]])
    && (forall i :: 0 < i < |queue| && 0 < hole < |queue| && Parent(i) == hole ==>
          keys[queue[i]] <= keys[queue[Parent(hole)]])
  }

  lemma Sink(keys: seq<int>, q: seq<nat>, i: nat, child: nat)
    requires SinkingHeap(keys, q, i) && 0 < child < |q| && Parent(child) == i
    requires keys[q[i]] < keys[q[child]]
    requires forall j :: 0 < j < |q| && Parent(j) == i ==> keys[q[j]] <= keys[q[child]]
    ensures SinkingHeap(keys, Swapped(q, i, child), child)
  {
  }

  method Pop(trackers: seq<CacheTracker>, queue: seq<nat>) returns (top: nat, r: seq<nat>)
    requires Heap(Keys(trackers), queue) && queue != []
    ensures Heap(Keys(trackers), r)
    ensures top in queue && multiset(r) == multiset(queue) - multiset{top}
    ensures top < |trackers| && forall i :: 0 <= i < |queue| ==> Keys(trackers)[queue[i]] <= Keys(trackers)[top]
  {
    ghost var keys := Keys(trackers);
    top := queue[0];
    forall i | 0 <= i < |queue|
      ensures keys[queue[i]] <= keys[top]
    {
      TopIsLargest(keys, queue, i);
    }
    var n := |queue| - 1;
    if n == 0 {
      r := [];
      assert queue == [top];
      return;
    }
    r := [queue[n]] + queue[1..n];
    TakeTop(queue, r);
    assert SinkingHeap(keys, r, 0);
    r := SiftDown(trackers, r);
  }

  lemma TakeTop(queue: seq<nat>, r: seq<nat>)
    requires |queue| > 1 && r == [queue[|queue| - 1]] + queue[1..|queue| - 1]
    ensures multiset(r) == multiset(queue) - multiset{queue[0]}
  {
    assert queue == [queue[0]] + queue[1..|queue| - 1] + [queue[|queue| - 1]];
  }

  method LargerChild(trackers: seq<CacheTracker>, q: seq<nat>, i: nat) returns (child: nat)
    requires InBounds(Keys(trackers), q) && 2 * i + 1 < |q|
    ensures 0 < child < |q| && Parent(child) == i
    ensures forall j :: 0 < j < |q| && Parent(j) == i ==> Keys(trackers)[q[j]] <= Keys(trackers)[q[child]]
  {
    ghost var keys := Keys(trackers);
    child := 2 * i + 1;
    OnlyChildren(i, |q|);
    if child + 1 < |q| && trackers[q[child]].GetCacheRatio() < trackers[q[child + 1]].GetCacheRatio() {
      assert keys[q[child]] < keys[q[child + 1]];
      child := child + 1;
    } else {
      assert child + 1 < |q| ==> keys[q[child + 1]] <= keys[q[child]];
    }
  }

  method SiftDown(trackers: seq<CacheTracker>, queue: seq<nat>) returns (r: seq<nat>)
    requires queue != [] && SinkingHeap(Keys(trackers), queue, 0)
    ensures Heap(Keys(trackers), r) && multiset(r) == multiset(queue)
  {
    ghost var keys := Keys(trackers);
    r := queue;
    var i, n := 0, |queue|;
    while 2 * i + 1 < n
      invariant 0 <= i < |r| == n
      invariant SinkingHeap(keys, r, i)
      invariant multiset(r) == multiset(queue)
      decreases n - i
    {
      var child := LargerChild(trackers, r, i);
      if trackers[r[child]].GetCacheRatio() <= trackers[r[i]].GetCacheRatio() {
        assert keys[r[child]] <= keys[r[i]];
        return;
      }
      assert keys[r[i]] < keys[r[child]];
      Sink(keys, r, i, child);
      r := Swapped(r, i, child);
      i := child;
    }
    OnlyChildren(i, n);
  }

  lemma OnlyChildren(i: nat, n: nat)
    ensures forall j :: 0 < j < n && Parent(j) == i ==> j == 2 * i + 1 || j == 2 * i + 2
  {
  }

  /** The top of the heap decides whether any queued tracker beats a given key. */
  lemma TopDecides(keys: seq<int>, queue: seq<nat>, key: int)
    requires Heap(keys, queue)
    ensures (exists k :: k in multiset(queue) && k < |keys| && key < keys[k]) <==> queue != [] && key < keys[queue[0]]
  {
    if queue != [] && key < keys[queue[0]] {
      assert queue[0] in multiset(queue);
    }
    forall k | k in multiset(queue) && k < |keys| && key < keys[k]
      ensures queue != [] && key < keys[queue[0]]
    {
      assert k in queue;
      var i :| 0 <= i < |queue| && queue[i] == k;
      TopIsLargest(keys, queue, i);
    }
  }

  /** Changing the key of a tracker that is not queued leaves the heap in order. */
  lemma HeapFrame(keys: seq<int>, keys': seq<int>, queue: seq<nat>, a: nat)
    requires Heap(keys, queue) && |keys'| == |keys| && a !in multiset(queue)
    requires forall i :: 0 <= i < |keys| && i != a ==> keys'[i] == keys[i]
    ensures Heap(keys', queue)
  {
    assert forall i :: 0 <= i < |queue| ==> queue[i] in multiset(queue);
  }

  // ----- The loop -----

  ghost function Snapshot(trackers: seq<CacheTracker>): seq<Tracker>
    reads trackers
  {
    seq(|trackers|, i requires 0 <= i < |trackers| reads trackers => trackers[i].View())
  }

  /** The machine's parameters are those of the trackers and of getCacheRatio. */
  ghost predicate Configures(c: Bounce.Config, trackers: seq<CacheTracker>) {
    && |c.paths| == |trackers|
    && (forall i :: 0 <= i < |trackers| ==> c.paths[i] == trackers[i].dataPaths)
    && Bounce.RealRatio(c)
  }

  /** The machine's state is what the trackers and the loop's variables hold. */
  ghost predicate Matches(trackers: seq<CacheTracker>, s: Bounce.State, active: Option<nat>, queue: seq<nat>)
    reads trackers
  {
    && s.ts == Snapshot(trackers) && s.active == active && s.queue == multiset(queue)
    && Heap(Keys(trackers), queue)
  }

  ghost predicate Agrees(trackers: seq<CacheTracker>, evictor: Evictor, c: Bounce.Config, s: Bounce.State,
                         active: Option<nat>, queue: seq<nat>, needed: int, readings: nat)
    reads trackers, evictor, evictor.fs
  {
    && Matches(trackers, s, active, queue) && s.needed == needed && s.readings == readings
    && evictor.Valid(c) && evictor.purged == s.purges
  }

  lemma KeysAreRatios(c: Bounce.Config, trackers: seq<CacheTracker>, s: Bounce.State, i: nat)
    requires Configures(c, trackers) && s.ts == Snapshot(trackers) && i < |trackers|
    ensures Bounce.Ratio(c, s, i) == Keys(trackers)[i] == trackers[i].GetCacheRatio()
  {
  }

  /** Puts the active tracker back, takes the most over-quota one and loads its items. */
  method SwapIn(trackers: seq<CacheTracker>, ghost c: Bounce.Config, active: Option<nat>, queue: seq<nat>,
                ghost s: Bounce.State)
    returns (k: nat, rest: seq<nat>)
    requires Distinct(trackers) && Configures(c, trackers) && Matches(trackers, s, active, queue)
    requires Bounce.InRange(s) && Bounce.Choosing(c, s) && queue != []
    modifies trackers
    ensures k < |trackers| && trackers[k].itemsLoaded
    ensures var s' := s.(ts := Snapshot(trackers), active := Some(k), queue := multiset(rest));
            Matches(trackers, s', Some(k), rest) && Bounce.Swaps(c, s, s', k)
  {
    var all := queue;
    if active.Some? {
      all := Push(trackers, queue, active.value);
    }
    assert multiset(all) == Bounce.InPlay(s);
    k, rest := Pop(trackers, all);
    forall j | j in Bounce.InPlay(s) && j < |s.ts|
      ensures Bounce.Ratio(c, s, j) <= Bounce.Ratio(c, s, k)
    {
      assert j in all;
      KeysAreRatios(c, trackers, s, j);
      KeysAreRatios(c, trackers, s, k);
    }
    LoadTracker(trackers, c, k);
  }

  method LoadTracker(trackers: seq<CacheTracker>, ghost c: Bounce.Config, k: nat)
    requires Distinct(trackers) && Configures(c, trackers) && k < |trackers|
    modifies trackers
    ensures trackers[k].itemsLoaded
    ensures Bounce.Loads(old(trackers[k].View()), trackers[k].View(), c.paths[k])
    ensures Snapshot(trackers) == old(Snapshot(trackers))[k := trackers[k].View()]
    ensures Keys(trackers) == old(Keys(trackers))
  {
    trackers[k].EnsureItems();
    assert forall i :: 0 <= i < |trackers| && i != k ==> trackers[i] != trackers[k];
    assert Snapshot(trackers) == old(Snapshot(trackers))[k := trackers[k].View()];
  }

  /** Takes the last item of a tracker and books it. */
  method TakeItem(trackers: seq<CacheTracker>, a: nat) returns (item: nat, size: int)
    requires Distinct(trackers) && a < |trackers|
    requires trackers[a].items != [] && trackers[a].items[|trackers[a].items| - 1] < |trackers[a].arena|
    modifies trackers[a]
    ensures item == old(trackers[a].items)[|old(trackers[a].items)| - 1]
    ensures size == old(trackers[a].arena)[item].size
    ensures var t := old(trackers[a].View());
            Snapshot(trackers) ==
            old(Snapshot(trackers))[a := t.(used := t.used - size, items := t.items[..|t.items| - 1])]
    ensures forall i :: 0 <= i < |trackers| && i != a ==> Keys(trackers)[i] == old(Keys(trackers))[i]
  {
    var t := trackers[a];
    item := t.items[|t.items| - 1];
    t.items := t.items[..|t.items| - 1];
    size := t.arena[item].size;
    t.cacheUsed := t.cacheUsed - size;
    assert forall i :: 0 <= i < |trackers| && i != a ==> trackers[i] != t;
    assert forall i :: 0 <= i < |trackers| && i != a ==> Snapshot(trackers)[i] == old(Snapshot(trackers))[i];
  }

  ghost predicate Fresh(trackers: seq<CacheTracker>)
    reads trackers
  {
    forall i :: 0 <= i < |trackers| ==> !trackers[i].itemsLoaded && trackers[i].arena == [] && trackers[i].items == []
  }

  /** Queues every tracker. */
  method Populate(trackers: seq<CacheTracker>) returns (queue: seq<nat>)
    ensures Heap(Keys(trackers), queue) && multiset(queue) == multiset(Indices(|trackers|))
  {
    queue := [];
    for n := 0 to |trackers|
      invariant Heap(Keys(trackers), queue) && multiset(queue) == multiset(Indices(n))
    {
      queue := Push(trackers, queue, n);
    }
  }

  /** Whether a queued tracker is more over its quota than the active one. */
  method QueueHasBetter(trackers: seq<CacheTracker>, ghost c: Bounce.Config, active: Option<nat>, queue: seq<nat>,
                        ghost s: Bounce.State)
    returns (better: bool)
    requires Configures(c, trackers) && Matches(trackers, s, active, queue) && Bounce.InRange(s)
    ensures better <==> Bounce.NextBetter(c, s)
  {
    better := active.Some? && queue != []
              && trackers[active.value].GetCacheRatio() < trackers[queue[0]].GetCacheRatio();
    if active.Some? {
      ghost var keys, key := Keys(trackers), Keys(trackers)[active.value];
      TopDecides(keys, queue, key);
      forall k | k in s.queue
        ensures k < |trackers| && Bounce.Ratio(c, s, k) == keys[k]
      {
        KeysAreRatios(c, trackers, s, k);
      }
      KeysAreRatios(c, trackers, s, active.value);
      assert Bounce.NextBetter(c, s) <==> exists k :: k in multiset(queue) && k < |keys| && key < keys[k];
    }
  }

  ghost function Last(run: seq<Bounce.State>): Bounce.State
    requires run != []
  {
    run[|run| - 1]
  }

  lemma {:induction false} Advance(c: Bounce.Config, run: seq<Bounce.State>, s: Bounce.State)
    requires Bounce.IsRun(c, run) && Bounce.Placed(c, Last(run)) && Bounce.Step(c, Last(run), s)
    ensures Bounce.IsRun(c, run + [s]) && (run + [s])[0] == run[0]
    ensures Bounce.Placed(c, s) && Bounce.TurnsLeft(c, s) < Bounce.TurnsLeft(c, Last(run))
  {
    Bounce.ExtendRun(c, run, s);
    Bounce.StepProgress(c, Last(run), s);
  }

  /**
   * The books of one purge: the active tracker's last item goes, and free space is read again once
   * enough should have been freed. Returns the estimate, the number of readings and the new state.
   */
  method PurgeOne(trackers: seq<CacheTracker>, c: Bounce.Config, a: nat, queue: seq<nat>, needed: int, readings: nat,
                  ghost s: Bounce.State)
    returns (needed': int, readings': nat, met: bool, ghost s': Bounce.State)
    requires Distinct(trackers) && Configures(c, trackers) && Matches(trackers, s, Some(a), queue)
    requires s.needed == needed && s.readings == readings
    requires Bounce.Placed(c, s) && s.mark <= |s.purges|
    requires !Bounce.NextBetter(c, s) && trackers[a].items != []
    requires trackers[a].items[|trackers[a].items| - 1] < |trackers[a].arena|
    modifies trackers
    ensures Bounce.Purges(c, s, s') && Matches(trackers, s', Some(a), queue)
    ensures s'.needed == needed' && s'.readings == readings'
    ensures met <==> Bounce.TargetMet(c, s')
  {
    met := false;
    var item, size := TakeItem(trackers, a);
    assert a !in multiset(queue) by {
      assert Bounce.InPlay(s)[a] <= 1;
    }
    HeapFrame(old(Keys(trackers)), Keys(trackers), queue, a);
    ghost var done := s.purges + [Bounce.Purge(a, item, size)];
    ghost var mark := s.mark;
    needed', readings' := needed - size, readings;
    if !c.defyTarget && needed' <= 0 {
      needed' := c.target - c.disk(readings);
      readings' := readings + 1;
      mark := |done|;
      met := needed' <= 0;
    }
    s' := Bounce.State(Snapshot(trackers), s.active, s.queue, needed', done, mark, readings');
  }

  lemma LastItemInArena(c: Bounce.Config, run: seq<Bounce.State>, a: nat)
    requires Bounce.IsRun(c, run) && a < |Last(run).ts| && Last(run).ts[a].items != []
    ensures var t := Last(run).ts[a]; t.items[|t.items| - 1] < |t.arena|
    ensures Last(run).mark <= |Last(run).purges|
    ensures EvictionRuns.Ready(c, Last(run), a)
  {
    var s := Last(run);
    var t, gone := s.ts[a], Bounce.PurgedFrom(s.purges, a);
    Bounce.RunInv(c, run, |run| - 1);
    assert Bounce.BooksAt(c, run[0], s, a);
    assert (t.items + gone)[|t.items| - 1] == t.items[|t.items| - 1];
  }

  lemma {:induction false} PurgedLast(c: Bounce.Config, s: Bounce.State, s': Bounce.State, a: nat)
    requires Bounce.InRange(s) && Bounce.Purges(c, s, s') && s.active == Some(a)
    ensures a < |s.ts| && s.ts[a].items != [] && s.ts[a].items[|s.ts[a].items| - 1] < |s.ts[a].arena|
    ensures var x := s.ts[a].items[|s.ts[a].items| - 1];
            s'.purges == s.purges + [Bounce.Purge(a, x, s.ts[a].arena[x].size)]
  {
  }

  /** The active tracker's last item goes from the disk. */
  method PurgeFromDisk(trackers: seq<CacheTracker>, evictor: Evictor, c: Bounce.Config, a: nat,
                       ghost run: seq<Bounce.State>)
    requires Bounce.IsRun(c, run) && a < |trackers| && Last(run).ts == Snapshot(trackers) && trackers[a].items != []
    requires evictor.Valid(c) && evictor.purged == Last(run).purges
    modifies evictor, evictor.fs
    ensures trackers[a].items[|trackers[a].items| - 1] < |trackers[a].arena|
    ensures evictor.Valid(c)
    ensures var x := trackers[a].items[|trackers[a].items| - 1];
            evictor.purged == old(evictor.purged) + [Bounce.Purge(a, x, trackers[a].arena[x].size)]
  {
    LastItemInArena(c, run, a);
    var t := trackers[a];
    assert Last(run).ts[a] == t.View();
    evictor.PurgeLast(c, Last(run), a, t.arena, t.items[|t.items| - 1]);
  }

  /** One purge, from the disk and in the books. */
  method PurgeTurn(trackers: seq<CacheTracker>, evictor: Evictor, c: Bounce.Config, a: nat, queue: seq<nat>,
                   needed: int, readings: nat, ghost run: seq<Bounce.State>, ghost s: Bounce.State)
    returns (needed': int, readings': nat, met: bool, ghost s': Bounce.State)
    requires Distinct(trackers) && Configures(c, trackers) && Matches(trackers, s, Some(a), queue)
    requires s.needed == needed && s.readings == readings
    requires Bounce.IsRun(c, run) && Last(run) == s && Bounce.Placed(c, s)
    requires !Bounce.NextBetter(c, s) && trackers[a].items != []
    requires evictor.Valid(c) && evictor.purged == s.purges
    modifies trackers, evictor, evictor.fs
    ensures Bounce.Purges(c, s, s') && Matches(trackers, s', Some(a), queue)
    ensures s'.needed == needed' && s'.readings == readings'
    ensures met <==> Bounce.TargetMet(c, s')
    ensures evictor.Valid(c) && evictor.purged == s'.purges
  {
    LastItemInArena(c, run, a);
    PurgeFromDisk(trackers, evictor, c, a, run);
    needed', readings', met, s' := PurgeOne(trackers, c, a, queue, needed, readings, s);
    PurgedLast(c, s, s', a);
  }

  /** One turn of the loop, after the check that it may go on. */
  method Turn(trackers: seq<CacheTracker>, evictor: Evictor, c: Bounce.Config, active: Option<nat>, queue: seq<nat>,
              needed: int, readings: nat, ghost run: seq<Bounce.State>, ghost s: Bounce.State)
    returns (active': Option<nat>, queue': seq<nat>, needed': int, readings': nat, met: bool, ghost s': Bounce.State)
    requires Distinct(trackers) && Configures(c, trackers) && Matches(trackers, s, active, queue)
    requires s.needed == needed && s.readings == readings
    requires Bounce.IsRun(c, run) && Last(run) == s && Bounce.Placed(c, s) && !Bounce.Stopped(c, s)
    requires evictor.Valid(c) && evictor.purged == s.purges
    modifies trackers, evictor, evictor.fs
    ensures Bounce.Step(c, s, s') && Matches(trackers, s', active', queue')
    ensures s'.needed == needed' && s'.readings == readings'
    ensures met <==> Bounce.TargetMet(c, s')
    ensures evictor.Valid(c) && evictor.purged == s'.purges
  {
    active', queue', needed', readings', met := active, queue, needed, readings, false;
    var nextBetter := QueueHasBetter(trackers, c, active, queue, s);
    if active.None? || nextBetter {
      var k;
      k, queue' := SwapIn(trackers, c, active, queue, s);
      active' := Some(k);
      s' := s.(ts := Snapshot(trackers), active := active', queue := multiset(queue'));
    } else if trackers[active.value].items == [] {
      active' := None;
      s' := s.(active := None);
      assert Bounce.Drops(c, s, s');
    } else {
      needed', readings', met, s' := PurgeTurn(trackers, evictor, c, active.value, queue, needed, readings, run, s);
    }
  }

  method ActiveUnderQuota(trackers: seq<CacheTracker>, ghost c: Bounce.Config, active: Option<nat>,
                          ghost s: Bounce.State)
    returns (under: bool)
    requires Configures(c, trackers) && s.ts == Snapshot(trackers) && s.active == active && Bounce.InRange(s)
    ensures under <==> s.active.Some? && Bounce.Ratio(c, s, s.active.value) < OVER_QUOTA
  {
    under := false;
    if active.Some? {
      KeysAreRatios(c, trackers, s, active.value);
      under := trackers[active.value].GetCacheRatio() < OVER_QUOTA;
    }
  }

  lemma NotExhausted(s: Bounce.State, active: Option<nat>, queue: seq<nat>)
    requires s.active == active && s.queue == multiset(queue) && (active.Some? || queue != [])
    ensures !Bounce.Exhausted(s)
  {
    if queue != [] {
      assert queue[0] in multiset(queue);
    }
  }

  /** Step 2 of freeCache: every tracker is queued, and the machine is in its initial state. */
  method Start(trackers: seq<CacheTracker>, c: Bounce.Config)
    returns (queue: seq<nat>, needed: int, ghost s: Bounce.State)
    requires Configures(c, trackers) && Fresh(trackers)
    ensures Bounce.IsRun(c, [s]) && Bounce.Placed(c, s) && s.purges == []
    ensures Matches(trackers, s, None, queue) && s.needed == needed && s.readings == 1
  {
    queue := Populate(trackers);
    needed := c.target - c.disk(0);
    s := Bounce.State(Snapshot(trackers), None, multiset(queue), needed, [], 0, 1);
    Bounce.InitialInv(c, s);
  }

  method RecordedTurn(trackers: seq<CacheTracker>, evictor: Evictor, c: Bounce.Config, active: Option<nat>,
                      queue: seq<nat>, needed: int, readings: nat, ghost run: seq<Bounce.State>)
    returns (active': Option<nat>, queue': seq<nat>, needed': int, readings': nat, met: bool,
             ghost run': seq<Bounce.State>)
    requires Distinct(trackers) && Configures(c, trackers)
    requires Bounce.IsRun(c, run) && Agrees(trackers, evictor, c, Last(run), active, queue, needed, readings)
    requires Bounce.Placed(c, Last(run)) && !Bounce.Stopped(c, Last(run))
    modifies trackers, evictor, evictor.fs
    ensures Bounce.IsRun(c, run') && Agrees(trackers, evictor, c, Last(run'), active', queue', needed', readings')
    ensures Bounce.Placed(c, Last(run')) && Bounce.TurnsLeft(c, Last(run')) < Bounce.TurnsLeft(c, Last(run))
    ensures run'[0] == run[0] && (met <==> Bounce.TargetMet(c, Last(run')))
  {
    ghost var s;
    active', queue', needed', readings', met, s :=
      Turn(trackers, evictor, c, active, queue, needed, readings, run, Last(run));
    Advance(c, run, s);
    run' := run + [s];
  }

  /** The body of the loop: stops at the quota check or after a purge that met the target. */
  method GoOn(trackers: seq<CacheTracker>, evictor: Evictor, c: Bounce.Config, active: Option<nat>, queue: seq<nat>,
              needed: int, readings: nat, ghost run: seq<Bounce.State>)
    returns (active': Option<nat>, queue': seq<nat>, needed': int, readings': nat, stop: bool,
             ghost run': seq<Bounce.State>)
    requires Distinct(trackers) && Configures(c, trackers) && (active.Some? || queue != [])
    requires Bounce.IsRun(c, run) && Agrees(trackers, evictor, c, Last(run), active, queue, needed, readings)
    requires Bounce.Placed(c, Last(run)) && !Bounce.TargetMet(c, Last(run))
    modifies trackers, evictor, evictor.fs
    ensures Bounce.IsRun(c, run') && Agrees(trackers, evictor, c, Last(run'), active', queue', needed', readings')
    ensures Bounce.Placed(c, Last(run')) && run'[0] == run[0]
    ensures if stop then Bounce.Stopped(c, Last(run'))
            else !Bounce.TargetMet(c, Last(run')) && Bounce.TurnsLeft(c, Last(run')) < Bounce.TurnsLeft(c, Last(run))
  {
    // Only look at apps under quota when that is asked for.
    var underQuota := ActiveUnderQuota(trackers, c, active, Last(run));
    if underQuota && !c.defyQuota {
      active', queue', needed', readings', stop, run' := active, queue, needed, readings, true, run;
    } else {
      NotExhausted(Last(run), active, queue);
      // A target that seems met is verified by a fresh reading, since hard links can hide freed space.
      active', queue', needed', readings', stop, run' :=
        RecordedTurn(trackers, evictor, c, active, queue, needed, readings, run);
    }
  }

  /** Step 3 of freeCache: bounce across the queue until there is a reason to stop. */
  method BounceAcross(trackers: seq<CacheTracker>, evictor: Evictor, c: Bounce.Config)
    returns (readings: nat, ghost run: seq<Bounce.State>)
    requires Distinct(trackers) && Configures(c, trackers) && Fresh(trackers)
    requires evictor.Valid(c) && evictor.purged == []
    modifies trackers, evictor, evictor.fs
    ensures Bounce.IsRun(c, run)
    ensures evictor.Valid(c) && evictor.purged == Last(run).purges
    ensures run[0].ts == old(Snapshot(trackers)) && Last(run).ts == Snapshot(trackers)
    ensures Bounce.InRange(Last(run)) && Bounce.Stopped(c, Last(run))
    ensures readings == Last(run).readings
  {
    var queue, needed, s := Start(trackers, c);
    var active: Option<nat>, stop := None, false;
    readings := 1;
    run := [s];
    while !stop && (active.Some? || queue != [])
      invariant Bounce.IsRun(c, run) && run[0].ts == old(Snapshot(trackers))
      invariant Agrees(trackers, evictor, c, Last(run), active, queue, needed, readings)
      invariant Bounce.Placed(c, Last(run)) &&
                (if stop then Bounce.Stopped(c, Last(run)) else !Bounce.TargetMet(c, Last(run)))
      decreases !stop, Bounce.TurnsLeft(c, Last(run))
    {
      active, queue, needed, readings, stop, run := GoOn(trackers, evictor, c, active, queue, needed, readings, run);
    }
  }

  datatype Status = Ok | Error

  /**
   * InstalldNativeService::freeCache. A failed first reading is an error; nothing is done when the
   * target is met already, or when the strategy is not the supported one. Otherwise the loop runs
   * to its end and, unless the target is to be ignored, one last reading decides the result.
   */
  method Run(trackers: seq<CacheTracker>, fs: FileSystem, c: Bounce.Config, v2: bool, noop: bool)
    returns (status: Status, ghost run: seq<Bounce.State>)
    requires Distinct(trackers) && Configures(c, trackers) && Fresh(trackers)
    requires noop || OnDisk(c, fs.disk)
    modifies trackers, fs
    ensures if run == [] || noop then fs.disk == old(fs.disk) else Evicted(c, old(fs.disk), Last(run).purges, fs.disk)
    ensures var idle := c.disk(0) < 0 || (!c.defyTarget && c.disk(0) >= c.target) || !v2;
            if idle then
              && run == [] && Snapshot(trackers) == old(Snapshot(trackers))
              && (status.Ok? <==> c.disk(0) >= 0 && !c.defyTarget && c.disk(0) >= c.target)
            else
              && Bounce.IsRun(c, run)
              && run[0].ts == old(Snapshot(trackers)) && Last(run).ts == Snapshot(trackers)
              && Bounce.InRange(Last(run)) && Bounce.Stopped(c, Last(run))
              && (status.Ok? <==> c.defyTarget || c.disk(Last(run).readings) >= c.target)
  {
    run := [];
    var free := c.disk(0);
    if free < 0 {
      return Error, [];
    }
    if !c.defyTarget && free >= c.target {
      return Ok, [];
    }
    if !v2 {
      return Error, [];
    }
    var evictor := new Evictor(c, fs, noop);
    var readings;
    readings, run := BounceAcross(trackers, evictor, c);
    if c.defyTarget || c.disk(readings) >= c.target {
      status := Ok;
    } else {
      status := Error;
    }
  }
}
