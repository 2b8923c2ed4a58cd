/**
 * The quota check of freeCache's loop: when it ends the loop although a waiting tracker is over
 * quota, told from the trackers the loop starts with; and what a usage below zero does to it.
 */
module QuotaStops {
  import opened Common
  import opened Fts
  import opened CacheItems
  import opened CacheItemFacts
  import opened CacheTrackers
  import opened Bounce

  /** Some waiting tracker is over its quota. */
  predicate WaitingOver(c: Config, s: State)
    requires InRange(s)
  {
    exists j :: j in s.queue && Ratio(c, s, j) >= OVER_QUOTA
  }

  /**
   * Within a run: when the quota check ends the loop, a waiting tracker is over quota if
   * and only if the turn before was a purge made while a waiting tracker was over quota.
   */
  lemma {:induction false} EarlyStopExactly(c: Config, s: State, s': State)
    requires Placed(c, s) && Bounce.Step(c, s, s') && InRange(s') && QuotaStop(c, s')
    ensures WaitingOver(c, s') <==> |s'.purges| > |s.purges| && WaitingOver(c, s)
  {
    if j :| j in s'.queue && Ratio(c, s', j) >= OVER_QUOTA {
      EarlyQuotaStop(c, s, s', j);
      assert Purges(c, s, s');
      assert InPlay(s)[s.active.value] <= 1;
      assert j in s.queue && Ratio(c, s, j) == Ratio(c, s', j);
    }
    if |s'.purges| > |s.purges| && WaitingOver(c, s) {
      var j :| j in s.queue && Ratio(c, s, j) >= OVER_QUOTA;
      assert Purges(c, s, s');
      assert InPlay(s)[s.active.value] <= 1;
      assert j in s'.queue && Ratio(c, s', j) == Ratio(c, s, j);
    }
  }

  // ----- At most one tracker over quota -----

  predicate Over(c: Config, s: State, i: nat) {
    i < |s.ts| && Ratio(c, s, i) >= OVER_QUOTA
  }

  /** Of the trackers in play at most one is over quota, and if one is active none that waits is. */
  ghost predicate AtMostOne(c: Config, s: State) {
    && Placed(c, s)
    && (forall i, j :: i in InPlay(s) && j in InPlay(s) && Over(c, s, i) && Over(c, s, j) ==> i == j)
    && (s.active.Some? ==> forall j :: j in s.queue ==> !Over(c, s, j))
  }

  lemma {:induction false} SwapAtMostOne(c: Config, s: State, s': State, k: nat)
    requires AtMostOne(c, s) && Swaps(c, s, s', k)
    ensures AtMostOne(c, s')
  {
    SwapPlaced(c, s, s', k);
    assert forall i :: Over(c, s', i) ==> Over(c, s, i);
    forall j | j in s'.queue
      ensures !Over(c, s', j)
    {
      assert j in InPlay(s) && k in InPlay(s) && InPlay(s)[k] <= 1;
      if Over(c, s, j) {
        assert Over(c, s, k);
      }
    }
  }

  lemma {:induction false} DropAtMostOne(c: Config, s: State, s': State)
    requires AtMostOne(c, s) && Drops(c, s, s')
    ensures AtMostOne(c, s')
  {
    DropPlaced(c, s, s');
    assert forall i :: Over(c, s', i) <==> Over(c, s, i);
    assert forall i :: i in InPlay(s') ==> i in s.queue;
  }

  lemma {:induction false} PurgeAtMostOne(c: Config, s: State, s': State)
    requires AtMostOne(c, s) && Purges(c, s, s')
    ensures AtMostOne(c, s')
  {
    PurgePlaced(c, s, s');
    var a := s.active.value;
    assert InPlay(s)[a] <= 1;
    forall j | j in s'.queue
      ensures j != a && !Over(c, s', j)
    {
      assert !Over(c, s, j);
    }
  }

  lemma {:induction false} RunAtMostOne(c: Config, run: seq<State>, n: nat)
    requires IsRun(c, run) && n < |run|
    requires forall i, j :: Over(c, run[0], i) && Over(c, run[0], j) ==> i == j
    ensures AtMostOne(c, run[n])
    decreases n
  {
    if n == 0 {
      RunPlaced(c, run, 0);
    } else {
      RunAtMostOne(c, run, n - 1);
      assert StepAt(c, run, n - 1);
      var s, s' := run[n - 1], run[n];
      if k: nat :| Swaps(c, s, s', k) {
        SwapAtMostOne(c, s, s', k);
      } else if Drops(c, s, s') {
        DropAtMostOne(c, s, s');
      } else {
        PurgeAtMostOne(c, s, s');
      }
    }
  }

  // ----- Two trackers over quota -----

  predicate Unloaded(ts: seq<Tracker>) {
    forall i :: 0 <= i < |ts| ==> !ts[i].loaded && ts[i].arena == [] && ts[i].items == []
  }

  predicate StartsOver(ts: seq<Tracker>, i: nat) {
    i < |ts| && CacheRatio(ts[i].used, ts[i].quota) >= OVER_QUOTA
  }

  /** One file of a given size, in the cache directory of one of n trackers. */
  function OneFilePaths(n: nat, k: nat, size: nat): (r: seq<seq<DataPath>>)
    ensures |r| == n && (k < n ==> r[k] == [DataPath(FileRoot(size), Root("d", None))])
  {
    if n == 0 then []
    else OneFilePaths(n - 1, k, size) + [if k == n - 1 then [DataPath(FileRoot(size), Root("d", None))] else []]
  }

  function TheFile(size: nat): Node {
    Leaf(Attr("f", size, 0, false, false), true)
  }

  function FileRoot(size: nat): Root {
    Root("c", Some(Dir(Attr("c", 0, 0, false, false), [TheFile(size)])))
  }

  function FileItem(size: nat): CacheItem {
    CacheItem(1, false, false, false, size, 0, None, Render(["c", "f"]))
  }

  lemma {:induction false} OneFile(paths: seq<DataPath>, root: Root, file: Node, item: CacheItem)
    requires file.Leaf? && root.tree.Some? && root.tree.value.Dir? && root.tree.value.children == [file]
    requires paths == [DataPath(root, Root("d", None))]
    requires item == CacheItem(1, false, false, false, file.attr.size, file.attr.mtime, None,
                               Render([root.path, file.attr.name]))
    ensures LoadedArena(paths) == [item]
  {
    assert paths[..0] == [];
    assert LoadedArena(paths[..0]) == [];
    assert [root.path] + [file.attr.name] == [root.path, file.attr.name];
    assert [file][1..] == [];
    assert ItemsOfAll([file], 1, [root.path], None, false, 0) == [item];
    assert AddRoot([], root) == [item];
  }

  /** The target is ignored, so that only the quota check or the end of the items stops the loop. */
  function Heedless(paths: seq<seq<DataPath>>): Config {
    Config(0, false, true, (used, quota) => CacheRatio(used, quota), n => 0, paths)
  }

  /** All trackers are queued, and nothing has happened. */
  function Start(ts: seq<Tracker>, queue: multiset<nat>): State {
    State(ts, None, queue, 0, [], 0, 1)
  }

  ghost predicate Queued(n: nat, queue: multiset<nat>) {
    forall i: nat :: queue[i] == if i < n then 1 else 0
  }

  lemma {:induction false} StartIsRun(c: Config, ts: seq<Tracker>) returns (queue: multiset<nat>)
    requires Unloaded(ts) && |c.paths| == |ts| && c.target == c.disk(0)
    ensures Queued(|ts|, queue) && IsRun(c, [Start(ts, queue)])
  {
    queue := multiset(Indices(|ts|));
    IndicesOnce(|ts|);
    forall i: nat
      ensures queue[i] == if i < |ts| then 1 else 0
    {
      if i >= |ts| {
        assert i !in queue;
      }
    }
    forall i: nat
      ensures StepAt(c, [Start(ts, queue)], i)
    {
    }
  }

  function Filled(t: Tracker, item: CacheItem): Tracker {
    t.(loaded := true, arena := [item], items := [0])
  }

  lemma {:induction false} FillLoads(t: Tracker, item: CacheItem, paths: seq<DataPath>)
    requires !t.loaded && LoadedArena(paths) == [item]
    ensures Loads(t, Filled(t, item), paths)
  {
    assert PurgeOrder([item], [0]);
  }

  /** The tracker k is active and has one item. */
  function Swapped(ts: seq<Tracker>, queue: multiset<nat>, k: nat, item: CacheItem): State
    requires k < |ts|
  {
    State(ts[k := Filled(ts[k], item)], Some(k), queue - multiset{k}, 0, [], 0, 1)
  }

  /** Its item has been purged. */
  function Spent(ts: seq<Tracker>, queue: multiset<nat>, k: nat, item: CacheItem): State
    requires k < |ts|
  {
    State(ts[k := Filled(ts[k], item).(used := ts[k].used - item.size, items := [])], Some(k), queue - multiset{k},
          0 - item.size, [Purge(k, 0, item.size)], 0, 1)
  }

  /** The tracker k can be swapped in first: no other is further over quota, and it is to find one item. */
  ghost predicate Favoured(c: Config, ts: seq<Tracker>, queue: multiset<nat>, k: nat, item: CacheItem) {
    && |c.paths| == |ts| && k < |ts| && Queued(|ts|, queue)
    && (forall i :: 0 <= i < |ts| ==> c.ratio(ts[i].used, ts[i].quota) <= c.ratio(ts[k].used, ts[k].quota))
    && Loads(ts[k], Filled(ts[k], item), c.paths[k])
  }

  lemma {:induction false} FirstSwap(c: Config, ts: seq<Tracker>, queue: multiset<nat>, k: nat, item: CacheItem)
    requires Favoured(c, ts, queue, k, item)
    ensures InRange(Start(ts, queue)) && Swaps(c, Start(ts, queue), Swapped(ts, queue, k, item), k)
    ensures Bounce.Step(c, Start(ts, queue), Swapped(ts, queue, k, item))
  {
    var s := Start(ts, queue);
    assert k in queue && InPlay(s) == queue;
    assert forall i :: i in queue ==> i < |ts|;
    assert Swapped(ts, queue, k, item).ts[k] == Filled(ts[k], item);
    assert Swaps(c, s, Swapped(ts, queue, k, item), k);
  }

  lemma {:induction false} SwappedGoesOn(c: Config, ts: seq<Tracker>, queue: multiset<nat>, k: nat, item: CacheItem)
    requires Favoured(c, ts, queue, k, item) && c.defyTarget && c.ratio(ts[k].used, ts[k].quota) >= OVER_QUOTA
    ensures var s := Swapped(ts, queue, k, item);
            InRange(s) && !NextBetter(c, s) && !Stopped(c, s)
  {
    var s := Swapped(ts, queue, k, item);
    assert forall i :: i in s.queue ==> i in queue && i < |ts|;
    FirstSwap(c, ts, queue, k, item);
    SwapSettles(c, Start(ts, queue), s, k);
  }

  lemma {:induction false} SecondStep(c: Config, ts: seq<Tracker>, queue: multiset<nat>, k: nat, item: CacheItem)
    requires Favoured(c, ts, queue, k, item) && c.defyTarget && c.ratio(ts[k].used, ts[k].quota) >= OVER_QUOTA
    ensures InRange(Spent(ts, queue, k, item))
    ensures Bounce.Step(c, Swapped(ts, queue, k, item), Spent(ts, queue, k, item))
  {
    var s, s' := Swapped(ts, queue, k, item), Spent(ts, queue, k, item);
    SwappedGoesOn(c, ts, queue, k, item);
    assert s'.queue == s.queue && |s'.ts| == |s.ts|;
    assert s.ts[k] == Filled(ts[k], item) && [0][..0] == [];
    assert s'.ts == s.ts[k := s.ts[k].(used := s.ts[k].used - item.size, items := [])];
    assert s'.purges == s.purges + [Purge(k, 0, item.size)];
    assert Purges(c, s, s');
  }

  /** The loop stops once the item is purged, although j waits. */
  lemma {:induction false} SpentStops(c: Config, ts: seq<Tracker>, queue: multiset<nat>, k: nat,
                                      item: CacheItem, j: nat)
    requires k < |ts| && j < |ts| && j != k && Queued(|ts|, queue) && InRange(Spent(ts, queue, k, item)) && !c.defyQuota
    requires c.ratio(ts[j].used, ts[j].quota) >= OVER_QUOTA
    requires c.ratio(ts[k].used - item.size, ts[k].quota) < OVER_QUOTA
    ensures QuotaStop(c, Spent(ts, queue, k, item)) && WaitingOver(c, Spent(ts, queue, k, item))
  {
    var s := Spent(ts, queue, k, item);
    assert s.ts[j] == ts[j] && j in s.queue;
    assert Ratio(c, s, j) >= OVER_QUOTA;
  }

  lemma {:induction false} SpentRun(c: Config, ts: seq<Tracker>, k: nat, item: CacheItem)
    returns (queue: multiset<nat>, run: seq<State>)
    requires Unloaded(ts) && |c.paths| == |ts| && k < |ts| && LoadedArena(c.paths[k]) == [item]
    requires forall i :: 0 <= i < |ts| ==> c.ratio(ts[i].used, ts[i].quota) <= c.ratio(ts[k].used, ts[k].quota)
    requires c.defyTarget && c.target == c.disk(0) && c.ratio(ts[k].used, ts[k].quota) >= OVER_QUOTA
    ensures Queued(|ts|, queue) && InRange(Spent(ts, queue, k, item))
    ensures IsRun(c, run) && run[0].ts == ts && run[|run| - 1] == Spent(ts, queue, k, item)
  {
    queue := StartIsRun(c, ts);
    FillLoads(ts[k], item, c.paths[k]);
    FirstSwap(c, ts, queue, k, item);
    ExtendRun(c, [Start(ts, queue)], Swapped(ts, queue, k, item));
    SecondStep(c, ts, queue, k, item);
    run := [Start(ts, queue)] + [Swapped(ts, queue, k, item)];
    ExtendRun(c, run, Spent(ts, queue, k, item));
    run := run + [Spent(ts, queue, k, item)];
  }

  /** If the tracker furthest over quota has all it uses in one file, the loop stops once that is purged. */
  lemma {:induction false} EarlyStop(ts: seq<Tracker>, k: nat, j: nat) returns (c: Config, run: seq<State>)
    requires Unloaded(ts) && k < |ts| && StartsOver(ts, j) && j != k
    requires 0 <= ts[k].used && 0 < ts[k].quota
    requires forall i :: 0 <= i < |ts| ==> CacheRatio(ts[i].used, ts[i].quota) <= CacheRatio(ts[k].used, ts[k].quota)
    ensures IsRun(c, run) && !c.defyQuota && RealRatio(c) && run[0].ts == ts
    ensures InRange(run[|run| - 1]) && QuotaStop(c, run[|run| - 1]) && WaitingOver(c, run[|run| - 1])
  {
    var size: nat := ts[k].used;
    var item, paths := FileItem(size), OneFilePaths(|ts|, k, size);
    c := Heedless(paths);
    OneFile(paths[k], FileRoot(size), TheFile(size), item);
    assert c.ratio(ts[k].used - item.size, ts[k].quota) == 0 by {
      assert CacheRatio(0, ts[k].quota) == 0;
    }
    var queue;
    queue, run := SpentRun(c, ts, k, item);
    SpentStops(c, ts, queue, k, item, j);
  }

  lemma {:induction false} Largest(ts: seq<Tracker>) returns (k: nat)
    requires ts != []
    ensures k < |ts|
    ensures forall i :: 0 <= i < |ts| ==> CacheRatio(ts[i].used, ts[i].quota) <= CacheRatio(ts[k].used, ts[k].quota)
  {
    var n := |ts| - 1;
    k := n;
    if n > 0 {
      var m := Largest(ts[..n]);
      if CacheRatio(ts[n].used, ts[n].quota) < CacheRatio(ts[m].used, ts[m].quota) {
        k := m;
      }
      forall i | 0 <= i < |ts|
        ensures CacheRatio(ts[i].used, ts[i].quota) <= CacheRatio(ts[k].used, ts[k].quota)
      {
        if i < n {
          assert ts[..n][i] == ts[i];
        }
      }
    }
  }

  // ----- The exact condition -----

  /** Whenever the quota check ends the loop, whatever the disk and the files, no waiting tracker is over quota. */
  ghost predicate StopsFairly(ts: seq<Tracker>) {
    forall c, run: seq<State> :: IsRun(c, run) && !c.defyQuota && RealRatio(c) && run[0].ts == ts ==>
      FairEnd(c, run[|run| - 1])
  }

  ghost predicate FairEnd(c: Config, s: State) {
    InRange(s) && QuotaStop(c, s) ==> !WaitingOver(c, s)
  }

  /**
   * The quota check can be relied on for the trackers freeCache starts with if and only if at most
   * one of them is over quota.
   */
  lemma {:induction false} StopsFairlyExactly(ts: seq<Tracker>)
    requires Unloaded(ts) && forall i :: 0 <= i < |ts| ==> 0 <= ts[i].used && 0 < ts[i].quota
    ensures StopsFairly(ts) <==> forall i, j :: StartsOver(ts, i) && StartsOver(ts, j) ==> i == j
  {
    if forall i, j :: StartsOver(ts, i) && StartsOver(ts, j) ==> i == j {
      forall c, run: seq<State> | IsRun(c, run) && !c.defyQuota && RealRatio(c) && run[0].ts == ts
        ensures FairEnd(c, run[|run| - 1])
      {
        OneOverStopsFairly(c, run);
      }
    } else {
      var i: nat, j: nat :| StartsOver(ts, i) && StartsOver(ts, j) && i != j;
      var k := Largest(ts);
      var c, run := EarlyStop(ts, k, if i == k then j else i);
      assert !FairEnd(c, run[|run| - 1]);
    }
  }

  lemma {:induction false} OneOverStopsFairly(c: Config, run: seq<State>)
    requires IsRun(c, run) && RealRatio(c)
    requires forall i, j :: StartsOver(run[0].ts, i) && StartsOver(run[0].ts, j) ==> i == j
    ensures FairEnd(c, run[|run| - 1])
  {
    assert forall i :: Over(c, run[0], i) ==> StartsOver(run[0].ts, i);
    RunAtMostOne(c, run, |run| - 1);
    var s := run[|run| - 1];
    if InRange(s) && QuotaStop(c, s) {
      assert forall j :: j in s.queue ==> !Over(c, s, j);
    }
  }

  /** A run that stops so: two trackers are over quota and only one of them is purged. */
  lemma {:induction false} EarlyQuotaStopHappens() returns (c: Config, run: seq<State>)
    ensures IsRun(c, run) && !c.defyQuota && RealRatio(c)
    ensures run[0].ts == [Tracker(30, 10, false, [], []), Tracker(20, 10, false, [], [])]
    ensures InRange(run[|run| - 1]) && QuotaStop(c, run[|run| - 1]) && WaitingOver(c, run[|run| - 1])
  {
    var ts := [Tracker(30, 10, false, [], []), Tracker(20, 10, false, [], [])];
    assert CacheRatio(30, 10) == 30000 && CacheRatio(20, 10) == 20000;
    c, run := EarlyStop(ts, 0, 1);
  }

  // ----- A usage below zero -----

  /** One tracker that is active, with these items left of two. */
  function Alone(used: int, arena: Arena, items: seq<nat>, purges: seq<Purge>): State {
    State([Tracker(used, 1, true, arena, items)], Some(0), multiset{}, -PurgedBytes(purges), purges, 0, 1)
  }

  lemma {:induction false} LoneSwap(c: Config, used: int, arena: Arena)
    requires |c.paths| == 1 && LoadedArena(c.paths[0]) == arena && PurgeOrder(arena, [0, 1])
    ensures Bounce.Step(c, Start([Tracker(used, 1, false, [], [])], multiset{0}), Alone(used, arena, [0, 1], []))
  {
    var s, s' := Start([Tracker(used, 1, false, [], [])], multiset{0}), Alone(used, arena, [0, 1], []);
    assert 0 in s.queue && InPlay(s) == multiset{0};
    assert multiset{0} - multiset{0} == multiset{};
    assert s'.ts == s.ts[0 := s'.ts[0]];
    assert Swaps(c, s, s', 0);
  }

  lemma {:induction false} LonePurge(c: Config, used: int, arena: Arena, items: seq<nat>, k: nat, purges: seq<Purge>)
    requires items != [] && k == items[|items| - 1] < |arena| && c.defyTarget && c.ratio(used, 1) >= OVER_QUOTA
    ensures Bounce.Step(c, Alone(used, arena, items, purges), Alone(used - arena[k].size, arena, items[..|items| - 1],
                                                                    purges + [Purge(0, k, arena[k].size)]))
  {
    var rest, purges' := items[..|items| - 1], purges + [Purge(0, k, arena[k].size)];
    var s, s' := Alone(used, arena, items, purges), Alone(used - arena[k].size, arena, rest, purges');
    BytesSnoc(purges, Purge(0, k, arena[k].size));
    assert s'.ts == s.ts[0 := s.ts[0].(used := used - arena[k].size, items := rest)];
    assert !NextBetter(c, s) && !Stopped(c, s);
    assert Purges(c, s, s');
  }

  lemma {:induction false} TwoFiles(size: nat)
    ensures LoadedArena([DataPath(FileRoot(1), FileRoot(size))]) == [FileItem(1), FileItem(size)]
    ensures PurgeOrder([FileItem(1), FileItem(size)], [0, 1])
  {
    var paths := [DataPath(FileRoot(1), FileRoot(size))];
    OneFile([DataPath(FileRoot(1), Root("d", None))], FileRoot(1), TheFile(1), FileItem(1));
    assert paths[..0] == [] && LoadedArena([]) == [];
    assert AddRoot([], FileRoot(1)) == [FileItem(1)];
    var file := TheFile(size);
    assert [file][1..] == [] && ["c"] + ["f"] == ["c", "f"];
    assert ItemsOfAll([file], 1, ["c"], None, false, 1) == [FileItem(size)];
    assert AddRoot([FileItem(1)], FileRoot(size)) == [FileItem(1), FileItem(size)];
  }

  lemma {:induction false} LoneStart(c: Config)
    requires |c.paths| == 1 && c.target == c.disk(0)
    ensures IsRun(c, [Start([Tracker(1, 1, false, [], [])], multiset{0})])
  {
    var queue := StartIsRun(c, [Tracker(1, 1, false, [], [])]);
    assert queue == multiset{0};
  }

  /** A tracker with a usage and a quota of 1 finds two items. */
  ghost predicate Lone(c: Config, arena: Arena) {
    && |arena| == 2 && |c.paths| == 1 && LoadedArena(c.paths[0]) == arena && PurgeOrder(arena, [0, 1])
    && c.defyTarget && c.target == c.disk(0) && c.ratio(1, 1) >= OVER_QUOTA
  }

  lemma {:induction false} LoneSwapped(c: Config, arena: Arena) returns (run: seq<State>)
    requires Lone(c, arena)
    ensures IsRun(c, run) && |run| == 2 && run[1] == Alone(1, arena, [0, 1], [])
  {
    LoneStart(c);
    LoneSwap(c, 1, arena);
    run := [Start([Tracker(1, 1, false, [], [])], multiset{0})];
    ExtendRun(c, run, Alone(1, arena, [0, 1], []));
    run := run + [Alone(1, arena, [0, 1], [])];
  }

  lemma {:induction false} LonePurged(c: Config, arena: Arena) returns (run: seq<State>)
    requires Lone(c, arena)
    ensures IsRun(c, run) && |run| == 3
    ensures run[2] == Alone(1 - arena[1].size, arena, [0], [Purge(0, 1, arena[1].size)])
  {
    var s := Alone(1 - arena[1].size, arena, [0], [Purge(0, 1, arena[1].size)]);
    run := LoneSwapped(c, arena);
    LonePurge(c, 1, arena, [0, 1], 1, []);
    assert [0, 1][..1] == [0] && [] + [Purge(0, 1, arena[1].size)] == [Purge(0, 1, arena[1].size)];
    ExtendRun(c, run, s);
    run := run + [s];
  }

  /** Both items are purged, the second one whatever the first has left of the usage. */
  lemma {:induction false} LoneRun(c: Config, arena: Arena) returns (run: seq<State>)
    requires Lone(c, arena) && c.ratio(1 - arena[1].size, 1) >= OVER_QUOTA
    ensures IsRun(c, run) && |run| == 4
    ensures run[2] == Alone(1 - arena[1].size, arena, [0], [Purge(0, 1, arena[1].size)]) && |run[3].purges| == 2
  {
    var used, first := 1 - arena[1].size, Purge(0, 1, arena[1].size);
    var s := Alone(used - arena[0].size, arena, [], [first] + [Purge(0, 0, arena[0].size)]);
    run := LonePurged(c, arena);
    LonePurge(c, used, arena, [0], 0, [first]);
    assert [0][..0] == [];
    ExtendRun(c, run, s);
    run := run + [s];
  }

  /**
   * A run with the quota respected in which a tracker is purged far below zero, since its usage was
   * less than its files hold, and then, by the ratio that wraps around, is purged again.
   */
  lemma {:induction false} DeficitIsPurged() returns (c: Config, run: seq<State>)
    ensures IsRun(c, run) && !c.defyQuota && RealRatio(c) && |run| == 4
    ensures run[2].active == Some(0) && |run[2].ts| == 1 && run[2].ts[0].used == -300000 && run[2].ts[0].quota == 1
    ensures |run[3].purges| == |run[2].purges| + 1 && WrapsOver(run[2].ts[0].used, run[2].ts[0].quota)
  {
    c := Heedless([[DataPath(FileRoot(1), FileRoot(300001))]]);
    TwoFiles(300001);
    RatioCanHideDeficit();
    assert CacheRatio(1, 1) == 10000;
    run := LoneRun(c, [FileItem(1), FileItem(300001)]);
  }
}
