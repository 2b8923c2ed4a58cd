/**
 * The eviction loop of freeCache as a state machine: each step is one turn of the loop that
 * "bounces" between trackers and purges from whichever is most over its quota.
 */
module Bounce {
  import opened Common
  import opened Fts
  import opened CacheItems
  import opened CacheItemFacts
  import opened CacheTrackers

  /** One item purged: whose it was, its arena index and its size. */
  datatype Purge = Purge(tracker: nat, item: nat, size: int)

  /**
   * `ratio` is how far a usage is over a quota; the loop depends on it only through comparisons.
   * `disk(k)` is what the k-th call of data_disk_free returns; any values are possible.
   * `paths[i]` is what tracker i finds when it loads its items.
   */
  datatype Config = Config(target: int, defyQuota: bool, defyTarget: bool, ratio: (int, int) -> int,
                           disk: nat -> int, paths: seq<seq<DataPath>>)

  /**
   * The state at the head of the loop. `purges`, `mark` and `readings` are history: every purge so
   * far, how many of them there were when free space was last read, and how often it was read.
   */
  datatype State = State(ts: seq<Tracker>, active: Option<nat>, queue: multiset<nat>, needed: int,
                         purges: seq<Purge>, mark: nat, readings: nat)

  function Ratio(c: Config, s: State, i: nat): int
    requires i < |s.ts|
  {
    c.ratio(s.ts[i].used, s.ts[i].quota)
  }

  /** All indices the state mentions are trackers. */
  predicate InRange(s: State) {
    && (s.active.Some? ==> s.active.value < |s.ts|)
    && (forall i :: i in s.queue ==> i < |s.ts|)
  }

  // ----- Stopping -----

  /** Nothing is left to try. */
  predicate Exhausted(s: State) {
    s.active.None? && s.queue == multiset{}
  }

  /** The active tracker is under its quota and that is to be respected. */
  predicate QuotaStop(c: Config, s: State)
    requires InRange(s)
  {
    s.active.Some? && Ratio(c, s, s.active.value) < OVER_QUOTA && !c.defyQuota
  }

  /** The purge just made was followed by a reading that meets the target. */
  predicate TargetMet(c: Config, s: State) {
    !c.defyTarget && s.purges != [] && s.mark == |s.purges| && s.needed <= 0
  }

  predicate Stopped(c: Config, s: State)
    requires InRange(s)
  {
    Exhausted(s) || QuotaStop(c, s) || TargetMet(c, s)
  }

  // ----- Steps -----

  /** Some queued tracker is more over its quota than the active one. */
  predicate NextBetter(c: Config, s: State)
    requires InRange(s)
  {
    s.active.Some? && exists k :: k in s.queue && Ratio(c, s, s.active.value) < Ratio(c, s, k)
  }

  /** The trackers in play: the queue after the active tracker, if any, has been put back. */
  function InPlay(s: State): multiset<nat> {
    if s.active.Some? then s.queue + multiset{s.active.value} else s.queue
  }

  ghost predicate Loads(t: Tracker, t': Tracker, paths: seq<DataPath>) {
    if t.loaded then t' == t
    else
      && t'.used == t.used && t'.quota == t.quota && t'.loaded
      && t'.arena == LoadedArena(paths) && PurgeOrder(t'.arena, t'.items)
  }

  /** The most over-quota tracker in play becomes active and has its items loaded. */
  ghost predicate Swaps(c: Config, s: State, s': State, k: nat)
    requires InRange(s)
  {
    && (s.active.None? || NextBetter(c, s))
    && k < |s.ts| == |c.paths| && k in InPlay(s)
    && (forall j :: j in InPlay(s) && j < |s.ts| ==> Ratio(c, s, j) <= Ratio(c, s, k))
    && |s'.ts| == |s.ts|
    && Loads(s.ts[k], s'.ts[k], c.paths[k])
    && s' == s.(ts := s.ts[k := s'.ts[k]], active := Some(k), queue := InPlay(s) - multiset{k})
  }

  /** An active tracker without items leaves play. */
  ghost predicate Drops(c: Config, s: State, s': State)
    requires InRange(s)
  {
    && s.active.Some? && !NextBetter(c, s)
    && s.ts[s.active.value].items == []
    && s' == s.(active := None)
  }

  /** The active tracker gives up its last item; free space is read again once it looks enough. */
  ghost predicate Purges(c: Config, s: State, s': State)
    requires InRange(s)
  {
    && s.active.Some? && !NextBetter(c, s)
    && var a := s.active.value;
    && var t := s.ts[a];
    && t.items != []
    && var k := t.items[|t.items| - 1];
    && k < |t.arena|
    && var size := t.arena[k].size;
    && var done := s.purges + [Purge(a, k, size)];
    && var ts := s.ts[a := t.(used := t.used - size, items := t.items[..|t.items| - 1])];
    && s' == if !c.defyTarget && s.needed - size <= 0
             then State(ts, s.active, s.queue, c.target - c.disk(s.readings), done, |done|, s.readings + 1)
             else State(ts, s.active, s.queue, s.needed - size, done, s.mark, s.readings)
  }

  ghost predicate Step(c: Config, s: State, s': State) {
    && InRange(s)
    && !Stopped(c, s)
    && ((exists k: nat :: Swaps(c, s, s', k)) || Drops(c, s, s') || Purges(c, s, s'))
  }

  /** The loop is entered with every tracker queued, nothing loaded and one reading taken. */
  ghost predicate Initial(c: Config, s: State) {
    && |s.ts| == |c.paths|
    && (forall i :: 0 <= i < |s.ts| ==> !s.ts[i].loaded && s.ts[i].arena == [] && s.ts[i].items == [])
    && s.active.None?
    && s.queue == multiset(Indices(|s.ts|))
    && s.needed == c.target - c.disk(0)
    && s.purges == [] && s.mark == 0 && s.readings == 1
  }

  ghost predicate StepAt(c: Config, run: seq<State>, i: nat) {
    i + 1 < |run| ==> Step(c, run[i], run[i + 1])
  }

  ghost predicate IsRun(c: Config, run: seq<State>) {
    && run != []
    && Initial(c, run[0])
    && forall i: nat :: StepAt(c, run, i)
  }

  // ----- Invariant -----

  /** The items purged from one tracker, the latest first. */
  function PurgedFrom(purges: seq<Purge>, i: nat): seq<nat>
    decreases |purges|
  {
    if purges == [] then []
    else
      var last := purges[|purges| - 1];
      (if last.tracker == i then [last.item] else []) + PurgedFrom(purges[..|purges| - 1], i)
  }

  function PurgedBytesOf(purges: seq<Purge>, i: nat): int
    decreases |purges|
  {
    if purges == [] then 0
    else
      var last := purges[|purges| - 1];
      (if last.tracker == i then last.size else 0) + PurgedBytesOf(purges[..|purges| - 1], i)
  }

  function PurgedBytes(purges: seq<Purge>): int
    decreases |purges|
  {
    if purges == [] then 0 else purges[|purges| - 1].size + PurgedBytes(purges[..|purges| - 1])
  }

  /**
   * A tracker's books: nothing happens to it before it is loaded; afterwards the items left,
   * followed by the items purged, latest first, are its sorted list, and its usage has gone down
   * by exactly what was purged.
   */
  ghost predicate Books(c: Config, t: Tracker, before: Tracker, purges: seq<Purge>, i: nat)
    requires i < |c.paths|
  {
    && t.quota == before.quota
    && t.used == before.used - PurgedBytesOf(purges, i)
    && (!t.loaded ==> t.arena == [] && t.items == [] && PurgedFrom(purges, i) == [])
    && (t.loaded ==> t.arena == LoadedArena(c.paths[i]) && PurgeOrder(t.arena, t.items + PurgedFrom(purges, i)))
  }

  predicate UsedUp(t: Tracker) {
    t.loaded && t.items == []
  }

  /** Every tracker is in play once, or it has been loaded and used up. */
  ghost predicate Placed(c: Config, s: State) {
    && |s.ts| == |c.paths|
    && InRange(s)
    && (forall i :: 0 <= i < |s.ts| ==> InPlay(s)[i] <= 1)
    && (forall i :: 0 <= i < |s.ts| ==> i in InPlay(s) || UsedUp(s.ts[i]))
    && (s.active.Some? ==> s.ts[s.active.value].loaded)
  }

  ghost predicate BooksAt(c: Config, s0: State, s: State, i: nat)
    requires |s.ts| == |s0.ts| == |c.paths|
  {
    i < |s.ts| ==> Books(c, s.ts[i], s0.ts[i], s.purges, i)
  }

  ghost predicate BooksKept(c: Config, s0: State, s: State) {
    && |s.ts| == |s0.ts| == |c.paths|
    && forall i: nat :: BooksAt(c, s0, s, i)
  }

  /** The estimate of what is still needed: the last reading, corrected by the purges since. */
  ghost predicate NeedKept(c: Config, s: State) {
    s.readings >= 1 && s.mark <= |s.purges| && s.needed == Estimate(c, s.readings - 1, s.purges[s.mark..])
  }

  function Estimate(c: Config, reading: nat, since: seq<Purge>): int {
    c.target - c.disk(reading) - PurgedBytes(since)
  }

  ghost predicate Inv(c: Config, s0: State, s: State) {
    Placed(c, s) && BooksKept(c, s0, s) && NeedKept(c, s)
  }

  lemma {:induction false} InitialInv(c: Config, s: State)
    requires Initial(c, s)
    ensures Inv(c, s, s)
  {
    IndicesOnce(|s.ts|);
    assert s.purges[s.mark..] == [];
    forall i: nat
      ensures BooksAt(c, s, s, i)
    {
    }
  }

  lemma IndicesOnce(n: nat)
    ensures forall i :: 0 <= i < n ==> multiset(Indices(n))[i] == 1
    ensures forall i :: i in multiset(Indices(n)) ==> i < n
  {
  }

  lemma {:induction false} SwapPlaced(c: Config, s: State, s': State, k: nat)
    requires Placed(c, s) && Swaps(c, s, s', k)
    ensures Placed(c, s') && InPlay(s') == InPlay(s)
  {
    assert s'.ts[k].loaded && (UsedUp(s.ts[k]) ==> s'.ts[k] == s.ts[k]);
    ActivatePlaced(c, s, s', k, s'.ts[k]);
  }

  lemma {:induction false} ActivatePlaced(c: Config, s: State, s': State, k: nat, t: Tracker)
    requires Placed(c, s) && k < |s.ts| && k in InPlay(s)
    requires t.loaded && (UsedUp(s.ts[k]) ==> t == s.ts[k])
    requires s' == s.(ts := s.ts[k := t], active := Some(k), queue := InPlay(s) - multiset{k})
    ensures Placed(c, s') && InPlay(s') == InPlay(s)
  {
    assert InPlay(s') == InPlay(s);
    assert forall i :: i in s'.queue ==> i in InPlay(s);
  }

  lemma LoadBooks(c: Config, t: Tracker, t': Tracker, before: Tracker, purges: seq<Purge>, i: nat)
    requires i < |c.paths| && Books(c, t, before, purges, i) && Loads(t, t', c.paths[i])
    ensures Books(c, t', before, purges, i)
  {
    assert t'.items + [] == t'.items;
  }

  lemma {:induction false} SwapBooks(c: Config, s0: State, s: State, s': State, k: nat)
    requires InRange(s) && BooksKept(c, s0, s) && Swaps(c, s, s', k)
    ensures BooksKept(c, s0, s')
  {
    forall i: nat
      ensures BooksAt(c, s0, s', i)
    {
      assert BooksAt(c, s0, s, i);
      if i == k {
        LoadBooks(c, s.ts[k], s'.ts[k], s0.ts[k], s.purges, k);
      }
    }
  }

  lemma {:induction false} DropPlaced(c: Config, s: State, s': State)
    requires Placed(c, s) && Drops(c, s, s')
    ensures Placed(c, s') && InPlay(s) == InPlay(s') + multiset{s.active.value}
  {
    assert InPlay(s) == InPlay(s') + multiset{s.active.value};
    forall i | 0 <= i < |s'.ts|
      ensures i in InPlay(s') || UsedUp(s'.ts[i])
    {
      assert i in InPlay(s) || UsedUp(s.ts[i]);
    }
  }

  lemma {:induction false} PurgePlaced(c: Config, s: State, s': State)
    requires Placed(c, s) && Purges(c, s, s')
    ensures Placed(c, s') && InPlay(s') == InPlay(s)
  {
    var a := s.active.value;
    forall i | 0 <= i < |s'.ts|
      ensures i in InPlay(s') || UsedUp(s'.ts[i])
    {
      assert i != a ==> s'.ts[i] == s.ts[i];
    }
  }

  lemma {:induction false} PurgedSnoc(purges: seq<Purge>, p: Purge, i: nat)
    ensures PurgedFrom(purges + [p], i) == (if p.tracker == i then [p.item] else []) + PurgedFrom(purges, i)
    ensures PurgedBytesOf(purges + [p], i) == (if p.tracker == i then p.size else 0) + PurgedBytesOf(purges, i)
  {
    assert (purges + [p])[..|purges|] == purges;
  }

  /** What a purge does to the books of the tracker it comes from. */
  lemma {:induction false} PurgeBooksOf(c: Config, t: Tracker, before: Tracker, purges: seq<Purge>, i: nat)
    requires i < |c.paths| && Books(c, t, before, purges, i)
    requires t.items != [] && t.items[|t.items| - 1] < |t.arena|
    ensures var k := t.items[|t.items| - 1];
            var size := t.arena[k].size;
            Books(c, t.(used := t.used - size, items := t.items[..|t.items| - 1]), before,
                  purges + [Purge(i, k, size)], i)
  {
    var k, gone := t.items[|t.items| - 1], PurgedFrom(purges, i);
    var done, rest := purges + [Purge(i, k, t.arena[k].size)], t.items[..|t.items| - 1];
    assert PurgedFrom(done, i) == [k] + gone &&
           PurgedBytesOf(done, i) == t.arena[k].size + PurgedBytesOf(purges, i) by {
      PurgedSnoc(purges, Purge(i, k, t.arena[k].size), i);
    }
    assert rest + PurgedFrom(done, i) == t.items + gone by {
      MoveLast(t.items, gone);
    }
  }

  lemma MoveLast(items: seq<nat>, gone: seq<nat>)
    requires items != []
    ensures items[..|items| - 1] + ([items[|items| - 1]] + gone) == items + gone
  {
  }

  lemma {:induction false} PurgeBooksOther(c: Config, t: Tracker, before: Tracker, purges: seq<Purge>, p: Purge, i: nat)
    requires i < |c.paths| && Books(c, t, before, purges, i) && p.tracker != i
    ensures Books(c, t, before, purges + [p], i)
  {
    PurgedSnoc(purges, p, i);
    assert PurgedFrom(purges + [p], i) == PurgedFrom(purges, i);
  }

  lemma {:induction false} PurgeBooks(c: Config, s0: State, s: State, s': State)
    requires InRange(s) && BooksKept(c, s0, s) && Purges(c, s, s')
    ensures BooksKept(c, s0, s')
  {
    var a := s.active.value;
    forall i: nat
      ensures BooksAt(c, s0, s', i)
    {
      assert BooksAt(c, s0, s, i);
      if i == a {
        PurgeBooksOf(c, s.ts[a], s0.ts[a], s.purges, a);
      } else if i < |s.ts| {
        PurgeBooksOther(c, s.ts[i], s0.ts[i], s.purges, s'.purges[|s.purges|], i);
      }
    }
  }

  lemma {:induction false} SameNeed(c: Config, s: State, s': State)
    requires NeedKept(c, s)
    requires s'.needed == s.needed && s'.purges == s.purges && s'.mark == s.mark && s'.readings == s.readings
    ensures NeedKept(c, s')
  {
  }

  lemma {:induction false} PurgeNeed(c: Config, s: State, s': State, p: Purge)
    requires NeedKept(c, s) && s'.purges == s.purges + [p]
    requires if s'.mark == s.mark then s'.needed == s.needed - p.size && s'.readings == s.readings
             else s'.mark == |s'.purges| && s'.readings == s.readings + 1 && s'.needed == c.target - c.disk(s.readings)
    ensures NeedKept(c, s')
  {
    if s'.mark == s.mark {
      assert s'.purges[s.mark..] == s.purges[s.mark..] + [p];
      BytesSnoc(s.purges[s.mark..], p);
    } else {
      assert s'.purges[s'.mark..] == [];
    }
  }

  lemma BytesSnoc(purges: seq<Purge>, p: Purge)
    ensures PurgedBytes(purges + [p]) == PurgedBytes(purges) + p.size
  {
    assert (purges + [p])[..|purges|] == purges;
  }

  lemma {:induction false} SwapInv(c: Config, s0: State, s: State, s': State, k: nat)
    requires Inv(c, s0, s) && Swaps(c, s, s', k)
    ensures Inv(c, s0, s')
  {
    SwapPlaced(c, s, s', k);
    SwapBooks(c, s0, s, s', k);
    SameNeed(c, s, s');
  }

  lemma {:induction false} DropInv(c: Config, s0: State, s: State, s': State)
    requires Inv(c, s0, s) && Drops(c, s, s')
    ensures Inv(c, s0, s')
  {
    DropPlaced(c, s, s');
    SameNeed(c, s, s');
    forall i: nat
      ensures BooksAt(c, s0, s', i)
    {
      assert BooksAt(c, s0, s, i);
    }
  }

  lemma {:induction false} PurgeInv(c: Config, s0: State, s: State, s': State)
    requires Inv(c, s0, s) && Purges(c, s, s')
    ensures Inv(c, s0, s')
  {
    PurgePlaced(c, s, s');
    PurgeBooks(c, s0, s, s');
    PurgeNeed(c, s, s', s'.purges[|s.purges|]);
  }

  lemma {:induction false} StepInv(c: Config, s0: State, s: State, s': State)
    requires Inv(c, s0, s) && Step(c, s, s')
    ensures Inv(c, s0, s')
  {
    if k: nat :| Swaps(c, s, s', k) {
      SwapInv(c, s0, s, s', k);
    } else if Drops(c, s, s') {
      DropInv(c, s0, s, s');
    } else {
      PurgeInv(c, s0, s, s');
    }
  }

  lemma {:induction false} ExtendRun(c: Config, run: seq<State>, s: State)
    requires IsRun(c, run) && Step(c, run[|run| - 1], s)
    ensures IsRun(c, run + [s])
  {
    var run' := run + [s];
    forall i: nat
      ensures StepAt(c, run', i)
    {
      assert StepAt(c, run, i);
    }
  }

  /** At every loop head of every run the invariant holds. */
  lemma {:induction false} RunInv(c: Config, run: seq<State>, n: nat)
    requires IsRun(c, run) && n < |run|
    ensures Inv(c, run[0], run[n])
    decreases n
  {
    if n == 0 {
      InitialInv(c, run[0]);
    } else {
      RunInv(c, run, n - 1);
      assert StepAt(c, run, n - 1);
      StepInv(c, run[0], run[n - 1], run[n]);
    }
  }

  // ----- Termination -----

  /** Items a tracker has left, counting those it has not loaded yet. */
  ghost function Left(t: Tracker, paths: seq<DataPath>): nat {
    if t.loaded then |t.items| else |LoadedArena(paths)|
  }

  ghost function LeftIn(ts: seq<Tracker>, paths: seq<seq<DataPath>>): nat
    requires |ts| == |paths|
  {
    if ts == [] then 0 else Left(ts[0], paths[0]) + LeftIn(ts[1..], paths[1..])
  }

  lemma {:induction false} LeftUpdate(ts: seq<Tracker>, paths: seq<seq<DataPath>>, i: nat, t: Tracker)
    requires |ts| == |paths| && i < |ts|
    ensures LeftIn(ts[i := t], paths) == LeftIn(ts, paths) - Left(ts[i], paths[i]) + Left(t, paths[i])
  {
    if i == 0 {
      assert ts[i := t][1..] == ts[1..];
    } else {
      assert ts[i := t][1..] == ts[1..][i - 1 := t];
      LeftUpdate(ts[1..], paths[1..], i - 1, t);
    }
  }

  lemma LoadKeepsLeft(t: Tracker, t': Tracker, paths: seq<DataPath>)
    requires Loads(t, t', paths)
    ensures Left(t', paths) == Left(t, paths)
  {
  }

  /** The active tracker has to be chosen anew. */
  predicate Choosing(c: Config, s: State)
    requires InRange(s)
  {
    s.active.None? || NextBetter(c, s)
  }

  /** Bounds the turns still to come: two for each item left and for each tracker in play. */
  ghost function TurnsLeft(c: Config, s: State): nat
    requires InRange(s) && |s.ts| == |c.paths|
  {
    2 * (LeftIn(s.ts, c.paths) + |InPlay(s)|) + if Choosing(c, s) then 1 else 0
  }

  lemma {:induction false} SwapSettles(c: Config, s: State, s': State, k: nat)
    requires InRange(s) && Swaps(c, s, s', k) && InRange(s')
    ensures !Choosing(c, s')
  {
    forall j | j in s'.queue
      ensures Ratio(c, s', j) <= Ratio(c, s', k)
    {
      assert j in InPlay(s);
      assert s.ts[k].used == s'.ts[k].used && s.ts[k].quota == s'.ts[k].quota;
    }
  }

  lemma {:induction false} StepProgress(c: Config, s: State, s': State)
    requires Placed(c, s) && Step(c, s, s')
    ensures Placed(c, s') && TurnsLeft(c, s') < TurnsLeft(c, s)
  {
    if Drops(c, s, s') {
      DropPlaced(c, s, s');
    } else if Purges(c, s, s') {
      PurgePlaced(c, s, s');
      LeftUpdate(s.ts, c.paths, s.active.value, s'.ts[s.active.value]);
    } else {
      var k: nat :| Swaps(c, s, s', k);
      SwapPlaced(c, s, s', k);
      SwapSettles(c, s, s', k);
      LeftUpdate(s.ts, c.paths, k, s'.ts[k]);
      LoadKeepsLeft(s.ts[k], s'.ts[k], c.paths[k]);
    }
  }

  lemma {:induction false} RunPlaced(c: Config, run: seq<State>, n: nat)
    requires IsRun(c, run) && n < |run|
    ensures Placed(c, run[n])
  {
    RunInv(c, run, n);
  }

  /**
   * The loop ends: whatever the readings, it makes at most two turns for each item and each
   * tracker, and one more.
   */
  lemma {:induction false} RunsAreShort(c: Config, run: seq<State>)
    requires IsRun(c, run)
    ensures |run[0].ts| == |c.paths|
    ensures |run| - 1 <= 2 * (LeftIn(run[0].ts, c.paths) + |run[0].ts|) + 1
  {
    var n := |run| - 1;
    RunPlaced(c, run, 0);
    RunPlaced(c, run, n);
    TurnsUsed(c, run, n);
    IndicesAre(|run[0].ts|);
    assert InPlay(run[0]) == run[0].queue;
  }

  lemma {:induction false} ProgressAt(c: Config, run: seq<State>, n: nat)
    requires IsRun(c, run) && n + 1 < |run|
    ensures Placed(c, run[n]) && Placed(c, run[n + 1]) && TurnsLeft(c, run[n + 1]) < TurnsLeft(c, run[n])
  {
    RunPlaced(c, run, n);
    assert StepAt(c, run, n);
    StepProgress(c, run[n], run[n + 1]);
  }

  lemma {:induction false} TurnsUsed(c: Config, run: seq<State>, n: nat)
    requires IsRun(c, run) && n < |run|
    requires Placed(c, run[0]) && Placed(c, run[n])
    ensures n + TurnsLeft(c, run[n]) <= TurnsLeft(c, run[0])
    decreases n
  {
    if n > 0 {
      ProgressAt(c, run, n - 1);
      TurnsUsed(c, run, n - 1);
    }
  }

  // ----- What the loop promises -----

  /** A purge takes the last item of the active tracker, whose ratio no waiting one exceeds. */
  lemma {:induction false} PurgeTakesLast(c: Config, s: State, s': State)
    requires Step(c, s, s') && |s'.purges| > |s.purges|
    ensures s.active.Some?
    ensures forall j :: j in s.queue ==> Ratio(c, s, j) <= Ratio(c, s, s.active.value)
    ensures !c.defyQuota ==> Ratio(c, s, s.active.value) >= OVER_QUOTA
    ensures s'.purges[..|s.purges|] == s.purges && s'.purges[|s.purges|].tracker == s.active.value
    ensures |s'.ts| == |s.ts|
    ensures s.ts[s.active.value].items == s'.ts[s.active.value].items + [s'.purges[|s.purges|].item]
  {
    assert Purges(c, s, s');
  }

  /** The loop compares trackers by getCacheRatio. */
  ghost predicate RealRatio(c: Config) {
    forall used, quota :: c.ratio(used, quota) == CacheRatio(used, quota)
  }

  /**
   * Every purge is fair: a tracker is purged only if no waiting one has used a larger share of its
   * quota, up to a hundredth of a percent. Usages below zero and, for those waiting, shares too
   * large for a ratio are excepted.
   */
  lemma {:induction false} PurgesAreFair(c: Config, s: State, s': State, j: nat)
    requires Step(c, s, s') && |s'.purges| > |s.purges| && RealRatio(c) && j in s.queue
    ensures s.active.Some? && j < |s.ts|
    ensures var t, w := s.ts[s.active.value], s.ts[j];
            0 <= t.used && 0 < t.quota && FitsRatio(w.used, w.quota) ==>
              10000 * w.used * t.quota < (10000 * t.used + t.quota) * w.quota
  {
    PurgeTakesLast(c, s, s');
    var t, w := s.ts[s.active.value], s.ts[j];
    assert CacheRatio(w.used, w.quota) <= CacheRatio(t.used, t.quota) by {
      assert Ratio(c, s, j) <= Ratio(c, s, s.active.value);
    }
    if 0 <= t.used && 0 < t.quota && FitsRatio(w.used, w.quota) {
      RatioOrdersShares(w.used, w.quota, t.used, t.quota);
    }
  }

  /**
   * With the real ratio: no tracker is purged below its quota unless that is asked for, or unless
   * its usage has become so negative that the ratio wraps around.
   */
  lemma {:induction false} PurgesAreOverQuota(c: Config, s: State, s': State)
    requires Step(c, s, s') && |s'.purges| > |s.purges| && !c.defyQuota && RealRatio(c)
    ensures s.active.Some?
    ensures var t := s.ts[s.active.value];
            0 <= t.quota ==> 0 < t.quota && (t.used >= t.quota || WrapsOver(t.used, t.quota))
  {
    PurgeTakesLast(c, s, s');
    var t := s.ts[s.active.value];
    assert CacheRatio(t.used, t.quota) == Ratio(c, s, s.active.value);
    if 0 < t.quota {
      if 0 <= t.used {
        RatioMeetsQuota(t.used, t.quota);
      } else {
        RatioOfDeficit(t.used, t.quota);
      }
    }
  }

  /**
   * An item is purged before every directory item above it: those are still in the list after
   * the purge, so the pointers that give the item its path are alive.
   */
  lemma {:induction false} PurgesLeaveAncestors(c: Config, run: seq<State>, n: nat, p: nat)
    requires IsRun(c, run) && n + 1 < |run| && |run[n + 1].purges| > |run[n].purges|
    requires var done := run[n + 1].purges[|run[n].purges|];
             && done.tracker < |run[n].ts| && done.item < |run[n].ts[done.tracker].arena|
             && Ancestor(run[n].ts[done.tracker].arena, p, done.item)
    ensures var a := run[n + 1].purges[|run[n].purges|].tracker;
            a < |run[n + 1].ts| && p in run[n + 1].ts[a].items
  {
    var s, s' := run[n], run[n + 1];
    assert StepAt(c, run, n);
    PurgeTakesLast(c, s, s');
    var a := s.active.value;
    var t, gone := s.ts[a], PurgedFrom(s.purges, a);
    assert PurgeOrder(t.arena, t.items + gone) && WellParented(t.arena) by {
      RunInv(c, run, n);
      assert BooksAt(c, run[0], s, a);
      LoadedWellParented(c.paths[a]);
    }
    AncestorsOutlive(t.arena, t.items + gone, |t.items| - 1, p);
    assert (t.items + gone)[..|t.items| - 1] == s'.ts[a].items;
  }

  /** The last reading of free space was taken after the last purge, and it meets the target. */
  ghost predicate ReadingMeetsTarget(c: Config, s: State) {
    !c.defyTarget && s.purges != [] && s.mark == |s.purges| && s.readings >= 1 && c.disk(s.readings - 1) >= c.target
  }

  /** Every tracker has loaded its items and purged all of them, in its purge order. */
  ghost predicate AllPurged(s: State) {
    forall i :: 0 <= i < |s.ts| ==> UsedUp(s.ts[i]) && PurgeOrder(s.ts[i].arena, PurgedFrom(s.purges, i))
  }

  /** Quotas are to be respected and the active tracker has a ratio below that of a full quota. */
  ghost predicate ActiveUnder(c: Config, s: State) {
    && !c.defyQuota && s.active.Some? && s.active.value < |s.ts|
    && c.ratio(s.ts[s.active.value].used, s.ts[s.active.value].quota) < 10000
  }

  /**
   * When the loop ends, a reading taken after the last purge meets the target, or every item of
   * every tracker is gone, or quotas are respected and the active tracker is under its own.
   */
  lemma {:induction false} EndStates(c: Config, run: seq<State>)
    requires IsRun(c, run) && InRange(run[|run| - 1]) && Stopped(c, run[|run| - 1])
    ensures var s := run[|run| - 1];
            ReadingMeetsTarget(c, s) || AllPurged(s) || ActiveUnder(c, s)
  {
    RunInv(c, run, |run| - 1);
    StoppedStates(c, run[0], run[|run| - 1]);
  }

  lemma {:induction false} StoppedStates(c: Config, s0: State, s: State)
    requires Placed(c, s) && BooksKept(c, s0, s) && NeedKept(c, s) && Stopped(c, s)
    ensures ReadingMeetsTarget(c, s) || AllPurged(s) || ActiveUnder(c, s)
  {
    if TargetMet(c, s) {
      MetByReading(c, s);
    } else if Exhausted(s) {
      ExhaustedIsPurged(c, s0, s);
    }
  }

  lemma {:induction false} ExhaustedIsPurged(c: Config, s0: State, s: State)
    requires Placed(c, s) && BooksKept(c, s0, s) && Exhausted(s)
    ensures AllPurged(s)
  {
    forall i | 0 <= i < |s.ts|
      ensures UsedUp(s.ts[i]) && PurgeOrder(s.ts[i].arena, PurgedFrom(s.purges, i))
    {
      UsedUpBooks(c, s0, s, i);
    }
  }

  lemma {:induction false} MetByReading(c: Config, s: State)
    requires NeedKept(c, s) && s.mark == |s.purges| && s.needed <= 0
    ensures c.disk(s.readings - 1) >= c.target
  {
    assert s.purges[s.mark..] == [];
  }

  lemma {:induction false} UsedUpBooks(c: Config, s0: State, s: State, i: nat)
    requires Placed(c, s) && BooksKept(c, s0, s) && Exhausted(s) && i < |s.ts|
    ensures UsedUp(s.ts[i]) && PurgeOrder(s.ts[i].arena, PurgedFrom(s.purges, i))
  {
    assert i !in InPlay(s);
    assert BooksAt(c, s0, s, i);
    assert s.ts[i].items + PurgedFrom(s.purges, i) == PurgedFrom(s.purges, i);
  }

  /**
   * The quota check looks at the active tracker only. If it ends the loop while some waiting
   * tracker is still over quota, the turn before was a purge that took the active tracker under.
   */
  lemma {:induction false} EarlyQuotaStop(c: Config, s: State, s': State, j: nat)
    requires Placed(c, s) && Step(c, s, s') && InRange(s') && QuotaStop(c, s')
    requires j in s'.queue && Ratio(c, s', j) >= OVER_QUOTA
    ensures s.active == s'.active && |s'.purges| == |s.purges| + 1
    ensures Ratio(c, s, s.active.value) >= Ratio(c, s', j) > Ratio(c, s', s.active.value)
  {
    if k: nat :| Swaps(c, s, s', k) {
      SwapSettles(c, s, s', k);
    }
    var a := s.active.value;
    assert InPlay(s)[a] <= 1;
    assert j != a;
  }
}
