/**
 * CacheTracker: one UID's cache. Items are loaded at most once, sorted so that the next item to
 * purge is the last one, and counted against the UID's quota.
 */
module CacheTrackers {
  import opened Common
  import opened Fts
  import opened CacheItems
  import opened CacheItemFacts

  /** A directory handed to loadItemsFrom; without a tree there is nothing to open. */
  datatype Root = Root(path: string, tree: Option<Node>)

  /** One app data directory: its `cache` and `code_cache` directories. */
  datatype DataPath = DataPath(cache: Root, codeCache: Root)

  /** A tracker's fields at one moment. */
  datatype Tracker = Tracker(used: int, quota: int, loaded: bool, arena: Arena, items: seq<nat>)

  // ----- getCacheRatio -----

  /** CacheTracker::getCacheRatio: hundredths of a percent of the quota, narrowed to `int`. */
  function CacheRatio(used: int, quota: int): int {
    if quota == 0 then 0 else Narrow32(TruncDiv(used * 10000, quota))
  }

  const OVER_QUOTA := 10000

  function Abs(x: int): nat {
    if x < 0 then -x else x
  }

  /** q is a divided by b, without the fraction. */
  predicate IsQuotient(a: int, b: int, q: int) {
    && Abs(b) * Abs(q) <= Abs(a) < Abs(b) * (Abs(q) + 1)
    && (q != 0 ==> (q > 0 <==> (a > 0 <==> b > 0)))
  }

  lemma {:induction false} QuotientIsUnique(a: nat, b: nat, q: nat)
    requires 0 < b && b * q <= a < b * (q + 1)
    ensures a / b == q
  {
    QuotientThreshold(a, b, q);
    QuotientThreshold(a, b, q + 1);
  }

  lemma {:induction false} TruncatedIsUnique(a: int, b: int, q: int)
    requires b != 0 && IsQuotient(a, b, q)
    ensures TruncDiv(a, b) == q
  {
    QuotientIsUnique(Abs(a), Abs(b), Abs(q));
  }

  lemma {:induction false} NarrowedIsCongruent(x: int)
    ensures (Narrow32(x) - x) % 0x1_0000_0000 == 0 && -0x8000_0000 <= Narrow32(x) < 0x8000_0000
  {
    var d := x / 0x1_0000_0000;
    assert x == d * 0x1_0000_0000 + x % 0x1_0000_0000;
    assert Narrow32(x) - x == -d * 0x1_0000_0000 || Narrow32(x) - x == (-d - 1) * 0x1_0000_0000;
  }

  /**
   * The ratio is 10000 times the usage, divided by the quota without the fraction, and reduced to 32
   * bits; without a quota it is 0.
   */
  lemma {:induction false} RatioIsQuotient(used: int, quota: int, q: int)
    requires quota != 0 && IsQuotient(used * 10000, quota, q)
    ensures (CacheRatio(used, quota) - q) % 0x1_0000_0000 == 0
    ensures -0x8000_0000 <= CacheRatio(used, quota) < 0x8000_0000
    ensures CacheRatio(used, 0) == 0
  {
    TruncatedIsUnique(used * 10000, quota, q);
    NarrowedIsCongruent(q);
  }

  /** The ratio of this usage is not changed by the narrowing. */
  predicate FitsRatio(used: int, quota: int) {
    0 <= used && 0 < quota && used * 10000 < quota * 0x8000_0000
  }

  /** What fits is reported in hundredths of a percent, rounded down. */
  lemma {:induction false} RatioIsShare(used: int, quota: int)
    requires FitsRatio(used, quota)
    ensures quota * CacheRatio(used, quota) <= used * 10000 < quota * (CacheRatio(used, quota) + 1)
    ensures 0 <= CacheRatio(used, quota)
  {
    QuotientThreshold(used * 10000, quota, 0x8000_0000);
    var q := used * 10000 / quota;
    assert quota * q <= used * 10000 < quota * q + quota;
    assert quota * (q + 1) == quota * q + quota;
  }

  /** No usage is reported as more than it is. */
  lemma {:induction false} RatioIsAtMost(used: int, quota: int)
    requires 0 <= used && 0 < quota
    ensures quota * CacheRatio(used, quota) <= used * 10000
  {
    var q := used * 10000 / quota;
    QuotientThreshold(used * 10000, quota, 0);
    assert CacheRatio(used, quota) <= q;
    MulMonotone(quota, CacheRatio(used, quota), q);
    assert quota * q <= used * 10000;
  }

  /** A smaller share of its quota is not reported as more than a larger one. */
  lemma {:induction false} RatioIsMonotone(used1: int, quota1: int, used2: int, quota2: int)
    requires FitsRatio(used1, quota1) && FitsRatio(used2, quota2)
    requires used1 * quota2 <= used2 * quota1
    ensures CacheRatio(used1, quota1) <= CacheRatio(used2, quota2)
  {
    var r1, r2 := CacheRatio(used1, quota1), CacheRatio(used2, quota2);
    RatioIsShare(used1, quota1);
    RatioIsShare(used2, quota2);
    if r2 + 1 <= r1 {
      SharesApart(10000 * used2, quota2, 10000 * used1, quota1, r2 + 1, r1);
    }
  }

  /** Of two numbers measured in units of their own, the one below r units is the smaller share. */
  lemma {:induction false} SharesApart(x: int, unit1: int, y: int, unit2: int, r1: int, r2: int)
    requires 0 < unit1 && 0 < unit2 && r1 <= r2 && x < unit1 * r1 && unit2 * r2 <= y
    ensures x * unit2 < y * unit1
  {
    var p := unit1 * unit2;
    assert x * unit2 < p * r1 by {
      assert (unit1 * r1 - x) * unit2 > 0;
    }
    assert p * r2 <= y * unit1 by {
      assert (y - unit2 * r2) * unit1 >= 0;
    }
    MulMonotone(p, r1, r2);
  }

  /**
   * What a ratio no larger says of the shares: the first exceeds the second by less than a hundredth
   * of a percent.
   */
  lemma {:induction false} RatioOrdersShares(used1: int, quota1: int, used2: int, quota2: int)
    requires FitsRatio(used1, quota1) && 0 <= used2 && 0 < quota2
    requires CacheRatio(used1, quota1) <= CacheRatio(used2, quota2)
    ensures 10000 * used1 * quota2 < (10000 * used2 + quota2) * quota1
  {
    var r1, r2 := CacheRatio(used1, quota1), CacheRatio(used2, quota2);
    RatioIsShare(used1, quota1);
    RatioIsAtMost(used2, quota2);
    assert quota2 * (r2 + 1) == quota2 * r2 + quota2;
    SharesApart(10000 * used1, quota1, 10000 * used2 + quota2, quota2, r1 + 1, r2 + 1);
  }

  /**
   * A non-negative usage is never reported as over quota while it is below the quota, whatever
   * the narrowing does; a usage at or above the quota is reported as such exactly when the
   * narrowed quotient is at least 10000, in particular whenever the quotient fits an `int`.
   */
  lemma RatioMeetsQuota(used: int, quota: int)
    requires 0 <= used && 0 < quota
    ensures CacheRatio(used, quota) >= OVER_QUOTA ==> used >= quota
    ensures used * 10000 / quota < 0x8000_0000 ==> (CacheRatio(used, quota) >= OVER_QUOTA <==> used >= quota)
    ensures used >= quota ==>
              (CacheRatio(used, quota) >= OVER_QUOTA <==>
               10000 <= (used * 10000 / quota) % 0x1_0000_0000 < 0x8000_0000)
  {
    var q := used * 10000 / quota;
    QuotientThreshold(used * 10000, quota, 10000);
    assert quota * 10000 <= used * 10000 <==> quota <= used;
  }

  lemma QuotientThreshold(a: int, b: int, c: int)
    requires 0 <= a && 0 < b && 0 <= c
    ensures 0 <= a / b
    ensures a / b >= c <==> a >= b * c
  {
    var q := a / b;
    assert b * q <= a < b * q + b;
    if q >= c {
      MulMonotone(b, c, q);
    } else {
      MulMonotone(b, q + 1, c);
      assert b * (q + 1) == b * q + b;
    }
  }

  lemma MulMonotone(b: int, x: int, y: int)
    requires 0 < b && x <= y
    ensures b * x <= b * y
  {
  }

  /** The narrowing does hide some trackers that are over quota. */
  lemma RatioCanHideOveruse()
    ensures 300000 >= 1 && CacheRatio(300000, 1) < OVER_QUOTA
  {
    assert TruncDiv(300000 * 10000, 1) == 3000000000;
  }

  /**
   * The subtraction of purged sizes can take a usage below zero. Such a usage is reported as over
   * quota exactly when the magnitude of the quotient, taken modulo 2^32, is in the range given, and
   * never while the magnitude is at most 2^31.
   */
  lemma RatioOfDeficit(used: int, quota: int)
    requires used < 0 < quota
    ensures CacheRatio(used, quota) >= OVER_QUOTA <==> WrapsOver(used, quota)
    ensures -used * 10000 / quota <= 0x8000_0000 ==> !WrapsOver(used, quota)
  {
    var m := -used * 10000 / quota;
    assert TruncDiv(used * 10000, quota) == -m by {
      assert -(used * 10000) == -used * 10000;
    }
    NegatedModulo(m);
  }

  /** A deficit so large that the narrowed ratio comes out as over quota. */
  predicate WrapsOver(used: int, quota: int) {
    used < 0 < quota && 0x8000_0000 < (-used * 10000 / quota) % 0x1_0000_0000 <= 0x1_0000_0000 - OVER_QUOTA
  }

  lemma NegatedModulo(m: int)
    requires m >= 0
    ensures -m % 0x1_0000_0000 == if m % 0x1_0000_0000 == 0 then 0 else 0x1_0000_0000 - m % 0x1_0000_0000
  {
  }

  /** Such a deficit. */
  lemma RatioCanHideDeficit()
    ensures CacheRatio(-300000, 1) == 1294967296 && WrapsOver(-300000, 1)
  {
    assert TruncDiv(-300000 * 10000, 1) == -3000000000;
  }

  // ----- The sort -----

  /** The comparator of CacheTracker::loadItems. */
  predicate Before(left: CacheItem, right: CacheItem) {
    if left.modified != right.modified then left.modified > right.modified
    else if left.level != right.level then left.level < right.level
    else left.directory
  }

  /** The order the comparator means: newest first, and shallow before deep among equals. */
  predicate NotAfter(left: CacheItem, right: CacheItem) {
    left.modified > right.modified || (left.modified == right.modified && left.level <= right.level)
  }

  /**
   * The comparator is not a strict order: it puts two items before each other exactly when both
   * are directories with equal modification time and level. It never contradicts `NotAfter`.
   */
  lemma ComparatorOrder(a: CacheItem, b: CacheItem)
    ensures Before(a, b) && Before(b, a) <==>
            a.modified == b.modified && a.level == b.level && a.directory && b.directory
    ensures Before(a, a) <==> a.directory
    ensures Before(a, b) ==> NotAfter(a, b)
    ensures !Before(a, b) ==> NotAfter(b, a)
  {
  }

  predicate InOrder(arena: Arena, items: seq<nat>, i: int, j: int)
    requires forall k :: 0 <= k < |items| ==> items[k] < |arena|
  {
    0 <= i < j < |items| ==> NotAfter(arena[items[i]], arena[items[j]])
  }

  ghost predicate Sorted(arena: Arena, items: seq<nat>) {
    && (forall i :: 0 <= i < |items| ==> items[i] < |arena|)
    && (forall i, j :: InOrder(arena, items, i, j))
  }

  function Indices(n: nat): seq<nat> {
    if n == 0 then [] else Indices(n - 1) + [n - 1]
  }

  lemma IndicesAre(n: nat)
    ensures |Indices(n)| == n
    ensures forall i :: 0 <= i < n ==> Indices(n)[i] == i
  {
  }

  /** Every item of the arena exactly once, in an order the sort may produce. */
  ghost predicate PurgeOrder(arena: Arena, items: seq<nat>) {
    && Sorted(arena, items)
    && |items| == |arena|
    && (forall x :: 0 <= x < |arena| ==> x in items)
  }

  /** The comparator does not put the right item, and it alone, first: on ties, directories come before files. */
  predicate InRank(left: CacheItem, right: CacheItem) {
    Before(left, right) || !Before(right, left)
  }

  predicate RankedAt(arena: Arena, items: seq<nat>, i: int, j: int)
    requires forall k :: 0 <= k < |items| ==> items[k] < |arena|
  {
    0 <= i < j < |items| ==> InRank(arena[items[i]], arena[items[j]])
  }

  ghost predicate Ranked(arena: Arena, items: seq<nat>) {
    && (forall i :: 0 <= i < |items| ==> items[i] < |arena|)
    && (forall i, j :: RankedAt(arena, items, i, j))
  }

  lemma RankIsTransitive(a: CacheItem, b: CacheItem, c: CacheItem)
    requires InRank(a, b) && InRank(b, c)
    ensures InRank(a, c)
  {
  }

  /** One item comes before another in a list. */
  ghost predicate Precedes(items: seq<nat>, x: nat, y: nat) {
    exists i, j :: 0 <= i < j < |items| && items[i] == x && items[j] == y
  }

  method InsertItem(arena: Arena, items: seq<nat>, x: nat) returns (r: seq<nat>)
    requires x < |arena| && Sorted(arena, items) && Ranked(arena, items)
    ensures Sorted(arena, r) && Ranked(arena, r)
    ensures multiset(r) == multiset(items) + multiset{x}
    ensures forall y, z :: Precedes(items, y, z) ==> Precedes(r, y, z)
    ensures forall y :: y in items && !Before(arena[x], arena[y]) ==> Precedes(r, y, x)
  {
    var p := |items|;
    while p > 0 && Before(arena[x], arena[items[p - 1]])
      invariant 0 <= p <= |items|
      invariant forall i :: p <= i < |items| ==> Before(arena[x], arena[items[i]])
    {
      p := p - 1;
    }
    r := items[..p] + [x] + items[p..];
    assert items == items[..p] + items[p..];
    InsertKeepsOrder(arena, items, x, p, r);
    InsertKeepsRank(arena, items, x, p, r);
    InsertKeepsPlaces(arena, items, x, p, r);
  }

  lemma InsertKeepsRank(arena: Arena, items: seq<nat>, x: nat, p: nat, r: seq<nat>)
    requires x < |arena| && Ranked(arena, items) && p <= |items|
    requires p > 0 ==> InRank(arena[items[p - 1]], arena[x])
    requires forall i :: p <= i < |items| ==> InRank(arena[x], arena[items[i]])
    requires r == items[..p] + [x] + items[p..]
    ensures Ranked(arena, r)
  {
    assert forall i :: 0 <= i < |r| ==> r[i] == if i < p then items[i] else if i == p then x else items[i - 1];
    forall i, j
      ensures RankedAt(arena, r, i, j)
    {
      if 0 <= i < j < |r| {
        assert RankedAt(arena, items, if i < p then i else i - 1, if j < p then j else j - 1);
        if i < p - 1 && j == p {
          assert RankedAt(arena, items, i, p - 1);
          RankIsTransitive(arena[items[i]], arena[items[p - 1]], arena[x]);
        }
      }
    }
  }

  lemma {:induction false} InsertKeepsPlaces(arena: Arena, items: seq<nat>, x: nat, p: nat, r: seq<nat>)
    requires x < |arena| && p <= |items| && r == items[..p] + [x] + items[p..]
    requires forall i :: 0 <= i < |items| ==> items[i] < |arena|
    requires forall i :: p <= i < |items| ==> Before(arena[x], arena[items[i]])
    ensures forall y, z :: Precedes(items, y, z) ==> Precedes(r, y, z)
    ensures forall y :: y in items && !Before(arena[x], arena[y]) ==> Precedes(r, y, x)
  {
    forall y, z | Precedes(items, y, z)
      ensures Precedes(r, y, z)
    {
      var i, j :| 0 <= i < j < |items| && items[i] == y && items[j] == z;
      var i', j' := if i < p then i else i + 1, if j < p then j else j + 1;
      assert r[i'] == y && r[j'] == z;
    }
    forall y | y in items && !Before(arena[x], arena[y])
      ensures Precedes(r, y, x)
    {
      var i :| 0 <= i < |items| && items[i] == y;
      assert i < p && r[i] == y && r[p] == x;
    }
  }

  lemma InsertKeepsOrder(arena: Arena, items: seq<nat>, x: nat, p: nat, r: seq<nat>)
    requires x < |arena| && Sorted(arena, items) && p <= |items|
    requires p > 0 ==> NotAfter(arena[items[p - 1]], arena[x])
    requires forall i :: p <= i < |items| ==> NotAfter(arena[x], arena[items[i]])
    requires r == items[..p] + [x] + items[p..]
    ensures Sorted(arena, r)
  {
    assert forall i :: 0 <= i < |r| ==> r[i] == if i < p then items[i] else if i == p then x else items[i - 1];
    forall i, j
      ensures InOrder(arena, r, i, j)
    {
      if 0 <= i < j < |r| {
        assert InOrder(arena, items, if i < p then i else i - 1, if j < p then j else j - 1);
        assert InOrder(arena, items, i, p - 1);
      }
    }
  }

  method SortItems(arena: Arena, items: seq<nat>) returns (r: seq<nat>)
    requires forall i :: 0 <= i < |items| ==> items[i] < |arena|
    ensures Sorted(arena, r) && Ranked(arena, r)
    ensures multiset(r) == multiset(items)
    ensures IsStable(arena, items, r)
  {
    r := [];
    for n := 0 to |items|
      invariant Sorted(arena, r) && Ranked(arena, r)
      invariant multiset(r) == multiset(items[..n])
      invariant IsStable(arena, items[..n], r)
    {
      ghost var before := r;
      r := InsertItem(arena, r, items[n]);
      assert items[..n + 1] == items[..n] + [items[n]];
      OneMoreIsStable(arena, items[..n], items[n], before, r);
    }
    assert items[..|items|] == items;
  }

  ghost predicate StableAt(arena: Arena, items: seq<nat>, sorted: seq<nat>, x: nat, y: nat) {
    x < |arena| && y < |arena| && Precedes(items, x, y) && !Before(arena[y], arena[x]) ==> Precedes(sorted, x, y)
  }

  /** An item overtakes another only if the comparator puts it before that one. */
  ghost predicate IsStable(arena: Arena, items: seq<nat>, sorted: seq<nat>) {
    forall x, y :: StableAt(arena, items, sorted, x, y)
  }

  lemma {:induction false} OneMoreIsStable(arena: Arena, items: seq<nat>, z: nat, sorted: seq<nat>, r: seq<nat>)
    requires IsStable(arena, items, sorted) && multiset(sorted) == multiset(items) && z < |arena|
    requires forall i :: 0 <= i < |sorted| ==> sorted[i] < |arena|
    requires forall x, y :: Precedes(sorted, x, y) ==> Precedes(r, x, y)
    requires forall x :: x in sorted && !Before(arena[z], arena[x]) ==> Precedes(r, x, z)
    ensures IsStable(arena, items + [z], r)
  {
    forall x: nat, y: nat
      ensures StableAt(arena, items + [z], r, x, y)
    {
      if Precedes(items + [z], x, y) && x < |arena| && y < |arena| && !Before(arena[y], arena[x]) {
        var i, j :| 0 <= i < j < |items + [z]| && (items + [z])[i] == x && (items + [z])[j] == y;
        if j < |items| {
          assert items[i] == x && items[j] == y;
          assert Precedes(items, x, y) && StableAt(arena, items, sorted, x, y);
        } else {
          assert items[i] in multiset(items);
          assert x in multiset(sorted);
        }
      }
    }
  }

  lemma SortedIndices(arena: Arena, items: seq<nat>)
    requires Sorted(arena, items) && multiset(items) == multiset(Indices(|arena|))
    ensures PurgeOrder(arena, items)
  {
    IndicesAre(|arena|);
    assert |multiset(items)| == |multiset(Indices(|arena|))|;
    forall x | 0 <= x < |arena|
      ensures x in items
    {
      assert Indices(|arena|)[x] in multiset(Indices(|arena|));
      assert x in multiset(items);
    }
  }

  // ----- Purge order respects the tree -----

  /** The item `p` is reached from the item `k` by following parent pointers. */
  predicate Ancestor(arena: Arena, p: nat, k: nat)
    requires k < |arena|
  {
    && arena[k].parent.Some? && arena[k].parent.value < k
    && (arena[k].parent.value == p || Ancestor(arena, p, arena[k].parent.value))
  }

  lemma {:induction false} AncestorOrder(arena: Arena, p: nat, k: nat)
    requires WellParented(arena) && k < |arena| && Ancestor(arena, p, k)
    ensures p < k && arena[p].level < arena[k].level && arena[p].modified >= arena[k].modified
    decreases k
  {
    var up := arena[k].parent.value;
    if up != p {
      AncestorOrder(arena, p, up);
    }
  }

  /**
   * Items are taken from the back, so a directory's item is taken only after every item beneath
   * it. The raw parent pointers that buildPath follows therefore lead to items still in the list.
   */
  lemma {:induction false} AncestorsOutlive(arena: Arena, sorted: seq<nat>, at: nat, p: nat)
    requires WellParented(arena) && PurgeOrder(arena, sorted)
    requires at < |sorted| && Ancestor(arena, p, sorted[at])
    ensures p in sorted[..at]
  {
    AncestorOrder(arena, p, sorted[at]);
    assert p in sorted;
    var i :| 0 <= i < |sorted| && sorted[i] == p;
    assert InOrder(arena, sorted, at, i);
    assert sorted[..at][i] == p;
  }

  // ----- Loading -----

  function AddRoot(arena: Arena, root: Root): Arena {
    if root.tree.None? then arena else arena + ItemsUnder(root.tree.value, [root.path], |arena|)
  }

  /** The items of all of a tracker's directories, in the order loadItems visits them. */
  function LoadedArena(paths: seq<DataPath>): Arena {
    if paths == [] then []
    else
      var last := paths[|paths| - 1];
      AddRoot(AddRoot(LoadedArena(paths[..|paths| - 1]), last.cache), last.codeCache)
  }

  lemma {:induction false} LoadedWellParented(paths: seq<DataPath>)
    ensures WellParented(LoadedArena(paths))
    decreases |paths|
  {
    if paths != [] {
      var up := LoadedArena(paths[..|paths| - 1]);
      LoadedWellParented(paths[..|paths| - 1]);
      RootKeepsParents(up, paths[|paths| - 1].cache);
      RootKeepsParents(AddRoot(up, paths[|paths| - 1].cache), paths[|paths| - 1].codeCache);
    }
  }

  lemma RootKeepsParents(arena: Arena, root: Root)
    requires WellParented(arena)
    ensures WellParented(AddRoot(arena, root))
  {
    if root.tree.Some? {
      WalkKeepsParents(arena, root.tree.value, [root.path]);
    }
  }

  lemma FoldNext(w: Walk, events: seq<Event>, i: nat)
    requires i < |events|
    ensures Fold(w, events[i..]) == Fold(Step(w, events[i]), events[i + 1..])
  {
    assert events[i..][0] == events[i] && events[i..][1..] == events[i + 1..];
  }

  /** An entry below an open group only adds to the group's item. */
  lemma FoldAbsorbs(arena: Arena, open: seq<Option<nat>>, g: nat, events: seq<Event>, i: nat)
    requires i < |events| && g < |arena| && !(events[i].info.DP? && events[i].level == arena[g].level)
    ensures Fold(Walk(arena, open, Some(g)), events[i..])
         == Fold(Walk(Absorb(arena, g, events[i]), open, Some(g)), events[i + 1..])
  {
    FoldNext(Walk(arena, open, Some(g)), events, i);
  }

  /** A stream that leaves no group open has an entry left while one is open; here it is the one that closes it. */
  lemma FoldCloses(arena: Arena, open: seq<Option<nat>>, g: nat, events: seq<Event>, i: nat)
    requires i <= |events| && g < |arena|
    requires i < |events| ==> events[i].info.DP? && events[i].level == arena[g].level
    requires Fold(Walk(arena, open, Some(g)), events[i..]).grouping.None?
    ensures i < |events|
    ensures Fold(Walk(arena, open, Some(g)), events[i..])
         == Fold(Close(Walk(arena, open, Some(g)), arena[g].level), events[i + 1..])
  {
    assert |events[i..]| == |events| - i;
    FoldNext(Walk(arena, open, Some(g)), events, i);
  }

  class CacheTracker {
    const cacheQuota: int
    const dataPaths: seq<DataPath>
    var cacheUsed: int
    var itemsLoaded: bool
    var arena: Arena
    var items: seq<nat>

    constructor (quota: int, used: int, paths: seq<DataPath>)
      ensures cacheQuota == quota && dataPaths == paths
      ensures View() == Tracker(used, quota, false, [], [])
    {
      cacheQuota := quota;
      dataPaths := paths;
      cacheUsed := used;
      itemsLoaded := false;
      arena := [];
      items := [];
    }

    function View(): Tracker
      reads this
    {
      Tracker(cacheUsed, cacheQuota, itemsLoaded, arena, items)
    }

    function GetCacheRatio(): int
      reads this
    {
      CacheRatio(cacheUsed, cacheQuota)
    }

    /** Appends the items of one directory tree in a single pass over its fts stream. */
    method LoadItemsFrom(root: Root)
      requires items == Indices(|arena|)
      modifies this`arena, this`items
      ensures arena == AddRoot(old(arena), root)
      ensures items == Indices(|arena|)
    {
      if root.tree.None? {
        return;
      }
      var events := Events(root.tree.value, 0, [root.path]);
      ghost var goal := Fold(Walk(arena, [None], None), events);
      WalkMeetsSpecification(arena, root.tree.value, [root.path]);
      var open: seq<Option<nat>> := [None];
      var i := 0;
      while i < |events|
        invariant 0 <= i <= |events|
        invariant goal == Fold(Walk(arena, open, None), events[i..])
        invariant items == Indices(|arena|)
      {
        i, open := ReadEntry(events, i, open, goal);
      }
      assert events[i..] == [];
    }

    /** One turn of the walk's loop; a group directory takes its whole subtree in one turn. */
    method ReadEntry(events: seq<Event>, i: nat, open: seq<Option<nat>>, ghost goal: Walk)
      returns (next: nat, open': seq<Option<nat>>)
      requires i < |events| && items == Indices(|arena|)
      requires goal == Fold(Walk(arena, open, None), events[i..]) && goal.grouping.None?
      modifies this`arena, this`items
      ensures i < next <= |events|
      ensures items == Indices(|arena|)
      ensures goal == Fold(Walk(arena, open', None), events[next..])
    {
      var p := events[i];
      ghost var w0 := Walk(arena, open, None);
      FoldNext(w0, events, i);
      next, open' := i + 1, open;
      if p.level == 0 {
        return;
      }
      if p.info.DP? {
        // Bubble up the modification time of a finished directory to its parent.
        var w := Close(Walk(arena, open, None), p.level);
        arena, open' := w.arena, w.open;
        return;
      }
      // Create a tracking node for everything encountered.
      var parent := PointerAt(open, p.level - 1);
      var item := NewItem(arena, parent, p);
      var self := |arena|;
      arena := arena + [item];
      items := items + [self];
      if p.info.D? {
        open' := Opened(open, p.level, self);
        if item.group {
          // Collect everything under the tree at once.
          assert Step(w0, p) == Walk(arena, open', Some(self));
          next := CollectGroup(events, next, self, open', goal);
          var w := Close(Walk(arena, open', Some(self)), p.level);
          arena, open' := w.arena, w.open;
        } else {
          assert Step(w0, p) == Walk(arena, open', None);
        }
      } else {
        arena := Bubble(arena, parent, item.modified);
        assert Step(w0, p) == Walk(arena, open, None);
      }
    }

    /**
     * The inner loop: adds every entry below a group directory to the group's item and stops
     * behind the entry that closes the directory, which the stream always holds.
     */
    method CollectGroup(events: seq<Event>, start: nat, g: nat, ghost open: seq<Option<nat>>, ghost goal: Walk)
      returns (next: nat)
      requires start <= |events| && g < |arena|
      requires goal == Fold(Walk(arena, open, Some(g)), events[start..]) && goal.grouping.None?
      modifies this`arena
      ensures |arena| == old(|arena|) && arena[g].level == old(arena[g].level)
      ensures start < next <= |events|
      ensures goal == Fold(Close(Walk(arena, open, Some(g)), arena[g].level), events[next..])
    {
      next := start;
      while next < |events| && !(events[next].info.DP? && events[next].level == arena[g].level)
        invariant start <= next <= |events|
        invariant |arena| == old(|arena|) && arena[g].level == old(arena[g].level)
        invariant goal == Fold(Walk(arena, open, Some(g)), events[next..])
      {
        FoldAbsorbs(arena, open, g, events, next);
        arena := Absorb(arena, g, events[next]);
        next := next + 1;
      }
      FoldCloses(arena, open, g, events, next);
      next := next + 1;
    }

    method LoadItems()
      modifies this`arena, this`items
      ensures arena == LoadedArena(dataPaths)
      ensures PurgeOrder(arena, items) && Ranked(arena, items) && IsStable(arena, Indices(|arena|), items)
    {
      items := [];
      arena := [];
      for n := 0 to |dataPaths|
        invariant arena == LoadedArena(dataPaths[..n]) && items == Indices(|arena|)
      {
        LoadItemsFrom(dataPaths[n].cache);
        LoadItemsFrom(dataPaths[n].codeCache);
        assert dataPaths[..n + 1][..n] == dataPaths[..n];
      }
      assert dataPaths[..|dataPaths|] == dataPaths;
      IndicesAre(|arena|);
      items := SortItems(arena, items);
      SortedIndices(arena, items);
    }

    /** Loads the items the first time it is called and never again. */
    method EnsureItems()
      modifies this`arena, this`items, this`itemsLoaded
      ensures itemsLoaded
      ensures old(itemsLoaded) ==> View() == old(View())
      ensures !old(itemsLoaded) ==> arena == LoadedArena(dataPaths) && PurgeOrder(arena, items)
    {
      if itemsLoaded {
        return;
      } else {
        LoadItems();
        itemsLoaded := true;
      }
    }
  }
}
