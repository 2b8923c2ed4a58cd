/**
 * What freeCache's purges do to the disk: the items of all cache directories of all trackers go in
 * whatever order the loop takes them, and at every point of every run each directory is at a stage
 * of its own eviction.
 */
module EvictionRuns {
  import opened Common
  import opened Fts
  import opened CacheItems
  import opened CacheItemFacts
  import opened CacheTrackers
  import opened Purging
  import opened Eviction
  import Bounce

  // ----- Cache directories and their items -----

  /** A cache directory, and where its items are among all items of its tracker. */
  datatype Plot = Plot(path: Path, root: Node, base: nat)

  predicate InPlot(p: Plot, x: nat) {
    p.base <= x < p.base + |AddressesUnder(p.root)|
  }

  function Addr(p: Plot, x: nat): Address
    requires InPlot(p, x)
  {
    AddressesUnder(p.root)[x - p.base]
  }

  /** The items of the directory, in an arena that may hold those of others. */
  ghost predicate PlotIn(arena: Arena, p: Plot) {
    && p.root.Dir? && p.path != []
    && p.base + |AddressesUnder(p.root)| <= |arena|
    && arena[p.base..p.base + |AddressesUnder(p.root)|] == ItemsUnder(p.root, p.path, p.base)
  }

  lemma {:induction false} OwnerIn(p: Plot, x: nat)
    requires InPlot(p, x)
    ensures OwnsItem(p.root, Addr(p, x))
  {
    ItemsDescribeTree(p.root, p.path, p.base);
    assert Addr(p, x) in AddressesUnder(p.root);
  }

  lemma {:induction false} FlagIn(p: Plot, x: nat)
    requires p.root.Dir? && InPlot(p, x) && |AddressesUnder(p.root)| == |ItemsUnder(p.root, p.path, p.base)|
    ensures FlagAtIs(p.root, Addr(p, x), ItemsUnder(p.root, p.path, p.base)[x - p.base].tombstone)
  {
    OwnerIn(p, x);
    ItemAt(p.root, p.path, p.base, x - p.base);
    FlagIsTombstone(p.root, Addr(p, x));
  }

  /** An item is the one its address says, with the flag that is due to it. */
  lemma {:induction false} ItemIn(arena: Arena, p: Plot, x: nat)
    requires PlotIn(arena, p) && InPlot(p, x)
    ensures OwnsItem(p.root, Addr(p, x)) && FlagAtIs(p.root, Addr(p, x), arena[x].tombstone)
    ensures |Addr(p, x)| > 1 ==>
              var up := arena[x].parent;
              up.Some? && InPlot(p, up.value) && up.value < x && Addr(p, up.value) == Addr(p, x)[..|Addr(p, x)| - 1]
  {
    var k, items := x - p.base, ItemsUnder(p.root, p.path, p.base);
    assert arena[x] == items[k] by {
      assert arena[p.base..p.base + |AddressesUnder(p.root)|][k] == arena[x];
    }
    OwnerIn(p, x);
    FlagIn(p, x);
    ItemAt(p.root, p.path, p.base, k);
  }

  ghost predicate FlagAtIs(root: Node, a: Address, flag: bool) {
    root.Dir? && Entry(Flagged(root, false), a).Some? && FlagAt(root, a) == flag
  }

  lemma {:induction false} SameAddress(p: Plot, x: nat, y: nat)
    requires InPlot(p, x) && InPlot(p, y) && Addr(p, x) == Addr(p, y)
    ensures x == y
  {
    ItemsDescribeTree(p.root, p.path, p.base);
  }

  lemma {:induction false} ItemOf(arena: Arena, p: Plot, a: Address) returns (x: nat)
    requires PlotIn(arena, p) && OwnsItem(p.root, a)
    ensures InPlot(p, x) && Addr(p, x) == a
  {
    ItemsDescribeTree(p.root, p.path, p.base);
    assert a in AddressesUnder(p.root);
    var k :| 0 <= k < |AddressesUnder(p.root)| && AddressesUnder(p.root)[k] == a;
    x := p.base + k;
  }

  /** One item's address above another's means that parent pointers lead from the other to it. */
  lemma {:induction false} PrefixIsAncestor(arena: Arena, p: Plot, x: nat, y: nat)
    requires PlotIn(arena, p) && InPlot(p, x) && InPlot(p, y) && Addr(p, x) < Addr(p, y)
    ensures Ancestor(arena, x, y)
    decreases y
  {
    ItemIn(arena, p, x);
    ItemIn(arena, p, y);
    var up := arena[y].parent.value;
    if Addr(p, x) == Addr(p, up) {
      SameAddress(p, x, up);
    } else {
      PrefixIsAncestor(arena, p, x, up);
    }
  }

  lemma {:induction false} PathOfPrefix(arena: Arena, n: nat, x: nat)
    requires WellParented(arena) && x < n <= |arena|
    ensures WellParented(arena[..n]) && PathOf(arena[..n], x) == PathOf(arena, x)
    decreases x
  {
    assert forall k :: 0 <= k < n ==> arena[..n][k] == arena[k];
    if arena[x].parent.Some? {
      PathOfPrefix(arena, n, arena[x].parent.value);
    }
  }

  /** The path an item builds is that of its entry. */
  lemma {:induction false} ItemPath(arena: Arena, p: Plot, x: nat)
    requires WellParented(arena) && PlotIn(arena, p) && InPlot(p, x)
    ensures Entry(p.root, Addr(p, x)).Some?
    ensures PathOf(arena, x) == Render(FullPath(p.root, p.path, Addr(p, x)))
  {
    var n := p.base + |AddressesUnder(p.root)|;
    var front, items, k := arena[..p.base], ItemsUnder(p.root, p.path, p.base), x - p.base;
    assert WellParented(front) by {
      if p.base > 0 {
        PathOfPrefix(arena, p.base, 0);
      }
    }
    assert arena[..n] == front + items by {
      assert arena[..n] == arena[..p.base] + arena[p.base..n];
    }
    assert |items| == |AddressesUnder(p.root)| && |front| == p.base;
    PathsOfItems(front, p.root, p.path, k);
    assert PathOf(arena, x) == PathOf(front + items, |front| + k) by {
      PathOfPrefix(arena, n, x);
    }
  }

  // ----- The order of the sort is a good one -----

  predicate Covers(q: seq<nat>, n: nat) {
    forall x :: 0 <= x < n ==> x in q
  }

  lemma {:induction false} WithoutOne(q: seq<nat>, n: nat, i: nat)
    requires Covers(q, n) && i < |q| && (q[i] >= n || exists j :: 0 <= j < |q| && j != i && q[j] == q[i])
    ensures Covers(q[..i] + q[i + 1..], n)
  {
    var q' := q[..i] + q[i + 1..];
    forall x | 0 <= x < n
      ensures x in q'
    {
      assert x in q;
      var k :| 0 <= k < |q| && q[k] == x;
      if k == i {
        k :| 0 <= k < |q| && k != i && q[k] == q[i];
      }
      assert q'[if k < i then k else k - 1] == x;
    }
  }

  lemma {:induction false} CoveringIsLong(q: seq<nat>, n: nat)
    requires Covers(q, n)
    ensures |q| >= n
    decreases n
  {
    if n > 0 {
      assert n - 1 in q;
      var i :| 0 <= i < |q| && q[i] == n - 1;
      WithoutOne(q, n - 1, i);
      CoveringIsLong(q[..i] + q[i + 1..], n - 1);
    }
  }

  /** A purge order has every item once. */
  lemma {:induction false} OrderIsDistinct(arena: Arena, sorted: seq<nat>, i: nat, j: nat)
    requires PurgeOrder(arena, sorted) && i < |sorted| && j < |sorted| && sorted[i] == sorted[j]
    ensures i == j
  {
    if i != j {
      assert Covers(sorted, |arena|);
      WithoutOne(sorted, |arena|, j);
      CoveringIsLong(sorted[..j] + sorted[j + 1..], |arena|);
      assert false;
    }
  }


  /** A tracker's items, among them those of one directory, in purge order. */
  ghost predicate Ordered(arena: Arena, p: Plot, sorted: seq<nat>) {
    WellParented(arena) && PurgeOrder(arena, sorted) && PlotIn(arena, p)
  }

  /** The entries of a directory whose items are among those purged. */
  function DoneIn(p: Plot, purged: seq<nat>): set<Address> {
    set x | x in purged && InPlot(p, x) :: Addr(p, x)
  }

  /** With the items from position n on purged, an item is done if it is at such a position. */
  lemma {:induction false} DoneByPosition(arena: Arena, p: Plot, sorted: seq<nat>, n: nat, i: nat)
    requires Ordered(arena, p, sorted) && n <= |sorted| && i < |sorted| && InPlot(p, sorted[i])
    ensures Addr(p, sorted[i]) in DoneIn(p, sorted[n..]) <==> n <= i
  {
    if n <= i {
      assert sorted[n..][i - n] == sorted[i];
    }
    if Addr(p, sorted[i]) in DoneIn(p, sorted[n..]) {
      var x :| x in sorted[n..] && InPlot(p, x) && Addr(p, x) == Addr(p, sorted[i]);
      SameAddress(p, x, sorted[i]);
      var j :| 0 <= j < |sorted[n..]| && sorted[n..][j] == x;
      OrderIsDistinct(arena, sorted, i, n + j);
    }
  }

  /** Positions follow the tree: an item comes before all items below it, so it is purged after them. */
  lemma {:induction false} PrefixComesFirst(arena: Arena, p: Plot, sorted: seq<nat>, i: nat, j: nat)
    requires Ordered(arena, p, sorted) && i < |sorted| && j < |sorted| && InPlot(p, sorted[i]) && InPlot(p, sorted[j])
    requires Addr(p, sorted[i]) < Addr(p, sorted[j])
    ensures i < j
  {
    PrefixIsAncestor(arena, p, sorted[i], sorted[j]);
    AncestorsOutlive(arena, sorted, j, sorted[i]);
    var q :| 0 <= q < j && sorted[q] == sorted[i];
    OrderIsDistinct(arena, sorted, q, i);
  }

  /** Where the item of an owning entry is. */
  lemma {:induction false} PositionOf(arena: Arena, p: Plot, sorted: seq<nat>, a: Address) returns (i: nat)
    requires Ordered(arena, p, sorted) && OwnsItem(p.root, a)
    ensures i < |sorted| && InPlot(p, sorted[i]) && Addr(p, sorted[i]) == a
  {
    var x := ItemOf(arena, p, a);
    assert x in sorted;
    i :| 0 <= i < |sorted| && sorted[i] == x;
  }

  /** The last item that has not been purged is one that can be. */
  lemma {:induction false} LastIsNext(arena: Arena, p: Plot, sorted: seq<nat>, n: nat)
    requires Ordered(arena, p, sorted) && 0 < n <= |sorted| && InPlot(p, sorted[n - 1])
    ensures IsNext(p.root, Addr(p, sorted[n - 1]), DoneIn(p, sorted[n..]))
  {
    var top, a, done := Flagged(p.root, false), Addr(p, sorted[n - 1]), DoneIn(p, sorted[n..]);
    ItemIn(arena, p, sorted[n - 1]);
    FlaggedEntries(p.root, false, p.path, a);
    DoneByPosition(arena, p, sorted, n, n - 1);
    assert [] + a == a;
    forall j | 0 <= j < |a|
      ensures PlainAt(top, [], a[..j], done)
    {
      AboveIsPlain(arena, p, sorted, n, j);
    }
    var e := Entry(top, a).value;
    if e.Dir? && !e.attr.group {
      forall j | 0 <= j < |e.children|
        ensures a + [j] in done
      {
        BelowIsDone(arena, p, sorted, n, j);
      }
    }
  }

  lemma {:induction false} RootNotDone(arena: Arena, p: Plot, purged: seq<nat>)
    requires PlotIn(arena, p)
    ensures [] !in DoneIn(p, purged)
  {
    forall x | x in purged && InPlot(p, x)
      ensures Addr(p, x) != []
    {
      ItemIn(arena, p, x);
    }
  }

  lemma {:induction false} AboveIsPlain(arena: Arena, p: Plot, sorted: seq<nat>, n: nat, j: nat)
    requires Ordered(arena, p, sorted) && 0 < n <= |sorted| && InPlot(p, sorted[n - 1]) && j < |Addr(p, sorted[n - 1])|
    ensures PlainAt(Flagged(p.root, false), [], Addr(p, sorted[n - 1])[..j], DoneIn(p, sorted[n..]))
  {
    var a := Addr(p, sorted[n - 1]);
    var c := a[..j];
    ItemIn(arena, p, sorted[n - 1]);
    assert [] + c == c;
    FlaggedEntries(p.root, false, p.path, c);
    if j == 0 {
      RootNotDone(arena, p, sorted[n..]);
    } else {
      PrefixOwns(p.root, a, j);
      var i := PositionOf(arena, p, sorted, c);
      PrefixComesFirst(arena, p, sorted, i, n - 1);
      DoneByPosition(arena, p, sorted, n, i);
    }
  }

  lemma {:induction false} PrefixOwns(root: Node, a: Address, j: nat)
    requires OwnsItem(root, a) && 1 <= j < |a|
    ensures OwnsItem(root, a[..j]) && !IsGroup(root, a[..j])
  {
    EntryPrefix(root, a, j);
    assert forall i :: 1 <= i < j ==> a[..j][..i] == a[..i];
  }

  lemma {:induction false} BelowIsDone(arena: Arena, p: Plot, sorted: seq<nat>, n: nat, j: nat)
    requires Ordered(arena, p, sorted) && 0 < n <= |sorted| && InPlot(p, sorted[n - 1])
    requires var e := Entry(p.root, Addr(p, sorted[n - 1]));
             e.Some? && e.value.Dir? && !e.value.attr.group && j < |e.value.children|
    ensures Addr(p, sorted[n - 1]) + [j] in DoneIn(p, sorted[n..])
  {
    var a := Addr(p, sorted[n - 1]);
    var c := a + [j];
    ItemIn(arena, p, sorted[n - 1]);
    EntrySnoc(p.root, a, j);
    assert c[..|a|] == a && forall i :: 1 <= i < |a| ==> c[..i] == a[..i];
    assert OwnsItem(p.root, c);
    var i := PositionOf(arena, p, sorted, c);
    PrefixComesFirst(arena, p, sorted, n - 1, i);
    DoneByPosition(arena, p, sorted, n, i);
  }

  /** When all items are purged, so are those of the directory's own entries. */
  lemma {:induction false} EverythingDone(arena: Arena, p: Plot, sorted: seq<nat>, j: nat)
    requires Ordered(arena, p, sorted) && j < |p.root.children|
    ensures [j] in DoneIn(p, sorted)
  {
    assert OwnsItem(p.root, [j]) by {
      EntrySnoc(p.root, [], j);
      assert [] + [j] == [j];
    }
    var i := PositionOf(arena, p, sorted, [j]);
    DoneByPosition(arena, p, sorted, 0, i);
    assert sorted[0..] == sorted;
  }

  // ----- All directories of a tracker -----

  function AddPlot(plots: seq<Plot>, arena: Arena, root: Root): seq<Plot> {
    if root.tree.Some? && root.tree.value.Dir? then plots + [Plot([root.path], root.tree.value, |arena|)] else plots
  }

  /** The directories loadItems finds, in the order it visits them. */
  function PlotsOf(paths: seq<DataPath>): seq<Plot> {
    if paths == [] then []
    else
      var last, up := paths[|paths| - 1], paths[..|paths| - 1];
      AddPlot(AddPlot(PlotsOf(up), LoadedArena(up), last.cache), AddRoot(LoadedArena(up), last.cache), last.codeCache)
  }

  predicate InSome(plots: seq<Plot>, x: nat) {
    exists r :: 0 <= r < |plots| && InPlot(plots[r], x)
  }

  /** Every item belongs to one of the directories, and to one only. */
  ghost predicate Partition(arena: Arena, plots: seq<Plot>) {
    && (forall r :: 0 <= r < |plots| ==> PlotIn(arena, plots[r]))
    && (forall x :: 0 <= x < |arena| ==> InSome(plots, x))
    && (forall r, q, x :: 0 <= r < |plots| && 0 <= q < |plots| && InPlot(plots[r], x) && InPlot(plots[q], x) ==> r == q)
  }

  lemma {:induction false} PlotStays(arena: Arena, more: Arena, p: Plot)
    requires PlotIn(arena, p)
    ensures PlotIn(arena + more, p)
  {
    var n := p.base + |AddressesUnder(p.root)|;
    assert (arena + more)[p.base..n] == arena[p.base..n];
  }

  lemma {:induction false} NewPlot(arena: Arena, root: Node, path: Path)
    requires root.Dir? && path != []
    ensures PlotIn(arena + ItemsUnder(root, path, |arena|), Plot(path, root, |arena|))
    ensures |AddressesUnder(root)| == |ItemsUnder(root, path, |arena|)|
  {
    var items := ItemsUnder(root, path, |arena|);
    ItemsDescribeTree(root, path, |arena|);
    assert (arena + items)[|arena|..|arena| + |items|] == items;
  }

  lemma {:induction false} RootPartition(arena: Arena, plots: seq<Plot>, root: Root)
    requires Partition(arena, plots)
    ensures Partition(AddRoot(arena, root), AddPlot(plots, arena, root))
  {
    if root.tree.Some? {
      var tree, path := root.tree.value, [root.path];
      var items := ItemsUnder(tree, path, |arena|);
      var arena', plots' := AddRoot(arena, root), AddPlot(plots, arena, root);
      if tree.Leaf? {
        assert arena' == arena;
      } else {
        NewPlot(arena, tree, path);
        forall r | 0 <= r < |plots'|
          ensures PlotIn(arena', plots'[r])
        {
          if r < |plots| {
            PlotStays(arena, items, plots[r]);
          }
        }
        forall x | 0 <= x < |arena'|
          ensures InSome(plots', x)
        {
          if x < |arena| {
            assert InSome(plots, x);
            var r :| 0 <= r < |plots| && InPlot(plots[r], x);
            assert plots'[r] == plots[r];
          } else {
            assert InPlot(plots'[|plots|], x);
          }
        }
      }
    }
  }

  lemma {:induction false} PlotsPartition(paths: seq<DataPath>)
    ensures Partition(LoadedArena(paths), PlotsOf(paths))
    decreases |paths|
  {
    if paths != [] {
      var last, up := paths[|paths| - 1], paths[..|paths| - 1];
      PlotsPartition(up);
      RootPartition(LoadedArena(up), PlotsOf(up), last.cache);
      RootPartition(AddRoot(LoadedArena(up), last.cache),
                    AddPlot(PlotsOf(up), LoadedArena(up), last.cache), last.codeCache);
    }
  }

  // ----- All trackers on one disk -----

  predicate IsPlot(c: Bounce.Config, i: nat, r: nat) {
    i < |c.paths| && r < |PlotsOf(c.paths[i])|
  }

  function PlotAt(c: Bounce.Config, i: nat, r: nat): Plot
    requires IsPlot(c, i, r)
  {
    PlotsOf(c.paths[i])[r]
  }

  /** What has been purged in a directory. */
  function DoneOf(c: Bounce.Config, purges: seq<Bounce.Purge>, i: nat, r: nat): set<Address>
    requires IsPlot(c, i, r)
  {
    DoneIn(PlotAt(c, i, r), Bounce.PurgedFrom(purges, i))
  }

  predicate Apart(p: Path, q: Path) {
    !(p <= q) && !(q <= p)
  }

  ghost predicate ApartAt(c: Bounce.Config, i: nat, r: nat, j: nat, q: nat) {
    IsPlot(c, i, r) && IsPlot(c, j, q) && (i != j || r != q) ==> Apart(PlotAt(c, i, r).path, PlotAt(c, j, q).path)
  }

  ghost predicate HeldAt(c: Bounce.Config, disk: Disk, i: nat, r: nat) {
    IsPlot(c, i, r) ==>
      var p := PlotAt(c, i, r); p.root.Dir? && WellNamed(p.root) && Purging.Holds(disk, p.path, p.root)
  }

  /** The disk holds the cache directories of all trackers, and none is inside another. */
  ghost predicate OnDisk(c: Bounce.Config, disk: Disk) {
    (forall i, r, j, q :: ApartAt(c, i, r, j, q)) && (forall i, r :: HeldAt(c, disk, i, r))
  }

  ghost predicate StagedAt(c: Bounce.Config, before: Disk, purges: seq<Bounce.Purge>, disk: Disk,
                           i: nat, r: nat, k: Path)
  {
    IsPlot(c, i, r) && PlotAt(c, i, r).path <= k && PlotAt(c, i, r).root.Dir? ==>
      var p := PlotAt(c, i, r); SameAt(disk, DiskAfter(before, p.root, p.path, DoneOf(c, purges, i, r)), k)
  }

  predicate OutsideOf(c: Bounce.Config, i: nat, r: nat, k: Path) {
    IsPlot(c, i, r) ==> !(PlotAt(c, i, r).path <= k)
  }

  ghost predicate KeptAt(c: Bounce.Config, before: Disk, disk: Disk, k: Path) {
    (forall i, r :: OutsideOf(c, i, r, k)) ==> SameAt(disk, before, k)
  }

  /**
   * The disk after some purges: in each cache directory exactly its own purged items are done, and
   * everything outside the cache directories is as before.
   */
  ghost predicate Evicted(c: Bounce.Config, before: Disk, purges: seq<Bounce.Purge>, disk: Disk) {
    (forall i, r, k :: StagedAt(c, before, purges, disk, i, r, k)) && (forall k :: KeptAt(c, before, disk, k))
  }

  lemma {:induction false} NothingEvicted(c: Bounce.Config, disk: Disk)
    requires OnDisk(c, disk)
    ensures Evicted(c, disk, [], disk)
  {
    forall i, r, k
      ensures StagedAt(c, disk, [], disk, i, r, k)
    {
      if IsPlot(c, i, r) {
        var p := PlotAt(c, i, r);
        assert HeldAt(c, disk, i, r);
        assert DoneOf(c, [], i, r) == {};
        NothingPurged(disk, p.root, p.path);
      }
    }
    forall k
      ensures KeptAt(c, disk, disk, k)
    {
    }
  }

  lemma {:induction false} PlotIsDir(c: Bounce.Config, i: nat, r: nat)
    requires IsPlot(c, i, r)
    ensures PlotAt(c, i, r).root.Dir?
  {
    PlotsPartition(c.paths[i]);
    assert PlotIn(LoadedArena(c.paths[i]), PlotAt(c, i, r));
  }

  /** Being evicted says all there is to say about a disk. */
  lemma {:induction false} EvictedIsUnique(c: Bounce.Config, before: Disk, purges: seq<Bounce.Purge>,
                                           disk: Disk, disk': Disk)
    requires Evicted(c, before, purges, disk) && Evicted(c, before, purges, disk')
    ensures disk == disk'
  {
    forall k
      ensures SameAt(disk, disk', k)
    {
      if i: nat, r: nat :| !OutsideOf(c, i, r, k) {
        PlotIsDir(c, i, r);
        assert StagedAt(c, before, purges, disk, i, r, k) && StagedAt(c, before, purges, disk', i, r, k);
      } else {
        assert KeptAt(c, before, disk, k) && KeptAt(c, before, disk', k);
      }
    }
    SameEverywhere(disk, disk');
  }

  // ----- One more purge -----

  ghost predicate SameDone(c: Bounce.Config, purges: seq<Bounce.Purge>, purges': seq<Bounce.Purge>, i: nat, r: nat) {
    IsPlot(c, i, r) ==> DoneOf(c, purges', i, r) == DoneOf(c, purges, i, r)
  }

  /** The later purges are the earlier ones and that of the item at `a` in one directory, which was next there. */
  ghost predicate Extends(c: Bounce.Config, purges: seq<Bounce.Purge>, purges': seq<Bounce.Purge>,
                          i: nat, r: nat, a: Address)
  {
    && IsPlot(c, i, r) && PlotAt(c, i, r).root.Dir?
    && IsNext(PlotAt(c, i, r).root, a, DoneOf(c, purges, i, r))
    && DoneOf(c, purges', i, r) == DoneOf(c, purges, i, r) + {a}
    && forall j, q :: j != i || q != r ==> SameDone(c, purges, purges', j, q)
  }

  /** Replacing below a path of one directory changes nothing in another, or outside all of them. */
  lemma {:induction false} ReplaceElsewhere(disk: Disk, path: Path, n: Option<Node>, k: Path)
    requires !(path <= k)
    ensures SameAt(Replace(disk, path, n), disk, k)
  {
    DiskBelow(n, path, k);
  }

  /** Replacing depends on what is there at a path only. */
  lemma {:induction false} ReplaceAlike(disk: Disk, disk': Disk, path: Path, n: Option<Node>, k: Path)
    requires SameAt(disk, disk', k)
    ensures SameAt(Replace(disk, path, n), Replace(disk', path, n), k)
  {
  }

  lemma {:induction false} PurgeIsHeld(c: Bounce.Config, before: Disk, purges: seq<Bounce.Purge>, disk: Disk,
                                       i: nat, r: nat, a: Address)
    requires OnDisk(c, before) && Evicted(c, before, purges, disk) && IsPlot(c, i, r) && PlotAt(c, i, r).root.Dir?
    requires IsNext(PlotAt(c, i, r).root, a, DoneOf(c, purges, i, r))
    ensures var p, done := PlotAt(c, i, r), DoneOf(c, purges, i, r);
            && LeftAt(p.root, a, done).Some? && WellNamed(LeftAt(p.root, a, done).value)
            && p.path <= FullPath(Flagged(p.root, false), p.path, a)
            && Purging.Holds(disk, FullPath(Flagged(p.root, false), p.path, a), LeftAt(p.root, a, done).value)
  {
    var p, done := PlotAt(c, i, r), DoneOf(c, purges, i, r);
    var px := FullPath(Flagged(p.root, false), p.path, a);
    assert HeldAt(c, before, i, r);
    NextPurge(before, p.root, p.path, a, done);
    FullPathExtends(Flagged(p.root, false), p.path, a);
    var tree, now := LeftAt(p.root, a, done).value, DiskAfter(before, p.root, p.path, done);
    forall k
      ensures HoldsAt(disk, px, tree, k)
    {
      assert HoldsAt(now, px, tree, k);
      assert StagedAt(c, before, purges, disk, i, r, k);
    }
  }

  /** Purging the next item of one directory takes the disk on to the next stage. */
  lemma {:induction false} PurgeEvicts(c: Bounce.Config, before: Disk, purges: seq<Bounce.Purge>, disk: Disk,
                                       purges': seq<Bounce.Purge>, i: nat, r: nat, a: Address)
    requires OnDisk(c, before) && Evicted(c, before, purges, disk) && Extends(c, purges, purges', i, r, a)
    ensures var p, done := PlotAt(c, i, r), DoneOf(c, purges, i, r);
            && LeftAt(p.root, a, done).Some?
            && Evicted(c, before, purges', Replace(disk, FullPath(Flagged(p.root, false), p.path, a),
                                                   PurgedItem(LeftAt(p.root, a, done).value, FlagAt(p.root, a))))
  {
    var p, done := PlotAt(c, i, r), DoneOf(c, purges, i, r);
    var px := FullPath(Flagged(p.root, false), p.path, a);
    PurgeIsHeld(c, before, purges, disk, i, r, a);
    var left := PurgedItem(LeftAt(p.root, a, done).value, FlagAt(p.root, a));
    var after := Replace(disk, px, left);
    forall j, q, k
      ensures StagedAt(c, before, purges', after, j, q, k)
    {
      assert StagedAt(c, before, purges, disk, j, q, k);
      if j == i && q == r {
        assert HeldAt(c, before, i, r);
        NextPurge(before, p.root, p.path, a, done);
        if p.path <= k {
          ReplaceAlike(disk, DiskAfter(before, p.root, p.path, done), px, left, k);
        }
      } else if IsPlot(c, j, q) && PlotAt(c, j, q).path <= k {
        assert SameDone(c, purges, purges', j, q);
        assert ApartAt(c, i, r, j, q);
        PrefixesCompare(p.path, PlotAt(c, j, q).path, px, k);
        ReplaceElsewhere(disk, px, left, k);
      }
    }
    forall k
      ensures KeptAt(c, before, after, k)
    {
      assert KeptAt(c, before, disk, k);
      if forall j, q :: OutsideOf(c, j, q, k) {
        assert OutsideOf(c, i, r, k);
        assert !(px <= k);
        ReplaceElsewhere(disk, px, left, k);
      }
    }
  }

  /** What is below two paths cannot be below two that are apart. */
  lemma {:induction false} PrefixesCompare(p: Path, q: Path, px: Path, k: Path)
    requires Apart(p, q) && p <= px && q <= k
    ensures !(px <= k)
  {
  }

  // ----- The loop's purges -----

  lemma {:induction false} DoneCons(p: Plot, x: nat, purged: seq<nat>)
    ensures DoneIn(p, [x] + purged) == if InPlot(p, x) then DoneIn(p, purged) + {Addr(p, x)} else DoneIn(p, purged)
  {
    assert forall y :: y in [x] + purged <==> y == x || y in purged;
  }

  /** A loaded tracker's items left and items purged are in purge order, and all of them are placed. */
  ghost predicate Ready(c: Bounce.Config, s: Bounce.State, i: nat) {
    && i < |s.ts| == |c.paths|
    && s.ts[i].arena == LoadedArena(c.paths[i])
    && PurgeOrder(s.ts[i].arena, s.ts[i].items + Bounce.PurgedFrom(s.purges, i))
  }

  /** The directory an item of a tracker is in. */
  lemma {:induction false} PlotOfItem(paths: seq<DataPath>, x: nat) returns (r: nat)
    requires x < |LoadedArena(paths)|
    ensures r < |PlotsOf(paths)| && InPlot(PlotsOf(paths)[r], x) && PlotIn(LoadedArena(paths), PlotsOf(paths)[r])
    ensures forall q :: 0 <= q < |PlotsOf(paths)| && InPlot(PlotsOf(paths)[q], x) ==> q == r
  {
    var plots := PlotsOf(paths);
    PlotsPartition(paths);
    assert InSome(plots, x);
    r :| 0 <= r < |plots| && InPlot(plots[r], x);
  }

  /** The last of the items left in purge order is next to go. */
  lemma {:induction false} LastLeftIsNext(arena: Arena, p: Plot, left: seq<nat>, gone: seq<nat>, x: nat)
    requires Ordered(arena, p, left + gone) && left != [] && x == left[|left| - 1] && InPlot(p, x)
    ensures IsNext(p.root, Addr(p, x), DoneIn(p, gone))
  {
    var sorted := left + gone;
    assert sorted[|left| - 1] == x && sorted[|left|..] == gone;
    LastIsNext(arena, p, sorted, |left|);
  }

  /** A tracker's last item is next to go in its directory. */
  lemma {:induction false} LastItemIsNext(c: Bounce.Config, s: Bounce.State, i: nat, r: nat)
    requires Ready(c, s, i) && s.ts[i].items != [] && IsPlot(c, i, r) && PlotIn(s.ts[i].arena, PlotAt(c, i, r))
    requires InPlot(PlotAt(c, i, r), s.ts[i].items[|s.ts[i].items| - 1])
    ensures IsNext(PlotAt(c, i, r).root, Addr(PlotAt(c, i, r), s.ts[i].items[|s.ts[i].items| - 1]),
                   DoneOf(c, s.purges, i, r))
  {
    var t, gone, p := s.ts[i], Bounce.PurgedFrom(s.purges, i), PlotAt(c, i, r);
    assert Ordered(t.arena, p, t.items + gone) by {
      LoadedWellParented(c.paths[i]);
    }
    LastLeftIsNext(t.arena, p, t.items, gone, t.items[|t.items| - 1]);
  }

  lemma {:induction false} OnePurgeMore(c: Bounce.Config, purges: seq<Bounce.Purge>, p: Bounce.Purge, r: nat)
    requires IsPlot(c, p.tracker, r) && InPlot(PlotAt(c, p.tracker, r), p.item)
    ensures DoneOf(c, purges + [p], p.tracker, r) ==
            DoneOf(c, purges, p.tracker, r) + {Addr(PlotAt(c, p.tracker, r), p.item)}
    ensures forall j, q :: j != p.tracker || q != r ==> SameDone(c, purges, purges + [p], j, q)
  {
    Bounce.PurgedSnoc(purges, p, p.tracker);
    DoneCons(PlotAt(c, p.tracker, r), p.item, Bounce.PurgedFrom(purges, p.tracker));
    PlotsPartition(c.paths[p.tracker]);
    forall j, q | j != p.tracker || q != r
      ensures SameDone(c, purges, purges + [p], j, q)
    {
      if IsPlot(c, j, q) {
        Bounce.PurgedSnoc(purges, p, j);
        if j == p.tracker {
          DoneCons(PlotAt(c, j, q), p.item, Bounce.PurgedFrom(purges, j));
        } else {
          assert Bounce.PurgedFrom(purges + [p], j) == Bounce.PurgedFrom(purges, j);
        }
      }
    }
  }

  /** A turn of the loop purges the last item of some loaded tracker, or nothing. */
  lemma {:induction false} TurnPurges(c: Bounce.Config, run: seq<Bounce.State>, n: nat)
    requires Bounce.IsRun(c, run) && n + 1 < |run|
    ensures var s, s' := run[n], run[n + 1];
            if |s'.purges| > |s.purges| then
              var p := s'.purges[|s.purges|];
              && Ready(c, s, p.tracker) && s.ts[p.tracker].items != []
              && p.item == s.ts[p.tracker].items[|s.ts[p.tracker].items| - 1] && p.item < |s.ts[p.tracker].arena|
              && s'.purges == s.purges + [Bounce.Purge(p.tracker, p.item, s.ts[p.tracker].arena[p.item].size)]
            else s'.purges == s.purges
  {
    var s, s' := run[n], run[n + 1];
    assert Bounce.StepAt(c, run, n);
    if |s'.purges| > |s.purges| {
      assert Bounce.Purges(c, s, s');
      Bounce.RunInv(c, run, n);
      assert Bounce.BooksAt(c, run[0], s, s.active.value);
    }
  }

  /** The path of an item in one of a tracker's directories, and the flag to purge it with. */
  lemma {:induction false} ItemsPathAndFlag(c: Bounce.Config, i: nat, r: nat, x: nat)
    requires IsPlot(c, i, r) && InPlot(PlotAt(c, i, r), x) && PlotIn(LoadedArena(c.paths[i]), PlotAt(c, i, r))
    ensures var p, arena := PlotAt(c, i, r), LoadedArena(c.paths[i]);
            && WellParented(arena) && FlagAtIs(p.root, Addr(p, x), arena[x].tombstone)
            && PathOf(arena, x) == Render(FullPath(Flagged(p.root, false), p.path, Addr(p, x)))
  {
    var p, arena := PlotAt(c, i, r), LoadedArena(c.paths[i]);
    LoadedWellParented(c.paths[i]);
    ItemIn(arena, p, x);
    ItemPath(arena, p, x);
    FlaggedEntries(p.root, false, p.path, Addr(p, x));
  }

  /**
   * One purge of the loop: the disk holds what is left of the item at the path the item builds, and
   * purging that with the item's flag takes the disk on by this one purge.
   */
  lemma {:induction false} LastPurgeEvicts(c: Bounce.Config, before: Disk, disk: Disk, s: Bounce.State, i: nat, r: nat,
                                           size: int)
    requires OnDisk(c, before) && Evicted(c, before, s.purges, disk)
    requires Ready(c, s, i) && s.ts[i].items != [] && IsPlot(c, i, r) && PlotIn(s.ts[i].arena, PlotAt(c, i, r))
    requires InPlot(PlotAt(c, i, r), s.ts[i].items[|s.ts[i].items| - 1])
    ensures var x, p, done := s.ts[i].items[|s.ts[i].items| - 1], PlotAt(c, i, r), DoneOf(c, s.purges, i, r);
            var a := Addr(p, x);
            && FlagAtIs(p.root, a, s.ts[i].arena[x].tombstone) && LeftAt(p.root, a, done).Some?
            && var px, tree := FullPath(Flagged(p.root, false), p.path, a), LeftAt(p.root, a, done).value;
            && WellNamed(tree) && Purging.Holds(disk, px, tree)
            && WellParented(s.ts[i].arena) && PathOf(s.ts[i].arena, x) == Render(px)
            && Evicted(c, before, s.purges + [Bounce.Purge(i, x, size)],
                       Replace(disk, px, PurgedItem(tree, s.ts[i].arena[x].tombstone)))
  {
    var x, p := s.ts[i].items[|s.ts[i].items| - 1], PlotAt(c, i, r);
    var a, purges' := Addr(p, x), s.purges + [Bounce.Purge(i, x, size)];
    LastItemIsNext(c, s, i, r);
    OnePurgeMore(c, s.purges, Bounce.Purge(i, x, size), r);
    assert Extends(c, s.purges, purges', i, r, a);
    PurgeIsHeld(c, before, s.purges, disk, i, r, a);
    PurgeEvicts(c, before, s.purges, disk, purges', i, r, a);
    ItemsPathAndFlag(c, i, r, x);
  }

  /** The purging side of freeCache: a file system, and what has been purged from it. */
  class Evictor {
    const fs: FileSystem
    const noop: bool
    ghost const before: Disk
    var purged: seq<Bounce.Purge>

    ghost predicate Valid(c: Bounce.Config)
      reads this, fs
    {
      if noop then fs.disk == before else OnDisk(c, before) && Evicted(c, before, purged, fs.disk)
    }

    constructor (c: Bounce.Config, fs: FileSystem, noop: bool)
      requires noop || OnDisk(c, fs.disk)
      ensures this.fs == fs && this.noop == noop && before == fs.disk && purged == [] && Valid(c)
    {
      this.fs, this.noop, this.before, purged := fs, noop, fs.disk, [];
      new;
      if !noop {
        NothingEvicted(c, fs.disk);
      }
    }

    /** Purges the last item of a tracker, at the path the item builds. */
    method PurgeLast(c: Bounce.Config, ghost s: Bounce.State, i: nat, arena: Arena, x: nat)
      requires Valid(c) && s.purges == purged && Ready(c, s, i) && s.ts[i].items != []
      requires arena == s.ts[i].arena && x == s.ts[i].items[|s.ts[i].items| - 1] && x < |arena|
      modifies this, fs
      ensures Valid(c) && purged == old(purged) + [Bounce.Purge(i, x, arena[x].size)]
    {
      var p := Bounce.Purge(i, x, arena[x].size);
      if !noop {
        ghost var q := PlotOfItem(c.paths[i], x);
        var plots := PlotsOf(c.paths[i]);
        var r :| 0 <= r < |plots| && InPlot(plots[r], x);
        LastPurgeEvicts(c, before, fs.disk, s, i, r, arena[x].size);
        var root, a, done := plots[r].root, Addr(plots[r], x), DoneOf(c, purged, i, r);
        var built := BuildPath(arena, x);
        var path := FullPath(Flagged(root, false), plots[r].path, a);
        assert built == Render(path);
        var _ := fs.Purge(path, LeftAt(root, a, done).value, arena[x].tombstone, true);
      }
      purged := purged + [p];
    }
  }

  /** For every run and every point in it: purging what was purged up to there, in order. */
  method PurgeRun(fs: FileSystem, c: Bounce.Config, run: seq<Bounce.State>, n: nat)
    requires Bounce.IsRun(c, run) && n < |run| && OnDisk(c, fs.disk)
    modifies fs
    ensures Evicted(c, old(fs.disk), run[n].purges, fs.disk)
  {
    var evictor := new Evictor(c, fs, false);
    for j := 0 to n
      invariant evictor.fs == fs && !evictor.noop && evictor.before == old(fs.disk)
      invariant evictor.Valid(c) && evictor.purged == run[j].purges
    {
      TurnPurges(c, run, j);
      if |run[j + 1].purges| > |run[j].purges| {
        var p := run[j + 1].purges[|run[j].purges|];
        evictor.PurgeLast(c, run[j], p.tracker, run[j].ts[p.tracker].arena, p.item);
      }
    }
  }

  lemma {:induction false} ExhaustedIsDone(c: Bounce.Config, run: seq<Bounce.State>, i: nat, r: nat)
    requires Bounce.IsRun(c, run) && Bounce.Exhausted(run[|run| - 1]) && IsPlot(c, i, r)
    ensures var p, done := PlotAt(c, i, r), DoneOf(c, run[|run| - 1].purges, i, r);
            p.root.Dir? && [] !in done && forall j :: 0 <= j < |p.root.children| ==> [j] in done
  {
    var s, p := run[|run| - 1], PlotAt(c, i, r);
    var arena, purged := LoadedArena(c.paths[i]), Bounce.PurgedFrom(s.purges, i);
    assert PurgeOrder(arena, purged) by {
      Bounce.RunInv(c, run, |run| - 1);
      Bounce.UsedUpBooks(c, run[0], s, i);
      assert Bounce.BooksAt(c, run[0], s, i);
    }
    assert Ordered(arena, p, purged) by {
      PlotsPartition(c.paths[i]);
      LoadedWellParented(c.paths[i]);
    }
    RootNotDone(arena, p, purged);
    forall j | 0 <= j < |p.root.children|
      ensures [j] in DoneIn(p, purged)
    {
      EverythingDone(arena, p, purged, j);
    }
  }

  /**
   * A tracker loads its items when it is first swapped in, after purges from others: whatever was
   * purged until then, its own directories are still as they were, so it finds what it was to find.
   */
  lemma {:induction false} UnloadedIsUntouched(c: Bounce.Config, run: seq<Bounce.State>, n: nat,
                                               before: Disk, disk: Disk, i: nat, r: nat)
    requires Bounce.IsRun(c, run) && n < |run| && IsPlot(c, i, r)
    requires OnDisk(c, before) && Evicted(c, before, run[n].purges, disk)
    requires i < |run[n].ts| && !run[n].ts[i].loaded
    ensures Purging.Holds(disk, PlotAt(c, i, r).path, PlotAt(c, i, r).root)
  {
    var p, purges := PlotAt(c, i, r), run[n].purges;
    assert DoneOf(c, purges, i, r) == {} by {
      Bounce.RunInv(c, run, n);
      assert Bounce.BooksAt(c, run[0], run[n], i);
    }
    assert HeldAt(c, before, i, r);
    NothingPurged(before, p.root, p.path);
    forall k
      ensures HoldsAt(disk, p.path, p.root, k)
    {
      assert HoldsAt(before, p.path, p.root, k);
      assert StagedAt(c, before, purges, disk, i, r, k);
    }
  }

  /** When a run has used everything up, each cache directory keeps what one recursive purge of it would. */
  lemma {:induction false} ExhaustedEvicts(c: Bounce.Config, run: seq<Bounce.State>, before: Disk, disk: Disk,
                                           i: nat, r: nat)
    requires Bounce.IsRun(c, run) && Bounce.Exhausted(run[|run| - 1]) && IsPlot(c, i, r)
    requires Evicted(c, before, run[|run| - 1].purges, disk)
    ensures var p := PlotAt(c, i, r);
            && p.root.Dir?
            && forall k :: p.path <= k ==>
                 SameAt(disk, Replace(before, p.path, Some(Dir(p.root.attr, PurgedAll(p.root.children, false)))), k)
  {
    var purges, p := run[|run| - 1].purges, PlotAt(c, i, r);
    ExhaustedIsDone(c, run, i, r);
    AllPurged(before, p.root, p.path, DoneOf(c, purges, i, r));
    forall k | p.path <= k
      ensures SameAt(disk, Replace(before, p.path, Some(Dir(p.root.attr, PurgedAll(p.root.children, false)))), k)
    {
      assert StagedAt(c, before, purges, disk, i, r, k);
    }
  }
}
