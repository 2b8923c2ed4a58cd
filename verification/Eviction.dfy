/**
 * The items of one cache directory purged one after the other: what is on disk after any part of
 * them, and that in the end it is what one recursive purge of the directory would leave.
 */
module Eviction {
  import opened Common
  import opened Fts
  import opened CacheItems
  import opened CacheItemFacts
  import opened CacheTrackers
  import opened Purging

  // ----- What is left while items go -----

  function Compact(os: seq<Option<Node>>): seq<Node> {
    if os == [] then [] else (if os[0].Some? then [os[0].value] else []) + Compact(os[1..])
  }

  /**
   * What is left of an entry once the items in `done` have been purged, each after all items below
   * it; `tomb` says whether a directory above the entry, below the root, is tombstoned.
   */
  function Left(n: Node, tomb: bool, a: Address, done: set<Address>): Option<Node>
    decreases n
  {
    match n
    case Leaf(_, _) => if a in done then PurgedItem(n, tomb) else Some(n)
    case Dir(attr, children) =>
      if a in done then Purged(n, tomb)
      else if attr.group && a != [] then Some(n)
      else Some(Dir(attr, Compact(LeftEach(children, tomb || attr.tombstone, a, 0, done))))
  }

  function LeftEach(cs: seq<Node>, tomb: bool, pre: Address, i: nat, done: set<Address>): (r: seq<Option<Node>>)
    ensures |r| == |cs|
    decreases cs
  {
    if cs == [] then [] else [Left(cs[0], tomb, pre + [i], done)] + LeftEach(cs[1..], tomb, pre, i + 1, done)
  }

  lemma {:induction false} LeftEachAt(cs: seq<Node>, tomb: bool, pre: Address, i: nat, done: set<Address>, j: nat)
    requires j < |cs|
    ensures LeftEach(cs, tomb, pre, i, done)[j] == Left(cs[j], tomb, pre + [i + j], done)
    decreases j
  {
    if j > 0 {
      LeftEachAt(cs[1..], tomb, pre, i + 1, done, j - 1);
    }
  }

  lemma {:induction false} LeftKeepsName(n: Node, tomb: bool, a: Address, done: set<Address>)
    ensures var l := Left(n, tomb, a, done); l.Some? ==> l.value.attr.name == n.attr.name
  {
  }

  /** What is left of some entries, entry by entry. */
  ghost predicate Named(cs: seq<Node>, os: seq<Option<Node>>) {
    |os| == |cs| && forall i :: 0 <= i < |cs| && os[i].Some? ==> os[i].value.attr.name == cs[i].attr.name
  }

  lemma {:induction false} LeftEachNamed(cs: seq<Node>, tomb: bool, pre: Address, i: nat, done: set<Address>)
    ensures Named(cs, LeftEach(cs, tomb, pre, i, done))
  {
    forall j | 0 <= j < |cs|
      ensures var o := LeftEach(cs, tomb, pre, i, done)[j]; o.Some? ==> o.value.attr.name == cs[j].attr.name
    {
      LeftEachAt(cs, tomb, pre, i, done, j);
      LeftKeepsName(cs[j], tomb, pre + [i + j], done);
    }
  }

  /** Purging an item elsewhere changes nothing here. */
  lemma {:induction false} LeftSame(n: Node, tomb: bool, a: Address, done: set<Address>, x: Address)
    requires !(a <= x)
    ensures Left(n, tomb, a, done + {x}) == Left(n, tomb, a, done)
    decreases n
  {
    if n.Dir? {
      LeftEachSame(n.children, tomb || n.attr.tombstone, a, 0, done, x);
    }
  }

  lemma {:induction false} LeftEachSame(cs: seq<Node>, tomb: bool, pre: Address, i: nat, done: set<Address>, x: Address)
    requires !(pre <= x)
    ensures LeftEach(cs, tomb, pre, i, done + {x}) == LeftEach(cs, tomb, pre, i, done)
    decreases cs
  {
    if cs != [] {
      assert pre <= pre + [i];
      LeftSame(cs[0], tomb, pre + [i], done, x);
      LeftEachSame(cs[1..], tomb, pre, i + 1, done, x);
    }
  }

  // ----- Purging is the same the second time -----

  lemma {:induction false} PurgedTwice(n: Node, tomb: bool)
    ensures Purged(n, tomb).Some? ==> Purged(Purged(n, tomb).value, tomb) == Purged(n, tomb)
    decreases n
  {
    if n.Dir? {
      PurgedAllTwice(n.children, tomb || n.attr.tombstone);
    }
  }

  lemma {:induction false} PurgedAllTwice(cs: seq<Node>, tomb: bool)
    ensures PurgedAll(PurgedAll(cs, tomb), tomb) == PurgedAll(cs, tomb)
    decreases cs
  {
    if cs != [] {
      var first, rest := Purged(cs[0], tomb), PurgedAll(cs[1..], tomb);
      PurgedTwice(cs[0], tomb);
      PurgedAllTwice(cs[1..], tomb);
      if first.Some? {
        assert PurgedAll(cs, tomb) == [first.value] + rest;
        assert ([first.value] + rest)[1..] == rest;
      } else {
        assert PurgedAll(cs, tomb) == rest;
      }
    }
  }

  /** An item's own flag: the tombstones above it and, for a directory, its own. */
  predicate Flag(n: Node, tomb: bool) {
    tomb || (n.Dir? && n.attr.tombstone)
  }

  /** Purging what the items of its children have left of a directory leaves what purging it outright would. */
  lemma {:induction false} ChildrenDone(cs: seq<Node>, tomb: bool, pre: Address, i: nat, done: set<Address>)
    requires forall j :: i <= j < i + |cs| ==> pre + [j] in done
    ensures PurgedAll(Compact(LeftEach(cs, tomb, pre, i, done)), tomb) == PurgedAll(cs, tomb)
    decreases |cs|
  {
    if cs != [] {
      var os := LeftEach(cs, tomb, pre, i, done);
      var rest := Compact(os[1..]);
      assert pre + [i] in done;
      ChildrenDone(cs[1..], tomb, pre, i + 1, done);
      PurgedTwice(cs[0], tomb);
      if os[0].Some? {
        assert Compact(os) == [os[0].value] + rest;
        assert ([os[0].value] + rest)[1..] == rest;
      } else {
        assert Compact(os) == rest;
      }
    }
  }

  /** Purging an item once everything below it is done. */
  lemma {:induction false} ItemDone(n: Node, tomb: bool, a: Address, done: set<Address>)
    requires a != [] && a !in done
    requires n.Dir? && !n.attr.group ==> forall j :: 0 <= j < |n.children| ==> a + [j] in done
    ensures Left(n, tomb, a, done).Some?
    ensures PurgedItem(Left(n, tomb, a, done).value, Flag(n, tomb)) == Left(n, tomb, a, done + {a})
  {
    if n.Dir? && !n.attr.group {
      ChildrenDone(n.children, tomb || n.attr.tombstone, a, 0, done);
    }
  }

  // ----- On disk -----

  function DiskOf(o: Option<Node>, path: Path): Disk {
    if o.Some? then Layout(o.value, path) else map[]
  }

  lemma {:induction false} DiskBelow(o: Option<Node>, path: Path, k: Path)
    ensures k in DiskOf(o, path) ==> path <= k
  {
    if o.Some? {
      LayoutBelow(o.value, path, k);
    }
  }

  lemma {:induction false} CompactSplit(cs: seq<Node>, os: seq<Option<Node>>, parent: Path)
    requires Named(cs, os) && cs != []
    ensures LayoutAll(Compact(os), parent) ==
            DiskOf(os[0], parent + [cs[0].attr.name]) + LayoutAll(Compact(os[1..]), parent)
    ensures Named(cs[1..], os[1..])
  {
    var rest := Compact(os[1..]);
    if os[0].Some? {
      assert Compact(os) == [os[0].value] + rest;
      assert ([os[0].value] + rest)[1..] == rest;
    } else {
      assert Compact(os) == rest;
    }
    assert forall i :: 0 <= i < |cs[1..]| ==> cs[1..][i] == cs[i + 1] && os[1..][i] == os[i + 1];
  }

  lemma {:induction false} CompactOther(cs: seq<Node>, os: seq<Option<Node>>, parent: Path, k: Path)
    requires Named(cs, os) && forall i :: 0 <= i < |cs| ==> !Under(parent, cs[i].attr.name, k)
    ensures k !in LayoutAll(Compact(os), parent)
    decreases |cs|
  {
    if cs != [] {
      CompactSplit(cs, os, parent);
      DiskBelow(os[0], parent + [cs[0].attr.name], k);
      UnderIsPrefix(parent, cs[0].attr.name, k);
      assert forall i :: 0 <= i < |cs[1..]| ==> cs[1..][i] == cs[i + 1];
      CompactOther(cs[1..], os[1..], parent, k);
    }
  }

  /** Under a child's name lies what is left of that child. */
  lemma {:induction false} CompactChild(cs: seq<Node>, os: seq<Option<Node>>, parent: Path, i: nat, k: Path)
    requires Named(cs, os) && UniqueNames(cs) && i < |cs| && Under(parent, cs[i].attr.name, k)
    ensures SameAt(LayoutAll(Compact(os), parent), DiskOf(os[i], parent + [cs[i].attr.name]), k)
    decreases |cs|
  {
    CompactSplit(cs, os, parent);
    DiskBelow(os[0], parent + [cs[0].attr.name], k);
    UnderIsPrefix(parent, cs[0].attr.name, k);
    assert forall j :: 0 <= j < |cs[1..]| ==> cs[1..][j] == cs[j + 1] && os[1..][j] == os[j + 1];
    if i == 0 {
      CompactOther(cs[1..], os[1..], parent, k);
    } else {
      CompactChild(cs[1..], os[1..], parent, i - 1, k);
    }
  }

  // ----- One item among the others -----

  /** Whether a directory on the way to an entry is tombstoned. */
  function MarkAbove(n: Node, tomb: bool, b: Address): bool
    requires Entry(n, b).Some?
    decreases |b|
  {
    if b == [] then tomb
    else
      FirstStep(n, b);
      MarkAbove(n.children[b[0]], tomb || n.attr.tombstone, b[1..])
  }

  lemma {:induction false} FirstStep(n: Node, b: Address)
    requires b != [] && Entry(n, b).Some?
    ensures n.Dir? && b[0] < |n.children| && Entry(n.children[b[0]], b[1..]) == Entry(n, b)
    ensures [b[0]] + b[1..] == b
  {
    EntryPrefix(n, b, 0);
    EntryPrefix(n, b, 1);
    assert b[..1][..0] == b[..0] == [];
    EntryCons(n, b[0], b[1..]);
    assert [b[0]] + b[1..] == b;
  }

  /** The entry at b below the entry at a, and every directory on the way, is yet to be purged. */
  ghost predicate Pending(n: Node, a: Address, b: Address, done: set<Address>) {
    && Entry(n, b).Some? && a + b !in done
    && forall j :: 0 <= j < |b| ==> PlainAt(n, a, b[..j], done)
  }

  ghost predicate PlainAt(n: Node, a: Address, c: Address, done: set<Address>) {
    a + c !in done && (IsGroup(n, c) ==> a + c == [])
  }

  lemma {:induction false} PendingBelow(n: Node, a: Address, b: Address, done: set<Address>)
    requires Pending(n, a, b, done) && b != []
    ensures n.Dir? && b[0] < |n.children|
    ensures a !in done && (n.attr.group ==> a == [])
    ensures Pending(n.children[b[0]], a + [b[0]], b[1..], done)
  {
    FirstStep(n, b);
    var c := n.children[b[0]];
    assert a + b == (a + [b[0]]) + b[1..];
    assert PlainAt(n, a, b[..0], done);
    assert a + b[..0] == a;
    forall j | 0 <= j < |b[1..]|
      ensures PlainAt(c, a + [b[0]], b[1..][..j], done)
    {
      assert PlainAt(n, a, b[..j + 1], done);
      assert b[..j + 1] == [b[0]] + b[1..][..j];
      EntryCons(n, b[0], b[1..][..j]);
      assert a + b[..j + 1] == (a + [b[0]]) + b[1..][..j];
    }
  }

  /** Below px the two disks are what is left there; elsewhere they agree. */
  ghost predicate Localized(now: Disk, after: Disk, px: Path, own: Disk, own': Disk, k: Path) {
    if px <= k then SameAt(now, own, k) && SameAt(after, own', k) else SameAt(after, now, k)
  }

  /** Purging the item at b changes what is left of n at and below that item only. */
  lemma {:induction false} ItemIsLocal(n: Node, tomb: bool, a: Address, p: Path, b: Address,
                                       done: set<Address>, k: Path)
    requires WellNamed(n) && Pending(n, a, b, done)
    ensures var e, mark, x, px := Entry(n, b).value, MarkAbove(n, tomb, b), a + b, FullPath(n, p, b);
            Localized(DiskOf(Left(n, tomb, a, done), p), DiskOf(Left(n, tomb, a, done + {x}), p), px,
                      DiskOf(Left(e, mark, x, done), px), DiskOf(Left(e, mark, x, done + {x}), px), k)
    decreases |b|
  {
    var x := a + b;
    if b == [] {
      assert x == a;
      DiskBelow(Left(n, tomb, a, done), p, k);
      DiskBelow(Left(n, tomb, a, done + {x}), p, k);
    } else {
      FirstStep(n, b);
      PendingBelow(n, a, b, done);
      var i, rest, cs, t := b[0], b[1..], n.children, tomb || n.attr.tombstone;
      var os, os' := LeftEach(cs, t, a, 0, done), LeftEach(cs, t, a, 0, done + {x});
      FullPathCons(n, p, i, rest);
      assert a != x;
      assert Left(n, tomb, a, done) == Some(Dir(n.attr, Compact(os)));
      assert Left(n, tomb, a, done + {x}) == Some(Dir(n.attr, Compact(os')));
      assert a + b == (a + [i]) + rest;
      if j :| 0 <= j < |cs| && Under(p, cs[j].attr.name, k) {
        UnderChild(n, tomb, a, p, done, x, j, k);
        if j == i {
          ItemIsLocal(cs[i], t, a + [i], p + [cs[i].attr.name], rest, done, k);
        } else {
          OtherChild(n, tomb, a, p, done, b, j, k);
        }
      } else {
        NoChild(n, tomb, a, p, done, b, k);
      }
    }
  }

  /** Under a child's name the disk has what is left of the child. */
  lemma {:induction false} UnderChild(n: Node, tomb: bool, a: Address, p: Path, done: set<Address>, x: Address, j: nat,
                                      k: Path)
    requires n.Dir? && WellNamed(n) && j < |n.children| && Under(p, n.children[j].attr.name, k)
    requires a !in done && a != x && (n.attr.group ==> a == [])
    ensures var c, t := n.children[j], tomb || n.attr.tombstone;
            var pc := p + [c.attr.name];
            && SameAt(DiskOf(Left(n, tomb, a, done), p), DiskOf(Left(c, t, a + [j], done), pc), k)
            && SameAt(DiskOf(Left(n, tomb, a, done + {x}), p), DiskOf(Left(c, t, a + [j], done + {x}), pc), k)
  {
    var cs, t := n.children, tomb || n.attr.tombstone;
    LeftEachNamed(cs, t, a, 0, done);
    LeftEachNamed(cs, t, a, 0, done + {x});
    LeftEachAt(cs, t, a, 0, done, j);
    LeftEachAt(cs, t, a, 0, done + {x}, j);
    CompactChild(cs, LeftEach(cs, t, a, 0, done), p, j, k);
    CompactChild(cs, LeftEach(cs, t, a, 0, done + {x}), p, j, k);
    assert k != p;
  }

  lemma {:induction false} OtherChild(n: Node, tomb: bool, a: Address, p: Path, done: set<Address>, b: Address, j: nat,
                                      k: Path)
    requires n.Dir? && WellNamed(n) && Entry(n, b).Some? && b != []
    requires j < |n.children| && Under(p, n.children[j].attr.name, k) && j != b[0]
    ensures !(FullPath(n, p, b) <= k)
    ensures var c, t := n.children[j], tomb || n.attr.tombstone;
            Left(c, t, a + [j], done + {a + b}) == Left(c, t, a + [j], done)
  {
    FirstStep(n, b);
    FullPathCons(n, p, b[0], b[1..]);
    var c := n.children[b[0]];
    FullPathExtends(c, p + [c.attr.name], b[1..]);
    assert (p + [c.attr.name])[|p|] == c.attr.name;
    assert (a + [j])[|a|] == j && (a + b)[|a|] == b[0];
    LeftSame(n.children[j], tomb || n.attr.tombstone, a + [j], done, a + b);
  }

  lemma {:induction false} NoChild(n: Node, tomb: bool, a: Address, p: Path, done: set<Address>, b: Address, k: Path)
    requires n.Dir? && WellNamed(n) && Entry(n, b).Some? && b != []
    requires forall j :: 0 <= j < |n.children| ==> !Under(p, n.children[j].attr.name, k)
    requires a !in done && (n.attr.group ==> a == [])
    ensures !(FullPath(n, p, b) <= k)
    ensures SameAt(DiskOf(Left(n, tomb, a, done + {a + b}), p), DiskOf(Left(n, tomb, a, done), p), k)
  {
    FirstStep(n, b);
    FullPathCons(n, p, b[0], b[1..]);
    var c, cs, t := n.children[b[0]], n.children, tomb || n.attr.tombstone;
    FullPathExtends(c, p + [c.attr.name], b[1..]);
    UnderIsPrefix(p, c.attr.name, k);
    LeftEachNamed(cs, t, a, 0, done);
    LeftEachNamed(cs, t, a, 0, done + {a + b});
    CompactOther(cs, LeftEach(cs, t, a, 0, done), p, k);
    CompactOther(cs, LeftEach(cs, t, a, 0, done + {a + b}), p, k);
    assert a != a + b;
  }

  // ----- What is left is a proper tree -----

  lemma {:induction false} CompactWellNamed(cs: seq<Node>, os: seq<Option<Node>>)
    requires Named(cs, os) && UniqueNames(cs)
    requires forall i :: 0 <= i < |os| && os[i].Some? ==> WellNamed(os[i].value)
    ensures UniqueNames(Compact(os)) && forall i :: 0 <= i < |Compact(os)| ==> WellNamed(Compact(os)[i])
    ensures forall i :: 0 <= i < |Compact(os)| ==>
              exists j :: 0 <= j < |cs| && Compact(os)[i].attr.name == cs[j].attr.name
    decreases |cs|
  {
    if cs != [] {
      var rest := Compact(os[1..]);
      assert forall j :: 0 <= j < |cs[1..]| ==> cs[1..][j] == cs[j + 1] && os[1..][j] == os[j + 1];
      CompactWellNamed(cs[1..], os[1..]);
      var front := if os[0].Some? then [os[0].value] else [];
      assert Compact(os) == front + rest;
      forall i | 0 <= i < |Compact(os)|
        ensures exists j :: 0 <= j < |cs| && Compact(os)[i].attr.name == cs[j].attr.name
      {
        if i < |front| {
          assert Compact(os)[i].attr.name == cs[0].attr.name;
        } else {
          var j :| 0 <= j < |cs[1..]| && rest[i - |front|].attr.name == cs[1..][j].attr.name;
          assert Compact(os)[i].attr.name == cs[j + 1].attr.name;
        }
      }
    }
  }

  lemma {:induction false} PurgedWellNamed(n: Node, tomb: bool)
    requires WellNamed(n)
    ensures Purged(n, tomb).Some? ==> WellNamed(Purged(n, tomb).value)
    decreases n
  {
    if n.Dir? {
      PurgedAllWellNamed(n.children, tomb || n.attr.tombstone);
    }
  }

  lemma {:induction false} PurgedAllWellNamed(cs: seq<Node>, tomb: bool)
    requires UniqueNames(cs) && forall i :: 0 <= i < |cs| ==> WellNamed(cs[i])
    ensures UniqueNames(PurgedAll(cs, tomb))
    ensures forall i :: 0 <= i < |PurgedAll(cs, tomb)| ==> WellNamed(PurgedAll(cs, tomb)[i])
    ensures forall i :: 0 <= i < |PurgedAll(cs, tomb)| ==>
              exists j :: 0 <= j < |cs| && PurgedAll(cs, tomb)[i].attr.name == cs[j].attr.name
    decreases cs
  {
    if cs != [] {
      var all, rest := PurgedAll(cs, tomb), PurgedAll(cs[1..], tomb);
      assert forall j :: 0 <= j < |cs[1..]| ==> cs[1..][j] == cs[j + 1];
      PurgedWellNamed(cs[0], tomb);
      PurgedKeepsName(cs[0], tomb);
      PurgedAllWellNamed(cs[1..], tomb);
      var front := if Purged(cs[0], tomb).Some? then [Purged(cs[0], tomb).value] else [];
      assert all == front + rest;
      forall i | 0 <= i < |all|
        ensures exists j :: 0 <= j < |cs| && all[i].attr.name == cs[j].attr.name
      {
        if i < |front| {
          assert all[i].attr.name == cs[0].attr.name;
        } else {
          var j :| 0 <= j < |cs[1..]| && rest[i - |front|].attr.name == cs[1..][j].attr.name;
          assert all[i].attr.name == cs[j + 1].attr.name;
        }
      }
    }
  }

  lemma {:induction false} LeftWellNamed(n: Node, tomb: bool, a: Address, done: set<Address>)
    requires WellNamed(n)
    ensures Left(n, tomb, a, done).Some? ==> WellNamed(Left(n, tomb, a, done).value)
    decreases n
  {
    PurgedWellNamed(n, tomb);
    if n.Dir? && a !in done && !(n.attr.group && a != []) {
      var cs, t := n.children, tomb || n.attr.tombstone;
      LeftEachNamed(cs, t, a, 0, done);
      forall i | 0 <= i < |cs|
        ensures var o := LeftEach(cs, t, a, 0, done)[i]; o.Some? ==> WellNamed(o.value)
      {
        LeftEachAt(cs, t, a, 0, done, i);
        LeftWellNamed(cs[i], t, a + [i], done);
      }
      CompactWellNamed(cs, LeftEach(cs, t, a, 0, done));
    }
  }

  // ----- One purge -----

  /** The disk once the items in `done` have been purged. */
  ghost function DiskAfter(disk: Disk, root: Node, path: Path, done: set<Address>): Disk
    requires root.Dir?
  {
    Replace(disk, path, Left(Flagged(root, false), false, [], done))
  }

  /** What is left of the item at an address, and the flag it was loaded with. */
  function LeftAt(root: Node, a: Address, done: set<Address>): Option<Node>
    requires root.Dir? && Entry(Flagged(root, false), a).Some?
  {
    Left(Entry(Flagged(root, false), a).value, MarkAbove(Flagged(root, false), false, a), a, done)
  }

  function FlagAt(root: Node, a: Address): bool
    requires root.Dir? && Entry(Flagged(root, false), a).Some?
  {
    Flag(Entry(Flagged(root, false), a).value, MarkAbove(Flagged(root, false), false, a))
  }

  /** The item is next: it and all directories above it are still there, all items below it are purged. */
  ghost predicate IsNext(root: Node, a: Address, done: set<Address>)
    requires root.Dir?
  {
    && a != [] && Pending(Flagged(root, false), [], a, done)
    && var n := Entry(Flagged(root, false), a).value;
    n.Dir? && !n.attr.group ==> forall j :: 0 <= j < |n.children| ==> a + [j] in done
  }

  lemma {:induction false} WholeIsLocal(disk: Disk, root: Node, path: Path, a: Address, done: set<Address>, k: Path)
    requires root.Dir? && WellNamed(root) && IsNext(root, a, done)
    ensures var px := FullPath(Flagged(root, false), path, a);
            && path <= px
            && Localized(DiskAfter(disk, root, path, done), DiskAfter(disk, root, path, done + {a}), px,
                         DiskOf(LeftAt(root, a, done), px), DiskOf(LeftAt(root, a, done + {a}), px), k)
  {
    var top := Flagged(root, false);
    assert WellNamed(top) && [] + a == a;
    ItemIsLocal(top, false, [], path, a, done, k);
    FullPathExtends(top, path, a);
    DiskBelow(Left(top, false, [], done), path, k);
    DiskBelow(Left(top, false, [], done + {a}), path, k);
  }

  /**
   * Purging the next item: the disk holds what is left of it, and purging that with the item's
   * flag gives the disk on which that item is done as well.
   */
  lemma {:induction false} NextPurge(disk: Disk, root: Node, path: Path, a: Address, done: set<Address>)
    requires root.Dir? && WellNamed(root) && IsNext(root, a, done)
    ensures LeftAt(root, a, done).Some? && WellNamed(LeftAt(root, a, done).value)
    ensures var now, px, tree := DiskAfter(disk, root, path, done), FullPath(Flagged(root, false), path, a),
                                 LeftAt(root, a, done).value;
            && Holds(now, px, tree)
            && Replace(now, px, PurgedItem(tree, FlagAt(root, a))) == DiskAfter(disk, root, path, done + {a})
  {
    var top := Flagged(root, false);
    var n, mark, px := Entry(top, a).value, MarkAbove(top, false, a), FullPath(top, path, a);
    assert a !in done by {
      assert [] + a == a;
    }
    ItemDone(n, mark, a, done);
    EntryWellNamed(top, a);
    LeftWellNamed(n, mark, a, done);
    var now, after := DiskAfter(disk, root, path, done), DiskAfter(disk, root, path, done + {a});
    var tree := LeftAt(root, a, done).value;
    forall k
      ensures HoldsAt(now, px, tree, k)
    {
      WholeIsLocal(disk, root, path, a, done, k);
    }
    var got := Replace(now, px, PurgedItem(tree, FlagAt(root, a)));
    forall k
      ensures SameAt(got, after, k)
    {
      WholeIsLocal(disk, root, path, a, done, k);
      DiskBelow(LeftAt(root, a, done + {a}), px, k);
    }
    SameEverywhere(got, after);
  }

  lemma {:induction false} EntryWellNamed(n: Node, b: Address)
    requires WellNamed(n) && Entry(n, b).Some?
    ensures WellNamed(Entry(n, b).value)
    decreases |b|
  {
    if b != [] {
      FirstStep(n, b);
      EntryWellNamed(n.children[b[0]], b[1..]);
    }
  }

  // ----- All items -----

  lemma {:induction false} CompactPurged(cs: seq<Node>, pre: Address, i: nat, done: set<Address>)
    requires forall j :: i <= j < i + |cs| ==> pre + [j] in done
    ensures Compact(LeftEach(cs, false, pre, i, done)) == PurgedAll(cs, false)
    decreases |cs|
  {
    if cs != [] {
      assert pre + [i] in done;
      CompactPurged(cs[1..], pre, i + 1, done);
      assert LeftEach(cs, false, pre, i, done)[1..] == LeftEach(cs[1..], false, pre, i + 1, done);
    }
  }

  /** Once all items are purged, the cache directory is there with what a recursive purge keeps in it. */
  lemma {:induction false} AllPurged(disk: Disk, root: Node, path: Path, done: set<Address>)
    requires root.Dir? && [] !in done && forall j :: 0 <= j < |root.children| ==> [j] in done
    ensures DiskAfter(disk, root, path, done) ==
            Replace(disk, path, Some(Dir(root.attr, PurgedAll(root.children, false))))
  {
    forall j | 0 <= j < |root.children|
      ensures [] + [j] in done
    {
      assert [] + [j] == [j];
    }
    CompactPurged(root.children, [], 0, done);
  }

  lemma {:induction false} NothingPurged(disk: Disk, root: Node, path: Path)
    requires root.Dir? && Holds(disk, path, root)
    ensures DiskAfter(disk, root, path, {}) == disk
  {
    var top, want := Flagged(root, false), DiskAfter(disk, root, path, {});
    LeftUntouched(top, false, []);
    forall k
      ensures SameAt(want, disk, k)
    {
      assert HoldsAt(disk, path, root, k);
      LayoutBelow(root, path, k);
      assert Layout(top, path) == Layout(root, path);
    }
    SameEverywhere(want, disk);
  }

  lemma {:induction false} LeftUntouched(n: Node, tomb: bool, a: Address)
    ensures Left(n, tomb, a, {}) == Some(n)
    decreases n
  {
    if n.Dir? {
      LeftEachUntouched(n.children, tomb || n.attr.tombstone, a, 0);
    }
  }

  lemma {:induction false} LeftEachUntouched(cs: seq<Node>, tomb: bool, pre: Address, i: nat)
    ensures Compact(LeftEach(cs, tomb, pre, i, {})) == cs
    decreases cs
  {
    if cs != [] {
      LeftUntouched(cs[0], tomb, pre + [i]);
      LeftEachUntouched(cs[1..], tomb, pre, i + 1);
      assert LeftEach(cs, tomb, pre, i, {})[1..] == LeftEach(cs[1..], tomb, pre, i + 1, {});
      assert [cs[0]] + cs[1..] == cs;
    }
  }

  // ----- The flag an item was loaded with -----

  lemma {:induction false} MarkIs(n: Node, tomb: bool, b: Address)
    requires Entry(n, b).Some?
    ensures MarkAbove(n, tomb, b) <==> tomb || exists j :: 0 <= j < |b| && HasTombstone(n, b[..j])
    decreases |b|
  {
    if b != [] {
      FirstStep(n, b);
      var c, rest := n.children[b[0]], b[1..];
      MarkIs(c, tomb || n.attr.tombstone, rest);
      if j :| 0 <= j < |rest| && HasTombstone(c, rest[..j]) {
        assert b[..j + 1] == [b[0]] + rest[..j];
        EntryCons(n, b[0], rest[..j]);
        assert HasTombstone(n, b[..j + 1]);
      }
      if j :| 0 <= j < |b| && HasTombstone(n, b[..j]) {
        if j > 0 {
          assert b[..j] == [b[0]] + rest[..j - 1];
          EntryCons(n, b[0], rest[..j - 1]);
          assert HasTombstone(c, rest[..j - 1]);
        }
      }
      if n.attr.tombstone {
        assert b[..0] == [] && HasTombstone(n, b[..0]);
      }
    }
  }

  lemma {:induction false} FlagIsTombstone(root: Node, a: Address)
    requires root.Dir? && a != [] && Entry(root, a).Some?
    ensures Entry(Flagged(root, false), a) == Entry(root, a)
    ensures FlagAt(root, a) <==> Tombstoned(root, a)
  {
    var top := Flagged(root, false);
    FlaggedEntries(root, false, [], a);
    MarkIs(top, false, a);
    if j :| 0 <= j < |a| && HasTombstone(top, a[..j]) {
      FlaggedEntries(root, false, [], a[..j]);
      assert HasTombstone(root, a[..j]);
    }
    if j :| 1 <= j <= |a| && HasTombstone(root, a[..j]) {
      FlaggedEntries(root, false, [], a[..j]);
      if j == |a| {
        assert a[..j] == a;
      } else {
        assert HasTombstone(top, a[..j]);
      }
    }
    if HasTombstone(root, a) {
      assert a[..|a|] == a;
    }
  }

  /**
   * So after all items of a cache directory are purged, a path below it exists exactly when it
   * leads to a regular file under a tombstoned directory: that file, now empty, or a directory
   * above it.
   */
  lemma {:induction false} EvictionLeavesSurvivors(disk: Disk, root: Node, path: Path, p: Path)
    requires root.Dir? && WellNamed(root) && path < p
    ensures var after := Replace(disk, path, Some(Dir(root.attr, PurgedAll(root.children, false))));
            && (p in after <==> exists a :: Survives(root, false, a) && p <= FullPath(root, path, a))
            && (forall a :: Survives(root, false, a) && p <= FullPath(root, path, a) ==>
                  p in after && after[p] == if p == FullPath(root, path, a) then File(0) else Directory)
  {
    PurgeLeavesSurvivors(disk, path, root, false, p);
    var kept := PurgedAll(root.children, false);
    var after, item := Replace(disk, path, Some(Dir(root.attr, kept))), Replace(disk, path, PurgedItem(root, false));
    if kept == [] {
      assert Layout(Dir(root.attr, kept), path) == map[path := Directory] + map[];
    }
    assert SameAt(after, item, p);
  }
}
