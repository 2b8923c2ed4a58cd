/**
 * CacheItem::purge: deletes an item from disk. Directories are walked in one pass; regular files
 * below a tombstoned directory are kept but emptied.
 *
 * The disk is a flat map from paths to entries, and a directory can be removed only when nothing
 * is below it. No other operation fails.
 */
module Purging {
  import opened Common
  import opened Fts
  import opened CacheItemFacts

  datatype FsEntry = File(size: nat) | Other | Directory

  type Disk = map<Path, FsEntry>

  function EntryOf(n: Node): FsEntry {
    match n
    case Leaf(attr, regular) => if regular then File(attr.size) else Other
    case Dir(_, _) => Directory
  }

  /** A tree laid out as paths. */
  function Layout(n: Node, path: Path): Disk
    decreases n
  {
    match n
    case Leaf(_, _) => map[path := EntryOf(n)]
    case Dir(_, children) => map[path := Directory] + LayoutAll(children, path)
  }

  function LayoutAll(cs: seq<Node>, parent: Path): Disk
    decreases cs
  {
    if cs == [] then map[] else Layout(cs[0], parent + [cs[0].attr.name]) + LayoutAll(cs[1..], parent)
  }

  predicate UniqueNames(cs: seq<Node>) {
    forall i, j :: 0 <= i < j < |cs| ==> cs[i].attr.name != cs[j].attr.name
  }

  /** No two entries of one directory have the same name. */
  predicate WellNamed(n: Node)
    decreases n
  {
    n.Dir? ==> UniqueNames(n.children) && forall i :: 0 <= i < |n.children| ==> WellNamed(n.children[i])
  }

  // ----- Specification -----

  /** What purging leaves of an entry, given whether a directory above it is tombstoned. */
  function Purged(n: Node, tomb: bool): Option<Node>
    decreases n
  {
    match n
    case Leaf(attr, regular) => if regular && tomb then Some(Leaf(attr.(size := 0), true)) else None
    case Dir(attr, children) =>
      var kept := PurgedAll(children, tomb || attr.tombstone);
      if kept == [] then None else Some(Dir(attr, kept))
  }

  function PurgedAll(cs: seq<Node>, tomb: bool): seq<Node>
    decreases cs
  {
    if cs == [] then []
    else
      var first := Purged(cs[0], tomb);
      (if first.Some? then [first.value] else []) + PurgedAll(cs[1..], tomb)
  }

  /** The disk after everything at or below a path has been replaced. */
  function Replace(disk: Disk, path: Path, n: Option<Node>): Disk {
    (map k | k in disk && !(path <= k) :: disk[k]) + (if n.Some? then Layout(n.value, path) else map[])
  }

  function ReplaceAll(disk: Disk, parent: Path, cs: seq<Node>, tomb: bool): Disk
    decreases |cs|
  {
    if cs == [] then disk
    else ReplaceAll(Replace(disk, parent + [cs[0].attr.name], Purged(cs[0], tomb)), parent, cs[1..], tomb)
  }

  // ----- The walk as a state machine over events -----

  /** `marks[l]` is the fts_number of the directory open at level `l`. */
  datatype Walk = Walk(disk: Disk, marks: seq<bool>, res: int)

  predicate MarkAt(marks: seq<bool>, level: int) {
    0 <= level < |marks| && marks[level]
  }

  /** Something is left in the directory. */
  predicate Occupied(disk: Disk, path: Path) {
    exists k :: k in disk && path < k
  }

  function Step(w: Walk, e: Event, tombstone: bool): Walk {
    match e.info
    case D =>
      var mark := if e.level == 0 then tombstone else MarkAt(w.marks, e.level - 1) || e.attr.tombstone;
      w.(marks := (if e.level <= |w.marks| then w.marks[..e.level] else w.marks) + [mark])
    case F =>
      if MarkAt(w.marks, e.level - 1) then w.(disk := w.disk[e.path := File(0)]) else w.(disk := w.disk - {e.path})
    case Special => w.(disk := w.disk - {e.path})
    case DP =>
      var marks := if e.level <= |w.marks| then w.marks[..e.level] else w.marks;
      if Occupied(w.disk, e.path) then Walk(w.disk, marks, -1) else Walk(w.disk - {e.path}, marks, w.res)
  }

  function Fold(w: Walk, es: seq<Event>, tombstone: bool): Walk
    decreases |es|
  {
    if es == [] then w else Fold(Step(w, es[0], tombstone), es[1..], tombstone)
  }

  lemma {:induction false} FoldAppend(w: Walk, es: seq<Event>, rest: seq<Event>, tombstone: bool)
    ensures Fold(w, es + rest, tombstone) == Fold(Fold(w, es, tombstone), rest, tombstone)
    decreases |es|
  {
    if es == [] {
      assert es + rest == rest;
    } else {
      assert (es + rest)[0] == es[0] && (es + rest)[1..] == es[1..] + rest;
      FoldAppend(Step(w, es[0], tombstone), es[1..], rest, tombstone);
    }
  }

  lemma {:induction false} FoldDir(w: Walk, first: Event, inner: seq<Event>, last: Event, tombstone: bool)
    ensures Fold(w, [first] + inner + [last], tombstone) ==
            Step(Fold(Step(w, first, tombstone), inner, tombstone), last, tombstone)
  {
    FoldAppend(w, [first] + inner, [last], tombstone);
    FoldAppend(w, [first], inner, tombstone);
    FoldOne(w, first, tombstone);
    FoldOne(Fold(w, [first] + inner, tombstone), last, tombstone);
  }

  lemma FoldOne(w: Walk, e: Event, tombstone: bool)
    ensures Fold(w, [e], tombstone) == Step(w, e, tombstone)
  {
    assert [e][1..] == [];
  }

  // ----- Layout facts -----

  /** Two disks agree at a path. */
  ghost predicate SameAt(a: Disk, b: Disk, k: Path) {
    (k in a <==> k in b) && (k in a ==> a[k] == b[k])
  }

  ghost predicate HoldsAt(disk: Disk, path: Path, n: Node, k: Path) {
    path <= k ==> SameAt(disk, Layout(n, path), k)
  }

  /** The disk holds a tree's entries at and below a path, and nothing else there. */
  ghost predicate Holds(disk: Disk, path: Path, n: Node) {
    forall k :: HoldsAt(disk, path, n, k)
  }

  predicate Under(parent: Path, name: string, k: Path) {
    |parent| < |k| && parent <= k && k[|parent|] == name
  }

  lemma UnderIsPrefix(parent: Path, name: string, k: Path)
    ensures parent + [name] <= k <==> Under(parent, name, k)
  {
  }

  lemma {:induction false} LayoutBelow(n: Node, path: Path, k: Path)
    ensures k in Layout(n, path) ==> path <= k
    ensures path in Layout(n, path) && Layout(n, path)[path] == EntryOf(n)
    decreases n
  {
    if n.Dir? {
      LayoutAllAt(n.children, path, k);
      LayoutAllAt(n.children, path, path);
    }
  }

  /** Children lay out under their own names. */
  lemma {:induction false} LayoutAllAt(cs: seq<Node>, parent: Path, k: Path)
    ensures k in LayoutAll(cs, parent) ==> parent < k && exists i :: 0 <= i < |cs| && Under(parent, cs[i].attr.name, k)
    decreases cs
  {
    if cs != [] {
      LayoutBelow(cs[0], parent + [cs[0].attr.name], k);
      UnderIsPrefix(parent, cs[0].attr.name, k);
      LayoutAllAt(cs[1..], parent, k);
      if k in LayoutAll(cs[1..], parent) {
        var i :| 0 <= i < |cs[1..]| && Under(parent, cs[1..][i].attr.name, k);
        assert Under(parent, cs[i + 1].attr.name, k);
      } else if k in LayoutAll(cs, parent) {
        assert Under(parent, cs[0].attr.name, k);
      }
    }
  }

  /** With unique names, what lies under a child's name is that child's layout. */
  lemma {:induction false} LayoutAllChild(cs: seq<Node>, parent: Path, i: nat, k: Path)
    requires UniqueNames(cs) && i < |cs| && Under(parent, cs[i].attr.name, k)
    ensures k in LayoutAll(cs, parent) <==> k in Layout(cs[i], parent + [cs[i].attr.name])
    ensures k in LayoutAll(cs, parent) ==> LayoutAll(cs, parent)[k] == Layout(cs[i], parent + [cs[i].attr.name])[k]
    decreases cs
  {
    if i == 0 {
      LayoutAllAt(cs[1..], parent, k);
    } else {
      LayoutBelow(cs[0], parent + [cs[0].attr.name], k);
      UnderIsPrefix(parent, cs[0].attr.name, k);
      assert cs[1..][i - 1] == cs[i];
      LayoutAllChild(cs[1..], parent, i - 1, k);
    }
  }

  lemma {:induction false} PurgedKeepsName(n: Node, tomb: bool)
    ensures Purged(n, tomb).Some? ==> Purged(n, tomb).value.attr.name == n.attr.name
  {
  }

  /** What a purged child leaves under its own name. */
  ghost function Remains(n: Node, path: Path, tomb: bool): Disk {
    if Purged(n, tomb).Some? then Layout(Purged(n, tomb).value, path) else map[]
  }

  lemma {:induction false} ReplaceAt(disk: Disk, path: Path, n: Node, tomb: bool, k: Path)
    ensures path <= k ==> SameAt(Replace(disk, path, Purged(n, tomb)), Remains(n, path, tomb), k)
    ensures !(path <= k) ==> SameAt(Replace(disk, path, Purged(n, tomb)), disk, k)
  {
    if Purged(n, tomb).Some? {
      LayoutBelow(Purged(n, tomb).value, path, k);
    }
  }

  /** Purging the children changes nothing that is not under one of their names. */
  lemma {:induction false} ReplaceAllOther(disk: Disk, parent: Path, cs: seq<Node>, tomb: bool, k: Path)
    requires forall i :: 0 <= i < |cs| ==> !Under(parent, cs[i].attr.name, k)
    ensures SameAt(ReplaceAll(disk, parent, cs, tomb), disk, k)
    decreases |cs|
  {
    if cs != [] {
      var path := parent + [cs[0].attr.name];
      UnderIsPrefix(parent, cs[0].attr.name, k);
      ReplaceAt(disk, path, cs[0], tomb, k);
      assert forall i :: 0 <= i < |cs[1..]| ==> !Under(parent, cs[1..][i].attr.name, k) by {
        assert forall i :: 0 <= i < |cs[1..]| ==> cs[1..][i] == cs[i + 1];
      }
      ReplaceAllOther(Replace(disk, path, Purged(cs[0], tomb)), parent, cs[1..], tomb, k);
    }
  }

  lemma {:induction false} ReplaceAllChild(disk: Disk, parent: Path, cs: seq<Node>, tomb: bool, i: nat, k: Path)
    requires UniqueNames(cs) && i < |cs| && Under(parent, cs[i].attr.name, k)
    ensures SameAt(ReplaceAll(disk, parent, cs, tomb), Remains(cs[i], parent + [cs[i].attr.name], tomb), k)
    decreases |cs|
  {
    var path := parent + [cs[0].attr.name];
    var disk1 := Replace(disk, path, Purged(cs[0], tomb));
    if i == 0 {
      UnderIsPrefix(parent, cs[0].attr.name, k);
      ReplaceAt(disk, path, cs[0], tomb, k);
      ReplaceAllOther(disk1, parent, cs[1..], tomb, k);
    } else {
      assert cs[1..][i - 1] == cs[i];
      ReplaceAllChild(disk1, parent, cs[1..], tomb, i - 1, k);
    }
  }

  lemma {:induction false} KeptChild(cs: seq<Node>, parent: Path, tomb: bool, i: nat, k: Path)
    requires UniqueNames(cs) && i < |cs| && Under(parent, cs[i].attr.name, k)
    ensures SameAt(LayoutAll(PurgedAll(cs, tomb), parent), Remains(cs[i], parent + [cs[i].attr.name], tomb), k)
    decreases |cs|
  {
    var path := parent + [cs[0].attr.name];
    KeptSplit(cs, parent, tomb);
    RemainsBelow(cs[0], path, tomb, k);
    UnderIsPrefix(parent, cs[0].attr.name, k);
    if i == 0 {
      KeptOther(cs[1..], parent, tomb, k);
    } else {
      assert cs[1..][i - 1] == cs[i];
      KeptChild(cs[1..], parent, tomb, i - 1, k);
    }
  }

  lemma {:induction false} KeptSplit(cs: seq<Node>, parent: Path, tomb: bool)
    requires cs != []
    ensures LayoutAll(PurgedAll(cs, tomb), parent) ==
            Remains(cs[0], parent + [cs[0].attr.name], tomb) + LayoutAll(PurgedAll(cs[1..], tomb), parent)
  {
    var first, rest := Purged(cs[0], tomb), PurgedAll(cs[1..], tomb);
    PurgedKeepsName(cs[0], tomb);
    if first.Some? {
      assert ([first.value] + rest)[1..] == rest;
    } else {
      assert [] + rest == rest;
    }
  }

  lemma {:induction false} RemainsBelow(n: Node, path: Path, tomb: bool, k: Path)
    ensures k in Remains(n, path, tomb) ==> path <= k
  {
    if Purged(n, tomb).Some? {
      LayoutBelow(Purged(n, tomb).value, path, k);
    }
  }

  lemma {:induction false} KeptOther(cs: seq<Node>, parent: Path, tomb: bool, k: Path)
    requires forall i :: 0 <= i < |cs| ==> !Under(parent, cs[i].attr.name, k)
    ensures k !in LayoutAll(PurgedAll(cs, tomb), parent)
    decreases |cs|
  {
    if cs != [] {
      KeptSplit(cs, parent, tomb);
      RemainsBelow(cs[0], parent + [cs[0].attr.name], tomb, k);
      UnderIsPrefix(parent, cs[0].attr.name, k);
      assert forall i :: 0 <= i < |cs[1..]| ==> !Under(parent, cs[1..][i].attr.name, k) by {
        assert forall i :: 0 <= i < |cs[1..]| ==> cs[1..][i] == cs[i + 1];
      }
      KeptOther(cs[1..], parent, tomb, k);
    }
  }

  /** Below a path the disk is as laid out, elsewhere it is as before. */
  ghost predicate OnlyBelow(after: Disk, before: Disk, path: Path, below: Disk, k: Path) {
    if path < k then SameAt(after, below, k) else SameAt(after, before, k)
  }

  /** After the children of a directory have been purged, what was kept is what is left below it. */
  lemma {:induction false} ChildrenPurged(disk: Disk, path: Path, n: Node, tomb: bool, k: Path)
    requires n.Dir? && WellNamed(n) && Holds(disk, path, n)
    ensures OnlyBelow(ReplaceAll(disk, path, n.children, tomb), disk, path,
                      LayoutAll(PurgedAll(n.children, tomb), path), k)
  {
    if i :| 0 <= i < |n.children| && Under(path, n.children[i].attr.name, k) {
      ReplaceAllChild(disk, path, n.children, tomb, i, k);
      KeptChild(n.children, path, tomb, i, k);
    } else {
      ReplaceAllOther(disk, path, n.children, tomb, k);
      KeptOther(n.children, path, tomb, k);
      LayoutAllAt(n.children, path, k);
      assert HoldsAt(disk, path, n, k);
    }
  }

  // ----- The walk meets the specification -----

  function ResAfter(cs: seq<Node>, tomb: bool, res: int): int
    decreases |cs|
  {
    if cs == [] then res
    else ResAfter(cs[1..], tomb, if cs[0].Dir? && Purged(cs[0], tomb).Some? then -1 else res)
  }

  lemma {:induction false} NothingKept(cs: seq<Node>, tomb: bool, res: int)
    requires PurgedAll(cs, tomb) == []
    ensures ResAfter(cs, tomb, res) == res
    decreases |cs|
  {
    if cs != [] {
      NothingKept(cs[1..], tomb, res);
    }
  }

  lemma SameEverywhere(a: Disk, b: Disk)
    requires forall k :: SameAt(a, b, k)
    ensures a == b
  {
    assert forall k :: k in a ==> SameAt(a, b, k);
    assert forall k :: k in b ==> SameAt(a, b, k);
    assert a.Keys == b.Keys;
  }

  /** The directory's own entry, once its children are done. */
  lemma {:induction false} CloseDir(disk: Disk, path: Path, n: Node, tomb: bool)
    requires n.Dir? && WellNamed(n) && Holds(disk, path, n)
    ensures var after, kept := ReplaceAll(disk, path, n.children, tomb), PurgedAll(n.children, tomb);
            && (Occupied(after, path) <==> kept != [])
            && (kept != [] ==> after == Replace(disk, path, Some(Dir(n.attr, kept))))
            && (kept == [] ==> after - {path} == Replace(disk, path, None))
  {
    var after, kept := ReplaceAll(disk, path, n.children, tomb), PurgedAll(n.children, tomb);
    forall k
      ensures OnlyBelow(after, disk, path, LayoutAll(kept, path), k)
    {
      ChildrenPurged(disk, path, n, tomb, k);
    }
    if kept != [] {
      var k := path + [kept[0].attr.name];
      LayoutBelow(kept[0], k, k);
      assert k in LayoutAll(kept, path) && path < k;
      assert OnlyBelow(after, disk, path, LayoutAll(kept, path), k);
      assert k in after;
      LayoutBelow(n, path, path);
      assert HoldsAt(disk, path, n, path);
      DirReplaced(disk, after, path, n, kept);
    } else {
      assert LayoutAll(kept, path) == map[];
      DirRemoved(disk, after, path);
    }
  }

  lemma {:induction false} DirReplaced(disk: Disk, after: Disk, path: Path, n: Node, kept: seq<Node>)
    requires n.Dir? && path in disk && disk[path] == Directory
    requires forall k :: OnlyBelow(after, disk, path, LayoutAll(kept, path), k)
    ensures after == Replace(disk, path, Some(Dir(n.attr, kept)))
  {
    var want := Replace(disk, path, Some(Dir(n.attr, kept)));
    forall k
      ensures SameAt(after, want, k)
    {
      assert OnlyBelow(after, disk, path, LayoutAll(kept, path), k);
      LayoutAllAt(kept, path, k);
      assert path <= k <==> path < k || k == path;
    }
    SameEverywhere(after, want);
  }

  lemma {:induction false} DirRemoved(disk: Disk, after: Disk, path: Path)
    requires forall k :: OnlyBelow(after, disk, path, map[], k)
    ensures !Occupied(after, path) && after - {path} == Replace(disk, path, None)
  {
    assert forall k :: k in after && path < k ==> OnlyBelow(after, disk, path, map[], k);
    var got, want := after - {path}, Replace(disk, path, None);
    forall k
      ensures SameAt(got, want, k)
    {
      assert OnlyBelow(after, disk, path, map[], k);
      assert path <= k <==> path < k || k == path;
    }
    SameEverywhere(got, want);
  }

  lemma {:induction false} PurgeLeaf(w: Walk, n: Node, level: nat, path: Path, tombstone: bool)
    requires level >= 1 && |w.marks| == level && n.Leaf? && Holds(w.disk, path, n)
    ensures Fold(w, Events(n, level, path), tombstone) ==
            w.(disk := Replace(w.disk, path, Purged(n, w.marks[level - 1])))
  {
    var e := Event(if n.regular then F else Special, level, path, n.attr);
    FoldOne(w, e, tombstone);
    var got, want := Step(w, e, tombstone).disk, Replace(w.disk, path, Purged(n, w.marks[level - 1]));
    forall k
      ensures SameAt(got, want, k)
    {
      assert HoldsAt(w.disk, path, n, k);
    }
    SameEverywhere(got, want);
  }

  lemma {:induction false} PurgeNode(w: Walk, n: Node, level: nat, path: Path, tombstone: bool)
    requires level >= 1 && |w.marks| == level && WellNamed(n) && Holds(w.disk, path, n)
    ensures var after := Purged(n, w.marks[level - 1]);
            Fold(w, Events(n, level, path), tombstone) ==
            Walk(Replace(w.disk, path, after), w.marks, if n.Dir? && after.Some? then -1 else w.res)
    decreases n
  {
    match n
    case Leaf(_, _) =>
      PurgeLeaf(w, n, level, path, tombstone);
    case Dir(attr, children) =>
      var first, last := Event(D, level, path, attr), Event(DP, level, path, attr);
      var mark := w.marks[level - 1] || attr.tombstone;
      var w1, inner := w.(marks := w.marks + [mark]), EventsAll(children, level + 1, path);
      assert Events(n, level, path) == [first] + inner + [last];
      FoldDir(w, first, inner, last, tombstone);
      assert Step(w, first, tombstone) == w1;
      HoldsChildren(w.disk, path, n);
      PurgeChildren(w1, children, level + 1, path, tombstone);
      CloseWalk(w, w1, n, level, path, mark, tombstone);
  }

  /** The post-order visit of a directory whose children are done. */
  lemma {:induction false} CloseWalk(w: Walk, w1: Walk, n: Node, level: nat, path: Path, mark: bool, tombstone: bool)
    requires n.Dir? && WellNamed(n) && Holds(w.disk, path, n) && |w.marks| == level
    requires w1 == w.(marks := w.marks + [mark])
    ensures var kept := PurgedAll(n.children, mark);
            var w2 := Walk(ReplaceAll(w.disk, path, n.children, mark), w1.marks, ResAfter(n.children, mark, w.res));
            Step(w2, Event(DP, level, path, n.attr), tombstone) ==
            if kept == [] then w.(disk := Replace(w.disk, path, None))
            else Walk(Replace(w.disk, path, Some(Dir(n.attr, kept))), w.marks, -1)
  {
    CloseDir(w.disk, path, n, mark);
    assert w1.marks[..level] == w.marks;
    if PurgedAll(n.children, mark) == [] {
      NothingKept(n.children, mark, w.res);
    }
  }

  /** Each child of a directory on disk is on disk. */
  ghost predicate HoldsEach(disk: Disk, parent: Path, cs: seq<Node>) {
    forall i :: 0 <= i < |cs| ==> Holds(disk, parent + [cs[i].attr.name], cs[i])
  }

  lemma {:induction false} HoldsChildren(disk: Disk, path: Path, n: Node)
    requires n.Dir? && WellNamed(n) && Holds(disk, path, n)
    ensures HoldsEach(disk, path, n.children)
  {
    var cs := n.children;
    forall i, k | 0 <= i < |cs|
      ensures HoldsAt(disk, path + [cs[i].attr.name], cs[i], k)
    {
      UnderIsPrefix(path, cs[i].attr.name, k);
      if Under(path, cs[i].attr.name, k) {
        assert HoldsAt(disk, path, n, k);
        LayoutAllChild(cs, path, i, k);
      }
    }
  }

  lemma {:induction false} HoldsRest(disk: Disk, parent: Path, cs: seq<Node>, tomb: bool)
    requires cs != [] && UniqueNames(cs) && HoldsEach(disk, parent, cs)
    ensures HoldsEach(Replace(disk, parent + [cs[0].attr.name], Purged(cs[0], tomb)), parent, cs[1..])
  {
    var path := parent + [cs[0].attr.name];
    var rest := cs[1..];
    forall i, k | 0 <= i < |rest|
      ensures HoldsAt(Replace(disk, path, Purged(cs[0], tomb)), parent + [rest[i].attr.name], rest[i], k)
    {
      assert rest[i] == cs[i + 1];
      assert Holds(disk, parent + [cs[i + 1].attr.name], cs[i + 1]);
      assert HoldsAt(disk, parent + [rest[i].attr.name], rest[i], k);
      UnderIsPrefix(parent, cs[0].attr.name, k);
      UnderIsPrefix(parent, rest[i].attr.name, k);
      ReplaceAt(disk, path, cs[0], tomb, k);
    }
  }

  lemma {:induction false} PurgeChildren(w: Walk, cs: seq<Node>, level: nat, parent: Path, tombstone: bool)
    requires level >= 1 && |w.marks| == level && UniqueNames(cs) && HoldsEach(w.disk, parent, cs)
    requires forall i :: 0 <= i < |cs| ==> WellNamed(cs[i])
    ensures var mark := w.marks[level - 1];
            Fold(w, EventsAll(cs, level, parent), tombstone) ==
            Walk(ReplaceAll(w.disk, parent, cs, mark), w.marks, ResAfter(cs, mark, w.res))
    decreases cs
  {
    if cs != [] {
      var path, mark := parent + [cs[0].attr.name], w.marks[level - 1];
      var es, more := Events(cs[0], level, path), EventsAll(cs[1..], level, parent);
      var after := Purged(cs[0], mark);
      var w1 := Walk(Replace(w.disk, path, after), w.marks, if cs[0].Dir? && after.Some? then -1 else w.res);
      assert Fold(w, es + more, tombstone) == Fold(w1, more, tombstone) by {
        FoldAppend(w, es, more, tombstone);
        assert Holds(w.disk, path, cs[0]);
        PurgeNode(w, cs[0], level, path, tombstone);
      }
      HoldsRest(w.disk, parent, cs, mark);
      assert forall i :: 0 <= i < |cs[1..]| ==> cs[1..][i] == cs[i + 1];
      PurgeChildren(w1, cs[1..], level, parent, tombstone);
    }
  }

  /** What purging leaves of an item. A tombstoned leaf is truncated in place, whatever it is. */
  function PurgedItem(n: Node, tombstone: bool): Option<Node> {
    match n
    case Leaf(attr, regular) =>
      if !tombstone then None else if regular then Some(Leaf(attr.(size := 0), true)) else Some(n)
    case Dir(attr, children) =>
      var kept := PurgedAll(children, tombstone);
      if kept == [] then None else Some(Dir(attr, kept))
  }

  lemma {:induction false} PurgeWalk(disk: Disk, n: Node, path: Path, tombstone: bool)
    requires n.Dir? && WellNamed(n) && Holds(disk, path, n)
    ensures var after := PurgedItem(n, tombstone);
            Fold(Walk(disk, [], 0), Events(n, 0, path), tombstone) ==
            Walk(Replace(disk, path, after), [], if after.Some? then -1 else 0)
  {
    var w := Walk(disk, [], 0);
    var w1 := w.(marks := [tombstone]);
    FoldDir(w, Event(D, 0, path, n.attr), EventsAll(n.children, 1, path), Event(DP, 0, path, n.attr), tombstone);
    assert w.marks + [tombstone] == [tombstone];
    assert Step(w, Event(D, 0, path, n.attr), tombstone) == w1;
    HoldsChildren(disk, path, n);
    PurgeChildren(w1, n.children, 1, path, tombstone);
    CloseWalk(w, w1, n, 0, path, tombstone, tombstone);
  }

  class FileSystem {
    var disk: Disk

    constructor (d: Disk)
      ensures disk == d
    {
      disk := d;
    }

    /**
     * Deletes the item at `path`, whose subtree is `tree`. `specialOk` is whether truncating
     * something other than a regular file succeeds.
     */
    method Purge(path: Path, tree: Node, tombstone: bool, specialOk: bool) returns (res: int)
      requires WellNamed(tree) && Holds(disk, path, tree)
      modifies this
      ensures disk == Replace(old(disk), path, PurgedItem(tree, tombstone))
      ensures tree.Dir? ==> (res == 0 <==> PurgedItem(tree, tombstone).None?)
      ensures tree.Leaf? && (!tombstone || tree.regular) ==> res == 0
      ensures res == 0 || res == -1
    {
      res := 0;
      if tree.Dir? {
        var events := Events(tree, 0, path);
        PurgeWalk(disk, tree, path, tombstone);
        ghost var goal := Fold(Walk(disk, [], 0), events, tombstone);
        var marks: seq<bool> := [];
        for i := 0 to |events|
          invariant goal == Fold(Walk(disk, marks, res), events[i..], tombstone)
        {
          var p := events[i];
          FoldNext(Walk(disk, marks, res), events, i, tombstone);
          marks, res := Visit(p, marks, tombstone, res);
        }
        assert events[|events|..] == [];
      } else {
        assert HoldsAt(disk, path, tree, path);
        if tombstone {
          Truncate(path);
          if !tree.regular && !specialOk {
            res := -1;
          }
        } else {
          disk := disk - {path};
        }
        LeafReplaced(old(disk), disk, path, tree, tombstone);
      }
    }

    /** truncate(2): empties a regular file; anything else keeps its own entry. */
    method Truncate(path: Path)
      requires path in disk
      modifies this
      ensures disk == old(disk)[path := if old(disk)[path].File? then File(0) else old(disk)[path]]
    {
      if disk[path].File? {
        disk := disk[path := File(0)];
      }
    }

    /** One entry of the walk. */
    method Visit(p: Event, marks: seq<bool>, tombstone: bool, res: int) returns (marks': seq<bool>, res': int)
      modifies this
      ensures Walk(disk, marks', res') == Step(old(Walk(disk, marks, res)), p, tombstone)
    {
      marks', res' := marks, res;
      match p.info {
        case D =>
          var number := if p.level == 0 then tombstone else MarkAt(marks, p.level - 1) || p.attr.tombstone;
          marks' := (if p.level <= |marks| then marks[..p.level] else marks) + [number];
        case F =>
          if MarkAt(marks, p.level - 1) {
            disk := disk[p.path := File(0)];
          } else {
            disk := disk - {p.path};
          }
        case Special =>
          disk := disk - {p.path};
        case DP =>
          marks' := if p.level <= |marks| then marks[..p.level] else marks;
          if Occupied(disk, p.path) {
            res' := -1;
          } else {
            disk := disk - {p.path};
          }
      }
    }
  }

  lemma FoldNext(w: Walk, events: seq<Event>, i: nat, tombstone: bool)
    requires i < |events|
    ensures Fold(w, events[i..], tombstone) == Fold(Step(w, events[i], tombstone), events[i + 1..], tombstone)
  {
    assert events[i..][0] == events[i] && events[i..][1..] == events[i + 1..];
  }

  lemma LeafReplaced(before: Disk, after: Disk, path: Path, n: Node, tombstone: bool)
    requires n.Leaf? && Holds(before, path, n) && path in before
    requires after == if tombstone then before[path := if before[path].File? then File(0) else before[path]]
                      else before - {path}
    ensures after == Replace(before, path, PurgedItem(n, tombstone))
  {
    var want := Replace(before, path, PurgedItem(n, tombstone));
    assert HoldsAt(before, path, n, path);
    forall k
      ensures SameAt(after, want, k)
    {
      assert HoldsAt(before, path, n, k);
    }
    SameEverywhere(after, want);
  }

  /** The two ways an item goes away differ on a tombstoned link or special file only. */
  lemma LeafRulesDiffer(n: Node, tombstone: bool)
    requires n.Leaf?
    ensures PurgedItem(n, tombstone) == Purged(n, tombstone) <==> n.regular || !tombstone
  {
  }

  // ----- What is left, said without recursion -----

  /** A regular file with a tombstoned directory at or above it, counting from `n`, or above `n`. */
  ghost predicate Keeps(n: Node, tomb: bool, a: Address) {
    && Entry(n, a).Some? && Entry(n, a).value.Leaf? && Entry(n, a).value.regular
    && (tomb || exists j :: 0 <= j < |a| && HasTombstone(n, a[..j]))
  }

  lemma {:induction false} FullPathCons(n: Node, path: Path, i: nat, b: Address)
    requires n.Dir? && i < |n.children| && Entry(n.children[i], b).Some?
    ensures Entry(n, [i] + b) == Entry(n.children[i], b)
    ensures FullPath(n, path, [i] + b) == FullPath(n.children[i], path + [n.children[i].attr.name], b)
    decreases |b|
  {
    EntryCons(n, i, b);
    if b == [] {
      assert [i] + b == [i];
      assert [i][..0] == [];
    } else {
      EntryPrefix(n.children[i], b, |b| - 1);
      FullPathCons(n, path, i, b[..|b| - 1]);
      assert ([i] + b)[..|b|] == [i] + b[..|b| - 1];
    }
  }

  lemma {:induction false} KeepsCons(n: Node, tomb: bool, i: nat, b: Address)
    requires n.Dir? && i < |n.children|
    ensures Keeps(n, tomb, [i] + b) <==> Keeps(n.children[i], tomb || n.attr.tombstone, b)
  {
    var a, c := [i] + b, n.children[i];
    EntryCons(n, i, b);
    assert a[..0] == [];
    if j :| 0 <= j < |a| && HasTombstone(n, a[..j]) {
      if j > 0 {
        assert a[..j] == [i] + b[..j - 1];
        EntryCons(n, i, b[..j - 1]);
        assert HasTombstone(c, b[..j - 1]);
      }
    }
    if j :| 0 <= j < |b| && HasTombstone(c, b[..j]) {
      assert a[..j + 1] == [i] + b[..j];
      EntryCons(n, i, b[..j]);
      assert HasTombstone(n, a[..j + 1]);
    }
    if n.attr.tombstone {
      assert HasTombstone(n, a[..0]);
    }
  }

  lemma {:induction false} KeptSome(cs: seq<Node>, tomb: bool, i: nat)
    ensures i < |cs| && Purged(cs[i], tomb).Some? ==> PurgedAll(cs, tomb) != []
    decreases |cs|
  {
    if 0 < i < |cs| {
      assert cs[1..][i - 1] == cs[i];
      KeptSome(cs[1..], tomb, i - 1);
    }
  }

  lemma {:induction false} KeptFrom(cs: seq<Node>, tomb: bool) returns (i: nat)
    requires PurgedAll(cs, tomb) != []
    ensures i < |cs| && Purged(cs[i], tomb).Some?
    decreases |cs|
  {
    if Purged(cs[0], tomb).Some? {
      i := 0;
    } else {
      var j := KeptFrom(cs[1..], tomb);
      i := j + 1;
    }
  }

  /** Everything left leads to a kept file. */
  lemma {:induction false} LeftForKept(n: Node, path: Path, tomb: bool, p: Path) returns (a: Address)
    requires WellNamed(n) && p in Remains(n, path, tomb)
    ensures Keeps(n, tomb, a) && path <= p <= FullPath(n, path, a)
    decreases n
  {
    RemainsBelow(n, path, tomb, p);
    match n
    case Leaf(_, _) =>
      a := [];
    case Dir(attr, children) =>
      var mark := tomb || attr.tombstone;
      var i := ChildLeft(n, path, tomb, p);
      var c := path + [children[i].attr.name];
      var b := LeftForKept(children[i], c, mark, if p == path then c else p);
      KeepsCons(n, tomb, i, b);
      FullPathCons(n, path, i, b);
      a := [i] + b;
      assert p == path ==> p <= c;
  }

  /** The child that something left in a directory belongs to. */
  lemma {:induction false} ChildLeft(n: Node, path: Path, tomb: bool, p: Path) returns (i: nat)
    requires n.Dir? && WellNamed(n) && p in Remains(n, path, tomb)
    ensures i < |n.children|
    ensures var c := path + [n.children[i].attr.name];
            (if p == path then c else p) in Remains(n.children[i], c, tomb || n.attr.tombstone)
  {
    var cs, mark := n.children, tomb || n.attr.tombstone;
    if p == path {
      i := KeptFrom(cs, mark);
      LayoutBelow(Purged(cs[i], mark).value, path + [cs[i].attr.name], p);
    } else {
      assert p in LayoutAll(PurgedAll(cs, mark), path);
      if forall k :: 0 <= k < |cs| ==> !Under(path, cs[k].attr.name, p) {
        KeptOther(cs, path, mark, p);
      }
      i :| 0 <= i < |cs| && Under(path, cs[i].attr.name, p);
      KeptChild(cs, path, mark, i, p);
    }
  }

  /** A kept file stays, empty, and so does every directory on the way to it. */
  lemma {:induction false} KeptStays(n: Node, path: Path, tomb: bool, a: Address, p: Path)
    requires WellNamed(n) && Keeps(n, tomb, a) && path <= p <= FullPath(n, path, a)
    ensures p in Remains(n, path, tomb)
    ensures Remains(n, path, tomb)[p] == if p == FullPath(n, path, a) then File(0) else Directory
    decreases n
  {
    if a == [] {
      assert p == path;
    } else {
      EntryPrefix(n, a, 0);
      EntryPrefix(n, a, 1);
      assert a[..1][..0] == a[..0] == [];
      var i, b, cs := a[0], a[1..], n.children;
      assert a == [i] + b;
      var c, mark := path + [cs[i].attr.name], tomb || n.attr.tombstone;
      EntryCons(n, i, b);
      KeepsCons(n, tomb, i, b);
      FullPathCons(n, path, i, b);
      FullPathExtends(cs[i], c, b);
      KeptStays(cs[i], c, mark, b, if p == path then c else p);
      KeptSome(cs, mark, i);
      var kept := PurgedAll(cs, mark);
      if p == path {
        LayoutAllAt(kept, path, path);
        assert |FullPath(n, path, a)| > |path|;
      } else {
        UnderIsPrefix(path, cs[i].attr.name, p);
        assert c <= p by {
          assert p[|path|] == FullPath(n, path, a)[|path|] == c[|path|];
        }
        KeptChild(cs, path, mark, i, p);
      }
    }
  }

  lemma {:induction false} FullPathExtends(n: Node, path: Path, a: Address)
    requires Entry(n, a).Some?
    ensures path <= FullPath(n, path, a)
    decreases |a|
  {
    if a != [] {
      FullPathExtends(n, path, a[..|a| - 1]);
    }
  }

  /**
   * A regular file below the item is kept when the item carries the tombstone flag or when a
   * directory on the way to it, the item itself not counted, is tombstoned.
   */
  ghost predicate Survives(n: Node, tombstone: bool, a: Address) {
    && Entry(n, a).Some? && Entry(n, a).value.Leaf? && Entry(n, a).value.regular
    && (tombstone || exists j :: 1 <= j < |a| && HasTombstone(n, a[..j]))
  }

  /** The item's directory as the walk sees it: carrying the item's flag. */
  function Flagged(n: Node, tombstone: bool): Node
    requires n.Dir?
  {
    Dir(n.attr.(tombstone := tombstone), n.children)
  }

  lemma {:induction false} FlaggedEntries(n: Node, tombstone: bool, path: Path, a: Address)
    requires n.Dir?
    ensures a != [] ==> Entry(Flagged(n, tombstone), a) == Entry(n, a)
    ensures Entry(Flagged(n, tombstone), a).Some? <==> Entry(n, a).Some?
    ensures Entry(n, a).Some? ==> FullPath(Flagged(n, tombstone), path, a) == FullPath(n, path, a)
    decreases |a|
  {
    if a != [] {
      FlaggedEntries(n, tombstone, path, a[..|a| - 1]);
    }
  }

  lemma {:induction false} FlaggedKeeps(n: Node, tombstone: bool, a: Address)
    requires n.Dir?
    ensures Keeps(Flagged(n, tombstone), false, a) <==> Survives(n, tombstone, a)
  {
    var f := Flagged(n, tombstone);
    FlaggedEntries(n, tombstone, [], a);
    if j :| 0 <= j < |a| && HasTombstone(f, a[..j]) {
      FlaggedEntries(n, tombstone, [], a[..j]);
    }
    if j :| 1 <= j < |a| && HasTombstone(n, a[..j]) {
      FlaggedEntries(n, tombstone, [], a[..j]);
      assert HasTombstone(f, a[..j]);
    }
    if tombstone {
      assert HasTombstone(f, a[..0]);
    }
  }

  lemma {:induction false} FlaggedRemains(disk: Disk, path: Path, n: Node, tombstone: bool, p: Path)
    requires n.Dir? && path <= p
    ensures SameAt(Replace(disk, path, PurgedItem(n, tombstone)), Remains(Flagged(n, tombstone), path, false), p)
  {
    var f := Flagged(n, tombstone);
    assert Purged(f, false).Some? <==> PurgedItem(n, tombstone).Some?;
    if PurgedItem(n, tombstone).Some? {
      assert Layout(PurgedItem(n, tombstone).value, path) == Layout(Purged(f, false).value, path);
    }
  }

  /**
   * After a directory item is purged, a path at or below it exists exactly when it leads to a
   * surviving file: the file itself, now empty, or a directory above it.
   */
  lemma {:induction false} PurgeLeavesSurvivors(disk: Disk, path: Path, n: Node, tombstone: bool, p: Path)
    requires n.Dir? && WellNamed(n) && path <= p
    ensures var after := Replace(disk, path, PurgedItem(n, tombstone));
            && (p in after <==> exists a :: Survives(n, tombstone, a) && p <= FullPath(n, path, a))
            && (forall a :: Survives(n, tombstone, a) && p <= FullPath(n, path, a) ==>
                  p in after && after[p] == if p == FullPath(n, path, a) then File(0) else Directory)
  {
    var f, after := Flagged(n, tombstone), Replace(disk, path, PurgedItem(n, tombstone));
    FlaggedRemains(disk, path, n, tombstone, p);
    assert WellNamed(f);
    forall a | Survives(n, tombstone, a) && p <= FullPath(n, path, a)
      ensures p in after && after[p] == if p == FullPath(n, path, a) then File(0) else Directory
    {
      FlaggedKeeps(n, tombstone, a);
      FlaggedEntries(n, tombstone, path, a);
      KeptStays(f, path, false, a, p);
    }
    if p in after {
      var a := LeftForKept(f, path, false, p);
      FlaggedKeeps(n, tombstone, a);
      FlaggedEntries(n, tombstone, path, a);
      assert Survives(n, tombstone, a) && p <= FullPath(n, path, a);
    }
  }
}
