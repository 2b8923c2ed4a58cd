/**
 * What the loaded items are, stated against an independent description of the tree: an entry is
 * addressed by the child indices that lead to it from the walk's root.
 */
module CacheItemFacts {
  import opened Common
  import opened Fts
  import opened CacheItems

  type Address = seq<nat>

  /** The entry at an address, if there is one; the empty address is the root. */
  function Entry(root: Node, a: Address): Option<Node>
    decreases |a|
  {
    if a == [] then Some(root)
    else
      var up := Entry(root, a[..|a| - 1]);
      if up.Some? && up.value.Dir? && a[|a| - 1] < |up.value.children| then Some(up.value.children[a[|a| - 1]])
      else None
  }

  predicate IsGroup(root: Node, a: Address) {
    var e := Entry(root, a);
    e.Some? && e.value.Dir? && e.value.attr.group
  }

  predicate HasTombstone(root: Node, a: Address) {
    var e := Entry(root, a);
    e.Some? && e.value.Dir? && e.value.attr.tombstone
  }

  /** Some directory at or above the address, below the root, carries the tombstone attribute. */
  ghost predicate Tombstoned(root: Node, a: Address) {
    exists j :: 1 <= j <= |a| && HasTombstone(root, a[..j])
  }

  /** An entry gets an item of its own when no directory above it, below the root, is a group. */
  ghost predicate OwnsItem(root: Node, a: Address) {
    && a != []
    && Entry(root, a).Some?
    && forall j :: 1 <= j < |a| ==> !IsGroup(root, a[..j])
  }

  function FullPath(root: Node, rootPath: Path, a: Address): Path
    requires Entry(root, a).Some?
    decreases |a|
  {
    if a == [] then rootPath else FullPath(root, rootPath, a[..|a| - 1]) + [Entry(root, a).value.attr.name]
  }

  /** An item has the attributes the tree gives the entry at `a`. */
  ghost predicate Describes(root: Node, rootPath: Path, a: Address, item: CacheItem) {
    && a != []
    && Entry(root, a).Some?
    && var n := Entry(root, a).value;
    && item.level == |a|
    && item.directory == n.Dir?
    && item.group == IsGroup(root, a)
    && item.tombstone == Tombstoned(root, a)
    && item.size == (if IsGroup(root, a) then TotalSize(n) else n.attr.size)
    && item.modified == Newest(n)
    && (item.parent.None? <==> |a| == 1)
    && item.name == (if |a| == 1 then Render(FullPath(root, rootPath, a)) else "/" + n.attr.name)
  }

  // ----- The addresses of the items, in load order -----

  function Addresses(n: Node, pre: Address): seq<Address>
    decreases n
  {
    match n
    case Leaf(_, _) => [pre]
    case Dir(attr, children) => if attr.group then [pre] else [pre] + AddressesAll(children, pre, 0)
  }

  function AddressesAll(cs: seq<Node>, pre: Address, i: nat): seq<Address>
    decreases cs
  {
    if cs == [] then [] else Addresses(cs[0], pre + [i]) + AddressesAll(cs[1..], pre, i + 1)
  }

  function AddressesUnder(root: Node): seq<Address> {
    match root
    case Leaf(_, _) => []
    case Dir(_, children) => AddressesAll(children, [], 0)
  }

  // ----- Every item describes its entry -----

  lemma EntrySnoc(root: Node, pre: Address, i: nat)
    requires Entry(root, pre).Some? && Entry(root, pre).value.Dir? && i < |Entry(root, pre).value.children|
    ensures Entry(root, pre + [i]) == Some(Entry(root, pre).value.children[i])
  {
    assert (pre + [i])[..|pre|] == pre;
  }

  lemma TombstonedSnoc(root: Node, a: Address)
    requires a != []
    ensures Tombstoned(root, a) <==> Tombstoned(root, a[..|a| - 1]) || HasTombstone(root, a)
  {
    var up := a[..|a| - 1];
    if Tombstoned(root, a) {
      var j :| 1 <= j <= |a| && HasTombstone(root, a[..j]);
      if j == |a| {
        assert a[..j] == a;
      } else {
        assert up[..j] == a[..j];
      }
    }
    if Tombstoned(root, up) {
      var j :| 1 <= j <= |up| && HasTombstone(root, up[..j]);
      assert up[..j] == a[..j];
    }
    if HasTombstone(root, a) {
      assert a[..|a|] == a;
    }
  }

  lemma FullPathSnoc(root: Node, rootPath: Path, pre: Address, i: nat)
    requires Entry(root, pre).Some? && Entry(root, pre).value.Dir? && i < |Entry(root, pre).value.children|
    ensures Entry(root, pre + [i]).Some?
    ensures FullPath(root, rootPath, pre + [i]) ==
            FullPath(root, rootPath, pre) + [Entry(root, pre).value.children[i].attr.name]
  {
    EntrySnoc(root, pre, i);
    assert (pre + [i])[..|pre|] == pre;
  }

  lemma {:induction false} SameLength(n: Node, pre: Address, level: nat, path: Path, parent: Option<nat>, tomb: bool,
                                      base: nat)
    ensures |Addresses(n, pre)| == |ItemsOf(n, level, path, parent, tomb, base)|
    decreases n
  {
    if n.Dir? && !n.attr.group {
      SameLengthAll(n.children, pre, 0, level + 1, path, Some(base), tomb || n.attr.tombstone, base + 1);
    }
  }

  lemma {:induction false} SameLengthAll(cs: seq<Node>, pre: Address, i: nat, level: nat, path: Path,
                                         parent: Option<nat>, tomb: bool, base: nat)
    ensures |AddressesAll(cs, pre, i)| == |ItemsOfAll(cs, level, path, parent, tomb, base)|
    decreases cs
  {
    if cs != [] {
      var p := path + [cs[0].attr.name];
      SameLength(cs[0], pre + [i], level, p, parent, tomb, base);
      SameLengthAll(cs[1..], pre, i + 1, level, path, parent, tomb,
                    base + |ItemsOf(cs[0], level, p, parent, tomb, base)|);
    }
  }

  ghost predicate DescribesEach(root: Node, rootPath: Path, addrs: seq<Address>, items: Arena) {
    && |addrs| == |items|
    && forall k :: 0 <= k < |items| ==> Describes(root, rootPath, addrs[k], items[k])
  }

  lemma DescribesAppend(root: Node, rootPath: Path, a1: seq<Address>, i1: Arena, a2: seq<Address>, i2: Arena)
    requires DescribesEach(root, rootPath, a1, i1) && DescribesEach(root, rootPath, a2, i2)
    ensures DescribesEach(root, rootPath, a1 + a2, i1 + i2)
  {
    forall k | 0 <= k < |i1 + i2|
      ensures Describes(root, rootPath, (a1 + a2)[k], (i1 + i2)[k])
    {
      if k < |i1| {
        assert Describes(root, rootPath, a1[k], i1[k]);
      } else {
        assert Describes(root, rootPath, a2[k - |i1|], i2[k - |i1|]);
      }
    }
  }

  lemma {:induction false} DescribeNode(root: Node, rootPath: Path, pre: Address, n: Node, parent: Option<nat>,
                                        tomb: bool, base: nat)
    requires pre != [] && Entry(root, pre) == Some(n)
    requires parent.None? <==> |pre| == 1
    requires tomb == Tombstoned(root, pre[..|pre| - 1])
    ensures DescribesEach(root, rootPath, Addresses(n, pre),
                          ItemsOf(n, |pre|, FullPath(root, rootPath, pre), parent, tomb, base))
    decreases n
  {
    TombstonedSnoc(root, pre);
    var path := FullPath(root, rootPath, pre);
    var own := [ItemsOf(n, |pre|, path, parent, tomb, base)[0]];
    assert DescribesEach(root, rootPath, [pre], own);
    if n.Dir? && !n.attr.group {
      var t := tomb || n.attr.tombstone;
      DescribeAll(root, rootPath, pre, n.children, 0, Some(base), t, base + 1);
      DescribesAppend(root, rootPath, [pre], own, AddressesAll(n.children, pre, 0),
                      ItemsOfAll(n.children, |pre| + 1, path, Some(base), t, base + 1));
    }
  }

  lemma {:induction false} DescribeAll(root: Node, rootPath: Path, pre: Address, cs: seq<Node>, i: nat,
                                       parent: Option<nat>, tomb: bool, base: nat)
    requires Entry(root, pre).Some? && Entry(root, pre).value.Dir?
    requires i <= |Entry(root, pre).value.children| && Entry(root, pre).value.children[i..] == cs
    requires parent.None? <==> pre == []
    requires tomb == Tombstoned(root, pre)
    ensures DescribesEach(root, rootPath, AddressesAll(cs, pre, i),
                          ItemsOfAll(cs, |pre| + 1, FullPath(root, rootPath, pre), parent, tomb, base))
    decreases cs
  {
    if cs != [] {
      var path, here := FullPath(root, rootPath, pre), pre + [i];
      FullPathSnoc(root, rootPath, pre, i);
      EntrySnoc(root, pre, i);
      assert here[..|here| - 1] == pre;
      var first := ItemsOf(cs[0], |pre| + 1, path + [cs[0].attr.name], parent, tomb, base);
      DescribeNode(root, rootPath, here, cs[0], parent, tomb, base);
      DescribeAll(root, rootPath, pre, cs[1..], i + 1, parent, tomb, base + |first|);
      DescribesAppend(root, rootPath, Addresses(cs[0], here), first, AddressesAll(cs[1..], pre, i + 1),
                      ItemsOfAll(cs[1..], |pre| + 1, path, parent, tomb, base + |first|));
    }
  }

  // ----- Exactly the entries that should have an item have one, and have one only -----

  lemma {:induction false} OwnersNode(root: Node, pre: Address, n: Node, a: Address)
    requires Entry(root, pre) == Some(n)
    ensures a in Addresses(n, pre) <==>
            pre <= a && Entry(root, a).Some? && forall j :: |pre| <= j < |a| ==> !IsGroup(root, a[..j])
    decreases n
  {
    if pre <= a && a != pre {
      assert a[..|pre|] == pre;
      EntryPrefix(root, a, |pre|);
      EntryPrefix(root, a, |pre| + 1);
    }
    if n.Dir? && !n.attr.group {
      OwnersAll(root, pre, n.children, 0, a);
    }
  }

  /** Every prefix of a valid address is valid, and a proper prefix is a directory. */
  lemma {:induction false} EntryPrefix(root: Node, a: Address, j: nat)
    requires j <= |a|
    ensures Entry(root, a).Some? ==> Entry(root, a[..j]).Some? && (j < |a| ==> Entry(root, a[..j]).value.Dir?)
    decreases |a|
  {
    if j == |a| {
      assert a[..j] == a;
    } else {
      EntryPrefix(root, a[..|a| - 1], j);
      assert a[..|a| - 1][..j] == a[..j];
    }
  }

  lemma {:induction false} OwnersAll(root: Node, pre: Address, cs: seq<Node>, i: nat, a: Address)
    requires Entry(root, pre).Some? && Entry(root, pre).value.Dir?
    requires i <= |Entry(root, pre).value.children| && Entry(root, pre).value.children[i..] == cs
    ensures a in AddressesAll(cs, pre, i) <==>
            && |pre| < |a|
            && pre <= a
            && i <= a[|pre|]
            && Entry(root, a).Some?
            && forall j :: |pre| < j < |a| ==> !IsGroup(root, a[..j])
    decreases cs
  {
    if |pre| < |a| && pre <= a {
      assert a[..|pre| + 1][..|pre|] == a[..|pre|] == pre;
      EntryPrefix(root, a, |pre| + 1);
    }
    if cs != [] {
      assert cs[0] == Entry(root, pre).value.children[i];
      EntrySnoc(root, pre, i);
      OwnersNode(root, pre + [i], cs[0], a);
      OwnersAll(root, pre, cs[1..], i + 1, a);
      assert pre + [i] <= a <==> |pre| < |a| && pre <= a && a[|pre|] == i;
    }
  }

  lemma {:induction false} DistinctNode(root: Node, pre: Address, n: Node)
    requires Entry(root, pre) == Some(n)
    ensures Distinct(Addresses(n, pre))
    decreases n
  {
    if n.Dir? && !n.attr.group {
      DistinctAll(root, pre, n.children, 0);
      OwnersAll(root, pre, n.children, 0, pre);
    }
  }

  lemma {:induction false} DistinctAll(root: Node, pre: Address, cs: seq<Node>, i: nat)
    requires Entry(root, pre).Some? && Entry(root, pre).value.Dir?
    requires i <= |Entry(root, pre).value.children| && Entry(root, pre).value.children[i..] == cs
    ensures Distinct(AddressesAll(cs, pre, i))
    decreases cs
  {
    if cs != [] {
      assert cs[0] == Entry(root, pre).value.children[i];
      EntrySnoc(root, pre, i);
      DistinctNode(root, pre + [i], cs[0]);
      DistinctAll(root, pre, cs[1..], i + 1);
      var first, rest := Addresses(cs[0], pre + [i]), AddressesAll(cs[1..], pre, i + 1);
      forall x, y | 0 <= x < |first| && 0 <= y < |rest|
        ensures first[x] != rest[y]
      {
        OwnersNode(root, pre + [i], cs[0], first[x]);
        OwnersAll(root, pre, cs[1..], i + 1, rest[y]);
      }
    }
  }

  // ----- Parent pointers -----

  /** A parent pointer leads to the item of the address one step up, loaded earlier. */
  ghost predicate LinksUp(a: Address, parent: Option<nat>, addrs: seq<Address>, base: nat, k: nat) {
    && a != []
    && parent.Some?
    && base <= parent.value < base + k
    && parent.value - base < |addrs|
    && addrs[parent.value - base] == a[..|a| - 1]
  }

  lemma {:induction false} ParentNode(n: Node, pre: Address, level: nat, path: Path, parent: Option<nat>, tomb: bool,
                                      base: nat, k: nat)
    requires k < |ItemsOf(n, level, path, parent, tomb, base)|
    ensures |Addresses(n, pre)| == |ItemsOf(n, level, path, parent, tomb, base)|
    ensures var a, item := Addresses(n, pre)[k], ItemsOf(n, level, path, parent, tomb, base)[k];
            if k == 0 then a == pre && item.parent == parent
            else |pre| < |a| && LinksUp(a, item.parent, Addresses(n, pre), base, k)
    decreases n
  {
    if n.Dir? && !n.attr.group {
      var t := tomb || n.attr.tombstone;
      SameLengthAll(n.children, pre, 0, level + 1, path, Some(base), t, base + 1);
      if k > 0 {
        ParentAll(n.children, pre, 0, level + 1, path, Some(base), t, base + 1, k - 1);
        var a := AddressesAll(n.children, pre, 0)[k - 1];
        assert |a| == |pre| + 1 ==> a[..|pre|] == pre;
      }
    }
  }

  lemma {:induction false} ParentAll(cs: seq<Node>, pre: Address, i: nat, level: nat, path: Path,
                                     parent: Option<nat>, tomb: bool, base: nat, k: nat)
    requires k < |ItemsOfAll(cs, level, path, parent, tomb, base)|
    ensures |AddressesAll(cs, pre, i)| == |ItemsOfAll(cs, level, path, parent, tomb, base)|
    ensures var a, item := AddressesAll(cs, pre, i)[k], ItemsOfAll(cs, level, path, parent, tomb, base)[k];
            && |pre| < |a|
            && pre <= a
            && (if |a| == |pre| + 1 then item.parent == parent
                else LinksUp(a, item.parent, AddressesAll(cs, pre, i), base, k))
    decreases cs
  {
    SameLengthAll(cs, pre, i, level, path, parent, tomb, base);
    var p := path + [cs[0].attr.name];
    var first := ItemsOf(cs[0], level, p, parent, tomb, base);
    SameLength(cs[0], pre + [i], level, p, parent, tomb, base);
    var items, addrs := ItemsOfAll(cs, level, path, parent, tomb, base), AddressesAll(cs, pre, i);
    var front, rest := Addresses(cs[0], pre + [i]), AddressesAll(cs[1..], pre, i + 1);
    if k < |first| {
      ParentNode(cs[0], pre + [i], level, p, parent, tomb, base, k);
      PrefixNode(cs[0], pre + [i], k);
      assert items[k] == first[k] && addrs[k] == front[k];
      if k > 0 {
        LinksUpFront(front[k], first[k].parent, front, rest, base, k);
      }
    } else {
      ParentAll(cs[1..], pre, i + 1, level, path, parent, tomb, base + |first|, k - |first|);
      var item := ItemsOfAll(cs[1..], level, path, parent, tomb, base + |first|)[k - |first|];
      assert items[k] == item && addrs[k] == rest[k - |first|];
      if |addrs[k]| > |pre| + 1 {
        LinksUpBack(addrs[k], item.parent, front, rest, base, k);
      }
    }
  }

  lemma LinksUpFront(a: Address, parent: Option<nat>, front: seq<Address>, rest: seq<Address>, base: nat, k: nat)
    requires LinksUp(a, parent, front, base, k)
    ensures LinksUp(a, parent, front + rest, base, k)
  {
  }

  lemma LinksUpBack(a: Address, parent: Option<nat>, front: seq<Address>, rest: seq<Address>, base: nat, k: nat)
    requires |front| <= k && LinksUp(a, parent, rest, base + |front|, k - |front|)
    ensures LinksUp(a, parent, front + rest, base, k)
  {
  }

  lemma {:induction false} PrefixNode(n: Node, pre: Address, k: nat)
    requires k < |Addresses(n, pre)|
    ensures pre <= Addresses(n, pre)[k]
    decreases n
  {
    if n.Dir? && !n.attr.group && k > 0 {
      PrefixAll(n.children, pre, 0, k - 1);
    }
  }

  lemma {:induction false} PrefixAll(cs: seq<Node>, pre: Address, i: nat, k: nat)
    requires k < |AddressesAll(cs, pre, i)|
    ensures pre <= AddressesAll(cs, pre, i)[k]
    decreases cs
  {
    if k < |Addresses(cs[0], pre + [i])| {
      PrefixNode(cs[0], pre + [i], k);
    } else {
      PrefixAll(cs[1..], pre, i + 1, k - |Addresses(cs[0], pre + [i])|);
    }
  }

  // ----- Sizes and modification times -----

  function SumSizes(items: Arena): int {
    if items == [] then 0 else items[0].size + SumSizes(items[1..])
  }

  lemma {:induction false} SumSizesAppend(a: Arena, b: Arena)
    ensures SumSizes(a + b) == SumSizes(a) + SumSizes(b)
  {
    if a == [] {
      assert a + b == b;
    } else {
      assert (a + b)[0] == a[0] && (a + b)[1..] == a[1..] + b;
      SumSizesAppend(a[1..], b);
    }
  }

  lemma {:induction false} SizesOfNode(n: Node, level: nat, path: Path, parent: Option<nat>, tomb: bool, base: nat)
    ensures SumSizes(ItemsOf(n, level, path, parent, tomb, base)) == TotalSize(n)
    decreases n
  {
    var items := ItemsOf(n, level, path, parent, tomb, base);
    if n.Dir? && !n.attr.group {
      SizesOfAll(n.children, level + 1, path, Some(base), tomb || n.attr.tombstone, base + 1);
      assert items[1..] == ItemsOfAll(n.children, level + 1, path, Some(base), tomb || n.attr.tombstone, base + 1);
    } else {
      assert items[1..] == [];
    }
  }

  lemma {:induction false} SizesOfAll(cs: seq<Node>, level: nat, path: Path, parent: Option<nat>, tomb: bool, base: nat)
    ensures SumSizes(ItemsOfAll(cs, level, path, parent, tomb, base)) == TotalSizeAll(cs)
    decreases cs
  {
    if cs != [] {
      var p := path + [cs[0].attr.name];
      var first := ItemsOf(cs[0], level, p, parent, tomb, base);
      SizesOfNode(cs[0], level, p, parent, tomb, base);
      SizesOfAll(cs[1..], level, path, parent, tomb, base + |first|);
      SumSizesAppend(first, ItemsOfAll(cs[1..], level, path, parent, tomb, base + |first|));
    }
  }

  lemma {:induction false} NewestOfBounds(m: int, cs: seq<Node>)
    ensures m <= NewestOf(m, cs)
    ensures forall i :: 0 <= i < |cs| ==> Newest(cs[i]) <= NewestOf(m, cs)
    ensures NewestOf(m, cs) == m || exists i :: 0 <= i < |cs| && Newest(cs[i]) == NewestOf(m, cs)
    decreases |cs|
  {
    if cs != [] {
      var m1 := Max(m, Newest(cs[0]));
      NewestOfBounds(m1, cs[1..]);
      forall i | 0 <= i < |cs|
        ensures Newest(cs[i]) <= NewestOf(m, cs)
      {
        if i > 0 {
          assert cs[i] == cs[1..][i - 1];
        }
      }
      if NewestOf(m, cs) != m && NewestOf(m, cs) != Newest(cs[0]) {
        var i :| 0 <= i < |cs[1..]| && Newest(cs[1..][i]) == NewestOf(m1, cs[1..]);
        assert cs[i + 1] == cs[1..][i];
      }
    }
  }

  lemma {:induction false} EntryCons(root: Node, i: nat, b: Address)
    requires root.Dir? && i < |root.children|
    ensures Entry(root, [i] + b) == Entry(root.children[i], b)
    decreases |b|
  {
    if b == [] {
      assert [i] + b == [] + [i];
      EntrySnoc(root, [], i);
    } else {
      EntryCons(root, i, b[..|b| - 1]);
      assert ([i] + b)[..|b|] == [i] + b[..|b| - 1];
    }
  }

  /** `Newest` is the maximum modification time over the entry and all entries below it. */
  lemma {:induction false} NewestIsMaximum(n: Node) returns (at: Address)
    ensures forall a :: Entry(n, a).Some? ==> Entry(n, a).value.attr.mtime <= Newest(n)
    ensures Entry(n, at).Some? && Entry(n, at).value.attr.mtime == Newest(n)
    decreases n
  {
    at := [];
    forall a | Entry(n, a).Some?
      ensures Entry(n, a).value.attr.mtime <= Newest(n)
    {
      if a == [] {
        if n.Dir? {
          NewestOfBounds(n.attr.mtime, n.children);
        }
      } else {
        EntryPrefix(n, a, 0);
        EntryPrefix(n, a, 1);
        assert a[..1][..0] == [];
        EntryCons(n, a[0], a[1..]);
        assert [a[0]] + a[1..] == a;
        var _ := NewestIsMaximum(n.children[a[0]]);
        NewestOfBounds(n.attr.mtime, n.children);
      }
    }
    if n.Dir? && Newest(n) != n.attr.mtime {
      NewestOfBounds(n.attr.mtime, n.children);
      var i :| 0 <= i < |n.children| && Newest(n.children[i]) == Newest(n);
      var rest := NewestIsMaximum(n.children[i]);
      EntryCons(n, i, rest);
      at := [i] + rest;
    }
  }

  // ----- Whole walks -----

  /** Every parent pointer leads to an older arena slot, one level up, that is at least as new. */
  ghost predicate WellParented(arena: Arena) {
    forall k :: 0 <= k < |arena| && arena[k].parent.Some? ==>
      && arena[k].parent.value < k
      && arena[arena[k].parent.value].level + 1 == arena[k].level
      && arena[arena[k].parent.value].modified >= arena[k].modified
  }

  /** The names along the parent pointers. */
  function PathOf(arena: Arena, k: nat): string
    requires WellParented(arena) && k < |arena|
  {
    if arena[k].parent.None? then arena[k].name
    else PathOf(arena, arena[k].parent.value) + arena[k].name
  }

  method BuildPath(arena: Arena, k: nat) returns (path: string)
    requires WellParented(arena) && k < |arena|
    ensures path == PathOf(arena, k)
  {
    path := arena[k].name;
    var parent: Option<nat> := arena[k].parent;
    while parent.Some?
      invariant parent.Some? ==> parent.value < |arena|
      invariant PathOf(arena, k) == (if parent.Some? then PathOf(arena, parent.value) + path else path)
      decreases if parent.Some? then parent.value + 1 else 0
    {
      var p := arena[parent.value];
      assert p.parent.Some? ==> PathOf(arena, p.parent.value) + (p.name + path) == PathOf(arena, parent.value) + path;
      path := p.name + path;
      parent := p.parent;
    }
  }

  lemma {:induction false} RenderSnoc(path: Path, name: string)
    requires path != []
    ensures Render(path + [name]) == Render(path) + "/" + name
  {
    assert (path + [name])[..|path|] == path;
  }

  /**
   * The items of one walk: one for each entry that owns one and no other, with the attributes of
   * that entry, linked to the item of the directory it is in, and together accounting for every
   * byte below the root.
   */
  lemma {:induction false} ItemsDescribeTree(root: Node, path: Path, base: nat)
    ensures var items, addrs := ItemsUnder(root, path, base), AddressesUnder(root);
            && |addrs| == |items|
            && Distinct(addrs)
            && (forall a :: a in addrs <==> OwnsItem(root, a))
            && (forall k :: 0 <= k < |items| ==> Describes(root, path, addrs[k], items[k]))
            && (forall k :: 0 <= k < |items| && |addrs[k]| > 1 ==> LinksUp(addrs[k], items[k].parent, addrs, base, k))
            && SumSizes(items) == TotalSize(root) - (if root.Dir? then root.attr.size else TotalSize(root))
  {
    var items, addrs := ItemsUnder(root, path, base), AddressesUnder(root);
    if root.Leaf? {
      forall a
        ensures !OwnsItem(root, a)
      {
        if OwnsItem(root, a) {
          EntryPrefix(root, a, 0);
        }
      }
    } else {
      SizesOfAll(root.children, 1, path, None, false, base);
      DistinctAll(root, [], root.children, 0);
      SameLengthAll(root.children, [], 0, 1, path, None, false, base);
      forall a
        ensures a in addrs <==> OwnsItem(root, a)
      {
        OwnersAll(root, [], root.children, 0, a);
      }
      forall k | 0 <= k < |items|
        ensures Describes(root, path, addrs[k], items[k])
        ensures |addrs[k]| > 1 ==> LinksUp(addrs[k], items[k].parent, addrs, base, k)
      {
        ItemAt(root, path, base, k);
      }
    }
  }

  lemma {:induction false} ItemAt(root: Node, path: Path, base: nat, k: nat)
    requires k < |ItemsUnder(root, path, base)|
    ensures var items, addrs := ItemsUnder(root, path, base), AddressesUnder(root);
            && |addrs| == |items|
            && Describes(root, path, addrs[k], items[k])
            && (|addrs[k]| > 1 ==> LinksUp(addrs[k], items[k].parent, addrs, base, k))
  {
    DescribeAll(root, path, [], root.children, 0, None, false, base);
    ParentAll(root.children, [], 0, 1, path, None, false, base, k);
  }

  /** Appending one walk's items to an arena keeps its parent pointers in order. */
  lemma {:induction false} WalkKeepsParents(arena: Arena, root: Node, path: Path)
    requires WellParented(arena)
    ensures WellParented(arena + ItemsUnder(root, path, |arena|))
  {
    var base := |arena|;
    var items := ItemsUnder(root, path, base);
    var all := arena + items;
    forall k | base <= k < |all| && all[k].parent.Some?
      ensures var p := all[k].parent.value;
              p < k && all[p].level + 1 == all[k].level && all[p].modified >= all[k].modified
    {
      ParentOlder(root, path, base, k - base);
    }
  }

  lemma {:induction false} ParentOlder(root: Node, path: Path, base: nat, k: nat)
    requires k < |ItemsUnder(root, path, base)| && ItemsUnder(root, path, base)[k].parent.Some?
    ensures var items := ItemsUnder(root, path, base);
            && base <= items[k].parent.value < base + k
            && items[items[k].parent.value - base].level + 1 == items[k].level
            && items[items[k].parent.value - base].modified >= items[k].modified
  {
    var items, addrs := ItemsUnder(root, path, base), AddressesUnder(root);
    ItemAt(root, path, base, k);
    var q := items[k].parent.value - base;
    ItemAt(root, path, base, q);
    var up := Entry(root, addrs[q]).value;
    NewestOfBounds(up.attr.mtime, up.children);
  }

  /** buildPath gives every item the path of its entry. */
  lemma {:induction false} PathsOfItems(arena: Arena, root: Node, path: Path, k: nat)
    requires WellParented(arena) && path != [] && k < |ItemsUnder(root, path, |arena|)|
    ensures var all := arena + ItemsUnder(root, path, |arena|);
            && WellParented(all)
            && k < |AddressesUnder(root)|
            && Entry(root, AddressesUnder(root)[k]).Some?
            && PathOf(all, |arena| + k) == Render(FullPath(root, path, AddressesUnder(root)[k]))
  {
    var items := ItemsUnder(root, path, |arena|);
    var all := arena + items;
    assert WellParented(all) by {
      WalkKeepsParents(arena, root, path);
    }
    assert |AddressesUnder(root)| == |items| by {
      ItemAt(root, path, |arena|, k);
    }
    assert all[|arena|..] == items;
    PathAt(all, |arena|, root, path, k);
  }

  lemma {:induction false} PathAt(all: Arena, base: nat, root: Node, path: Path, k: nat)
    requires WellParented(all) && path != [] && k < |ItemsUnder(root, path, base)|
    requires base <= |all| && all[base..] == ItemsUnder(root, path, base)
    requires |AddressesUnder(root)| == |ItemsUnder(root, path, base)|
    ensures Entry(root, AddressesUnder(root)[k]).Some?
    ensures PathOf(all, base + k) == Render(FullPath(root, path, AddressesUnder(root)[k]))
    decreases k
  {
    var item, a := all[base + k], AddressesUnder(root)[k];
    assert item == ItemsUnder(root, path, base)[k];
    ItemAt(root, path, base, k);
    if |a| == 1 {
      assert PathOf(all, base + k) == item.name;
    } else {
      var q := item.parent.value - base;
      PathAt(all, base, root, path, q);
      var up := AddressesUnder(root)[q];
      FullPathNonEmpty(root, path, up);
      assert FullPath(root, path, a) == FullPath(root, path, up) + [Entry(root, a).value.attr.name];
      PathStep(all, base + k, FullPath(root, path, up), Entry(root, a).value.attr.name);
    }
  }

  lemma {:induction false} PathStep(arena: Arena, k: nat, up: Path, name: string)
    requires WellParented(arena) && k < |arena| && arena[k].parent.Some? && arena[k].name == "/" + name
    requires up != [] && PathOf(arena, arena[k].parent.value) == Render(up)
    ensures PathOf(arena, k) == Render(up + [name])
  {
    RenderSnoc(up, name);
    assert Render(up) + ("/" + name) == Render(up) + "/" + name;
  }

  lemma FullPathNonEmpty(root: Node, path: Path, a: Address)
    requires path != [] && Entry(root, a).Some?
    ensures FullPath(root, path, a) != []
  {
  }

  /** The event loop, run over a whole stream, appends exactly the items of the specification. */
  lemma {:induction false} WalkMeetsSpecification(arena: Arena, root: Node, path: Path)
    ensures var w := Fold(Walk(arena, [None], None), Events(root, 0, path));
            w.grouping.None? && w.arena == arena + ItemsUnder(root, path, |arena|)
  {
    var w := Walk(arena, [None], None);
    match root
    case Leaf(attr, regular) =>
      FoldOne(w, Event(if regular then F else Special, 0, path, attr));
    case Dir(attr, children) =>
      var first, last := Event(D, 0, path, attr), Event(DP, 0, path, attr);
      var inner := EventsAll(children, 1, path);
      FoldAppend(w, [first] + inner, [last]);
      FoldAppend(w, [first], inner);
      FoldOne(w, first);
      WalkAll(w, children, 1, path, None, false);
      RootUnbubbled(arena, children);
      FoldOne(Fold(w, inner), last);
  }

  lemma RootUnbubbled(arena: Arena, cs: seq<Node>)
    ensures BubbleAll(arena, None, cs) == arena
    decreases |cs|
  {
  }
}
