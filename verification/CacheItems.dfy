/**
 * CacheTracker::loadItemsFrom: one pass over an fts stream that turns a cache directory into
 * purgeable items.
 *
 * Item objects live in an arena in allocation order and pointers to them are arena indices, so a
 * `CacheItem*` that may be null is an `Option<nat>`.
 */
module CacheItems {
  import opened Common
  import opened Fts

  datatype CacheItem = CacheItem(
    level: nat,
    directory: bool,
    group: bool,
    tombstone: bool,
    size: int,
    modified: int,
    parent: Option<nat>,
    name: string
  )

  type Arena = seq<CacheItem>

  // ----- The walk as a state machine over events -----

  /**
   * `open[l]` is the fts_pointer of the directory that is open at level `l`; the walk's root never
   * gets one. `grouping` names the item whose subtree is currently being collected.
   */
  datatype Walk = Walk(arena: Arena, open: seq<Option<nat>>, grouping: Option<nat>)

  /** The fts_pointer of the directory open at a level. */
  function PointerAt(open: seq<Option<nat>>, level: int): Option<nat> {
    if 0 <= level < |open| then open[level] else None
  }

  /** CacheItem::CacheItem, together with the two xattr flags of a directory. */
  function NewItem(arena: Arena, parent: Option<nat>, e: Event): CacheItem {
    var inherit := parent.Some? && parent.value < |arena|;
    CacheItem(
      e.level,
      e.info.D?,
      (inherit && arena[parent.value].group) || (e.info.D? && e.attr.group),
      (inherit && arena[parent.value].tombstone) || (e.info.D? && e.attr.tombstone),
      e.attr.size,
      e.attr.mtime,
      parent,
      if parent.Some? then "/" + e.attr.name else Render(e.path))
  }

  /** Raises an item's modification time to at least `m`; a null pointer is left alone. */
  function Bubble(arena: Arena, ptr: Option<nat>, m: int): (r: Arena)
    ensures |r| == |arena|
  {
    if ptr.Some? && ptr.value < |arena| then
      arena[ptr.value := arena[ptr.value].(modified := Max(arena[ptr.value].modified, m))]
    else arena
  }

  /** Adds one entry below a group directory to the group's item. */
  function Absorb(arena: Arena, g: nat, e: Event): Arena
    requires g < |arena|
  {
    if e.info.DP? then arena
    else arena[g := arena[g].(size := arena[g].size + e.attr.size,
                              modified := Max(arena[g].modified, e.attr.mtime))]
  }

  /** A closing directory hands its modification time to its parent. */
  function Close(w: Walk, level: nat): (r: Walk)
    ensures r.grouping.None? && |r.arena| == |w.arena|
  {
    var item := PointerAt(w.open, level);
    var m := if item.Some? && item.value < |w.arena| then w.arena[item.value].modified else 0;
    Walk(if item.Some? && item.value < |w.arena| then Bubble(w.arena, PointerAt(w.open, level - 1), m) else w.arena,
         if level <= |w.open| then w.open[..level] else w.open,
         None)
  }

  /** The open directories once another one, with pointer `ptr`, is entered at `level`. */
  function Opened(open: seq<Option<nat>>, level: nat, ptr: nat): seq<Option<nat>> {
    (if level <= |open| then open[..level] else open) + [Some(ptr)]
  }

  function Step(w: Walk, e: Event): Walk {
    if w.grouping.Some? && w.grouping.value < |w.arena| then
      var g := w.grouping.value;
      if e.info.DP? && e.level == w.arena[g].level then Close(w, e.level)
      else w.(arena := Absorb(w.arena, g, e))
    else if e.level == 0 then w
    else if e.info.DP? then Close(w, e.level)
    else
      var parent := PointerAt(w.open, e.level - 1);
      var item := NewItem(w.arena, parent, e);
      if e.info.D? then
        Walk(w.arena + [item], Opened(w.open, e.level, |w.arena|), if item.group then Some(|w.arena|) else None)
      else w.(arena := Bubble(w.arena + [item], parent, item.modified))
  }

  function Fold(w: Walk, es: seq<Event>): Walk
    decreases |es|
  {
    if es == [] then w else Fold(Step(w, es[0]), es[1..])
  }

  // ----- The recursive specification -----

  /** The newest modification time at or below an entry. */
  function Newest(n: Node): int
    decreases n
  {
    match n
    case Leaf(attr, _) => attr.mtime
    case Dir(attr, children) => NewestOf(attr.mtime, children)
  }

  function NewestOf(m: int, cs: seq<Node>): int
    decreases cs
  {
    if cs == [] then m else NewestOf(Max(m, Newest(cs[0])), cs[1..])
  }

  /** The items of one entry, the entry's own first; `base` is the arena index it will get. */
  function ItemsOf(n: Node, level: nat, path: Path, parent: Option<nat>, tomb: bool, base: nat): Arena
    decreases n
  {
    var name := if parent.Some? then "/" + n.attr.name else Render(path);
    match n
    case Leaf(attr, _) =>
      [CacheItem(level, false, false, tomb, attr.size, attr.mtime, parent, name)]
    case Dir(attr, children) =>
      var t := tomb || attr.tombstone;
      if attr.group then
        [CacheItem(level, true, true, t, TotalSize(n), Newest(n), parent, name)]
      else
        [CacheItem(level, true, false, t, attr.size, Newest(n), parent, name)]
        + ItemsOfAll(children, level + 1, path, Some(base), t, base + 1)
  }

  function ItemsOfAll(cs: seq<Node>, level: nat, path: Path, parent: Option<nat>, tomb: bool, base: nat): Arena
    decreases cs
  {
    if cs == [] then []
    else
      var first := ItemsOf(cs[0], level, path + [cs[0].attr.name], parent, tomb, base);
      first + ItemsOfAll(cs[1..], level, path, parent, tomb, base + |first|)
  }

  /** Everything below a walk's root; the root itself is never an item. */
  function ItemsUnder(root: Node, path: Path, base: nat): Arena {
    match root
    case Leaf(_, _) => []
    case Dir(_, children) => ItemsOfAll(children, 1, path, None, false, base)
  }

  // ----- The walk meets the recursive specification -----

  lemma {:induction false} FoldAppend(w: Walk, es: seq<Event>, rest: seq<Event>)
    ensures Fold(w, es + rest) == Fold(Fold(w, es), rest)
    decreases |es|
  {
    if es == [] {
      assert es + rest == rest;
    } else {
      assert (es + rest)[0] == es[0] && (es + rest)[1..] == es[1..] + rest;
      FoldAppend(Step(w, es[0]), es[1..], rest);
    }
  }

  lemma FoldOne(w: Walk, e: Event)
    ensures Fold(w, [e]) == Step(w, e)
  {
    assert [e][1..] == [];
  }

  /** A group's item after its whole subtree has been absorbed. */
  function Absorbed(arena: Arena, g: nat, size: int, modified: int): Arena
    requires g < |arena|
  {
    arena[g := arena[g].(size := size, modified := modified)]
  }

  lemma NewestOfMax(m: int, k: int, cs: seq<Node>)
    ensures NewestOf(Max(m, k), cs) == Max(m, NewestOf(k, cs))
    decreases |cs|
  {
    if cs != [] {
      NewestOfMax(m, Max(k, Newest(cs[0])), cs[1..]);
      assert Max(Max(m, k), Newest(cs[0])) == Max(m, Max(k, Newest(cs[0])));
    }
  }

  lemma {:induction false} FoldDir(w: Walk, first: Event, inner: seq<Event>, last: Event)
    ensures Fold(w, [first] + inner + [last]) == Step(Fold(Step(w, first), inner), last)
  {
    FoldAppend(w, [first] + inner, [last]);
    FoldAppend(w, [first], inner);
    FoldOne(w, first);
    FoldOne(Fold(w, [first] + inner), last);
  }

  lemma {:induction false} GroupNode(w: Walk, g: nat, n: Node, level: nat, path: Path)
    requires w.grouping == Some(g) && g < |w.arena| && w.arena[g].level < level
    ensures Fold(w, Events(n, level, path)) ==
            w.(arena := Absorbed(w.arena, g, w.arena[g].size + TotalSize(n), Max(w.arena[g].modified, Newest(n))))
    decreases n
  {
    match n
    case Leaf(attr, regular) =>
      FoldOne(w, Event(if regular then F else Special, level, path, attr));
    case Dir(attr, children) =>
      var first, last := Event(D, level, path, attr), Event(DP, level, path, attr);
      var inner := EventsAll(children, level + 1, path);
      var item := w.arena[g];
      var w1 := w.(arena := Absorbed(w.arena, g, item.size + attr.size, Max(item.modified, attr.mtime)));
      assert Step(w, first) == w1;
      FoldDir(w, first, inner, last);
      GroupAll(w1, g, children, level + 1, path);
      NewestOfMax(item.modified, attr.mtime, children);
      AbsorbTwice(w.arena, g, item.size + attr.size, Max(item.modified, attr.mtime),
                  item.size + TotalSize(n), Max(item.modified, Newest(n)));
  }

  lemma AbsorbTwice(arena: Arena, g: nat, s1: int, m1: int, s2: int, m2: int)
    requires g < |arena|
    ensures Absorbed(Absorbed(arena, g, s1, m1), g, s2, m2) == Absorbed(arena, g, s2, m2)
  {
  }

  lemma {:induction false} GroupAll(w: Walk, g: nat, cs: seq<Node>, level: nat, path: Path)
    requires w.grouping == Some(g) && g < |w.arena| && w.arena[g].level < level
    ensures Fold(w, EventsAll(cs, level, path)) ==
            w.(arena := Absorbed(w.arena, g, w.arena[g].size + TotalSizeAll(cs), NewestOf(w.arena[g].modified, cs)))
    decreases cs
  {
    if cs == [] {
      assert Absorbed(w.arena, g, w.arena[g].size, w.arena[g].modified) == w.arena;
    } else {
      var es := Events(cs[0], level, path + [cs[0].attr.name]);
      FoldAppend(w, es, EventsAll(cs[1..], level, path));
      GroupNode(w, g, cs[0], level, path + [cs[0].attr.name]);
      GroupAll(Fold(w, es), g, cs[1..], level, path);
    }
  }

  /** The walk stands inside a directory of level `level - 1` whose pointer is `parent`. */
  ghost predicate Inside(w: Walk, level: nat, parent: Option<nat>, tomb: bool) {
    && level >= 1
    && |w.open| == level
    && w.open[level - 1] == parent
    && w.grouping.None?
    && (parent.None? ==> !tomb)
    && (parent.Some? ==>
          && parent.value < |w.arena|
          && !w.arena[parent.value].group
          && w.arena[parent.value].tombstone == tomb)
  }

  /** The pointer's item after every one of `cs` has bubbled up. */
  function BubbleAll(arena: Arena, ptr: Option<nat>, cs: seq<Node>): Arena
    decreases |cs|
  {
    if cs == [] then arena else BubbleAll(Bubble(arena, ptr, Newest(cs[0])), ptr, cs[1..])
  }

  lemma BubbleAllIsNewest(arena: Arena, p: nat, cs: seq<Node>)
    requires p < |arena|
    ensures BubbleAll(arena, Some(p), cs) == arena[p := arena[p].(modified := NewestOf(arena[p].modified, cs))]
    decreases |cs|
  {
    if cs == [] {
      assert arena[p := arena[p]] == arena;
    } else {
      BubbleAllIsNewest(Bubble(arena, Some(p), Newest(cs[0])), p, cs[1..]);
    }
  }

  lemma {:induction false} WalkNode(w: Walk, n: Node, level: nat, path: Path, parent: Option<nat>, tomb: bool)
    requires Inside(w, level, parent, tomb)
    ensures Fold(w, Events(n, level, path)) ==
            w.(arena := Bubble(w.arena, parent, Newest(n)) + ItemsOf(n, level, path, parent, tomb, |w.arena|))
    decreases n
  {
    match n
    case Leaf(attr, regular) =>
      WalkLeaf(w, attr, regular, level, path, parent, tomb);
    case Dir(attr, children) =>
      var first, last := Event(D, level, path, attr), Event(DP, level, path, attr);
      var inner := EventsAll(children, level + 1, path);
      assert Events(n, level, path) == [first] + inner + [last];
      FoldDir(w, first, inner, last);
      if attr.group {
        WalkGroup(w, Step(w, first), attr, children, level, path, parent, tomb);
      } else {
        WalkPlain(w, Step(w, first), attr, children, level, path, parent, tomb);
      }
  }

  lemma {:induction false} WalkLeaf(w: Walk, attr: Attr, regular: bool, level: nat, path: Path, parent: Option<nat>,
                                    tomb: bool)
    requires Inside(w, level, parent, tomb)
    ensures var n := Leaf(attr, regular);
            Fold(w, Events(n, level, path)) ==
            w.(arena := Bubble(w.arena, parent, Newest(n)) + ItemsOf(n, level, path, parent, tomb, |w.arena|))
  {
    var e := Event(if regular then F else Special, level, path, attr);
    FoldOne(w, e);
    BubbleAppend(w.arena, [NewItem(w.arena, parent, e)], parent, attr.mtime);
  }

  lemma BubbleAppend(arena: Arena, tail: Arena, ptr: Option<nat>, m: int)
    requires ptr.Some? ==> ptr.value < |arena|
    ensures Bubble(arena + tail, ptr, m) == Bubble(arena, ptr, m) + tail
  {
  }

  lemma {:induction false} WalkGroup(w: Walk, w1: Walk, attr: Attr, children: seq<Node>, level: nat, path: Path,
                                     parent: Option<nat>, tomb: bool)
    requires Inside(w, level, parent, tomb) && attr.group
    requires w1 == Step(w, Event(D, level, path, attr))
    ensures var n := Dir(attr, children);
            Step(Fold(w1, EventsAll(children, level + 1, path)), Event(DP, level, path, attr)) ==
            w.(arena := Bubble(w.arena, parent, Newest(n)) + ItemsOf(n, level, path, parent, tomb, |w.arena|))
  {
    var n, g := Dir(attr, children), |w.arena|;
    GroupAll(w1, g, children, level + 1, path);
    var item := w1.arena[g];
    var done := item.(size := TotalSize(n), modified := Newest(n));
    assert w1.arena == w.arena + [item] && w1.open == w.open + [Some(g)];
    assert Absorbed(w1.arena, g, TotalSize(n), Newest(n)) == w.arena + [done];
    assert ItemsOf(n, level, path, parent, tomb, g) == [done];
    CloseItem(w, [done], Some(g), level, path, parent, attr, Newest(n));
  }

  lemma {:induction false} WalkPlain(w: Walk, w1: Walk, attr: Attr, children: seq<Node>, level: nat, path: Path,
                                     parent: Option<nat>, tomb: bool)
    requires Inside(w, level, parent, tomb) && !attr.group
    requires w1 == Step(w, Event(D, level, path, attr))
    ensures var n := Dir(attr, children);
            Step(Fold(w1, EventsAll(children, level + 1, path)), Event(DP, level, path, attr)) ==
            w.(arena := Bubble(w.arena, parent, Newest(n)) + ItemsOf(n, level, path, parent, tomb, |w.arena|))
    decreases children, 1
  {
    var n, me := Dir(attr, children), |w.arena|;
    var t := tomb || attr.tombstone;
    assert Inside(w1, level + 1, Some(me), t);
    WalkAll(w1, children, level + 1, path, Some(me), t);
    var items := ItemsOf(n, level, path, parent, tomb, me);
    var below := ItemsOfAll(children, level + 1, path, Some(me), t, me + 1);
    assert items == [w1.arena[me].(modified := Newest(n))] + below;
    PlainArena(w.arena, w1.arena[me], children, below);
    assert Fold(w1, EventsAll(children, level + 1, path)) == Walk(w.arena + items, w.open + [Some(me)], None);
    CloseItem(w, items, None, level, path, parent, attr, Newest(n));
  }

  lemma {:induction false} PlainArena(arena: Arena, item: CacheItem, cs: seq<Node>, below: Arena)
    ensures BubbleAll(arena + [item], Some(|arena|), cs) + below ==
            arena + ([item.(modified := NewestOf(item.modified, cs))] + below)
  {
    var it := item.(modified := NewestOf(item.modified, cs));
    assert BubbleAll(arena + [item], Some(|arena|), cs) == arena + [it] by {
      BubbleAllIsNewest(arena + [item], |arena|, cs);
      assert (arena + [item])[|arena| := it] == arena + [it];
    }
    assert (arena + [it]) + below == arena + ([it] + below);
  }

  lemma CloseItem(w: Walk, items: Arena, grouping: Option<nat>, level: nat, path: Path, parent: Option<nat>,
                  attr: Attr, m: int)
    requires level >= 1 && |w.open| == level && w.open[level - 1] == parent && w.grouping.None?
    requires parent.Some? ==> parent.value < |w.arena|
    requires |items| > 0 && items[0].modified == m && items[0].level == level
    requires grouping.None? || grouping == Some(|w.arena|)
    ensures Step(Walk(w.arena + items, w.open + [Some(|w.arena|)], grouping), Event(DP, level, path, attr)) ==
            w.(arena := Bubble(w.arena, parent, m) + items)
  {
    BubbleAppend(w.arena, items, parent, m);
    assert (w.open + [Some(|w.arena|)])[..level] == w.open;
  }

  lemma {:induction false} WalkAll(w: Walk, cs: seq<Node>, level: nat, path: Path, parent: Option<nat>, tomb: bool)
    requires Inside(w, level, parent, tomb)
    ensures Fold(w, EventsAll(cs, level, path)) ==
            w.(arena := BubbleAll(w.arena, parent, cs) + ItemsOfAll(cs, level, path, parent, tomb, |w.arena|))
    decreases cs, 0
  {
    if cs == [] {
      assert w.arena + [] == w.arena;
    } else {
      var p := path + [cs[0].attr.name];
      var es, more := Events(cs[0], level, p), EventsAll(cs[1..], level, path);
      var w1 := w.(arena := Bubble(w.arena, parent, Newest(cs[0])) + ItemsOf(cs[0], level, p, parent, tomb, |w.arena|));
      assert Fold(w, es + more) == Fold(w1, more) by {
        FoldAppend(w, es, more);
        WalkNode(w, cs[0], level, p, parent, tomb);
      }
      WalkAll(w1, cs[1..], level, path, parent, tomb);
      SplitArena(w.arena, cs, level, path, parent, tomb);
    }
  }

  /** Handling the first child and then the others gives what handling all of them gives. */
  lemma {:induction false} SplitArena(arena: Arena, cs: seq<Node>, level: nat, path: Path,
          parent: Option<nat>, tomb: bool)
    requires cs != [] && (parent.Some? ==> parent.value < |arena|)
    ensures var a1 := Bubble(arena, parent, Newest(cs[0]))
                      + ItemsOf(cs[0], level, path + [cs[0].attr.name], parent, tomb, |arena|);
            BubbleAll(a1, parent, cs[1..]) + ItemsOfAll(cs[1..], level, path, parent, tomb, |a1|) ==
            BubbleAll(arena, parent, cs) + ItemsOfAll(cs, level, path, parent, tomb, |arena|)
  {
    var bubbled := Bubble(arena, parent, Newest(cs[0]));
    var first := ItemsOf(cs[0], level, path + [cs[0].attr.name], parent, tomb, |arena|);
    var rest := ItemsOfAll(cs[1..], level, path, parent, tomb, |arena| + |first|);
    var up := BubbleAll(bubbled, parent, cs[1..]);
    assert |bubbled + first| == |arena| + |first|;
    assert BubbleAll(bubbled + first, parent, cs[1..]) == up + first by {
      BubbleAllAppend(bubbled, first, parent, cs[1..]);
    }
    assert BubbleAll(arena, parent, cs) == up;
    assert ItemsOfAll(cs, level, path, parent, tomb, |arena|) == first + rest;
    Assoc(up, first, rest);
  }

  lemma Assoc(a: Arena, b: Arena, c: Arena)
    ensures (a + b) + c == a + (b + c)
  {
  }

  lemma BubbleAllAppend(arena: Arena, tail: Arena, ptr: Option<nat>, cs: seq<Node>)
    requires ptr.Some? ==> ptr.value < |arena|
    ensures BubbleAll(arena + tail, ptr, cs) == BubbleAll(arena, ptr, cs) + tail
    decreases |cs|
  {
    if cs != [] {
      assert Bubble(arena + tail, ptr, Newest(cs[0])) == Bubble(arena, ptr, Newest(cs[0])) + tail;
      BubbleAllAppend(Bubble(arena, ptr, Newest(cs[0])), tail, ptr, cs[1..]);
    }
  }
}
