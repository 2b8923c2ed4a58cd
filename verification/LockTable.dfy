/**
 * LocalLockHolder and the LOCK_* macros: one mutex per user and per package, created on first use
 * and destroyed with its last holder, found through a table of weak pointers.
 *
 * Every thread may be stopped between any two of the steps below. The map lock is held from
 * `BeginCtor` to `EndCtor` and from `BeginDtor` to `EndDtor`; moving holders and locking mutexes
 * happens without it.
 */
module LockTable {
  import opened Common

  /** User locks are shared mutexes, package locks are recursive mutexes. */
  datatype Key = User(id: nat) | Package(name: string)

  datatype Guard = Unlocked | Exclusive | Shared

  /** A holder object: `ref` is its strong pointer, `guard` the lock its guard object has taken. */
  datatype Holder = Holder(thread: nat, key: Key, ref: Option<nat>, guard: Guard)

  /** What a mutex itself records. */
  datatype Mutex = Mutex(key: Key, owner: Option<nat>, depth: nat, readers: nat)

  /** What the thread that has the map lock is about to do. */
  datatype Section =
    | Open
    | Looking(h: nat)       // constructor: the entry exists, the weak pointer is to be tried
    | Making(h: nat)        // constructor: the pointer had expired, a mutex is to be made
    | Storing(h: nat)       // constructor: the new mutex is to be entered in the table
    | Leaving               // constructor: done, the map lock is to be released
    | Releasing(h: nat)     // destructor: the strong pointer is to be cleared
    | Erasing(key: Key)     // destructor: the entry is to be erased if it has expired

  /** `table` maps a key to its weak pointer; `mutexes` are the mutex objects that are alive. */
  datatype State = State(table: map<Key, Option<nat>>, holders: map<nat, Holder>, mutexes: map<nat, Mutex>,
                         section: Section, next: nat)

  datatype Action =
    | BeginCtor(h: nat, thread: nat, key: Key)
    | TryLock
    | MakeMutex
    | StoreWeak
    | EndCtor
    | Move(from: nat, to: nat)
    | DropEmpty(h: nat)
    | BeginDtor(h: nat)
    | ClearStrong
    | EndDtor
    | Lock(h: nat)
    | Unlock(h: nat)
    | LockShared(h: nat)
    | UnlockShared(h: nat)

  const INITIAL := State(map[], map[], map[], Open, 0)

  /** The holder the map lock's owner is working on. */
  predicate InSection(s: State, h: nat) {
    match s.section
    case Looking(x) => x == h
    case Making(x) => x == h
    case Storing(x) => x == h
    case Releasing(x) => x == h
    case _ => false
  }

  predicate Usable(s: State, h: nat) {
    h in s.holders && !InSection(s, h)
  }

  /** A usable holder with a live mutex behind it. */
  predicate HasMutex(s: State, h: nat) {
    Usable(s, h) && s.holders[h].ref.Some? && s.holders[h].ref.value in s.mutexes
  }

  /** std::weak_ptr::expired. */
  predicate Expired(s: State, weak: Option<nat>) {
    weak.None? || weak.value !in s.mutexes
  }

  predicate Enabled(s: State, a: Action) {
    match a
    case BeginCtor(h, thread, key) => s.section.Open? && h !in s.holders
    case TryLock => s.section.Looking? && s.section.h in s.holders && s.holders[s.section.h].key in s.table
    case MakeMutex => s.section.Making? && s.section.h in s.holders
    case StoreWeak => s.section.Storing? && s.section.h in s.holders
    case EndCtor => s.section.Leaving?
    case Move(from, to) => Usable(s, from) && s.holders[from].guard.Unlocked? && to !in s.holders
    case DropEmpty(h) => Usable(s, h) && s.holders[h].ref.None?
    case BeginDtor(h) => s.section.Open? && h in s.holders && s.holders[h].ref.Some? && s.holders[h].guard.Unlocked?
    case ClearStrong => s.section.Releasing? && s.section.h in s.holders
    case EndDtor => s.section.Erasing?
    case Lock(h) => HasMutex(s, h) && s.holders[h].guard.Unlocked? && Admits(s, h)
    case Unlock(h) => HasMutex(s, h) && s.holders[h].guard.Exclusive? && s.mutexes[s.holders[h].ref.value].depth > 0
    case LockShared(h) =>
      && HasMutex(s, h) && s.holders[h].guard.Unlocked? && s.holders[h].key.User?
      && s.mutexes[s.holders[h].ref.value].owner.None?
    case UnlockShared(h) =>
      HasMutex(s, h) && s.holders[h].guard.Shared? && s.mutexes[s.holders[h].ref.value].readers > 0
  }

  /** When lock() returns: a recursive mutex may be taken again by its owner, a shared one not. */
  predicate Admits(s: State, h: nat)
    requires HasMutex(s, h)
  {
    var m := s.mutexes[s.holders[h].ref.value];
    match s.holders[h].key
    case User(_) => m.owner.None? && m.readers == 0
    case Package(_) => m.owner.None? || m.owner == Some(s.holders[h].thread)
  }

  predicate IsLocking(a: Action) {
    a.Lock? || a.Unlock? || a.LockShared? || a.UnlockShared?
  }

  function WithHolder(s: State, h: nat, x: Holder): State {
    s.(holders := s.holders[h := x])
  }

  function WithMutex(s: State, m: nat, x: Mutex): State {
    s.(mutexes := s.mutexes[m := x])
  }

  /** A mutex object dies with its last strong pointer. */
  function Collected(mutexes: map<nat, Mutex>, holders: map<nat, Holder>): map<nat, Mutex> {
    map m | m in mutexes && (exists h :: h in holders && holders[h].ref == Some(m)) :: mutexes[m]
  }

  function Next(s: State, a: Action): State
    requires Enabled(s, a)
  {
    match a
    case BeginCtor(h, thread, key) =>
      s.(holders := s.holders[h := Holder(thread, key, None, Unlocked)],
         table := if key in s.table then s.table else s.table[key := None],
         section := Looking(h))
    case TryLock =>
      var h := s.section.h;
      var weak := s.table[s.holders[h].key];
      if Expired(s, weak) then s.(section := Making(h))
      else WithHolder(s, h, s.holders[h].(ref := weak)).(section := Leaving)
    case MakeMutex =>
      var h := s.section.h;
      State(s.table, s.holders[h := s.holders[h].(ref := Some(s.next))],
            s.mutexes[s.next := Mutex(s.holders[h].key, None, 0, 0)], Storing(h), s.next + 1)
    case StoreWeak =>
      var h := s.section.h;
      s.(table := s.table[s.holders[h].key := s.holders[h].ref], section := Leaving)
    case EndCtor => s.(section := Open)
    case Move(from, to) =>
      s.(holders := s.holders[from := s.holders[from].(ref := None)][to := s.holders[from]])
    case DropEmpty(h) => s.(holders := s.holders - {h})
    case BeginDtor(h) => s.(section := Releasing(h))
    case ClearStrong =>
      var h := s.section.h;
      var rest := s.holders - {h};
      s.(holders := rest, mutexes := Collected(s.mutexes, rest), section := Erasing(s.holders[h].key))
    case EndDtor =>
      var k := s.section.key;
      s.(table := if k in s.table && Expired(s, s.table[k]) then s.table - {k} else s.table, section := Open)
    case Lock(h) =>
      var m := s.holders[h].ref.value;
      WithMutex(WithHolder(s, h, s.holders[h].(guard := Exclusive)), m,
                s.mutexes[m].(owner := Some(s.holders[h].thread), depth := s.mutexes[m].depth + 1))
    case Unlock(h) =>
      var m := s.holders[h].ref.value;
      var depth := s.mutexes[m].depth - 1;
      WithMutex(WithHolder(s, h, s.holders[h].(guard := Unlocked)), m,
                s.mutexes[m].(owner := if depth == 0 then None else s.mutexes[m].owner, depth := depth))
    case LockShared(h) =>
      var m := s.holders[h].ref.value;
      WithMutex(WithHolder(s, h, s.holders[h].(guard := Shared)), m, s.mutexes[m].(readers := s.mutexes[m].readers + 1))
    case UnlockShared(h) =>
      var m := s.holders[h].ref.value;
      WithMutex(WithHolder(s, h, s.holders[h].(guard := Unlocked)), m,
                s.mutexes[m].(readers := s.mutexes[m].readers - 1))
  }

  // ----- Invariant -----

  /** Every strong pointer leads to a live mutex of the holder's key, and guards need one. */
  ghost predicate PointersOk(s: State) {
    forall h :: h in s.holders ==>
      && (s.holders[h].ref.Some? ==>
            && s.holders[h].ref.value in s.mutexes
            && s.mutexes[s.holders[h].ref.value].key == s.holders[h].key)
      && (s.holders[h].guard != Unlocked ==> s.holders[h].ref.Some? && !InSection(s, h))
      && (s.holders[h].guard.Shared? ==> s.holders[h].key.User?)
  }

  /** A live mutex has a holder, and its identity is not handed out again. */
  ghost predicate MutexesOk(s: State) {
    forall m :: m in s.mutexes ==> m < s.next && exists h :: h in s.holders && s.holders[h].ref == Some(m)
  }

  /** The mutex a constructor has made but not entered yet. */
  predicate Unstored(s: State, m: nat) {
    s.section.Storing? && s.section.h in s.holders && s.holders[s.section.h].ref == Some(m)
  }

  /** The table leads to every live mutex, so there is one per key. */
  ghost predicate TableLeads(s: State) {
    forall m :: m in s.mutexes ==>
      Unstored(s, m) || (s.mutexes[m].key in s.table && s.table[s.mutexes[m].key] == Some(m))
  }

  /** The key whose entry the map lock's owner is working on. */
  function SectionKey(s: State): Option<Key> {
    match s.section
    case Looking(h) => if h in s.holders then Some(s.holders[h].key) else None
    case Making(h) => if h in s.holders then Some(s.holders[h].key) else None
    case Storing(h) => if h in s.holders then Some(s.holders[h].key) else None
    case Erasing(k) => Some(k)
    case _ => None
  }

  /** Every entry, except the one being worked on, is a live pointer to a mutex of its key. */
  ghost predicate TableLive(s: State) {
    forall k :: k in s.table && SectionKey(s) != Some(k) ==>
      s.table[k].Some? && s.table[k].value in s.mutexes && s.mutexes[s.table[k].value].key == k
  }

  /** What the section's program counter stands for. */
  ghost predicate SectionOk(s: State) {
    match s.section
    case Looking(h) =>
      && h in s.holders && s.holders[h].ref.None? && s.holders[h].key in s.table
      && (s.table[s.holders[h].key].Some? && s.table[s.holders[h].key].value in s.mutexes ==>
            s.mutexes[s.table[s.holders[h].key].value].key == s.holders[h].key)
    case Making(h) =>
      h in s.holders && s.holders[h].ref.None? && s.holders[h].key in s.table && Expired(s, s.table[s.holders[h].key])
    case Storing(h) =>
      && h in s.holders && s.holders[h].ref.Some?
      && (forall m :: m in s.mutexes && s.mutexes[m].key == s.holders[h].key ==> s.holders[h].ref == Some(m))
    case Releasing(h) => h in s.holders && s.holders[h].ref.Some?
    case Erasing(k) =>
      k in s.table && s.table[k].Some? && s.table[k].value in s.mutexes ==> s.mutexes[s.table[k].value].key == k
    case _ => true
  }

  /** The holders that have a mutex locked in some way. */
  ghost function Guards(s: State, m: nat, g: Guard): set<nat> {
    set h | h in s.holders && s.holders[h].ref == Some(m) && s.holders[h].guard == g
  }

  /** A mutex's own record agrees with the guards taken on it. */
  ghost predicate LockOk(s: State, m: nat)
    requires m in s.mutexes
  {
    var x := s.mutexes[m];
    && x.depth == |Guards(s, m, Exclusive)|
    && x.readers == |Guards(s, m, Shared)|
    && (x.owner.None? <==> x.depth == 0)
    && (forall h :: h in Guards(s, m, Exclusive) ==> x.owner == Some(s.holders[h].thread))
    && (x.key.User? ==> x.depth <= 1 && (x.owner.Some? ==> x.readers == 0))
    && (x.key.Package? ==> x.readers == 0)
  }

  ghost predicate LocksOk(s: State) {
    forall m :: m in s.mutexes ==> LockOk(s, m)
  }

  /** Everything but the lock records. */
  ghost predicate Shape(s: State) {
    PointersOk(s) && MutexesOk(s) && TableLeads(s) && TableLive(s) && SectionOk(s)
  }

  ghost predicate Inv(s: State) {
    Shape(s) && LocksOk(s)
  }

  // ----- Steps keep the invariant -----

  lemma {:induction false} BeginCtorShape(s: State, a: Action)
    requires Shape(s) && a.BeginCtor? && Enabled(s, a)
    ensures Shape(Next(s, a))
  {
    var s' := Next(s, a);
    assert forall h :: h in s.holders ==> h in s'.holders && s'.holders[h] == s.holders[h];
  }

  lemma {:induction false} TryLockShape(s: State)
    requires Shape(s) && Enabled(s, TryLock)
    ensures Shape(Next(s, TryLock))
  {
    var s' := Next(s, TryLock);
    forall m | m in s'.mutexes
      ensures exists h :: h in s'.holders && s'.holders[h].ref == Some(m)
    {
      var h :| h in s.holders && s.holders[h].ref == Some(m);
      assert h in s'.holders && s'.holders[h].ref == Some(m);
    }
  }

  lemma {:induction false} MakeMutexShape(s: State)
    requires Shape(s) && Enabled(s, MakeMutex)
    ensures Shape(Next(s, MakeMutex))
  {
    var s' := Next(s, MakeMutex);
    forall m | m in s'.mutexes
      ensures exists h :: h in s'.holders && s'.holders[h].ref == Some(m)
    {
      if m == s.next {
        assert s'.holders[s.section.h].ref == Some(m);
      } else {
        var h :| h in s.holders && s.holders[h].ref == Some(m);
        assert h in s'.holders && s'.holders[h].ref == Some(m);
      }
    }
  }

  lemma {:induction false} StoreWeakShape(s: State)
    requires Shape(s) && Enabled(s, StoreWeak)
    ensures Shape(Next(s, StoreWeak))
  {
  }

  lemma {:induction false} EndCtorShape(s: State)
    requires Shape(s) && Enabled(s, EndCtor)
    ensures Shape(Next(s, EndCtor))
  {
  }

  lemma {:induction false} MoveShape(s: State, a: Action)
    requires Shape(s) && a.Move? && Enabled(s, a)
    ensures Shape(Next(s, a))
  {
    MovePointers(s, a);
    var s' := Next(s, a);
    assert SectionKey(s') == SectionKey(s);
    assert forall m :: Unstored(s', m) <==> Unstored(s, m);
  }

  lemma {:induction false} MovePointers(s: State, a: Action)
    requires PointersOk(s) && MutexesOk(s) && a.Move? && Enabled(s, a)
    ensures PointersOk(Next(s, a)) && MutexesOk(Next(s, a))
  {
    var s' := Next(s, a);
    forall m | m in s'.mutexes
      ensures exists h :: h in s'.holders && s'.holders[h].ref == Some(m)
    {
      var h :| h in s.holders && s.holders[h].ref == Some(m);
      var h' := if h == a.from then a.to else h;
      assert h' in s'.holders && s'.holders[h'].ref == Some(m);
    }
  }

  lemma {:induction false} DropEmptyShape(s: State, a: Action)
    requires Shape(s) && a.DropEmpty? && Enabled(s, a)
    ensures Shape(Next(s, a))
  {
    var s' := Next(s, a);
    forall m | m in s'.mutexes
      ensures exists h :: h in s'.holders && s'.holders[h].ref == Some(m)
    {
      var h :| h in s.holders && s.holders[h].ref == Some(m);
      assert h in s'.holders && s'.holders[h].ref == Some(m);
    }
  }

  lemma {:induction false} BeginDtorShape(s: State, a: Action)
    requires Shape(s) && a.BeginDtor? && Enabled(s, a)
    ensures Shape(Next(s, a))
  {
  }

  lemma {:induction false} ClearStrongShape(s: State)
    requires Shape(s) && Enabled(s, ClearStrong)
    ensures Shape(Next(s, ClearStrong))
  {
    var s' := Next(s, ClearStrong);
    forall k | k in s'.table && SectionKey(s') != Some(k)
      ensures s'.table[k].Some? && s'.table[k].value in s'.mutexes && s'.mutexes[s'.table[k].value].key == k
    {
      var m := s.table[k].value;
      var h :| h in s.holders && s.holders[h].ref == Some(m);
      assert h in s'.holders && s'.holders[h].ref == Some(m);
    }
  }

  lemma {:induction false} EndDtorShape(s: State)
    requires Shape(s) && Enabled(s, EndDtor)
    ensures Shape(Next(s, EndDtor))
  {
  }

  /** One holder's guard and its mutex's record change, nothing else. */
  ghost predicate OnlyLocks(s: State, s': State, h: nat, m: nat) {
    && h in s.holders && m in s.mutexes && s.holders[h].ref == Some(m) && !InSection(s, h)
    && s'.table == s.table && s'.section == s.section && s'.next == s.next
    && (exists g :: s'.holders == s.holders[h := s.holders[h].(guard := g)] && (g.Shared? ==> s.holders[h].key.User?))
    && (exists x: Mutex :: s'.mutexes == s.mutexes[m := x] && x.key == s.mutexes[m].key)
  }

  lemma {:induction false} LockingOnlyLocks(s: State, a: Action)
    requires IsLocking(a) && Enabled(s, a)
    ensures OnlyLocks(s, Next(s, a), a.h, s.holders[a.h].ref.value)
  {
    var s', m := Next(s, a), s.holders[a.h].ref.value;
    assert s'.holders == s.holders[a.h := s.holders[a.h].(guard := s'.holders[a.h].guard)];
    assert s'.mutexes == s.mutexes[m := s'.mutexes[m]];
  }

  lemma {:induction false} LockingShape(s: State, s': State, h: nat, m: nat)
    requires Shape(s) && OnlyLocks(s, s', h, m)
    ensures Shape(s')
  {
    LockingPointers(s, s', h, m);
    assert TableLeads(s');
    assert SectionKey(s') == SectionKey(s);
  }

  lemma {:induction false} LockingPointers(s: State, s': State, h: nat, m: nat)
    requires PointersOk(s) && MutexesOk(s) && OnlyLocks(s, s', h, m)
    ensures PointersOk(s') && MutexesOk(s')
  {
    forall x | x in s'.mutexes
      ensures x < s'.next && exists y :: y in s'.holders && s'.holders[y].ref == Some(x)
    {
      var y :| y in s.holders && s.holders[y].ref == Some(x);
      assert y in s'.holders && s'.holders[y].ref == Some(x);
    }
  }

  // ----- Lock records -----

  /** A mutex whose guards and record are as before is as sound as before. */
  lemma {:induction false} SameGuards(s: State, s': State, m: nat)
    requires m in s.mutexes && LockOk(s, m) && m in s'.mutexes && s'.mutexes[m] == s.mutexes[m]
    requires Guards(s', m, Exclusive) == Guards(s, m, Exclusive) && Guards(s', m, Shared) == Guards(s, m, Shared)
    requires forall h :: h in Guards(s, m, Exclusive) ==> s'.holders[h].thread == s.holders[h].thread
    ensures LockOk(s', m)
  {
  }

  ghost predicate Guarding(s: State, h: nat) {
    h in s.holders && s.holders[h].guard != Unlocked
  }

  /** Holders that guard something are the same, and so are mutexes, except for new ones. */
  ghost predicate GuardsKept(s: State, s': State) {
    && (forall h :: Guarding(s, h) || Guarding(s', h) ==>
          h in s.holders && h in s'.holders && s'.holders[h] == s.holders[h])
    && (forall m :: m in s'.mutexes ==>
          if m in s.mutexes then s'.mutexes[m] == s.mutexes[m]
          else s'.mutexes[m] == Mutex(s'.mutexes[m].key, None, 0, 0) && m >= s.next)
  }

  lemma {:induction false} TableStepGuards(s: State, a: Action)
    requires PointersOk(s) && MutexesOk(s) && SectionOk(s) && Enabled(s, a)
    requires !IsLocking(a)
    ensures GuardsKept(s, Next(s, a))
  {
  }

  lemma {:induction false} KeptLockAt(s: State, s': State, m: nat)
    requires PointersOk(s) && MutexesOk(s) && GuardsKept(s, s') && m in s'.mutexes
    requires m in s.mutexes ==> LockOk(s, m)
    ensures LockOk(s', m)
  {
    assert forall h :: h in s'.holders && s'.holders[h].guard != Unlocked ==> Guarding(s', h);
    assert forall h :: h in s.holders && s.holders[h].guard != Unlocked ==> Guarding(s, h);
    if m in s.mutexes {
      assert Guards(s', m, Exclusive) == Guards(s, m, Exclusive);
      assert Guards(s', m, Shared) == Guards(s, m, Shared);
      SameGuards(s, s', m);
    } else {
      assert Guards(s', m, Exclusive) == {} && Guards(s', m, Shared) == {};
    }
  }

  lemma {:induction false} KeptLocks(s: State, s': State)
    requires PointersOk(s) && MutexesOk(s) && LocksOk(s) && GuardsKept(s, s')
    ensures LocksOk(s')
  {
    forall m | m in s'.mutexes
      ensures LockOk(s', m)
    {
      KeptLockAt(s, s', m);
    }
  }

  lemma {:induction false} OtherLocks(s: State, s': State, h: nat, m: nat)
    requires LocksOk(s) && OnlyLocks(s, s', h, m) && LockOk(s', m)
    ensures LocksOk(s')
  {
    forall x | x in s'.mutexes
      ensures LockOk(s', x)
    {
      if x != m {
        assert LockOk(s, x);
        assert Guards(s', x, Exclusive) == Guards(s, x, Exclusive);
        assert Guards(s', x, Shared) == Guards(s, x, Shared);
        SameGuards(s, s', x);
      }
    }
  }

  /** One holder's guard changes. */
  lemma {:induction false} GuardsAfter(s: State, s': State, h: nat, m: nat, g: Guard)
    requires h in s.holders && s.holders[h].ref == Some(m) && s'.holders == s.holders[h := s.holders[h].(guard := g)]
    ensures Guards(s', m, Exclusive) ==
            if g.Exclusive? then Guards(s, m, Exclusive) + {h} else Guards(s, m, Exclusive) - {h}
    ensures Guards(s', m, Shared) == if g.Shared? then Guards(s, m, Shared) + {h} else Guards(s, m, Shared) - {h}
  {
  }

  lemma {:induction false} LockLocks(s: State, a: Action)
    requires PointersOk(s) && LocksOk(s) && Enabled(s, a) && a.Lock?
    ensures LockOk(Next(s, a), s.holders[a.h].ref.value)
  {
    var s', m := Next(s, a), s.holders[a.h].ref.value;
    assert LockOk(s, m);
    assert s.mutexes[m].owner.None? ==> Guards(s, m, Exclusive) == {};
    GuardsAfter(s, s', a.h, m, Exclusive);
    assert a.h !in Guards(s, m, Exclusive) && a.h !in Guards(s, m, Shared);
  }

  lemma {:induction false} UnlockLocks(s: State, a: Action)
    requires PointersOk(s) && LocksOk(s) && Enabled(s, a) && a.Unlock?
    ensures LockOk(Next(s, a), s.holders[a.h].ref.value)
  {
    var s', m := Next(s, a), s.holders[a.h].ref.value;
    assert LockOk(s, m);
    GuardsAfter(s, s', a.h, m, Unlocked);
    assert a.h in Guards(s, m, Exclusive) && a.h !in Guards(s, m, Shared);
  }

  lemma {:induction false} LockSharedLocks(s: State, a: Action)
    requires PointersOk(s) && LocksOk(s) && Enabled(s, a) && a.LockShared?
    ensures LockOk(Next(s, a), s.holders[a.h].ref.value)
  {
    var s', m := Next(s, a), s.holders[a.h].ref.value;
    assert LockOk(s, m);
    GuardsAfter(s, s', a.h, m, Shared);
    assert a.h !in Guards(s, m, Exclusive) && a.h !in Guards(s, m, Shared);
  }

  lemma {:induction false} UnlockSharedLocks(s: State, a: Action)
    requires PointersOk(s) && LocksOk(s) && Enabled(s, a) && a.UnlockShared?
    ensures LockOk(Next(s, a), s.holders[a.h].ref.value)
  {
    var s', m := Next(s, a), s.holders[a.h].ref.value;
    assert LockOk(s, m);
    GuardsAfter(s, s', a.h, m, Unlocked);
    assert a.h in Guards(s, m, Shared) && a.h !in Guards(s, m, Exclusive);
  }

  lemma {:induction false} LockingInv(s: State, a: Action)
    requires Inv(s) && Enabled(s, a) && IsLocking(a)
    ensures Inv(Next(s, a))
  {
    var s', m := Next(s, a), s.holders[a.h].ref.value;
    LockingOnlyLocks(s, a);
    LockingShape(s, s', a.h, m);
    if a.Lock? {
      LockLocks(s, a);
    } else if a.Unlock? {
      UnlockLocks(s, a);
    } else if a.LockShared? {
      LockSharedLocks(s, a);
    } else {
      UnlockSharedLocks(s, a);
    }
    OtherLocks(s, s', a.h, m);
  }

  lemma {:induction false} TableShape(s: State, a: Action)
    requires Shape(s) && Enabled(s, a) && !IsLocking(a)
    ensures Shape(Next(s, a))
  {
    match a
    case BeginCtor(_, _, _) => BeginCtorShape(s, a);
    case TryLock => TryLockShape(s);
    case MakeMutex => MakeMutexShape(s);
    case StoreWeak => StoreWeakShape(s);
    case EndCtor => EndCtorShape(s);
    case Move(_, _) => MoveShape(s, a);
    case DropEmpty(_) => DropEmptyShape(s, a);
    case BeginDtor(_) => BeginDtorShape(s, a);
    case ClearStrong => ClearStrongShape(s);
    case EndDtor => EndDtorShape(s);
  }

  lemma {:induction false} StepInv(s: State, a: Action)
    requires Inv(s) && Enabled(s, a)
    ensures Inv(Next(s, a))
  {
    if IsLocking(a) {
      LockingInv(s, a);
    } else {
      TableShape(s, a);
      TableStepGuards(s, a);
      KeptLocks(s, Next(s, a));
    }
  }

  // ----- Runs -----

  ghost predicate StepAt(states: seq<State>, actions: seq<Action>, i: nat) {
    i + 1 < |states| == |actions| + 1 ==> Enabled(states[i], actions[i]) && states[i + 1] == Next(states[i], actions[i])
  }

  /** A run from the start, with its steps in the order they happened. */
  ghost predicate IsRun(states: seq<State>, actions: seq<Action>) {
    |states| == |actions| + 1 && states[0] == INITIAL && forall i: nat :: StepAt(states, actions, i)
  }

  lemma {:induction false} RunInv(states: seq<State>, actions: seq<Action>, n: nat)
    requires IsRun(states, actions) && n < |states|
    ensures Inv(states[n])
    decreases n
  {
    if n > 0 {
      RunInv(states, actions, n - 1);
      assert StepAt(states, actions, n - 1);
      StepInv(states[n - 1], actions[n - 1]);
    }
  }

  /** A live holder: one that has not been moved from. */
  predicate Holds(s: State, h: nat) {
    h in s.holders && s.holders[h].ref.Some?
  }

  /**
   * Whenever the map lock is free: holders of one key share one mutex, the table has an entry for
   * exactly the keys with a holder, and no entry has expired.
   */
  lemma {:induction false} TableIsConsistent(states: seq<State>, actions: seq<Action>, n: nat)
    requires IsRun(states, actions) && n < |states| && states[n].section.Open?
    ensures var s := states[n];
            && (forall h, k :: Holds(s, h) && Holds(s, k) && s.holders[h].key == s.holders[k].key ==>
                  s.holders[h].ref == s.holders[k].ref)
            && (forall key :: key in s.table <==> exists h :: Holds(s, h) && s.holders[h].key == key)
            && (forall key :: key in s.table ==> !Expired(s, s.table[key]))
  {
    var s := states[n];
    RunInv(states, actions, n);
    forall h | h in s.holders && s.holders[h].ref.Some?
      ensures s.holders[h].key in s.table && s.table[s.holders[h].key] == s.holders[h].ref
    {
      assert s.holders[h].ref.value in s.mutexes;
    }
    forall key | key in s.table
      ensures exists h :: Holds(s, h) && s.holders[h].key == key
    {
      var m := s.table[key].value;
      var h :| h in s.holders && s.holders[h].ref == Some(m);
      assert s.holders[h].key == key;
    }
  }

  /**
   * Mutual exclusion by key, although mutexes come and go: two threads never hold locks on one
   * key at the same time unless both are readers of one user.
   */
  lemma {:induction false} KeysAreExclusive(states: seq<State>, actions: seq<Action>, n: nat, h: nat, k: nat)
    requires IsRun(states, actions) && n < |states|
    requires Guarding(states[n], h) && Guarding(states[n], k)
    requires states[n].holders[h].key == states[n].holders[k].key
    requires states[n].holders[h].thread != states[n].holders[k].thread
    ensures states[n].holders[h].guard.Shared? && states[n].holders[k].guard.Shared?
    ensures states[n].holders[h].key.User?
  {
    RunInv(states, actions, n);
    var s := states[n];
    OneMutex(s, h, k);
    var m := s.holders[h].ref.value;
    assert LockOk(s, m);
    assert forall x :: x in {h, k} && s.holders[x].guard.Exclusive? ==> x in Guards(s, m, Exclusive);
    assert forall x :: x in {h, k} && s.holders[x].guard.Shared? ==> x in Guards(s, m, Shared);
  }

  /** Holders of one key that are in use have the same mutex, even while a constructor is at work. */
  lemma {:induction false} OneMutex(s: State, h: nat, k: nat)
    requires Shape(s) && Usable(s, h) && Holds(s, h) && Usable(s, k) && Holds(s, k)
    requires s.holders[h].key == s.holders[k].key
    ensures s.holders[h].ref == s.holders[k].ref
  {
    var m, x := s.holders[h].ref.value, s.holders[k].ref.value;
    assert m in s.mutexes && x in s.mutexes;
  }

  /** The holder guards this key. */
  ghost predicate GuardsKey(s: State, k: nat, key: Key) {
    Guarding(s, k) && s.holders[k].key == key
  }

  /** A thread other than the holder's guards the holder's key. */
  ghost predicate OthersGuard(s: State, h: nat) {
    h in s.holders && exists k :: GuardsKey(s, k, s.holders[h].key) && s.holders[k].thread != s.holders[h].thread
  }

  ghost predicate SomeoneGuards(s: State, h: nat) {
    h in s.holders && exists k :: GuardsKey(s, k, s.holders[h].key)
  }

  ghost predicate WriterGuards(s: State, h: nat) {
    h in s.holders && exists k :: GuardsKey(s, k, s.holders[h].key) && s.holders[k].guard.Exclusive?
  }

  /** The guards on a holder's key are those on its mutex. */
  ghost predicate KeyGuards(s: State, h: nat) {
    && Usable(s, h) && Holds(s, h) && s.holders[h].ref.value in s.mutexes
    && var m := s.holders[h].ref.value;
    && LockOk(s, m) && s.mutexes[m].key == s.holders[h].key
    && forall k :: GuardsKey(s, k, s.holders[h].key) <==> k in Guards(s, m, Exclusive) || k in Guards(s, m, Shared)
  }

  lemma {:induction false} GuardsOfKey(s: State, h: nat)
    requires Inv(s) && Usable(s, h) && Holds(s, h)
    ensures KeyGuards(s, h)
  {
    forall k | GuardsKey(s, k, s.holders[h].key)
      ensures s.holders[k].ref == s.holders[h].ref
    {
      OneMutex(s, h, k);
    }
  }

  /** A mutex is free exactly if nobody has it locked. */
  lemma {:induction false} FreeIfUnguarded(s: State, m: nat)
    requires m in s.mutexes && LockOk(s, m)
    ensures s.mutexes[m].owner.None? <==> Guards(s, m, Exclusive) == {}
    ensures s.mutexes[m].readers == 0 <==> Guards(s, m, Shared) == {}
  {
  }

  lemma {:induction false} PackageGranted(s: State, h: nat)
    requires KeyGuards(s, h) && !Guarding(s, h) && s.holders[h].key.Package?
    ensures Enabled(s, Lock(h)) <==> !OthersGuard(s, h)
  {
    var m := s.holders[h].ref.value;
    FreeIfUnguarded(s, m);
    if s.mutexes[m].owner.Some? {
      var k :| k in Guards(s, m, Exclusive);
      assert GuardsKey(s, k, s.holders[h].key);
    }
  }

  lemma {:induction false} UserGranted(s: State, h: nat)
    requires KeyGuards(s, h) && !Guarding(s, h) && s.holders[h].key.User?
    ensures Enabled(s, Lock(h)) <==> !SomeoneGuards(s, h)
  {
    var m := s.holders[h].ref.value;
    FreeIfUnguarded(s, m);
    if k :| k in Guards(s, m, Exclusive) + Guards(s, m, Shared) {
      assert GuardsKey(s, k, s.holders[h].key);
    }
  }

  lemma {:induction false} ReaderGranted(s: State, h: nat)
    requires KeyGuards(s, h) && !Guarding(s, h) && s.holders[h].key.User?
    ensures Enabled(s, LockShared(h)) <==> !WriterGuards(s, h)
  {
    var m := s.holders[h].ref.value;
    FreeIfUnguarded(s, m);
    if k :| k in Guards(s, m, Exclusive) {
      assert GuardsKey(s, k, s.holders[h].key);
    }
  }

  /**
   * Exactly when a lock is granted, by who guards the key: a package to a thread if no other thread
   * guards it, however often this one does; a user if nobody guards it; and a user to a reader if
   * nobody guards it exclusively.
   */
  lemma {:induction false} LockIsGranted(states: seq<State>, actions: seq<Action>, n: nat, h: nat)
    requires IsRun(states, actions) && n < |states|
    requires Usable(states[n], h) && Holds(states[n], h) && !Guarding(states[n], h)
    ensures states[n].holders[h].key.Package? ==> (Enabled(states[n], Lock(h)) <==> !OthersGuard(states[n], h))
    ensures states[n].holders[h].key.User? ==> (Enabled(states[n], Lock(h)) <==> !SomeoneGuards(states[n], h))
    ensures states[n].holders[h].key.User? ==> (Enabled(states[n], LockShared(h)) <==> !WriterGuards(states[n], h))
  {
    RunInv(states, actions, n);
    GuardsOfKey(states[n], h);
    if states[n].holders[h].key.Package? {
      PackageGranted(states[n], h);
    } else {
      UserGranted(states[n], h);
      ReaderGranted(states[n], h);
    }
  }

  /** What is locked can be unlocked. */
  lemma {:induction false} UnlockIsGranted(states: seq<State>, actions: seq<Action>, n: nat, h: nat)
    requires IsRun(states, actions) && n < |states| && Guarding(states[n], h)
    ensures Enabled(states[n], if states[n].holders[h].guard.Exclusive? then Unlock(h) else UnlockShared(h))
  {
    RunInv(states, actions, n);
    var s, m := states[n], states[n].holders[h].ref.value;
    assert LockOk(s, m);
    assert h in Guards(s, m, s.holders[h].guard);
  }

  /** What locking and unlocking do to the guards. */
  lemma {:induction false} LockingGuards(s: State, a: Action, k: nat)
    requires Enabled(s, a) && IsLocking(a)
    ensures a.h in s.holders
    ensures var g := if a.Lock? then Exclusive else if a.LockShared? then Shared else Unlocked;
            Next(s, a).holders == s.holders[a.h := s.holders[a.h].(guard := g)]
    ensures k == a.h ==> Guarding(s, k) != Guarding(Next(s, a), k)
  {
  }

  /** Who guards what is changed by locking and unlocking only, and only for the one holder. */
  lemma {:induction false} LockingIsLocal(states: seq<State>, actions: seq<Action>, n: nat, k: nat)
    requires IsRun(states, actions) && n + 1 < |states|
    ensures match actions[n] {
              case Lock(h) => Guarding(states[n + 1], h) && states[n + 1].holders[h].guard.Exclusive?
              case LockShared(h) => Guarding(states[n + 1], h) && states[n + 1].holders[h].guard.Shared?
              case Unlock(h) => !Guarding(states[n + 1], h)
              case UnlockShared(h) => !Guarding(states[n + 1], h)
              case _ => true
            }
    ensures !(IsLocking(actions[n]) && actions[n].h == k) ==> (Guarding(states[n], k) <==> Guarding(states[n + 1], k))
    ensures Guarding(states[n], k) && Guarding(states[n + 1], k) ==>
              states[n + 1].holders[k] == states[n].holders[k]
  {
    RunInv(states, actions, n);
    assert StepAt(states, actions, n);
    var a := actions[n];
    if IsLocking(a) {
      LockingGuards(states[n], a, k);
    } else {
      TableStepGuards(states[n], a);
    }
  }

  /**
   * Nobody is turned away: while the map lock is free any thread can construct a holder for any key,
   * and any holder with a mutex and no lock taken can be destroyed; a holder not in use by the map
   * lock's owner can be moved, and one that was moved from can be destroyed, at any time.
   */
  lemma {:induction false} NobodyIsTurnedAway(states: seq<State>, actions: seq<Action>, n: nat, h: nat)
    requires IsRun(states, actions) && n < |states|
    ensures var s := states[n];
            && (s.section.Open? && h !in s.holders ==> forall thread, key :: Enabled(s, BeginCtor(h, thread, key)))
            && (s.section.Open? && Holds(s, h) && !Guarding(s, h) ==> Enabled(s, BeginDtor(h)))
            && (Usable(s, h) && !Guarding(s, h) ==> forall to :: to !in s.holders ==> Enabled(s, Move(h, to)))
            && (Usable(s, h) && !Holds(s, h) ==> Enabled(s, DropEmpty(h)))
  {
    RunInv(states, actions, n);
  }

  /**
   * A holder has the thread and the key it was constructed with for as long as it lives, and so has
   * one it is moved to, which then has the mutex in its place.
   */
  lemma {:induction false} HoldersKeepIdentity(states: seq<State>, actions: seq<Action>, n: nat, h: nat)
    requires IsRun(states, actions) && n + 1 < |states| && h in states[n + 1].holders
    ensures h in states[n].holders ==>
              && states[n + 1].holders[h].thread == states[n].holders[h].thread
              && states[n + 1].holders[h].key == states[n].holders[h].key
    ensures h !in states[n].holders ==>
              match actions[n] {
                case BeginCtor(k, thread, key) =>
                  k == h && states[n + 1].holders[h].thread == thread && states[n + 1].holders[h].key == key
                case Move(from, to) =>
                  && to == h && from in states[n].holders && states[n + 1].holders[h] == states[n].holders[from]
                  && !Holds(states[n + 1], from)
                case _ => false
              }
  {
    assert StepAt(states, actions, n);
  }

  /** The action by which the thread that has the map lock goes on. */
  function SectionStep(s: State): Action
    requires !s.section.Open?
  {
    match s.section
    case Looking(_) => TryLock
    case Making(_) => MakeMutex
    case Storing(_) => StoreWeak
    case Leaving => EndCtor
    case Releasing(_) => ClearStrong
    case Erasing(_) => EndDtor
  }

  /** The steps until the map lock is released. */
  function SectionLeft(x: Section): nat {
    match x
    case Open => 0
    case Looking(_) => 4
    case Making(_) => 3
    case Storing(_) => 2
    case Leaving => 1
    case Releasing(_) => 2
    case Erasing(_) => 1
  }

  /**
   * Constructors and destructors complete: whoever has the map lock can go on, comes nearer to
   * releasing it with each step of its own, and is not set back by those of others. A constructor
   * leaves its holder with a mutex, and a destructor leaves no holder.
   */
  lemma {:induction false} SectionsComplete(states: seq<State>, actions: seq<Action>, n: nat)
    requires IsRun(states, actions) && n < |states| && !states[n].section.Open?
    ensures Enabled(states[n], SectionStep(states[n]))
    ensures n + 1 < |states| ==>
              if actions[n] == SectionStep(states[n])
              then SectionLeft(states[n + 1].section) < SectionLeft(states[n].section)
              else states[n + 1].section == states[n].section
    ensures n + 1 < |states| && actions[n] == SectionStep(states[n]) && states[n + 1].section.Leaving? ==>
              Holds(states[n + 1], states[n].section.h)
    ensures n + 1 < |states| && states[n + 1].section.Erasing? && states[n].section.Releasing? ==>
              states[n].section.h !in states[n + 1].holders
  {
    RunInv(states, actions, n);
    if n + 1 < |states| {
      assert StepAt(states, actions, n);
    }
  }

  /** No mutex is destroyed while it is locked. */
  lemma {:induction false} LockedMutexesLive(states: seq<State>, actions: seq<Action>, n: nat, m: nat)
    requires IsRun(states, actions) && n + 1 < |states|
    requires m in states[n].mutexes && m !in states[n + 1].mutexes
    ensures states[n].mutexes[m] == Mutex(states[n].mutexes[m].key, None, 0, 0)
  {
    RunInv(states, actions, n);
    RunInv(states, actions, n + 1);
    assert StepAt(states, actions, n);
    var s := states[n];
    assert actions[n].ClearStrong?;
    CollectedUnheld(s, m);
    assert LockOk(s, m);
    assert Guards(s, m, Exclusive) == {} && Guards(s, m, Shared) == {};
  }

  lemma {:induction false} CollectedUnheld(s: State, m: nat)
    requires Enabled(s, ClearStrong) && m in s.mutexes && m !in Next(s, ClearStrong).mutexes
    ensures forall h :: h in s.holders && s.holders[h].ref == Some(m) ==> h == s.section.h
  {
    var rest := s.holders - {s.section.h};
    forall h | h in s.holders && s.holders[h].ref == Some(m) && h != s.section.h
      ensures h in rest && rest[h].ref == Some(m)
    {
    }
  }
}
