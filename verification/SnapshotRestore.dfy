/**
 * installd's restoreAppDataSnapshot: an app's data in four storage areas is cleared and then put
 * back, area by area, from a rollback snapshot. Any of the file operations may fail half way.
 */
module SnapshotRestore {
  import opened Common

  /** Credential- and device-encrypted data of the app and of its PCC component, in restore order. */
  datatype Area = Ce | De | PccCe | PccDe

  datatype Section = Cache | CodeCache | Rest

  datatype Entry = Entry(section: Section, name: string)

  type Data = map<Entry, string>

  /** The directories that exist, by area. */
  type Areas = map<Area, Data>

  /** The storage and clear flags of a request. */
  datatype Flags = Flags(ce: bool, de: bool, cacheOnly: bool, codeCacheOnly: bool)

  /**
   * What the file system does. A delete that fails leaves the entries that are `kept`; a copy that
   * fails has written the entries that are `copied`. The rest of clearAppData (shared storage and
   * the SDK sandbox) and the two relabellings only succeed or fail.
   */
  datatype Env = Env(clearFails: Area -> bool, copyFails: Area -> bool, eraseFails: Area -> bool,
                     dropFails: Area -> bool, kept: (Area, Entry) -> bool, copied: (Area, Entry) -> bool,
                     othersCleared: bool, relabelled: bool, pccRelabelled: bool)

  /** A restore request, with the state it finds. */
  datatype Job = Job(env: Env, data: Areas, snapshots: Areas, flags: Flags, pccId: int)

  function Get(m: Areas, a: Area): Option<Data> {
    if a in m then Some(m[a]) else None
  }

  function Rank(a: Area): nat {
    match a
    case Ce => 0
    case De => 1
    case PccCe => 2
    case PccDe => 3
  }

  predicate Selected(flags: Flags, a: Area) {
    if a.Ce? || a.PccCe? then flags.ce else flags.de
  }

  predicate Needed(j: Job, a: Area) {
    Selected(j.flags, a) && (a.PccCe? || a.PccDe? ==> j.pccId > 0) && Get(j.snapshots, a).Some?
  }

  // ----- Clearing -----

  /** Which entries a clear is after. */
  predicate Targeted(flags: Flags, e: Entry) {
    if flags.cacheOnly then e.section.Cache?
    else if flags.codeCacheOnly then e.section.CodeCache?
    else true
  }

  function Kept(env: Env, a: Area, d: Data): Data {
    map e | e in d && env.kept(a, e) :: d[e]
  }

  function Remaining(env: Env, flags: Flags, a: Area, d: Data): Data {
    map e | e in d && (!Targeted(flags, e) || (env.clearFails(a) && env.kept(a, e))) :: d[e]
  }

  predicate ClearOk(env: Env, data: Areas, a: Area) {
    Get(data, a).Some? ==> !env.clearFails(a)
  }

  /** A PCC directory is only cleared once the app's own has been. */
  predicate Reached(env: Env, data: Areas, flags: Flags, a: Area) {
    && Selected(flags, a)
    && (a.PccCe? ==> ClearOk(env, data, Ce))
    && (a.PccDe? ==> ClearOk(env, data, De))
  }

  function Cleared(env: Env, data: Areas, flags: Flags, a: Area): Option<Data> {
    if Get(data, a).Some? && Reached(env, data, flags, a) then Some(Remaining(env, flags, a, Get(data, a).value))
    else Get(data, a)
  }

  /** What a clear leaves untouched: all but the caches, or all but the code caches, or nothing. */
  predicate Spares(flags: Flags, section: Section) {
    match section
    case Cache => !flags.cacheOnly && flags.codeCacheOnly
    case CodeCache => flags.cacheOnly
    case Rest => flags.cacheOnly || flags.codeCacheOnly
  }

  /** The entries left are exactly those to be spared, with their content. */
  ghost predicate ClearedTo(flags: Flags, before: Data, after: Data) {
    && (forall e :: e in after <==> e in before && Spares(flags, e.section))
    && (forall e :: e in after ==> after[e] == before[e])
  }

  /**
   * What is left of an area, entry by entry: exactly what is to be spared if the clear comes to it
   * and its delete succeeds; all of that and nothing new if the delete fails; and everything if the
   * area is not asked for or the clear of the app's own directory failed before.
   */
  lemma {:induction false} ClearLeaves(env: Env, data: Areas, flags: Flags, a: Area)
    requires a in data
    ensures var after := Cleared(env, data, flags, a);
            && after.Some?
            && (Selected(flags, a) && !env.clearFails(a) && (a.PccCe? && Ce in data ==> !env.clearFails(Ce))
                && (a.PccDe? && De in data ==> !env.clearFails(De)) ==>
                  ClearedTo(flags, data[a], after.value))
            && (forall e :: e in after.value ==> e in data[a] && after.value[e] == data[a][e])
            && (forall e :: e in data[a] && Spares(flags, e.section) ==> e in after.value)
            && (!Selected(flags, a) || (a.PccCe? && Ce in data && env.clearFails(Ce))
                || (a.PccDe? && De in data && env.clearFails(De)) ==>
                  after.value == data[a])
  {
  }

  predicate CeOk(env: Env, data: Areas) {
    ClearOk(env, data, Ce) && ClearOk(env, data, PccCe)
  }

  predicate DeOk(env: Env, data: Areas) {
    ClearOk(env, data, De) && ClearOk(env, data, PccDe)
  }

  /** The device-encrypted result replaces the credential-encrypted one. */
  predicate ClearSucceeds(env: Env, data: Areas, flags: Flags) {
    (if flags.de then DeOk(env, data) else flags.ce ==> CeOk(env, data)) && env.othersCleared
  }

  // ----- Copying back -----

  function Copied(env: Env, a: Area, d: Data): Data {
    if env.copyFails(a) then map e | e in d && env.copied(a, e) :: d[e] else d
  }

  /** A copy goes over what is there; a failed one that wrote nothing leaves no trace. */
  function Overlay(before: Option<Data>, written: Data, ok: bool): Option<Data> {
    if !ok && written == map[] then before
    else Some((if before.Some? then before.value else map[]) + written)
  }

  function Erased(env: Env, a: Area, d: Option<Data>): Option<Data> {
    if d.None? || !env.eraseFails(a) then None else Some(Kept(env, a, d.value))
  }

  function Dropped(env: Env, a: Area, d: Data): Option<Data> {
    if env.dropFails(a) then Some(Kept(env, a, d)) else None
  }

  // ----- What the whole restore does, area by area -----

  ghost predicate AnyNeeded(j: Job) {
    exists a :: Needed(j, a)
  }

  predicate Breaks(j: Job, x: Area) {
    Needed(j, x) && j.env.copyFails(x)
  }

  /** The area whose copy fails first. */
  ghost predicate FailsAt(j: Job, x: Area) {
    Breaks(j, x) && forall y :: Rank(y) < Rank(x) ==> !Breaks(j, y)
  }

  function ClearedIn(j: Job, a: Area): Option<Data> {
    Cleared(j.env, j.data, j.flags, a)
  }

  /** An area once its snapshot has been copied over it, as far as that went. */
  function RestoredIn(j: Job, a: Area): Option<Data> {
    if Needed(j, a)
    then Overlay(ClearedIn(j, a), Copied(j.env, a, Get(j.snapshots, a).value), !j.env.copyFails(a))
    else ClearedIn(j, a)
  }

  /** All copies before rank k were made. */
  function Midway(j: Job, k: nat, a: Area): Option<Data> {
    if Rank(a) < k then RestoredIn(j, a) else ClearedIn(j, a)
  }

  function SnapshotMidway(j: Job, k: nat, a: Area): Option<Data> {
    if Needed(j, a) && Rank(a) < k then Dropped(j.env, a, Get(j.snapshots, a).value) else Get(j.snapshots, a)
  }

  /** The copy of x failed: what was restored before it is erased again. */
  function FailedIn(j: Job, x: Area, a: Area): Option<Data> {
    if Needed(j, a) && Rank(a) < Rank(x) then Erased(j.env, a, RestoredIn(j, a)) else Midway(j, Rank(x) + 1, a)
  }

  ghost predicate InProgress(j: Job, k: nat, data: Areas, snapshots: Areas) {
    && (forall a :: Get(data, a) == Midway(j, k, a))
    && (forall a :: Get(snapshots, a) == SnapshotMidway(j, k, a))
    && (forall a :: Rank(a) < k ==> !Breaks(j, a))
  }

  ghost predicate Failed(j: Job, x: Area, data: Areas, snapshots: Areas) {
    && FailsAt(j, x)
    && (forall a :: Get(data, a) == FailedIn(j, x, a))
    && (forall a :: Get(snapshots, a) == SnapshotMidway(j, Rank(x), a))
  }

  function Chosen(ce: bool, de: bool, pccCe: bool, pccDe: bool): set<Area> {
    (if ce then {Ce} else {}) + (if de then {De} else {})
    + (if pccCe then {PccCe} else {}) + (if pccDe then {PccDe} else {})
  }

  /** Of what comes before a phase, the flags choose what was needed. */
  lemma {:induction false} ChosenBefore(j: Job, a: Area, ce: bool, de: bool, pccCe: bool)
    requires ce == (0 < Rank(a) && Needed(j, Ce)) && de == (1 < Rank(a) && Needed(j, De))
    requires pccCe == (2 < Rank(a) && Needed(j, PccCe))
    ensures forall b :: b in Chosen(ce, de, pccCe, false) <==> Needed(j, b) && Rank(b) < Rank(a)
  {
    forall b
      ensures b in Chosen(ce, de, pccCe, false) <==> Needed(j, b) && Rank(b) < Rank(a)
    {
      match b
      case Ce =>
      case De =>
      case PccCe =>
      case PccDe =>
    }
  }

  ghost predicate CopiedBack(env: Env, a: Area, data: Areas, snapshots: Areas, data': Areas, snapshots': Areas)
    requires Get(snapshots, a).Some?
  {
    var ok, d := !env.copyFails(a), Get(snapshots, a).value;
    && (forall b :: Get(data', b) == if b == a then Overlay(Get(data, a), Copied(env, a, d), ok) else Get(data, b))
    && (forall b :: Get(snapshots', b) == if b == a && ok then Dropped(env, a, d) else Get(snapshots, b))
  }

  ghost predicate ErasedSome(env: Env, which: set<Area>, data: Areas, data': Areas) {
    forall a :: Get(data', a) == if a in which then Erased(env, a, Get(data, a)) else Get(data, a)
  }

  lemma {:induction false} AreaRestored(j: Job, a: Area, data: Areas, snapshots: Areas, data': Areas, snapshots': Areas)
    requires InProgress(j, Rank(a), data, snapshots) && Needed(j, a) && !j.env.copyFails(a) && Get(snapshots, a).Some?
    requires CopiedBack(j.env, a, data, snapshots, data', snapshots')
    ensures InProgress(j, Rank(a) + 1, data', snapshots')
  {
    assert Get(data, a) == Midway(j, Rank(a), a) && Get(snapshots, a) == SnapshotMidway(j, Rank(a), a);
    forall b
      ensures Get(data', b) == Midway(j, Rank(a) + 1, b) && Get(snapshots', b) == SnapshotMidway(j, Rank(a) + 1, b)
    {
      assert b != a ==> Get(data', b) == Get(data, b) && Get(snapshots', b) == Get(snapshots, b);
      assert b != a ==> (Rank(b) < Rank(a) + 1 <==> Rank(b) < Rank(a));
    }
  }

  lemma {:induction false} AreaFailed(j: Job, a: Area, data: Areas, snapshots: Areas, data': Areas, snapshots': Areas,
                                      which: set<Area>, data'': Areas)
    requires InProgress(j, Rank(a), data, snapshots) && Breaks(j, a) && Get(snapshots, a).Some?
    requires CopiedBack(j.env, a, data, snapshots, data', snapshots')
    requires ErasedSome(j.env, which, data', data'')
    requires forall b :: b in which <==> Needed(j, b) && Rank(b) < Rank(a)
    ensures Failed(j, a, data'', snapshots')
  {
    assert Get(data, a) == Midway(j, Rank(a), a) && Get(snapshots, a) == SnapshotMidway(j, Rank(a), a);
    forall b
      ensures Get(data'', b) == FailedIn(j, a, b) && Get(snapshots', b) == SnapshotMidway(j, Rank(a), b)
    {
      assert Get(data'', b) == if b in which then Erased(j.env, b, Get(data', b)) else Get(data', b);
      assert b != a ==> Get(data', b) == Get(data, b) && Get(snapshots', b) == Get(snapshots, b);
      assert b != a ==> (Rank(b) < Rank(a) + 1 <==> Rank(b) < Rank(a));
    }
  }

  class Installd {
    var data: Areas
    var snapshots: Areas

    constructor (data: Areas, snapshots: Areas)
      ensures this.data == data && this.snapshots == snapshots
    {
      this.data, this.snapshots := data, snapshots;
    }

    /** clearCeDirectoryLocked and clearDeDirectoryLocked. */
    method ClearDirectory(env: Env, flags: Flags, a: Area) returns (ok: bool)
      modifies this`data
      ensures ok == ClearOk(env, old(data), a)
      ensures forall b :: Get(data, b) ==
                if b == a && Get(old(data), a).Some? then Some(Remaining(env, flags, a, Get(old(data), a).value))
                else Get(old(data), b)
      ensures a in old(data) && ok ==> a in data && ClearedTo(flags, old(data)[a], data[a])
    {
      if a !in data {
        return true;
      }
      ok := !env.clearFails(a);
      data := data[a := Remaining(env, flags, a, data[a])];
    }

    /** Clears the app's own directory and, if that went well, its PCC directory. */
    method ClearBoth(env: Env, flags: Flags, own: Area, pcc: Area) returns (ok: bool)
      requires own != pcc
      modifies this`data
      ensures ok == (ClearOk(env, old(data), own) && ClearOk(env, old(data), pcc))
      ensures forall a :: Get(data, a) ==
                if Get(old(data), a).Some? && (a == own || (a == pcc && ClearOk(env, old(data), own)))
                then Some(Remaining(env, flags, a, Get(old(data), a).value)) else Get(old(data), a)
    {
      ok := ClearDirectory(env, flags, own);
      if ok {
        ok := ClearDirectory(env, flags, pcc);
      }
    }

    method ClearAppData(env: Env, flags: Flags) returns (ok: bool)
      modifies this`data
      ensures forall a :: Get(data, a) == Cleared(env, old(data), flags, a)
      ensures ok == ClearSucceeds(env, old(data), flags)
    {
      ok := true;
      if flags.ce {
        ok := ClearBoth(env, flags, Ce, PccCe);
      }
      if flags.de {
        ok := ClearBoth(env, flags, De, PccDe);
      }
      if !env.othersCleared {
        ok := false;
      }
    }

    method Erase(env: Env, a: Area)
      modifies this`data
      ensures forall b :: Get(data, b) == if b == a then Erased(env, a, Get(old(data), a)) else Get(old(data), b)
    {
      if a in data {
        data := if env.eraseFails(a) then data[a := Kept(env, a, data[a])] else data - {a};
      }
    }

    method DeleteDirsOnFailedRollback(env: Env, ce: bool, de: bool, pccCe: bool, pccDe: bool)
      modifies this`data
      ensures ErasedSome(env, Chosen(ce, de, pccCe, pccDe), old(data), data)
    {
      if de {
        Erase(env, De);
      }
      if ce {
        Erase(env, Ce);
      }
      if pccDe {
        Erase(env, PccDe);
      }
      if pccCe {
        Erase(env, PccCe);
      }
    }

    /** Copies a snapshot back and deletes it if that went well. */
    method CopyBack(env: Env, a: Area) returns (ok: bool)
      requires Get(snapshots, a).Some?
      modifies this
      ensures ok == !env.copyFails(a)
      ensures CopiedBack(env, a, old(data), old(snapshots), data, snapshots)
    {
      ok := !env.copyFails(a);
      var after := Overlay(Get(data, a), Copied(env, a, snapshots[a]), ok);
      if after.Some? {
        data := data[a := after.value];
      }
      if ok {
        snapshots := if env.dropFails(a) then snapshots[a := Kept(env, a, snapshots[a])] else snapshots - {a};
      }
    }

    /** One of the four phases; ce, de and pccCe say what to erase if it fails. */
    method RestoreArea(env: Env, a: Area, needed: bool, ce: bool, de: bool, pccCe: bool, ghost j: Job)
      returns (ok: bool)
      requires env == j.env && needed == Needed(j, a) && InProgress(j, Rank(a), data, snapshots)
      requires ce == (0 < Rank(a) && Needed(j, Ce)) && de == (1 < Rank(a) && Needed(j, De))
      requires pccCe == (2 < Rank(a) && Needed(j, PccCe))
      modifies this
      ensures ok ==> InProgress(j, Rank(a) + 1, data, snapshots)
      ensures !ok ==> Failed(j, a, data, snapshots)
    {
      if !needed {
        return true;
      }
      assert Get(snapshots, a) == SnapshotMidway(j, Rank(a), a);
      ghost var data0, snapshots0 := data, snapshots;
      ok := CopyBack(env, a);
      if ok {
        AreaRestored(j, a, data0, snapshots0, data, snapshots);
      } else {
        ghost var data1 := data;
        DeleteDirsOnFailedRollback(env, ce, de, pccCe, false);
        ChosenBefore(j, a, ce, de, pccCe);
        AreaFailed(j, a, data0, snapshots0, data1, snapshots,
                   Chosen(ce, de, pccCe, false), data);
      }
    }

    method RestoreAreas(env: Env, ce: bool, de: bool, pccCe: bool, pccDe: bool, ghost j: Job) returns (ok: bool)
      requires env == j.env && InProgress(j, 0, data, snapshots)
      requires ce == Needed(j, Ce) && de == Needed(j, De) && pccCe == Needed(j, PccCe) && pccDe == Needed(j, PccDe)
      modifies this
      ensures ok ==> InProgress(j, 4, data, snapshots)
      ensures !ok ==> exists x :: Failed(j, x, data, snapshots)
    {
      ok := RestoreArea(env, Ce, ce, false, false, false, j);
      if !ok {
        return;
      }
      ok := RestoreArea(env, De, de, ce, false, false, j);
      if !ok {
        return;
      }
      ok := RestoreArea(env, PccCe, pccCe, ce, de, false, j);
      if !ok {
        return;
      }
      ok := RestoreArea(env, PccDe, pccDe, ce, de, pccCe, j);
    }

    method RestoreAppDataSnapshot(env: Env, flags: Flags, pccId: int) returns (ok: bool)
      modifies this
      ensures RestoreResult(Job(env, old(data), old(snapshots), flags, pccId), data, snapshots, ok)
    {
      ghost var j := Job(env, data, snapshots, flags, pccId);
      var ce := flags.ce && Ce in snapshots;
      var de := flags.de && De in snapshots;
      var pccCe := pccId > 0 && flags.ce && PccCe in snapshots;
      var pccDe := pccId > 0 && flags.de && PccDe in snapshots;
      SomeNeeded(j);
      if !ce && !de && !pccCe && !pccDe {
        return true;
      }
      ok := ClearAppData(env, flags);
      if !ok {
        return false;
      }
      ClearedIsBeginning(j, data, snapshots);
      ok := RestoreAreas(env, ce, de, pccCe, pccDe, j);
      if !ok {
        return false;
      }
      ok := env.relabelled && (pccId > 0 ==> env.pccRelabelled);
    }
  }

  lemma {:induction false} SomeNeeded(j: Job)
    ensures AnyNeeded(j) <==> Needed(j, Ce) || Needed(j, De) || Needed(j, PccCe) || Needed(j, PccDe)
  {
    if AnyNeeded(j) {
      var a :| Needed(j, a);
      assert a == Ce || a == De || a == PccCe || a == PccDe;
    }
  }

  ghost predicate ClearedOnly(j: Job, data: Areas, snapshots: Areas) {
    snapshots == j.snapshots && forall a :: Get(data, a) == ClearedIn(j, a)
  }

  lemma {:induction false} ClearedIsBeginning(j: Job, data: Areas, snapshots: Areas)
    requires ClearedOnly(j, data, snapshots)
    ensures InProgress(j, 0, data, snapshots)
  {
    forall a
      ensures Get(data, a) == Midway(j, 0, a) && Get(snapshots, a) == SnapshotMidway(j, 0, a)
    {
    }
  }

  /** How a restore may end. */
  ghost predicate RestoreResult(j: Job, data: Areas, snapshots: Areas, ok: bool) {
    if !AnyNeeded(j) then ok && data == j.data && snapshots == j.snapshots
    else if !ClearSucceeds(j.env, j.data, j.flags) then !ok && ClearedOnly(j, data, snapshots)
    else
      || (!ok && exists x :: Failed(j, x, data, snapshots))
      || (InProgress(j, 4, data, snapshots) && ok == (j.env.relabelled && (j.pccId > 0 ==> j.env.pccRelabelled)))
  }

  /**
   * Exactly when a restore reports success: if there is nothing to restore, and then nothing is
   * touched, or if the clear reports success and no copy and no relabelling fails.
   */
  lemma {:induction false} RestoreReports(j: Job, data: Areas, snapshots: Areas, ok: bool)
    requires RestoreResult(j, data, snapshots, ok)
    ensures ok <==>
            || (forall a :: !Needed(j, a))
            || (&& ClearSucceeds(j.env, j.data, j.flags)
                && (forall a :: Needed(j, a) ==> !j.env.copyFails(a))
                && j.env.relabelled && (j.pccId > 0 ==> j.env.pccRelabelled))
    ensures (forall a :: !Needed(j, a)) ==> data == j.data && snapshots == j.snapshots
  {
    if AnyNeeded(j) && ClearSucceeds(j.env, j.data, j.flags) {
      if x :| Failed(j, x, data, snapshots) {
        assert Breaks(j, x);
        assert !ok by {
          assert Rank(x) < 4;
        }
      } else {
        forall a | Needed(j, a)
          ensures !j.env.copyFails(a)
        {
          assert Rank(a) < 4 && !Breaks(j, a);
        }
      }
    }
  }

  // ----- No mixture of old and restored data -----

  predicate Clean(d: Option<Data>) {
    d.Some? ==> d.value == map[]
  }

  /** All of the selected data is to be cleared, and every delete that is tried succeeds. */
  ghost predicate DeletesSucceed(j: Job) {
    && !j.flags.cacheOnly && !j.flags.codeCacheOnly
    && (forall a :: !j.env.clearFails(a))
    && (forall a :: !j.env.eraseFails(a))
    && (forall a :: !j.env.dropFails(a))
  }

  lemma {:induction false} ClearedIsClean(j: Job, a: Area)
    requires DeletesSucceed(j)
    ensures if Selected(j.flags, a) then Clean(ClearedIn(j, a)) && (ClearedIn(j, a).None? <==> Get(j.data, a).None?)
            else ClearedIn(j, a) == Get(j.data, a)
  {
  }

  /** Each selected area has its snapshot, or nothing where there is none; the others are as before. */
  predicate RestoredAt(j: Job, data: Areas, a: Area) {
    if Needed(j, a) then Get(data, a) == Get(j.snapshots, a)
    else if Selected(j.flags, a) then Clean(Get(data, a))
    else Get(data, a) == Get(j.data, a)
  }

  predicate EmptiedAt(j: Job, data: Areas, a: Area) {
    if Selected(j.flags, a) then Clean(Get(data, a)) else Get(data, a) == Get(j.data, a)
  }

  /** Success puts exactly the snapshot where there was one, leaves nothing elsewhere, and consumes the snapshots. */
  ghost predicate AllRestored(j: Job, data: Areas, snapshots: Areas) {
    && (forall a :: RestoredAt(j, data, a))
    && (forall a :: Get(snapshots, a) == if Needed(j, a) then None else Get(j.snapshots, a))
  }

  /** After a failure the selected areas are empty or gone. */
  ghost predicate NothingLeft(j: Job, data: Areas) {
    forall a :: EmptiedAt(j, data, a)
  }

  lemma {:induction false} RestoredIsSnapshot(j: Job, data: Areas, snapshots: Areas)
    requires DeletesSucceed(j) && InProgress(j, 4, data, snapshots)
    ensures AllRestored(j, data, snapshots)
  {
    forall a
      ensures RestoredAt(j, data, a) && Get(snapshots, a) == if Needed(j, a) then None else Get(j.snapshots, a)
    {
      assert Rank(a) < 4 && !Breaks(j, a);
      assert Get(data, a) == Midway(j, 4, a) == RestoredIn(j, a) && Get(snapshots, a) == SnapshotMidway(j, 4, a);
      ClearedIsClean(j, a);
      if Needed(j, a) {
        assert map[] + Get(j.snapshots, a).value == Get(j.snapshots, a).value;
      }
    }
  }

  /** Nothing is left after a failed copy exactly if that copy itself left nothing. */
  lemma {:induction false} FailureLeavesNothing(j: Job, x: Area, data: Areas, snapshots: Areas)
    requires DeletesSucceed(j) && Failed(j, x, data, snapshots)
    ensures NothingLeft(j, data) <==> Copied(j.env, x, Get(j.snapshots, x).value) == map[]
  {
    forall a | a != x
      ensures EmptiedAt(j, data, a)
    {
      assert Get(data, a) == FailedIn(j, x, a);
      ClearedIsClean(j, a);
    }
    assert Get(data, x) == FailedIn(j, x, x);
    ClearedIsClean(j, x);
    var written := Copied(j.env, x, Get(j.snapshots, x).value);
    assert Get(data, x) == Overlay(ClearedIn(j, x), written, false);
    assert written != map[] ==> Get(data, x) == Some(map[] + written);
    assert map[] + written == written;
    assert EmptiedAt(j, data, x) <==> written == map[];
  }

  /** What a failure costs: the snapshots before the failed area are gone as well, later ones are kept. */
  lemma {:induction false} FailureLosesSnapshots(j: Job, x: Area, data: Areas, snapshots: Areas, a: Area)
    requires DeletesSucceed(j) && Failed(j, x, data, snapshots)
    ensures Rank(a) < Rank(x) && Needed(j, a) ==> Get(data, a) == None && Get(snapshots, a) == None
    ensures Rank(a) >= Rank(x) || !Needed(j, a) ==> Get(snapshots, a) == Get(j.snapshots, a)
  {
    assert Get(data, a) == FailedIn(j, x, a) && Get(snapshots, a) == SnapshotMidway(j, Rank(x), a);
  }

  /** With copies that are all or nothing, a restore is too. */
  lemma {:induction false} NoMixture(j: Job, data: Areas, snapshots: Areas, ok: bool)
    requires RestoreResult(j, data, snapshots, ok) && AnyNeeded(j) && DeletesSucceed(j)
    requires forall a, e :: !j.env.copied(a, e)
    ensures NothingLeft(j, data) || AllRestored(j, data, snapshots)
    ensures ok ==> AllRestored(j, data, snapshots)
  {
    if !ClearSucceeds(j.env, j.data, j.flags) {
      forall a
        ensures EmptiedAt(j, data, a)
      {
        assert Get(data, a) == ClearedIn(j, a);
        ClearedIsClean(j, a);
      }
    } else if InProgress(j, 4, data, snapshots) {
      RestoredIsSnapshot(j, data, snapshots);
    } else {
      var x :| Failed(j, x, data, snapshots);
      assert Copied(j.env, x, Get(j.snapshots, x).value) == map[];
      FailureLeavesNothing(j, x, data, snapshots);
    }
  }

  // ----- Every environment -----

  /** A restored area equals its snapshot exactly if the clear left nothing but what the snapshot overwrites. */
  lemma {:induction false} RestoredOverLeftovers(j: Job, a: Area, data: Areas, snapshots: Areas)
    requires InProgress(j, 4, data, snapshots) && Needed(j, a)
    ensures Get(data, a) == Get(j.snapshots, a) <==>
            (ClearedIn(j, a).Some? ==> ClearedIn(j, a).value.Keys <= Get(j.snapshots, a).value.Keys)
  {
    assert Rank(a) < 4 && !Breaks(j, a);
    assert Get(data, a) == Midway(j, 4, a);
    var before := if ClearedIn(j, a).Some? then ClearedIn(j, a).value else map[];
    var snapshot := Get(j.snapshots, a).value;
    assert Get(data, a) == Some(before + snapshot);
    assert (before + snapshot).Keys == before.Keys + snapshot.Keys;
    if before.Keys <= snapshot.Keys {
      assert before + snapshot == snapshot;
    } else {
      var e :| e in before && e !in snapshot;
      assert e in (before + snapshot).Keys;
    }
  }

  /** On success the area is as it should be exactly if the clear left nothing that would show. */
  predicate ShowsNothingOld(j: Job, a: Area) {
    if Needed(j, a) then ClearedIn(j, a).Some? ==> ClearedIn(j, a).value.Keys <= Get(j.snapshots, a).value.Keys
    else Selected(j.flags, a) ==> Clean(ClearedIn(j, a))
  }

  /** After a failure at x the area is empty or gone exactly if its erasure, copy or clear left nothing. */
  predicate LeavesNothing(j: Job, x: Area, a: Area)
    requires Needed(j, x)
  {
    if Needed(j, a) && Rank(a) < Rank(x) then Clean(Erased(j.env, a, RestoredIn(j, a)))
    else if a == x then Clean(ClearedIn(j, x)) && Copied(j.env, x, Get(j.snapshots, x).value) == map[]
    else Selected(j.flags, a) ==> Clean(ClearedIn(j, a))
  }

  lemma {:induction false} SuccessAt(j: Job, data: Areas, snapshots: Areas, a: Area)
    requires InProgress(j, 4, data, snapshots)
    ensures RestoredAt(j, data, a) <==> ShowsNothingOld(j, a)
  {
    if Needed(j, a) {
      RestoredOverLeftovers(j, a, data, snapshots);
    } else {
      assert Rank(a) < 4 && Get(data, a) == Midway(j, 4, a);
    }
  }

  lemma {:induction false} FailureAt(j: Job, x: Area, data: Areas, snapshots: Areas, a: Area)
    requires Failed(j, x, data, snapshots)
    ensures EmptiedAt(j, data, a) <==> LeavesNothing(j, x, a)
  {
    assert Get(data, a) == FailedIn(j, x, a);
    if a == x {
      var written := Copied(j.env, x, Get(j.snapshots, x).value);
      var before := if ClearedIn(j, x).Some? then ClearedIn(j, x).value else map[];
      assert Get(data, x) == Overlay(ClearedIn(j, x), written, false);
      assert (before + written).Keys == before.Keys + written.Keys;
      assert before + written == map[] <==> before == map[] && written == map[] by {
        assert before.Keys == {} <==> before == map[];
        assert written.Keys == {} <==> written == map[];
      }
    }
  }

  /**
   * In every environment, whatever deletes and copies fail: each area of a restore that succeeds is
   * as it should be exactly if the clear left nothing in it that shows; each area of one that fails
   * is empty exactly if nothing was left there; and snapshots go only with a copy that succeeded.
   */
  lemma {:induction false} MixtureByArea(j: Job, data: Areas, snapshots: Areas, ok: bool, a: Area)
    requires RestoreResult(j, data, snapshots, ok) && AnyNeeded(j)
    ensures ok ==> (RestoredAt(j, data, a) <==> ShowsNothingOld(j, a))
    ensures !ClearSucceeds(j.env, j.data, j.flags) ==>
              !ok && Get(snapshots, a) == Get(j.snapshots, a)
              && (EmptiedAt(j, data, a) <==> (Selected(j.flags, a) ==> Clean(ClearedIn(j, a))))
    ensures forall x :: Failed(j, x, data, snapshots) ==> (EmptiedAt(j, data, a) <==> LeavesNothing(j, x, a))
    ensures Get(snapshots, a) != Get(j.snapshots, a) ==> Needed(j, a) && !j.env.copyFails(a)
  {
    forall x | Failed(j, x, data, snapshots)
      ensures EmptiedAt(j, data, a) <==> LeavesNothing(j, x, a)
      ensures Get(snapshots, a) != Get(j.snapshots, a) ==> Needed(j, a) && !j.env.copyFails(a)
    {
      FailureAt(j, x, data, snapshots, a);
      assert Get(snapshots, a) == SnapshotMidway(j, Rank(x), a);
      assert Rank(a) < Rank(x) ==> !Breaks(j, a);
    }
    if !ClearSucceeds(j.env, j.data, j.flags) {
      assert Get(data, a) == ClearedIn(j, a);
    } else if InProgress(j, 4, data, snapshots) {
      SuccessAt(j, data, snapshots, a);
      assert Rank(a) < 4 && Get(snapshots, a) == SnapshotMidway(j, 4, a) && !Breaks(j, a);
    }
  }

  // ----- A failed clear that goes unnoticed -----

  const OLD := Entry(Rest, "old")
  const NEW := Entry(Rest, "new")

  predicate FullClear(flags: Flags) {
    !flags.cacheOnly && !flags.codeCacheOnly
  }

  /**
   * A request whose area has old data that the clear leaves there: because only caches are to be
   * cleared, or because the clear fails and nothing but the result for DE is looked at.
   */
  function Leftover(flags: Flags, a: Area): Job {
    var never := (x: Area) => false;
    var env := Env((x: Area) => x == a && FullClear(flags), never, never, never, (x: Area, e: Entry) => true,
                   (x: Area, e: Entry) => false, true, true, true);
    Job(env, map[a := map[OLD := "before"]], map[a := map[NEW := "snapshot"]], flags, 1)
  }

  /** The requests for which a success means nothing for an area. */
  predicate CanMix(flags: Flags, a: Area) {
    Selected(flags, a) && (!FullClear(flags) || (flags.ce && flags.de && (a.Ce? || a.PccCe?)))
  }

  /**
   * What the result of a clear says: a success means that all was cleared exactly unless both
   * storages are asked for.
   */
  lemma {:induction false} ClearReports(flags: Flags)
    ensures (forall env, data :: ClearSucceeds(env, data, flags) ==> ClearedAll(env, data, flags)) <==>
            !(flags.ce && flags.de)
  {
    if flags.ce && flags.de {
      var j := Leftover(Flags(true, true, false, false), Ce);
      assert Get(j.data, Ce).Some? && Get(j.data, De).None? && Get(j.data, PccDe).None?;
      assert ClearSucceeds(j.env, j.data, flags) && !ClearedAll(j.env, j.data, flags);
    }
  }

  /**
   * A reported success means that nothing failed where the result counts: in DE if that is asked for,
   * else in CE, and elsewhere. A reported failure means that something did fail.
   */
  lemma {:induction false} ReportIsFounded(env: Env, data: Areas, flags: Flags)
    ensures ClearSucceeds(env, data, flags) ==>
              && env.othersCleared
              && forall a :: a in data && Selected(flags, a) && (flags.de ==> a.De? || a.PccDe?) ==> !env.clearFails(a)
    ensures !ClearSucceeds(env, data, flags) ==>
              !env.othersCleared || exists a :: a in data && Selected(flags, a) && env.clearFails(a)
  {
    if !ClearSucceeds(env, data, flags) && env.othersCleared {
      var a := if flags.de then if !ClearOk(env, data, De) then De else PccDe
               else if !ClearOk(env, data, Ce) then Ce else PccCe;
      assert a in data && Selected(flags, a) && env.clearFails(a);
    }
  }

  predicate ClearedAll(env: Env, data: Areas, flags: Flags) {
    (flags.ce ==> CeOk(env, data)) && (flags.de ==> DeOk(env, data))
  }

  /** With a full clear that reports success, only CE areas can have kept anything, and only beside DE. */
  lemma {:induction false} ReportedClearIsClean(j: Job, a: Area)
    requires ClearSucceeds(j.env, j.data, j.flags) && Selected(j.flags, a) && !CanMix(j.flags, a)
    ensures Clean(ClearedIn(j, a))
  {
    if Get(j.data, a).Some? {
      assert Reached(j.env, j.data, j.flags, a) && !j.env.clearFails(a);
      assert Remaining(j.env, j.flags, a, Get(j.data, a).value) == map[];
    }
  }

  ghost predicate SuccessRestores(flags: Flags, a: Area) {
    forall j: Job, data: Areas, snapshots: Areas ::
      j.flags == flags && AnyNeeded(j) && RestoreResult(j, data, snapshots, true) ==> RestoredAt(j, data, a)
  }

  /**
   * Exactly which requests keep the promise, area by area and whatever fails: a restore that
   * reports success has put an area right, unless the request asks for a partial clear of it, or
   * asks for both storages and the area is one of CE.
   */
  lemma {:induction false} SuccessRestoresExactly(flags: Flags, a: Area)
    ensures SuccessRestores(flags, a) <==> !CanMix(flags, a)
  {
    if CanMix(flags, a) {
      LeftoverMixes(flags, a);
    } else {
      forall j: Job, data: Areas, snapshots: Areas |
        j.flags == flags && AnyNeeded(j) && RestoreResult(j, data, snapshots, true)
        ensures RestoredAt(j, data, a)
      {
        MixtureByArea(j, data, snapshots, true, a);
        if Selected(flags, a) {
          ReportedClearIsClean(j, a);
        }
      }
    }
  }

  lemma {:induction false} LeftoverCleared(flags: Flags, a: Area)
    requires CanMix(flags, a)
    ensures var j := Leftover(flags, a);
            && Needed(j, a) && ClearSucceeds(j.env, j.data, j.flags) && ClearedIn(j, a) == Some(map[OLD := "before"])
  {
    var j := Leftover(flags, a);
    assert forall b :: b != a ==> Get(j.data, b).None?;
    assert Remaining(j.env, flags, a, map[OLD := "before"]) == map[OLD := "before"];
  }

  /** How such a request ends. */
  lemma {:induction false} LeftoverEnds(flags: Flags, a: Area)
    requires CanMix(flags, a)
    ensures InProgress(Leftover(flags, a), 4, map[a := map[OLD := "before", NEW := "snapshot"]], map[])
  {
    var j := Leftover(flags, a);
    LeftoverCleared(flags, a);
    var mixed := map[OLD := "before", NEW := "snapshot"];
    var data: Areas, snapshots: Areas := map[a := mixed], map[];
    assert map[OLD := "before"] + map[NEW := "snapshot"] == mixed;
    forall b
      ensures Get(data, b) == Midway(j, 4, b) && Get(snapshots, b) == SnapshotMidway(j, 4, b) && !Breaks(j, b)
    {
      assert Rank(b) < 4;
    }
  }

  lemma {:induction false} LeftoverMixes(flags: Flags, a: Area)
    requires CanMix(flags, a)
    ensures !SuccessRestores(flags, a)
  {
    var j, data: Areas := Leftover(flags, a), map[a := map[OLD := "before", NEW := "snapshot"]];
    LeftoverCleared(flags, a);
    LeftoverEnds(flags, a);
    assert RestoreResult(j, data, map[], true);
    assert OLD in Get(data, a).value && OLD !in Get(j.snapshots, a).value;
    assert !RestoredAt(j, data, a);
  }

  /** One such request: both storages, and a CE directory that cannot be cleared. */
  lemma {:induction false} HiddenFailureMixes(data: Areas, snapshots: Areas, ok: bool)
    requires RestoreResult(Leftover(Flags(true, true, false, false), Ce), data, snapshots, ok)
    ensures ok && Get(data, Ce) == Some(map[OLD := "before", NEW := "snapshot"])
  {
    var flags := Flags(true, true, false, false);
    var j := Leftover(flags, Ce);
    LeftoverCleared(flags, Ce);
    assert forall x :: !Breaks(j, x);
    assert Get(data, Ce) == Midway(j, 4, Ce) == RestoredIn(j, Ce);
    assert map[OLD := "before"] + map[NEW := "snapshot"] == map[OLD := "before", NEW := "snapshot"];
  }

  // ----- A copy that fails half way -----

  /** Nothing to clear, and a copy of CE that fails after writing its one entry. */
  function HalfCopy(): Job {
    var never := (x: Area) => false;
    var env := Env(never, (x: Area) => x == Ce, never, never, (x: Area, e: Entry) => false, (x: Area, e: Entry) => true,
                   true, true, true);
    Job(env, map[], map[Ce := map[NEW := "snapshot"]], Flags(true, false, false, false), 0)
  }

  /** It fails, every delete that is tried succeeds, and what was written stays. */
  lemma {:induction false} HalfCopyStays(data: Areas, snapshots: Areas, ok: bool)
    requires RestoreResult(HalfCopy(), data, snapshots, ok)
    ensures DeletesSucceed(HalfCopy()) && !ok && Get(data, Ce) == Some(map[NEW := "snapshot"])
  {
    var j := HalfCopy();
    assert Needed(j, Ce) && Breaks(j, Ce);
    assert Rank(Ce) < 4;
    var x :| Failed(j, x, data, snapshots);
    assert x == Ce;
    assert Get(data, Ce) == FailedIn(j, Ce, Ce) == RestoredIn(j, Ce);
    assert ClearedIn(j, Ce) == None && Get(j.snapshots, Ce) == Some(map[NEW := "snapshot"]);
    assert map[NEW := "snapshot"] != map[] by {
      assert NEW in map[NEW := "snapshot"];
    }
    assert Copied(j.env, Ce, map[NEW := "snapshot"]) == map[NEW := "snapshot"];
    assert map[] + map[NEW := "snapshot"] == map[NEW := "snapshot"];
  }

  /** After every failed copy nothing is left, whatever the copies do, as long as deletes succeed. */
  ghost predicate FailuresEmpty(data: Areas, snapshots: Areas, flags: Flags, pccId: int) {
    forall env, x, data', snapshots' ::
      var j := Job(env, data, snapshots, flags, pccId);
      DeletesSucceed(j) && Failed(j, x, data', snapshots') ==> NothingLeft(j, data')
  }

  /** Every snapshot that the request would restore is empty. */
  ghost predicate NothingToCopy(snapshots: Areas, flags: Flags, pccId: int) {
    forall a, d ::
      Get(snapshots, a) == Some(d) && Selected(flags, a) && (a.PccCe? || a.PccDe? ==> pccId > 0) ==> d == map[]
  }

  function CopyFailsAt(a: Area): Env {
    var never := (x: Area) => false;
    Env(never, (x: Area) => x == a, never, never,
        (x: Area, e: Entry) => false, (x: Area, e: Entry) => true, true, true, true)
  }

  const AREAS := {Ce, De, PccCe, PccDe}

  /** The copy of any needed area can be the one that fails, having written everything. */
  lemma {:induction false} CopyCanFail(j: Job, a: Area) returns (data: Areas, snapshots: Areas)
    requires Needed(j, a) && j.env == CopyFailsAt(a)
    ensures Failed(j, a, data, snapshots)
  {
    data := map b | b in AREAS && FailedIn(j, a, b).Some? :: FailedIn(j, a, b).value;
    snapshots := map b | b in AREAS && SnapshotMidway(j, Rank(a), b).Some? :: SnapshotMidway(j, Rank(a), b).value;
    forall b
      ensures Get(data, b) == FailedIn(j, a, b) && Get(snapshots, b) == SnapshotMidway(j, Rank(a), b)
    {
      assert b in AREAS;
    }
  }

  lemma {:induction false} NothingCopiedNothingLeft(j: Job, x: Area, data: Areas, snapshots: Areas)
    requires NothingToCopy(j.snapshots, j.flags, j.pccId) && DeletesSucceed(j) && Failed(j, x, data, snapshots)
    ensures NothingLeft(j, data)
  {
    assert Breaks(j, x) && Copied(j.env, x, map[]) == map[];
    FailureLeavesNothing(j, x, data, snapshots);
  }

  lemma {:induction false} CopyCanStay(data: Areas, snapshots: Areas, flags: Flags, pccId: int)
    requires FullClear(flags) && !NothingToCopy(snapshots, flags, pccId)
    ensures !FailuresEmpty(data, snapshots, flags, pccId)
  {
    var a, d :| Get(snapshots, a) == Some(d) && Selected(flags, a) && (a.PccCe? || a.PccDe? ==> pccId > 0) &&
               d != map[];
    var j := Job(CopyFailsAt(a), data, snapshots, flags, pccId);
    var data', snapshots' := CopyCanFail(j, a);
    assert Copied(j.env, a, d) == d;
    FailureLeavesNothing(j, a, data', snapshots');
  }

  /** Seen from the request: failures leave nothing if and only if there is nothing to copy. */
  lemma {:induction false} FailuresEmptyExactly(data: Areas, snapshots: Areas, flags: Flags, pccId: int)
    requires FullClear(flags)
    ensures FailuresEmpty(data, snapshots, flags, pccId) <==> NothingToCopy(snapshots, flags, pccId)
  {
    if NothingToCopy(snapshots, flags, pccId) {
      forall env, x, data', snapshots' |
        var j := Job(env, data, snapshots, flags, pccId); DeletesSucceed(j) && Failed(j, x, data', snapshots')
        ensures NothingLeft(Job(env, data, snapshots, flags, pccId), data')
      {
        NothingCopiedNothingLeft(Job(env, data, snapshots, flags, pccId), x, data', snapshots');
      }
    } else {
      CopyCanStay(data, snapshots, flags, pccId);
    }
  }
}
