/**
 * installd's RestorableFile: a regular file, the work file written in its place and a backup,
 * moved about by renames that may fail; and the way dexopt publishes three of them at once.
 *
 * Every file system call leaves a state of the disk in `history`: those are the states a crash
 * can leave behind.
 */
module RestorableFiles {
  import opened Common

  type Disk = map<string, string>

  function TmpPath(path: string): string {
    path + ".tmp"
  }

  function BackupPath(path: string): string {
    path + ".backup"
  }

  function Names(path: string): set<string> {
    {path, TmpPath(path), BackupPath(path)}
  }

  lemma {:induction false} NamesDiffer(path: string)
    ensures path != TmpPath(path) && path != BackupPath(path) && TmpPath(path) != BackupPath(path)
  {
    assert |TmpPath(path)| == |path| + 4 && |BackupPath(path)| == |path| + 7;
  }

  function Look(d: Disk, path: string): Option<string> {
    if path in d then Some(d[path]) else None
  }

  /** What the disk has of one restorable file. */
  datatype Slot = Slot(regular: Option<string>, work: Option<string>, backup: Option<string>)

  function View(d: Disk, path: string): Slot {
    Slot(Look(d, path), Look(d, TmpPath(path)), Look(d, BackupPath(path)))
  }

  /** Only these names may differ between the two. */
  ghost predicate Within(d: Disk, d': Disk, names: set<string>) {
    forall q :: q !in names ==> Look(d', q) == Look(d, q)
  }

  lemma {:induction false} OthersKept(d: Disk, d': Disk, p: string, q: string)
    requires Within(d, d', Names(p)) && Names(p) !! Names(q)
    ensures View(d', q) == View(d, q)
  {
    assert q in Names(q) && TmpPath(q) in Names(q) && BackupPath(q) in Names(q);
  }

  /** The old content can still be found. */
  predicate Holds(s: Slot, content: string) {
    s.regular == Some(content) || s.backup == Some(content)
  }

  // ----- What each operation may do to its file -----

  predicate SameOrGone(x: Option<string>, x': Option<string>) {
    x' == x || x' == None
  }

  predicate BackupStep(path: string, s: Slot, s': Slot, ok: bool) {
    if path == "" || s.regular.None? then ok && s' == s
    else if ok then s' == Slot(None, s.work, s.regular)
    else s'.regular == s.regular && s'.work == s.work && SameOrGone(s.backup, s'.backup)
  }

  predicate CommitStep(path: string, s: Slot, s': Slot, ok: bool) {
    if path == "" then ok && s' == s
    else if ok then s.work.Some? && s' == Slot(s.work, None, s.backup)
    else s'.backup == s.backup && SameOrGone(s.regular, s'.regular) && SameOrGone(s.work, s'.work)
  }

  predicate RestoreStep(path: string, s: Slot, s': Slot, ok: bool) {
    if path == "" || s.backup.None? then ok && s' == s
    else if ok then s' == Slot(s.backup, s.work, None)
    else s'.backup == s.backup && s'.work == s.work && SameOrGone(s.regular, s'.regular)
  }

  /** A failed commit and a restore that succeeds bring the original back. */
  lemma {:induction false} FailedCommitRestored(path: string, s0: Slot, s1: Slot, s2: Slot, s3: Slot)
    requires path != "" && s0.regular.Some?
    requires BackupStep(path, s0, s1, true) && CommitStep(path, s1, s2, false) && RestoreStep(path, s2, s3, true)
    ensures s3.regular == s0.regular && s3.backup == None
  {
    assert s1.backup == s0.regular;
    assert s2.backup == s1.backup;
  }

  // ----- The file system -----

  class Volume {
    const fails: nat -> bool           // which calls fail
    var files: Disk
    var calls: nat                     // how many calls were made
    var errors: seq<string>            // the unlinks that failed
    ghost var history: seq<Disk>       // the disk after each call

    ghost predicate Valid()
      reads this
    {
      history != [] && history[|history| - 1] == files
    }

    constructor (files: Disk, fails: nat -> bool)
      ensures Valid() && this.files == files && this.fails == fails && calls == 0 && errors == [] && history == [files]
    {
      this.files, this.fails, this.calls, this.errors, this.history := files, fails, 0, [], [files];
    }

    method Unlink(path: string)
      requires Valid()
      modifies this
      ensures Valid() && history == old(history) + [files]
      ensures errors == old(errors) || errors == old(errors) + [path]
      ensures files == if errors == old(errors) then old(files) - {path} else old(files)
      ensures calls == old(calls) + 1 && (!fails(old(calls)) ==> errors == old(errors))
    {
      if path in files && fails(calls) {
        errors := errors + [path];
      } else {
        files := files - {path};
      }
      calls, history := calls + 1, history + [files];
    }

    method Rename(from: string, to: string) returns (ok: bool)
      requires Valid() && from != to
      modifies this
      ensures Valid() && history == old(history) + [files] && errors == old(errors)
      ensures ok ==> from in old(files) && files == (old(files) - {from})[to := old(files)[from]]
      ensures !ok ==> files == old(files)
      ensures calls == old(calls) + 1 && ok == (!fails(old(calls)) && from in old(files))
    {
      ok := !fails(calls) && from in files;
      if ok {
        files := (files - {from})[to := files[from]];
      }
      calls, history := calls + 1, history + [files];
    }

    /** Opening for writing creates a missing file, and leaves the content of one that is there. */
    method Create(path: string) returns (ok: bool)
      requires Valid()
      modifies this
      ensures Valid() && history == old(history) + [files] && errors == old(errors)
      ensures files == if ok && path !in old(files) then old(files)[path := ""] else old(files)
      ensures calls == old(calls) + 1 && ok == !fails(old(calls))
    {
      ok := !fails(calls);
      if ok && path !in files {
        files := files[path := ""];
      }
      calls, history := calls + 1, history + [files];
    }
  }

  /** None of the next n calls fails. */
  ghost predicate Untroubled(fails: nat -> bool, from: nat, n: nat) {
    forall k :: from <= k < from + n ==> !fails(k)
  }

  /** No call ever fails. */
  ghost predicate Faultless(fails: nat -> bool) {
    forall k :: !fails(k)
  }

  /** No call fails from here on. */
  ghost predicate Smooth(fails: nat -> bool, from: nat) {
    forall k :: from <= k ==> !fails(k)
  }

  /** The calls a backup makes. */
  function BackupCalls(d: Disk, path: string): nat {
    if path == "" || path !in d then 0 else 2
  }

  /** The calls a commit makes up to its rename. */
  function CommitCalls(path: string): nat {
    if path == "" then 0 else 1
  }

  /** Whether a commit that starts with the given call succeeds. */
  predicate CommitOk(fails: nat -> bool, call: nat, d: Disk, path: string) {
    path == "" || (!fails(call) && TmpPath(path) in d)
  }

  /** Since `from`, only these names were ever different from `d`. */
  ghost predicate OnlyTouches(history: seq<Disk>, from: nat, d: Disk, names: set<string>) {
    forall k :: from <= k < |history| ==> Within(d, history[k], names)
  }

  /** Since `from`, the content could always be found. */
  ghost predicate AlwaysHolds(history: seq<Disk>, from: nat, path: string, content: Option<string>) {
    forall k :: from <= k < |history| && content.Some? ==> Holds(View(history[k], path), content.value)
  }

  class RestorableFile {
    const volume: Volume
    var path: string
    var fd: int

    constructor (volume: Volume, fd: int, path: string)
      ensures this.volume == volume && this.fd == fd && this.path == path
    {
      this.volume, this.fd, this.path := volume, fd, path;
    }

    static method CreateWritableFile(volume: Volume, path: string) returns (rf: RestorableFile)
      requires volume.Valid()
      modifies volume
      ensures volume.Valid() && fresh(rf) && rf.volume == volume && rf.path == path
      ensures old(volume.history) <= volume.history
      ensures Within(old(volume.files), volume.files, {TmpPath(path)})
      ensures rf.fd >= 0 <==> path != "" && !volume.fails(old(volume.calls) + 1)
      ensures rf.fd >= 0 ==> View(volume.files, path).work.Some?
      ensures rf.fd >= 0 && volume.errors == old(volume.errors) ==> View(volume.files, path).work == Some("")
      ensures OnlyTouches(volume.history, |old(volume.history)|, old(volume.files), {TmpPath(path)})
    {
      volume.Unlink(TmpPath(path));
      var fd := -1;
      if path != "" {
        var ok := volume.Create(TmpPath(path));
        fd := if ok then 0 else -1;
      }
      rf := new RestorableFile(volume, fd, path);
    }

    /** Throws the work file away: neither the regular file nor the backup is touched. */
    method Reset()
      requires volume.Valid()
      modifies this, volume
      ensures volume.Valid() && path == "" && fd == -1
      ensures old(volume.history) <= volume.history && old(volume.errors) <= volume.errors
      ensures Faultless(volume.fails) ==> volume.errors == old(volume.errors)
      ensures volume.files == old(volume.files) || volume.files == old(volume.files) - {TmpPath(old(path))}
      ensures old(path) != "" && volume.errors == old(volume.errors) ==> TmpPath(old(path)) !in volume.files
      ensures Within(old(volume.files), volume.files, {TmpPath(old(path))})
      ensures OnlyTouches(volume.history, |old(volume.history)|, old(volume.files), {TmpPath(old(path))})
    {
      var p := path;
      fd, path := -1, "";
      if p != "" {
        volume.Unlink(TmpPath(p));
      }
    }

    method CreateBackupFile() returns (ok: bool)
      requires volume.Valid()
      modifies volume
      ensures volume.Valid() && old(volume.history) <= volume.history && old(volume.errors) <= volume.errors
      ensures Faultless(volume.fails) ==> volume.errors == old(volume.errors)
      ensures BackupStep(path, View(old(volume.files), path), View(volume.files, path), ok)
      ensures volume.calls == old(volume.calls) + BackupCalls(old(volume.files), path)
      ensures Untroubled(volume.fails, old(volume.calls), BackupCalls(old(volume.files), path)) ==> ok
      ensures Within(old(volume.files), volume.files, Names(path))
      ensures AlwaysHolds(volume.history, |old(volume.history)|, path, Look(old(volume.files), path))
      ensures OnlyTouches(volume.history, |old(volume.history)|, old(volume.files), Names(path))
    {
      NamesDiffer(path);
      if path == "" || path !in volume.files {
        return true;
      }
      volume.Unlink(BackupPath(path));
      ok := volume.Rename(path, BackupPath(path));
    }

    method CommitWorkFile() returns (ok: bool)
      requires volume.Valid()
      modifies this`fd, volume
      ensures volume.Valid() && old(volume.history) <= volume.history && old(volume.errors) <= volume.errors
      ensures Faultless(volume.fails) ==> volume.errors == old(volume.errors)
      ensures fd == -1
      ensures CommitStep(path, View(old(volume.files), path), View(volume.files, path), ok)
      ensures ok == CommitOk(volume.fails, old(volume.calls), old(volume.files), path)
      ensures volume.calls >= old(volume.calls) + CommitCalls(path)
      ensures ok ==> volume.calls == old(volume.calls) + CommitCalls(path)
      ensures !ok && volume.errors == old(volume.errors) ==> path !in volume.files && TmpPath(path) !in volume.files
      ensures Within(old(volume.files), volume.files, Names(path))
      ensures AlwaysHolds(volume.history, |old(volume.history)|, path, Look(old(volume.files), BackupPath(path)))
      ensures OnlyTouches(volume.history, |old(volume.history)|, old(volume.files), Names(path))
    {
      NamesDiffer(path);
      fd := -1;
      if path != "" {
        ok := volume.Rename(TmpPath(path), path);
        if !ok {
          volume.Unlink(path);
          volume.Unlink(TmpPath(path));
          return false;
        }
      }
      ok := true;
    }

    method RestoreBackupFile() returns (ok: bool)
      requires volume.Valid()
      modifies volume
      ensures volume.Valid() && old(volume.history) <= volume.history && old(volume.errors) <= volume.errors
      ensures Faultless(volume.fails) ==> volume.errors == old(volume.errors)
      ensures RestoreStep(path, View(old(volume.files), path), View(volume.files, path), ok)
      ensures !ok && volume.errors == old(volume.errors) ==> path !in volume.files
      ensures volume.calls >= old(volume.calls) && (Smooth(volume.fails, old(volume.calls)) ==> ok)
      ensures Within(old(volume.files), volume.files, Names(path))
      ensures AlwaysHolds(volume.history, |old(volume.history)|, path, Look(old(volume.files), BackupPath(path)))
      ensures OnlyTouches(volume.history, |old(volume.history)|, old(volume.files), Names(path))
    {
      NamesDiffer(path);
      if path == "" || BackupPath(path) !in volume.files {
        return true;
      }
      volume.Unlink(path);
      ok := volume.Rename(BackupPath(path), path);
    }

    method RemoveBackupFile()
      requires volume.Valid()
      modifies volume
      ensures volume.Valid() && old(volume.history) <= volume.history && old(volume.errors) <= volume.errors
      ensures Faultless(volume.fails) ==> volume.errors == old(volume.errors)
      ensures volume.files == if volume.errors == old(volume.errors) then old(volume.files) - {BackupPath(path)}
                              else old(volume.files)
    {
      volume.Unlink(BackupPath(path));
    }

    static method RemoveAllFiles(volume: Volume, path: string)
      requires volume.Valid()
      modifies volume
      ensures volume.Valid() && old(volume.history) <= volume.history && old(volume.errors) <= volume.errors
      ensures Faultless(volume.fails) ==> volume.errors == old(volume.errors)
      ensures Within(old(volume.files), volume.files, Names(path))
      ensures volume.errors == old(volume.errors) ==> volume.files == old(volume.files) - Names(path)
    {
      volume.Unlink(TmpPath(path));
      volume.Unlink(BackupPath(path));
      volume.Unlink(path);
    }

    method ResetAndRemoveAllFiles()
      requires volume.Valid()
      modifies this, volume
      ensures volume.Valid() && old(volume.history) <= volume.history && old(volume.errors) <= volume.errors
      ensures Faultless(volume.fails) ==> volume.errors == old(volume.errors)
      ensures path == "" && fd == -1
      ensures Within(old(volume.files), volume.files, Names(old(path)))
      ensures volume.errors == old(volume.errors) ==> volume.files == old(volume.files) - Names(old(path))
    {
      var p := path;
      Reset();
      RemoveAllFiles(volume, p);
    }
  }

  // ----- Publishing three files at once -----

  /** How a publication ended; `failed` is the first file whose commit failed. */
  datatype Outcome = Published | RolledBack(failed: nat) | Removed

  ghost predicate Together(a: RestorableFile, b: RestorableFile, c: RestorableFile)
    reads a, b, c, a.volume
  {
    && a.volume == b.volume == c.volume && a.volume.Valid()
    && Names(a.path) !! Names(b.path) && Names(a.path) !! Names(c.path) && Names(b.path) !! Names(c.path)
  }

  function ThreeNames(pa: string, pb: string, pc: string): set<string> {
    Names(pa) + Names(pb) + Names(pc)
  }

  /** What must not be lost of a file. */
  function Original(d: Disk, path: string): Option<string> {
    if path == "" then None else Look(d, path)
  }

  /** Since `from`, the originals of `d` at the three paths could always be found. */
  ghost predicate Held(h: seq<Disk>, from: nat, d: Disk, pa: string, pb: string, pc: string) {
    && AlwaysHolds(h, from, pa, Original(d, pa))
    && AlwaysHolds(h, from, pb, Original(d, pb))
    && AlwaysHolds(h, from, pc, Original(d, pc))
  }

  ghost predicate BackedUp(d0: Disk, d: Disk, path: string) {
    Original(d0, path).Some? ==> Look(d, BackupPath(path)) == Original(d0, path)
  }

  /** The calls made for one file neither change another nor endanger its content. */
  lemma {:induction false} OtherFile(d: Disk, d': Disk, h: seq<Disk>, h': seq<Disk>, from: nat, p: string, q: string,
                                     content: Option<string>)
    requires Names(p) !! Names(q) && Within(d, d', Names(p))
    requires h <= h' && OnlyTouches(h', |h|, d, Names(p))
    requires AlwaysHolds(h, from, q, content) && (content.Some? ==> Holds(View(d, q), content.value))
    ensures View(d', q) == View(d, q) && AlwaysHolds(h', from, q, content)
  {
    OthersKept(d, d', p, q);
    forall k | from <= k < |h'| && content.Some?
      ensures Holds(View(h'[k], q), content.value)
    {
      if k < |h| {
        assert h'[k] == h[k];
      } else {
        OthersKept(d, h'[k], p, q);
      }
    }
  }

  lemma {:induction false} HoldsOn(h: seq<Disk>, h': seq<Disk>, from: nat, path: string, content: Option<string>)
    requires h <= h' && AlwaysHolds(h, from, path, content) && AlwaysHolds(h', |h|, path, content)
    ensures AlwaysHolds(h', from, path, content)
  {
    forall k | from <= k < |h'| && content.Some?
      ensures Holds(View(h'[k], path), content.value)
    {
      assert k < |h| ==> h'[k] == h[k];
    }
  }

  ghost predicate AllBackedUp(d0: Disk, d1: Disk, pa: string, pb: string, pc: string) {
    && BackupStep(pa, View(d0, pa), View(d1, pa), true)
    && BackupStep(pb, View(d0, pb), View(d1, pb), true)
    && BackupStep(pc, View(d0, pc), View(d1, pc), true)
  }

  function BackupsCalls(d: Disk, pa: string, pb: string, pc: string): nat {
    BackupCalls(d, pa) + BackupCalls(d, pb) + BackupCalls(d, pc)
  }

  /** What must not be lost of a file can be found on the disk now. */
  ghost predicate Findable(d: Disk, d': Disk, path: string) {
    Original(d, path).Some? ==> Holds(View(d', path), Original(d, path).value)
  }

  /** Backs up one of three files; the other two have the paths p and q. */
  method BackUpOne(f: RestorableFile, ghost p: string, ghost q: string, ghost d: Disk, ghost from: nat)
    returns (ok: bool)
    requires f.volume.Valid() && Names(f.path) !! Names(p) && Names(f.path) !! Names(q)
    requires Held(f.volume.history, from, d, f.path, p, q) && View(f.volume.files, f.path) == View(d, f.path)
    requires Findable(d, f.volume.files, p) && Findable(d, f.volume.files, q)
    modifies f.volume
    ensures f.volume.Valid() && old(f.volume.history) <= f.volume.history && old(f.volume.errors) <= f.volume.errors
    ensures Faultless(f.volume.fails) ==> f.volume.errors == old(f.volume.errors)
    ensures Within(old(f.volume.files), f.volume.files, Names(f.path))
    ensures BackupStep(f.path, View(d, f.path), View(f.volume.files, f.path), ok)
    ensures View(f.volume.files, p) == View(old(f.volume.files), p)
    ensures View(f.volume.files, q) == View(old(f.volume.files), q)
    ensures Held(f.volume.history, from, d, f.path, p, q)
    ensures f.volume.calls == old(f.volume.calls) + BackupCalls(d, f.path)
    ensures Untroubled(f.volume.fails, old(f.volume.calls), BackupCalls(d, f.path)) ==> ok
  {
    ghost var d0, h0 := f.volume.files, f.volume.history;
    assert Look(d0, f.path) == Look(d, f.path);
    ok := f.CreateBackupFile();
    HoldsOn(h0, f.volume.history, from, f.path, Original(d, f.path));
    OtherFile(d0, f.volume.files, h0, f.volume.history, from, f.path, p, Original(d, p));
    OtherFile(d0, f.volume.files, h0, f.volume.history, from, f.path, q, Original(d, q));
  }

  method BackUpThree(a: RestorableFile, b: RestorableFile, c: RestorableFile) returns (ok: bool)
    requires Together(a, b, c)
    modifies a.volume
    ensures Together(a, b, c) && old(a.volume.history) <= a.volume.history && old(a.volume.errors) <= a.volume.errors
    ensures Faultless(a.volume.fails) ==> a.volume.errors == old(a.volume.errors)
    ensures Within(old(a.volume.files), a.volume.files, ThreeNames(a.path, b.path, c.path))
    ensures ok ==> AllBackedUp(old(a.volume.files), a.volume.files, a.path, b.path, c.path)
    ensures Held(a.volume.history, |old(a.volume.history)|, old(a.volume.files), a.path, b.path, c.path)
    ensures Untroubled(a.volume.fails, old(a.volume.calls),
                       BackupsCalls(old(a.volume.files), a.path, b.path, c.path)) ==>
              ok && a.volume.calls == old(a.volume.calls) + BackupsCalls(old(a.volume.files), a.path, b.path, c.path)
  {
    ghost var d, from := a.volume.files, |a.volume.history|;
    ok := BackUpOne(a, b.path, c.path, d, from);
    if ok {
      ok := BackUpOne(b, a.path, c.path, d, from);
      if ok {
        ok := BackUpOne(c, a.path, b.path, d, from);
      }
    }
  }

  /** The file at position i is committed if `failed`, the first that could not be, comes later. */
  predicate CommitUpTo(path: string, s: Slot, s': Slot, i: nat, failed: nat) {
    if i <= failed then CommitStep(path, s, s', i < failed) else s' == s
  }

  ghost predicate CommittedUpTo(d1: Disk, d2: Disk, pa: string, pb: string, pc: string, failed: nat) {
    && CommitUpTo(pa, View(d1, pa), View(d2, pa), 0, failed)
    && CommitUpTo(pb, View(d1, pb), View(d2, pb), 1, failed)
    && CommitUpTo(pc, View(d1, pc), View(d2, pc), 2, failed)
  }

  /** Commits one of three files; the other two have the paths p and q. */
  method CommitOne(f: RestorableFile, ghost p: string, ghost q: string, ghost d: Disk, ghost from: nat)
    returns (ok: bool)
    requires f.volume.Valid() && Names(f.path) !! Names(p) && Names(f.path) !! Names(q)
    requires Held(f.volume.history, from, d, f.path, p, q)
    requires BackedUp(d, f.volume.files, f.path) && BackedUp(d, f.volume.files, p) && BackedUp(d, f.volume.files, q)
    modifies f`fd, f.volume
    ensures f.volume.Valid() && old(f.volume.history) <= f.volume.history && old(f.volume.errors) <= f.volume.errors
    ensures Faultless(f.volume.fails) ==> f.volume.errors == old(f.volume.errors)
    ensures Within(old(f.volume.files), f.volume.files, Names(f.path))
    ensures CommitStep(f.path, View(old(f.volume.files), f.path), View(f.volume.files, f.path), ok)
    ensures View(f.volume.files, p) == View(old(f.volume.files), p)
    ensures View(f.volume.files, q) == View(old(f.volume.files), q)
    ensures Held(f.volume.history, from, d, f.path, p, q)
    ensures ok == CommitOk(f.volume.fails, old(f.volume.calls), old(f.volume.files), f.path)
    ensures f.volume.calls >= old(f.volume.calls) + CommitCalls(f.path)
    ensures ok ==> f.volume.calls == old(f.volume.calls) + CommitCalls(f.path)
  {
    ghost var d0, h0 := f.volume.files, f.volume.history;
    ok := f.CommitWorkFile();
    HoldsOn(h0, f.volume.history, from, f.path, Original(d, f.path));
    OtherFile(d0, f.volume.files, h0, f.volume.history, from, f.path, p, Original(d, p));
    OtherFile(d0, f.volume.files, h0, f.volume.history, from, f.path, q, Original(d, q));
  }

  /** The first of three files whose commit fails, or 3. */
  function FirstFailed(fails: nat -> bool, call: nat, d: Disk, pa: string, pb: string, pc: string): (failed: nat)
    ensures failed <= 3
  {
    if !CommitOk(fails, call, d, pa) then 0
    else if !CommitOk(fails, call + CommitCalls(pa), d, pb) then 1
    else if !CommitOk(fails, call + CommitCalls(pa) + CommitCalls(pb), d, pc) then 2
    else 3
  }

  /** The calls that the commits make up to and with that of the file at `failed`. */
  function CommitsCalls(pa: string, pb: string, pc: string, failed: nat): nat {
    CommitCalls(pa) + (if failed < 1 then 0 else CommitCalls(pb)) + if failed < 2 then 0 else CommitCalls(pc)
  }

  method CommitThree(a: RestorableFile, b: RestorableFile, c: RestorableFile, ghost d: Disk, ghost from: nat)
    returns (failed: nat)
    requires Together(a, b, c) && Held(a.volume.history, from, d, a.path, b.path, c.path)
    requires BackedUp(d, a.volume.files, a.path) && BackedUp(d, a.volume.files, b.path)
    requires BackedUp(d, a.volume.files, c.path)
    modifies a`fd, b`fd, c`fd, a.volume
    ensures Together(a, b, c) && old(a.volume.history) <= a.volume.history && old(a.volume.errors) <= a.volume.errors
    ensures Faultless(a.volume.fails) ==> a.volume.errors == old(a.volume.errors)
    ensures Within(old(a.volume.files), a.volume.files, ThreeNames(a.path, b.path, c.path))
    ensures failed == FirstFailed(a.volume.fails, old(a.volume.calls), old(a.volume.files), a.path, b.path, c.path)
    ensures a.volume.calls >= old(a.volume.calls) + CommitsCalls(a.path, b.path, c.path, failed)
    ensures CommittedUpTo(old(a.volume.files), a.volume.files, a.path, b.path, c.path, failed)
    ensures Held(a.volume.history, from, d, a.path, b.path, c.path)
  {
    var ok := CommitOne(a, b.path, c.path, d, from);
    failed := 0;
    if ok {
      ok := CommitOne(b, a.path, c.path, d, from);
      failed := 1;
      if ok {
        ok := CommitOne(c, a.path, b.path, d, from);
        failed := if ok then 3 else 2;
      }
    }
  }

  method RestoreThree(a: RestorableFile, b: RestorableFile, c: RestorableFile, ghost d: Disk, ghost from: nat)
    returns (ok: bool)
    requires Together(a, b, c) && Held(a.volume.history, from, d, a.path, b.path, c.path)
    requires BackedUp(d, a.volume.files, a.path) && BackedUp(d, a.volume.files, b.path)
    requires BackedUp(d, a.volume.files, c.path)
    modifies a.volume
    ensures Together(a, b, c) && old(a.volume.history) <= a.volume.history && old(a.volume.errors) <= a.volume.errors
    ensures Faultless(a.volume.fails) ==> a.volume.errors == old(a.volume.errors)
    ensures Within(old(a.volume.files), a.volume.files, ThreeNames(a.path, b.path, c.path))
    ensures ok ==>
              && RestoreStep(a.path, View(old(a.volume.files), a.path), View(a.volume.files, a.path), true)
              && RestoreStep(b.path, View(old(a.volume.files), b.path), View(a.volume.files, b.path), true)
              && RestoreStep(c.path, View(old(a.volume.files), c.path), View(a.volume.files, c.path), true)
    ensures Held(a.volume.history, from, d, a.path, b.path, c.path)
    ensures Smooth(a.volume.fails, old(a.volume.calls)) ==> ok
  {
    ghost var v, d0, h0 := a.volume, a.volume.files, a.volume.history;
    ok := a.RestoreBackupFile();
    ghost var d1, h1 := v.files, v.history;
    HoldsOn(h0, h1, from, a.path, Original(d, a.path));
    OtherFile(d0, d1, h0, h1, from, a.path, b.path, Original(d, b.path));
    OtherFile(d0, d1, h0, h1, from, a.path, c.path, Original(d, c.path));
    if ok {
      ok := b.RestoreBackupFile();
      ghost var d2, h2 := v.files, v.history;
      HoldsOn(h1, h2, from, b.path, Original(d, b.path));
      OtherFile(d1, d2, h1, h2, from, b.path, a.path, Original(d, a.path));
      OtherFile(d1, d2, h1, h2, from, b.path, c.path, Original(d, c.path));
      if ok {
        ok := c.RestoreBackupFile();
        ghost var d3, h3 := v.files, v.history;
        HoldsOn(h2, h3, from, c.path, Original(d, c.path));
        OtherFile(d2, d3, h2, h3, from, c.path, a.path, Original(d, a.path));
        OtherFile(d2, d3, h2, h3, from, c.path, b.path, Original(d, b.path));
      }
    }
  }

  /** Nothing is left under any of the names. */
  predicate AllGone(d: Disk, pa: string, pb: string, pc: string) {
    Names(pa) !! d.Keys && Names(pb) !! d.Keys && Names(pc) !! d.Keys
  }

  method RemoveThree(a: RestorableFile, b: RestorableFile, c: RestorableFile)
    requires Together(a, b, c)
    modifies a, b, c, a.volume
    ensures old(a.volume.history) <= a.volume.history && old(a.volume.errors) <= a.volume.errors
    ensures Faultless(a.volume.fails) ==> a.volume.errors == old(a.volume.errors)
    ensures Within(old(a.volume.files), a.volume.files, ThreeNames(old(a.path), old(b.path), old(c.path)))
    ensures a.volume.errors == old(a.volume.errors) ==> AllGone(a.volume.files, old(a.path), old(b.path), old(c.path))
  {
    a.ResetAndRemoveAllFiles();
    b.ResetAndRemoveAllFiles();
    c.ResetAndRemoveAllFiles();
  }

  // ----- The whole publication -----

  /** What a rolled back publication leaves at the path; `committed` says the file's own commit was done. */
  function AfterRollback(path: string, s: Slot, committed: bool): Option<string> {
    if path == "" || s.regular.Some? then s.regular
    else if s.backup.Some? then s.backup
    else if committed then s.work
    else None
  }

  lemma {:induction false} RollbackOf(path: string, s0: Slot, s1: Slot, s2: Slot, s3: Slot, i: nat, failed: nat)
    requires BackupStep(path, s0, s1, true) && CommitUpTo(path, s1, s2, i, failed) && RestoreStep(path, s2, s3, true)
    ensures s3.regular == AfterRollback(path, s0, i < failed)
    ensures Tidied(path, s0, s3, i, failed)
    ensures path != "" && i < failed ==> s0.work.Some?
  {
    assert i <= failed ==> CommitStep(path, s1, s2, i < failed);
  }

  ghost predicate PublishedAs(d0: Disk, d: Disk, path: string) {
    path != "" ==>
      View(d0, path).work.Some? && View(d, path).regular == View(d0, path).work && View(d, path).work == None
  }

  lemma {:induction false} PublishedOf(d0: Disk, d1: Disk, d2: Disk, path: string, i: nat)
    requires i < 3 && BackupStep(path, View(d0, path), View(d1, path), true)
    requires CommitUpTo(path, View(d1, path), View(d2, path), i, 3)
    ensures PublishedAs(d0, d2, path)
  {
    assert CommitStep(path, View(d1, path), View(d2, path), true);
  }

  /** Removing a backup changes none of the three published files. */
  lemma {:induction false} BackupRemoved(d0: Disk, d: Disk, d': Disk, p: string, q: string)
    requires PublishedAs(d0, d, q) && (d' == d || d' == d - {BackupPath(p)})
    requires p == q || Names(p) !! Names(q)
    ensures PublishedAs(d0, d', q)
  {
    NamesDiffer(q);
    assert BackupPath(p) in Names(p) && q in Names(q) && TmpPath(q) in Names(q);
  }

  predicate NoBackups(d: Disk, pa: string, pb: string, pc: string) {
    BackupPath(pa) !in d && BackupPath(pb) !in d && BackupPath(pc) !in d
  }

  /**
   * What a rollback leaves beside a file: no backup; no work file if it was committed, and the work
   * file it had if its turn did not come.
   */
  predicate Tidied(path: string, s0: Slot, s: Slot, i: nat, failed: nat) {
    path != "" ==>
      && s.backup == None
      && (i < failed ==> s.work == None)
      && (i == failed ==> SameOrGone(s0.work, s.work))
      && (failed < i ==> s.work == s0.work)
  }

  predicate AllTidied(d0: Disk, d: Disk, pa: string, pb: string, pc: string, failed: nat) {
    && Tidied(pa, View(d0, pa), View(d, pa), 0, failed)
    && Tidied(pb, View(d0, pb), View(d, pb), 1, failed)
    && Tidied(pc, View(d0, pc), View(d, pc), 2, failed)
  }

  /** The new content is at the path, and neither the work file nor a backup is left. */
  ghost predicate FullyPublished(d0: Disk, d: Disk, path: string) {
    path != "" ==> View(d0, path).work.Some? && View(d, path) == Slot(View(d0, path).work, None, None)
  }

  predicate Written(d: Disk, path: string) {
    path != "" ==> View(d, path).work.Some?
  }

  predicate AllWritten(d: Disk, pa: string, pb: string, pc: string) {
    Written(d, pa) && Written(d, pb) && Written(d, pc)
  }

  /** What the three files are after a publication. */
  ghost predicate OutcomeOk(d0: Disk, d: Disk, pa: string, pb: string, pc: string, outcome: Outcome) {
    match outcome
    case Published => PublishedAs(d0, d, pa) && PublishedAs(d0, d, pb) && PublishedAs(d0, d, pc)
    case RolledBack(failed) =>
      && failed < 3 && [pa, pb, pc][failed] != ""
      && (0 < failed ==> Written(d0, pa))
      && (1 < failed ==> Written(d0, pb))
      && Look(d, pa) == AfterRollback(pa, View(d0, pa), 0 < failed)
      && Look(d, pb) == AfterRollback(pb, View(d0, pb), 1 < failed)
      && Look(d, pc) == AfterRollback(pc, View(d0, pc), 2 < failed)
    case Removed => AllGone(d, pa, pb, pc)
  }

  lemma {:induction false} AllPublished(d0: Disk, d1: Disk, d2: Disk, pa: string, pb: string, pc: string)
    requires AllBackedUp(d0, d1, pa, pb, pc) && CommittedUpTo(d1, d2, pa, pb, pc, 3)
    ensures OutcomeOk(d0, d2, pa, pb, pc, Published) && AllWritten(d0, pa, pb, pc)
  {
    PublishedOf(d0, d1, d2, pa, 0);
    PublishedOf(d0, d1, d2, pb, 1);
    PublishedOf(d0, d1, d2, pc, 2);
  }

  lemma {:induction false} AllRolledBack(d0: Disk, d1: Disk, d2: Disk, d3: Disk,
                                         pa: string, pb: string, pc: string, failed: nat)
    requires AllBackedUp(d0, d1, pa, pb, pc) && CommittedUpTo(d1, d2, pa, pb, pc, failed) && failed < 3
    requires RestoreStep(pa, View(d2, pa), View(d3, pa), true)
    requires RestoreStep(pb, View(d2, pb), View(d3, pb), true)
    requires RestoreStep(pc, View(d2, pc), View(d3, pc), true)
    ensures OutcomeOk(d0, d3, pa, pb, pc, RolledBack(failed)) && AllTidied(d0, d3, pa, pb, pc, failed)
  {
    RollbackOf(pa, View(d0, pa), View(d1, pa), View(d2, pa), View(d3, pa), 0, failed);
    RollbackOf(pb, View(d0, pb), View(d1, pb), View(d2, pb), View(d3, pb), 1, failed);
    RollbackOf(pc, View(d0, pc), View(d1, pc), View(d2, pc), View(d3, pc), 2, failed);
  }

  /** There is an original to put back, or nothing that would be put or left in its place. */
  predicate Restorable(d: Disk, path: string, committed: bool) {
    path == "" || path in d || (BackupPath(path) !in d && !committed)
  }

  /**
   * A publication that failed leaves the three files as they were exactly if each is restorable:
   * one without an original keeps its new content if it was committed, or gets a stale backup.
   */
  lemma {:induction false} RollbackIsOld(d0: Disk, d: Disk, pa: string, pb: string, pc: string, failed: nat)
    requires OutcomeOk(d0, d, pa, pb, pc, RolledBack(failed))
    ensures SameThree(d0, d, pa, pb, pc) <==>
            Restorable(d0, pa, 0 < failed) && Restorable(d0, pb, 1 < failed) && Restorable(d0, pc, false)
  {
    RestorableIsRestored(d0, pa, 0 < failed);
    RestorableIsRestored(d0, pb, 1 < failed);
    RestorableIsRestored(d0, pc, false);
  }

  function Put(d: Disk, path: string, content: Option<string>): Disk {
    if content.Some? then d[path := content.value] else d - {path}
  }

  /** The commits that can be the first to fail: there is a file to commit, and the ones before it were written. */
  predicate CanFailAt(d0: Disk, pa: string, pb: string, pc: string, failed: nat) {
    && failed < 3 && [pa, pb, pc][failed] != ""
    && (0 < failed ==> Written(d0, pa)) && (1 < failed ==> Written(d0, pb))
  }

  /** A disk as a publication that fails there leaves it. */
  lemma {:induction false} RollbackDisk(d0: Disk, pa: string, pb: string, pc: string, failed: nat) returns (d: Disk)
    requires pa != pb && pa != pc && pb != pc && CanFailAt(d0, pa, pb, pc, failed)
    ensures OutcomeOk(d0, d, pa, pb, pc, RolledBack(failed))
  {
    d := Put(d0, pa, AfterRollback(pa, View(d0, pa), 0 < failed));
    d := Put(d, pb, AfterRollback(pb, View(d0, pb), 1 < failed));
    d := Put(d, pc, AfterRollback(pc, View(d0, pc), false));
  }

  ghost predicate RollbacksAreOld(d0: Disk, pa: string, pb: string, pc: string) {
    forall d, failed :: OutcomeOk(d0, d, pa, pb, pc, RolledBack(failed)) ==> SameThree(d0, d, pa, pb, pc)
  }

  predicate SameThree(d0: Disk, d: Disk, pa: string, pb: string, pc: string) {
    Look(d, pa) == Look(d0, pa) && Look(d, pb) == Look(d0, pb) && Look(d, pc) == Look(d0, pc)
  }

  /** Seen before the publication: the file has an original, or neither a stale backup nor a work file that counts. */
  predicate Recoverable(d0: Disk, path: string, commits: bool) {
    path == "" || path in d0 || (BackupPath(path) !in d0 && !(commits && TmpPath(path) in d0))
  }

  /**
   * A work file counts for the first file if another comes after it, and for the second if it is
   * reached and a third comes.
   */
  predicate AllRecoverable(d0: Disk, pa: string, pb: string, pc: string) {
    && Recoverable(d0, pa, pb != "" || pc != "")
    && Recoverable(d0, pb, Written(d0, pa) && pc != "")
    && Recoverable(d0, pc, false)
  }

  lemma {:induction false} OneRollback(d0: Disk, pa: string, pb: string, pc: string, failed: nat)
    requires pa != pb && pa != pc && pb != pc
    ensures RollbacksAreOld(d0, pa, pb, pc) && CanFailAt(d0, pa, pb, pc, failed) ==>
              Restorable(d0, pa, 0 < failed) && Restorable(d0, pb, 1 < failed) && Restorable(d0, pc, false)
  {
    if CanFailAt(d0, pa, pb, pc, failed) {
      var d := RollbackDisk(d0, pa, pb, pc, failed);
      RollbackIsOld(d0, d, pa, pb, pc, failed);
      assert RollbacksAreOld(d0, pa, pb, pc) ==> SameThree(d0, d, pa, pb, pc);
    }
  }

  /**
   * The same on the disk a publication starts from: every way it can be rolled back leaves the
   * three files as they were if and only if each is recoverable.
   */
  lemma {:induction false} RollbackIsOldExactly(d0: Disk, pa: string, pb: string, pc: string)
    requires pa != pb && pa != pc && pb != pc
    ensures RollbacksAreOld(d0, pa, pb, pc) <==> AllRecoverable(d0, pa, pb, pc)
  {
    OneRollback(d0, pa, pb, pc, 0);
    OneRollback(d0, pa, pb, pc, 1);
    OneRollback(d0, pa, pb, pc, 2);
    forall d, failed | OutcomeOk(d0, d, pa, pb, pc, RolledBack(failed))
      ensures AllRecoverable(d0, pa, pb, pc) ==> SameThree(d0, d, pa, pb, pc)
    {
      RollbackIsOld(d0, d, pa, pb, pc, failed);
    }
  }

  lemma {:induction false} RestorableIsRestored(d: Disk, path: string, committed: bool)
    requires committed ==> Written(d, path)
    ensures AfterRollback(path, View(d, path), committed) == Look(d, path) <==> Restorable(d, path, committed)
  {
  }

  function Settled(failed: nat): Outcome {
    if failed >= 3 then Published else RolledBack(failed)
  }

  /** A backup does not touch the work file. */
  lemma {:induction false} SameCommits(fails: nat -> bool, call: nat, d0: Disk, d1: Disk,
                                       pa: string, pb: string, pc: string)
    requires AllBackedUp(d0, d1, pa, pb, pc)
    ensures FirstFailed(fails, call, d1, pa, pb, pc) == FirstFailed(fails, call, d0, pa, pb, pc)
  {
    assert View(d1, pa).work == View(d0, pa).work && View(d1, pb).work == View(d0, pb).work;
    assert View(d1, pc).work == View(d0, pc).work;
  }

  /** Commits the three files or, if one cannot be, restores them; Removed says that neither could be done. */
  method CommitOrRestore(a: RestorableFile, b: RestorableFile, c: RestorableFile, ghost d: Disk, ghost from: nat)
    returns (outcome: Outcome)
    requires Together(a, b, c) && Held(a.volume.history, from, d, a.path, b.path, c.path)
    requires AllBackedUp(d, a.volume.files, a.path, b.path, c.path)
    modifies a`fd, b`fd, c`fd, a.volume
    ensures Together(a, b, c) && old(a.volume.history) <= a.volume.history && old(a.volume.errors) <= a.volume.errors
    ensures Faultless(a.volume.fails) ==> a.volume.errors == old(a.volume.errors)
    ensures Within(old(a.volume.files), a.volume.files, ThreeNames(a.path, b.path, c.path))
    ensures Held(a.volume.history, from, d, a.path, b.path, c.path)
    ensures !outcome.Removed? ==> OutcomeOk(d, a.volume.files, a.path, b.path, c.path, outcome)
    ensures outcome.RolledBack? ==> AllTidied(d, a.volume.files, a.path, b.path, c.path, outcome.failed)
    ensures var failed := FirstFailed(a.volume.fails, old(a.volume.calls), d, a.path, b.path, c.path);
            Smooth(a.volume.fails, old(a.volume.calls) + CommitsCalls(a.path, b.path, c.path, failed)) ==>
              outcome == Settled(failed)
  {
    ghost var v, d1 := a.volume, a.volume.files;
    SameCommits(v.fails, v.calls, d, d1, a.path, b.path, c.path);
    var failed := CommitThree(a, b, c, d, from);
    ghost var d2 := v.files;
    if failed == 3 {
      outcome := Published;
      AllPublished(d, d1, d2, a.path, b.path, c.path);
    } else {
      var ok := RestoreThree(a, b, c, d, from);
      outcome := if ok then RolledBack(failed) else Removed;
      if ok {
        AllRolledBack(d, d1, d2, v.files, a.path, b.path, c.path, failed);
      }
    }
  }

  /** The commit at which a publication fails, if its backups succeed. */
  function FailsAt(fails: nat -> bool, call: nat, d: Disk, pa: string, pb: string, pc: string): nat {
    FirstFailed(fails, call + BackupsCalls(d, pa, pb, pc), d, pa, pb, pc)
  }

  /** No call fails but the rename of that commit. */
  ghost predicate Settles(fails: nat -> bool, call: nat, d: Disk, pa: string, pb: string, pc: string) {
    var commits := call + BackupsCalls(d, pa, pb, pc);
    && Untroubled(fails, call, BackupsCalls(d, pa, pb, pc))
    && Smooth(fails, commits + CommitsCalls(pa, pb, pc, FailsAt(fails, call, d, pa, pb, pc)))
  }

  /**
   * Whatever calls fail, every original can be found on the disk in all states up to `safe`: that
   * is in all of them, but for those after the three commits and those of removing everything.
   */
  method Publish(a: RestorableFile, b: RestorableFile, c: RestorableFile) returns (outcome: Outcome, ghost safe: nat)
    requires Together(a, b, c)
    modifies a, b, c, a.volume
    ensures old(a.volume.history) <= a.volume.history && old(a.volume.errors) <= a.volume.errors
    ensures Faultless(a.volume.fails) ==> a.volume.errors == old(a.volume.errors)
    ensures Within(old(a.volume.files), a.volume.files, ThreeNames(old(a.path), old(b.path), old(c.path)))
    ensures |old(a.volume.history)| <= safe <= |a.volume.history|
    ensures Held(a.volume.history[..safe], |old(a.volume.history)|, old(a.volume.files),
                 old(a.path), old(b.path), old(c.path))
    ensures outcome.RolledBack? ==> safe == |a.volume.history|
    ensures outcome.RolledBack? ==>
              AllTidied(old(a.volume.files), a.volume.files, old(a.path), old(b.path), old(c.path), outcome.failed)
    ensures outcome.Published? && a.volume.errors == old(a.volume.errors) ==>
              NoBackups(a.volume.files, old(a.path), old(b.path), old(c.path))
    ensures outcome.Published? ==>
              OutcomeOk(old(a.volume.files), a.volume.history[safe - 1], old(a.path), old(b.path), old(c.path), outcome)
    ensures outcome.Removed? ==> a.volume.errors == old(a.volume.errors) ==>
              OutcomeOk(old(a.volume.files), a.volume.files, old(a.path), old(b.path), old(c.path), outcome)
    ensures !outcome.Removed? ==>
              OutcomeOk(old(a.volume.files), a.volume.files, old(a.path), old(b.path), old(c.path), outcome)
    ensures Settles(a.volume.fails, old(a.volume.calls), old(a.volume.files), old(a.path), old(b.path), old(c.path)) ==>
              outcome == Settled(FailsAt(a.volume.fails, old(a.volume.calls), old(a.volume.files),
                                         old(a.path), old(b.path), old(c.path)))
  {
    ghost var v, d0, h0 := a.volume, a.volume.files, a.volume.history;
    var ok := BackUpThree(a, b, c);
    outcome := Removed;
    if ok {
      outcome := CommitOrRestore(a, b, c, d0, |h0|);
    }
    ghost var h := v.history;
    safe := |h|;
    if outcome.Removed? {
      RemoveThree(a, b, c);
    } else if outcome.Published? {
      RemoveBackups(a, b, c, d0);
    }
    assert v.history[..safe] == h;
  }

  method RemoveBackups(a: RestorableFile, b: RestorableFile, c: RestorableFile, ghost d: Disk)
    requires Together(a, b, c) && OutcomeOk(d, a.volume.files, a.path, b.path, c.path, Published)
    modifies a.volume
    ensures Together(a, b, c) && old(a.volume.history) <= a.volume.history && old(a.volume.errors) <= a.volume.errors
    ensures Faultless(a.volume.fails) ==> a.volume.errors == old(a.volume.errors)
    ensures Within(old(a.volume.files), a.volume.files, ThreeNames(a.path, b.path, c.path))
    ensures OutcomeOk(d, a.volume.files, a.path, b.path, c.path, Published)
    ensures a.volume.errors == old(a.volume.errors) ==> NoBackups(a.volume.files, a.path, b.path, c.path)
  {
    ghost var v, d0 := a.volume, a.volume.files;
    a.RemoveBackupFile();
    ghost var d1 := v.files;
    BackupRemoved(d, d0, d1, a.path, a.path);
    BackupRemoved(d, d0, d1, a.path, b.path);
    BackupRemoved(d, d0, d1, a.path, c.path);
    b.RemoveBackupFile();
    ghost var d2 := v.files;
    BackupRemoved(d, d1, d2, b.path, a.path);
    BackupRemoved(d, d1, d2, b.path, b.path);
    BackupRemoved(d, d1, d2, b.path, c.path);
    c.RemoveBackupFile();
    BackupRemoved(d, d2, v.files, c.path, a.path);
    BackupRemoved(d, d2, v.files, c.path, b.path);
    BackupRemoved(d, d2, v.files, c.path, c.path);
  }

  // ----- Rollbacks that do not bring the old state back -----

  /** Publishes three files on a fresh volume. */
  method PublishOn(files: Disk, fails: nat -> bool, pa: string, pb: string, pc: string)
    returns (outcome: Outcome, after: Disk)
    requires Names(pa) !! Names(pb) && Names(pa) !! Names(pc) && Names(pb) !! Names(pc)
    ensures !outcome.Removed? ==> OutcomeOk(files, after, pa, pb, pc, outcome)
    ensures Settles(fails, 0, files, pa, pb, pc) ==> outcome == Settled(FailsAt(fails, 0, files, pa, pb, pc))
    ensures Within(files, after, ThreeNames(pa, pb, pc))
    ensures outcome.RolledBack? ==> AllTidied(files, after, pa, pb, pc, outcome.failed)
    ensures Faultless(fails) && outcome.Published? ==> NoBackups(after, pa, pb, pc)
  {
    var volume := new Volume(files, fails);
    var a := new RestorableFile(volume, -1, pa);
    var b := new RestorableFile(volume, -1, pb);
    var c := new RestorableFile(volume, -1, pc);
    ghost var safe;
    outcome, safe := Publish(a, b, c);
    after := volume.files;
  }

  /** The first file that was not written, or 3. */
  function FirstUnwritten(d: Disk, pa: string, pb: string, pc: string): nat {
    if !Written(d, pa) then 0 else if !Written(d, pb) then 1 else if !Written(d, pc) then 2 else 3
  }

  /** If no call fails, a publication is rolled back at the first file that was not written, if there is one. */
  method PublishSmoothly(files: Disk, pa: string, pb: string, pc: string) returns (outcome: Outcome, after: Disk)
    requires Names(pa) !! Names(pb) && Names(pa) !! Names(pc) && Names(pb) !! Names(pc)
    ensures outcome == Settled(FirstUnwritten(files, pa, pb, pc)) && OutcomeOk(files, after, pa, pb, pc, outcome)
    ensures Within(files, after, ThreeNames(pa, pb, pc))
    ensures outcome.Published? ==>
              FullyPublished(files, after, pa) && FullyPublished(files, after, pb) && FullyPublished(files, after, pc)
    ensures outcome.RolledBack? ==> AllTidied(files, after, pa, pb, pc, outcome.failed)
    ensures outcome.RolledBack? ==>
              (SameThree(files, after, pa, pb, pc) <==>
               && Restorable(files, pa, 0 < FirstUnwritten(files, pa, pb, pc))
               && Restorable(files, pb, 1 < FirstUnwritten(files, pa, pb, pc)) && Restorable(files, pc, false))
  {
    outcome, after := PublishOn(files, k => false, pa, pb, pc);
    if outcome.RolledBack? {
      RollbackIsOld(files, after, pa, pb, pc, outcome.failed);
    }
  }

  /** Every commit that can be the first to fail does so, if just its rename fails. */
  method PublishFailingAt(files: Disk, pa: string, pb: string, pc: string, failed: nat) returns (after: Disk)
    requires Names(pa) !! Names(pb) && Names(pa) !! Names(pc) && Names(pb) !! Names(pc)
    requires CanFailAt(files, pa, pb, pc, failed)
    ensures OutcomeOk(files, after, pa, pb, pc, RolledBack(failed))
  {
    var call := BackupsCalls(files, pa, pb, pc) + CommitsCalls(pa, pb, pc, failed) - 1;
    var fails := (k: nat) => k == call;
    assert FailsAt(fails, 0, files, pa, pb, pc) == failed;
    var outcome;
    outcome, after := PublishOn(files, fails, pa, pb, pc);
  }

  lemma {:induction false} LettersApart()
    ensures Names("a") !! Names("b") && Names("a") !! Names("") && Names("b") !! Names("")
  {
    assert "a"[0] == 'a' && TmpPath("a")[0] == 'a' && BackupPath("a")[0] == 'a';
    assert "b"[0] == 'b' && TmpPath("b")[0] == 'b' && BackupPath("b")[0] == 'b';
    assert TmpPath("")[0] == '.' && BackupPath("")[0] == '.';
  }

  /** The second file was not written: the first, which had no original, keeps its new content. */
  method RollbackKeepsNew() returns (before: Disk, outcome: Outcome, after: Disk)
    ensures before == map[TmpPath("a") := "new", "b" := "old"]
    ensures outcome == RolledBack(1) && Look(before, "a") == None
    ensures Look(after, "a") == Some("new") && Look(after, "b") == Some("old")
  {
    LettersApart();
    before := map[TmpPath("a") := "new", "b" := "old"];
    assert "a" !in before && BackupPath("a") !in before && TmpPath("b") !in before;
    outcome, after := PublishSmoothly(before, "a", "b", "");
    assert Written(before, "a") && !Written(before, "b") && Written(before, "");
  }

  /** Nothing was written and nothing was there: the rollback installs a stale backup. */
  method RollbackInstallsStale() returns (before: Disk, outcome: Outcome, after: Disk)
    ensures before == map[BackupPath("a") := "stale"]
    ensures outcome == RolledBack(0) && Look(before, "a") == None && Look(after, "a") == Some("stale")
  {
    LettersApart();
    before := map[BackupPath("a") := "stale"];
    assert "a" !in before && TmpPath("a") !in before;
    outcome, after := PublishSmoothly(before, "a", "b", "");
    assert !Written(before, "a");
  }
}
