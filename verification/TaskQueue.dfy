/**
 * dumpstate's TaskQueue and the zip tasks put into it. Any number of `run` calls may drain the
 * queue at once; each pops a task under the mutex and invokes it with the mutex released.
 *
 * A zip task adds a file to the bugreport, unless it is cancelled, and then deletes the file.
 */
module TaskQueue {
  import opened Common

  /** One `run` call: between tasks, or invoking one; `added` says its file is in the zip. */
  datatype Run = Idle(cancel: bool) | Invoking(cancel: bool, task: nat, added: bool)

  datatype Effect = Zip(task: nat) | Unlink(task: nat)

  /** Where dumpstate's main thread is in ShutdownDumpPool. */
  datatype Phase =
    | Collecting         // the pool may still enqueue entries
    | PoolJoined         // the pool is gone
    | Draining(r: nat)   // the last `run` has begun
    | Drained            // and has returned; there is no queue any more

  /** `enqueued`, `done` and `cancelled` are history; `effects` is what happened to files, in order. */
  datatype State = State(parallel: bool, tasks: seq<nat>, runs: map<nat, Run>, phase: Phase,
                         enqueued: seq<nat>, done: set<nat>, cancelled: set<nat>, effects: seq<Effect>)

  datatype Action =
    | Enqueue(task: nat)
    | BeginRun(r: nat, cancel: bool)
    | Pop(r: nat)
    | AddToZip(r: nat)
    | UnlinkFile(r: nat)
    | EndRun(r: nat)
    | JoinPool
    | BeginDrain(r: nat)

  function Initial(parallel: bool): State {
    State(parallel, [], map[], Collecting, [], {}, {}, [])
  }

  predicate IsIdle(s: State, r: nat) {
    r in s.runs && s.runs[r].Idle?
  }

  predicate IsInvoking(s: State, r: nat) {
    r in s.runs && s.runs[r].Invoking?
  }

  predicate HasQueue(s: State) {
    s.parallel && !s.phase.Drained?
  }

  predicate Enabled(s: State, a: Action) {
    match a
    case Enqueue(t) => (s.phase.Collecting? || s.phase.Drained?) && t !in s.enqueued
    case BeginRun(r, cancel) => HasQueue(s) && r !in s.runs
    case Pop(r) => IsIdle(s, r) && s.tasks != []
    case AddToZip(r) => IsInvoking(s, r) && !s.runs[r].cancel && !s.runs[r].added
    case UnlinkFile(r) => IsInvoking(s, r) && (s.runs[r].cancel || s.runs[r].added)
    case EndRun(r) => IsIdle(s, r) && s.tasks == []
    case JoinPool => s.phase.Collecting?
    case BeginDrain(r) => s.phase.PoolJoined? && r !in s.runs
  }

  function Next(s: State, a: Action): State
    requires Enabled(s, a)
  {
    match a
    case Enqueue(t) =>
      if HasQueue(s) then s.(tasks := s.tasks + [t], enqueued := s.enqueued + [t])
      else s.(enqueued := s.enqueued + [t], done := s.done + {t}, effects := s.effects + [Zip(t), Unlink(t)])
    case BeginRun(r, cancel) => s.(runs := s.runs[r := Idle(cancel)])
    case Pop(r) => s.(tasks := s.tasks[1..], runs := s.runs[r := Invoking(s.runs[r].cancel, s.tasks[0], false)])
    case AddToZip(r) =>
      s.(runs := s.runs[r := s.runs[r].(added := true)], effects := s.effects + [Zip(s.runs[r].task)])
    case UnlinkFile(r) =>
      s.(runs := s.runs[r := Idle(s.runs[r].cancel)], done := s.done + {s.runs[r].task},
         cancelled := if s.runs[r].cancel then s.cancelled + {s.runs[r].task} else s.cancelled,
         effects := s.effects + [Unlink(s.runs[r].task)])
    case EndRun(r) => s.(runs := s.runs - {r}, phase := if s.phase == Draining(r) then Drained else s.phase)
    case JoinPool => s.(phase := PoolJoined)
    case BeginDrain(r) => s.(runs := s.runs[r := Idle(true)], phase := Draining(r))
  }

  // ----- Invariant -----

  predicate Invokes(s: State, r: nat, t: nat) {
    IsInvoking(s, r) && s.runs[r].task == t
  }

  ghost predicate InFlight(s: State, t: nat) {
    exists r :: Invokes(s, r, t)
  }

  /** A task is queued, with one `run` call, or done, and only one of these. */
  ghost predicate PlacesOk(s: State) {
    && Distinct(s.tasks)
    && (forall r, q, t :: Invokes(s, r, t) && Invokes(s, q, t) ==> r == q)
    && (forall r, t :: Invokes(s, r, t) ==> t !in s.tasks && t !in s.done && t in s.enqueued)
    && (forall t :: t in s.tasks ==> t !in s.done && t in s.enqueued)
    && (forall t :: t in s.done ==> t in s.enqueued)
    && (forall t :: t in s.enqueued ==> t in s.tasks || InFlight(s, t) || t in s.done)
  }

  ghost function Zipped(s: State, t: nat): nat {
    multiset(s.effects)[Zip(t)]
  }

  ghost function Unlinked(s: State, t: nat): nat {
    multiset(s.effects)[Unlink(t)]
  }

  /** What has happened to one task's file, by where that task is. */
  ghost predicate EffectOk(s: State, t: nat) {
    && Unlinked(s, t) == (if t in s.done then 1 else 0)
    && (t in s.done ==> Zipped(s, t) == if t in s.cancelled then 0 else 1)
    && (t !in s.done ==> t !in s.cancelled)
    && (forall r :: Invokes(s, r, t) ==>
          Zipped(s, t) == (if s.runs[r].added then 1 else 0) && (s.runs[r].added ==> !s.runs[r].cancel))
    && (t !in s.done && !InFlight(s, t) ==> Zipped(s, t) == 0)
  }

  /** A file goes into the zip before it is deleted, never after. */
  ghost predicate ZipFirst(effects: seq<Effect>) {
    forall i, j :: 0 <= i < j < |effects| && effects[i].Unlink? ==> effects[j] != Zip(effects[i].task)
  }

  ghost predicate EffectsOk(s: State) {
    (forall t :: EffectOk(s, t)) && ZipFirst(s.effects)
  }

  ghost predicate PhaseOk(s: State) {
    && (s.phase.Draining? ==> s.phase.r in s.runs && s.runs[s.phase.r].cancel)
    && (s.phase.Drained? ==> s.tasks == [])
    && (!s.parallel ==> s.tasks == [])
  }

  /** The queue is what was enqueued last. */
  predicate OrderOk(s: State) {
    |s.tasks| <= |s.enqueued| && s.tasks == s.enqueued[|s.enqueued| - |s.tasks|..]
  }

  ghost predicate Inv(s: State) {
    PlacesOk(s) && EffectsOk(s) && PhaseOk(s) && OrderOk(s)
  }

  lemma {:induction false} EnqueuePlaces(s: State, a: Action)
    requires PlacesOk(s) && Enabled(s, a) && a.Enqueue?
    ensures PlacesOk(Next(s, a))
  {
    var s' := Next(s, a);
    assert forall r, t :: Invokes(s', r, t) <==> Invokes(s, r, t);
    forall t | t in s'.enqueued
      ensures t in s'.tasks || InFlight(s', t) || t in s'.done
    {
      if t in s.enqueued && InFlight(s, t) {
        var r :| Invokes(s, r, t);
        assert Invokes(s', r, t);
      }
    }
  }

  lemma {:induction false} PopPlaces(s: State, a: Action)
    requires PlacesOk(s) && Enabled(s, a) && a.Pop?
    ensures PlacesOk(Next(s, a))
  {
    var s' := Next(s, a);
    assert forall r, t :: Invokes(s', r, t) <==> if r == a.r then t == s.tasks[0] else Invokes(s, r, t);
    assert s.tasks[0] in s.tasks;
    assert forall t :: t in s.tasks <==> t == s.tasks[0] || t in s'.tasks;
    forall t | t in s'.enqueued
      ensures t in s'.tasks || InFlight(s', t) || t in s'.done
    {
      if t == s.tasks[0] {
        assert Invokes(s', a.r, t);
      } else if InFlight(s, t) {
        var r :| Invokes(s, r, t);
        assert Invokes(s', r, t);
      }
    }
  }

  lemma {:induction false} UnlinkPlaces(s: State, a: Action)
    requires PlacesOk(s) && Enabled(s, a) && a.UnlinkFile?
    ensures PlacesOk(Next(s, a))
  {
    var s' := Next(s, a);
    assert Invokes(s, a.r, s.runs[a.r].task);
    assert forall r, t :: Invokes(s', r, t) <==> r != a.r && Invokes(s, r, t);
    forall t | t in s'.enqueued
      ensures t in s'.tasks || InFlight(s', t) || t in s'.done
    {
      if InFlight(s, t) && t != s.runs[a.r].task {
        var r :| Invokes(s, r, t);
        assert Invokes(s', r, t);
      }
    }
  }

  lemma {:induction false} OtherPlaces(s: State, a: Action)
    requires PlacesOk(s) && Enabled(s, a) && !a.Enqueue? && !a.Pop? && !a.UnlinkFile?
    ensures PlacesOk(Next(s, a))
    ensures forall r, t :: Invokes(Next(s, a), r, t) <==> Invokes(s, r, t)
  {
    var s' := Next(s, a);
    assert forall r, t :: Invokes(s', r, t) <==> Invokes(s, r, t);
    forall t | t in s'.enqueued
      ensures t in s'.tasks || InFlight(s', t) || t in s'.done
    {
      if InFlight(s, t) {
        var r :| Invokes(s, r, t);
        assert Invokes(s', r, t);
      }
    }
  }

  /** A step that appends nothing, or only what concerns another task, is neutral to a task. */
  lemma {:induction false} NeutralEffect(s: State, s': State, t: nat)
    requires EffectOk(s, t)
    requires Zipped(s', t) == Zipped(s, t) && Unlinked(s', t) == Unlinked(s, t)
    requires t in s'.done <==> t in s.done
    requires t in s'.cancelled <==> t in s.cancelled
    requires forall r :: Invokes(s', r, t) ==> Invokes(s, r, t) && s'.runs[r] == s.runs[r]
    requires InFlight(s, t) ==> InFlight(s', t)
    ensures EffectOk(s', t)
  {
  }

  lemma {:induction false} EnqueueEffects(s: State, a: Action, t: nat)
    requires PlacesOk(s) && EffectOk(s, t) && Enabled(s, a) && a.Enqueue?
    ensures EffectOk(Next(s, a), t)
  {
    var s' := Next(s, a);
    assert forall r, x :: Invokes(s', r, x) <==> Invokes(s, r, x);
    if InFlight(s, t) {
      var r :| Invokes(s, r, t);
      assert Invokes(s', r, t);
    }
    if t != a.task || HasQueue(s) {
      NeutralEffect(s, s', t);
    }
  }

  lemma {:induction false} PopEffects(s: State, a: Action, t: nat)
    requires PlacesOk(s) && EffectOk(s, t) && Enabled(s, a) && a.Pop?
    ensures EffectOk(Next(s, a), t)
  {
    var s' := Next(s, a);
    assert forall r, x :: Invokes(s', r, x) <==> if r == a.r then x == s.tasks[0] else Invokes(s, r, x);
    assert s.tasks[0] in s.tasks;
    if InFlight(s, t) {
      var r :| Invokes(s, r, t);
      assert Invokes(s', r, t);
    }
    if t != s.tasks[0] {
      NeutralEffect(s, s', t);
    } else {
      assert Invokes(s', a.r, t);
    }
  }

  lemma {:induction false} ZipEffects(s: State, a: Action, t: nat)
    requires PlacesOk(s) && EffectOk(s, t) && Enabled(s, a) && a.AddToZip?
    ensures EffectOk(Next(s, a), t)
  {
    var s', task := Next(s, a), s.runs[a.r].task;
    assert Invokes(s, a.r, task);
    assert forall r, x :: Invokes(s', r, x) <==> Invokes(s, r, x);
    if InFlight(s, t) {
      var r :| Invokes(s, r, t);
      assert Invokes(s', r, t);
    }
    if t != task {
      NeutralEffect(s, s', t);
    } else {
      assert Invokes(s', a.r, t);
    }
  }

  lemma {:induction false} UnlinkEffects(s: State, a: Action, t: nat)
    requires PlacesOk(s) && EffectOk(s, t) && Enabled(s, a) && a.UnlinkFile?
    ensures EffectOk(Next(s, a), t)
  {
    var s', task := Next(s, a), s.runs[a.r].task;
    assert Invokes(s, a.r, task);
    assert forall r, x :: Invokes(s', r, x) <==> r != a.r && Invokes(s, r, x);
    if t != task {
      if InFlight(s, t) {
        var r :| Invokes(s, r, t);
        assert Invokes(s', r, t);
      }
      NeutralEffect(s, s', t);
    }
  }

  lemma {:induction false} OtherEffects(s: State, a: Action, t: nat)
    requires PlacesOk(s) && EffectOk(s, t) && Enabled(s, a)
    requires a.BeginRun? || a.EndRun? || a.JoinPool? || a.BeginDrain?
    ensures EffectOk(Next(s, a), t)
  {
    var s' := Next(s, a);
    assert forall r, x :: Invokes(s', r, x) <==> Invokes(s, r, x);
    if InFlight(s, t) {
      var r :| Invokes(s, r, t);
      assert Invokes(s', r, t);
    }
    NeutralEffect(s, s', t);
  }

  /** A zip is recorded only for a file that has not been deleted. */
  lemma {:induction false} StepZipFirst(s: State, a: Action)
    requires PlacesOk(s) && EffectsOk(s) && Enabled(s, a)
    ensures ZipFirst(Next(s, a).effects)
  {
    var s' := Next(s, a);
    if |s'.effects| > |s.effects| && s'.effects[|s.effects|].Zip? {
      var t := s'.effects[|s.effects|].task;
      assert EffectOk(s, t);
      if a.AddToZip? {
        assert Invokes(s, a.r, t);
      }
      assert t !in s.done;
      assert Unlinked(s, t) == 0;
      assert forall i :: 0 <= i < |s.effects| ==> s.effects[i] in multiset(s.effects);
    }
  }

  lemma {:induction false} StepEffects(s: State, a: Action)
    requires PlacesOk(s) && EffectsOk(s) && Enabled(s, a)
    ensures EffectsOk(Next(s, a))
  {
    StepZipFirst(s, a);
    forall t
      ensures EffectOk(Next(s, a), t)
    {
      assert EffectOk(s, t);
      match a
      case Enqueue(_) => EnqueueEffects(s, a, t);
      case Pop(_) => PopEffects(s, a, t);
      case AddToZip(_) => ZipEffects(s, a, t);
      case UnlinkFile(_) => UnlinkEffects(s, a, t);
      case _ => OtherEffects(s, a, t);
    }
  }

  lemma {:induction false} StepOrder(s: State, a: Action)
    requires OrderOk(s) && PhaseOk(s) && Enabled(s, a)
    ensures OrderOk(Next(s, a))
  {
  }

  lemma {:induction false} StepInv(s: State, a: Action)
    requires Inv(s) && Enabled(s, a)
    ensures Inv(Next(s, a))
  {
    StepOrder(s, a);
    StepEffects(s, a);
    match a
    case Enqueue(_) => EnqueuePlaces(s, a);
    case Pop(_) => PopPlaces(s, a);
    case UnlinkFile(_) => UnlinkPlaces(s, a);
    case _ => OtherPlaces(s, a);
  }

  // ----- Runs -----

  ghost predicate StepAt(states: seq<State>, actions: seq<Action>, i: nat) {
    i + 1 < |states| == |actions| + 1 ==> Enabled(states[i], actions[i]) && states[i + 1] == Next(states[i], actions[i])
  }

  ghost predicate IsRun(states: seq<State>, actions: seq<Action>) {
    && |states| == |actions| + 1
    && states[0] == Initial(states[0].parallel)
    && forall i: nat :: StepAt(states, actions, i)
  }

  lemma {:induction false} RunInv(states: seq<State>, actions: seq<Action>, n: nat)
    requires IsRun(states, actions) && n < |states|
    ensures Inv(states[n])
    decreases n
  {
    if n == 0 {
      InitialInv(states[0]);
    } else {
      RunInv(states, actions, n - 1);
      assert StepAt(states, actions, n - 1);
      StepInv(states[n - 1], actions[n - 1]);
    }
  }

  lemma {:induction false} InitialInv(s: State)
    requires s == Initial(s.parallel)
    ensures Inv(s)
  {
    forall t
      ensures EffectOk(s, t)
    {
    }
  }

  /**
   * Across all concurrent `run` calls a task is invoked at most once, its file is deleted at most
   * once, and the file is in the zip at most once and then before it is deleted.
   */
  lemma {:induction false} InvokedAtMostOnce(states: seq<State>, actions: seq<Action>, n: nat, t: nat)
    requires IsRun(states, actions) && n < |states|
    ensures var s := states[n];
            && (forall r, q :: Invokes(s, r, t) && Invokes(s, q, t) ==> r == q)
            && !(InFlight(s, t) && (t in s.tasks || t in s.done)) && !(t in s.tasks && t in s.done)
            && Unlinked(s, t) <= 1 && Zipped(s, t) <= 1 && ZipFirst(s.effects)
            && (Unlinked(s, t) == 1 <==> t in s.done)
  {
    RunInv(states, actions, n);
    var s := states[n];
    assert EffectOk(s, t);
    if InFlight(s, t) {
      var r :| Invokes(s, r, t);
    }
  }

  /**
   * Since the pool is joined before the last `run`: once that has returned, nothing is left in the
   * queue. An entry ever enqueued has been handled exactly when no other `run` is still at it; and
   * then its file was deleted once, and is in the zip exactly when its task was not cancelled.
   */
  lemma {:induction false} EverythingHandled(states: seq<State>, actions: seq<Action>, n: nat, t: nat)
    requires IsRun(states, actions) && n < |states|
    requires states[n].phase.Drained? && t in states[n].enqueued
    ensures var s := states[n];
            && s.tasks == []
            && (t in s.done <==> !InFlight(s, t))
            && (t in s.done ==> Unlinked(s, t) == 1 && Zipped(s, t) == if t in s.cancelled then 0 else 1)
  {
    RunInv(states, actions, n);
    var s := states[n];
    assert EffectOk(s, t);
    if InFlight(s, t) {
      var r :| Invokes(s, r, t);
    }
  }

  /** A `run` takes the entry that was enqueued first among those nobody has taken. */
  lemma {:induction false} TakenInOrder(states: seq<State>, actions: seq<Action>, n: nat, r: nat)
    requires IsRun(states, actions) && n + 1 < |states| && actions[n] == Pop(r)
    ensures var s, s' := states[n], states[n + 1];
            exists i :: 0 <= i < |s.enqueued| && Invokes(s', r, s.enqueued[i]) && s'.tasks == s.enqueued[i + 1..]
  {
    RunInv(states, actions, n);
    assert StepAt(states, actions, n);
    var s, i := states[n], |states[n].enqueued| - |states[n].tasks|;
    assert s.enqueued[i] == s.tasks[0] && s.enqueued[i + 1..] == s.tasks[1..];
    assert Invokes(states[n + 1], r, s.enqueued[i]);
  }

  /** Whether a `run` cancels is settled when it begins. */
  lemma {:induction false} RunsKeepFlag(states: seq<State>, actions: seq<Action>, n: nat, r: nat)
    requires IsRun(states, actions) && n + 1 < |states| && r in states[n + 1].runs
    ensures r in states[n].runs ==> states[n + 1].runs[r].cancel == states[n].runs[r].cancel
    ensures r !in states[n].runs ==> actions[n] == BeginRun(r, states[n + 1].runs[r].cancel) ||
                                     (actions[n] == BeginDrain(r) && states[n + 1].runs[r].cancel)
  {
    assert StepAt(states, actions, n);
  }

  /**
   * What happens to an entry is decided by the `run` that handles it: a cancelling one deletes its
   * file and leaves it out of the zip, another one puts it there first.
   */
  lemma {:induction false} HandledByFlag(states: seq<State>, actions: seq<Action>, n: nat, r: nat)
    requires IsRun(states, actions) && n + 1 < |states| && actions[n] == UnlinkFile(r)
    ensures IsInvoking(states[n], r)
    ensures var t, s' := states[n].runs[r].task, states[n + 1];
            && t in s'.done && Unlinked(s', t) == 1
            && (t in s'.cancelled <==> states[n].runs[r].cancel)
            && Zipped(s', t) == if states[n].runs[r].cancel then 0 else 1
  {
    RunInv(states, actions, n);
    RunInv(states, actions, n + 1);
    assert StepAt(states, actions, n);
    var t := states[n].runs[r].task;
    assert Invokes(states[n], r, t);
    assert EffectOk(states[n], t) && EffectOk(states[n + 1], t);
  }

  /**
   * A new entry can be added until the pool is joined, and again once there is no queue any more. It
   * is queued if there is a queue; otherwise its file is put into the zip and deleted at once.
   */
  lemma {:induction false} EntriesAreTaken(states: seq<State>, actions: seq<Action>, n: nat, t: nat)
    requires IsRun(states, actions) && n < |states| && t !in states[n].enqueued
    ensures Enabled(states[n], Enqueue(t)) <==> !states[n].phase.PoolJoined? && !states[n].phase.Draining?
    ensures n + 1 < |states| && actions[n] == Enqueue(t) ==>
              var s, s' := states[n], states[n + 1];
              if s.parallel && s.phase.Collecting?
              then s'.tasks == s.tasks + [t] && s'.effects == s.effects
              else s'.tasks == s.tasks && s'.effects == s.effects + [Zip(t), Unlink(t)]
  {
    if n + 1 < |states| {
      assert StepAt(states, actions, n);
    }
  }

  /**
   * A `run` returns when it finds the queue empty, and not before; until then it can always go on.
   */
  lemma {:induction false} RunsDrain(states: seq<State>, actions: seq<Action>, n: nat, r: nat)
    requires IsRun(states, actions) && n < |states| && r in states[n].runs
    ensures Enabled(states[n], EndRun(r)) <==> states[n].runs[r].Idle? && states[n].tasks == []
    ensures states[n].runs[r].Idle? && states[n].tasks != [] ==> Enabled(states[n], Pop(r))
    ensures states[n].runs[r].Invoking? ==> Enabled(states[n], AddToZip(r)) || Enabled(states[n], UnlinkFile(r))
    ensures n + 1 < |states| ==> (r !in states[n + 1].runs <==> actions[n] == EndRun(r))
    ensures n + 1 < |states| && states[n + 1].phase.Drained? && !states[n].phase.Drained? ==>
              actions[n].EndRun? && states[n].phase == Draining(actions[n].r)
  {
    if n + 1 < |states| {
      assert StepAt(states, actions, n);
    }
  }

  /** The last `run` cancels everything it takes. */
  lemma {:induction false} LastRunCancels(states: seq<State>, actions: seq<Action>, n: nat, r: nat)
    requires IsRun(states, actions) && n < |states| && states[n].phase == Draining(r)
    ensures r in states[n].runs && states[n].runs[r].cancel && !Enabled(states[n], AddToZip(r))
    ensures states[n].runs[r].Invoking? ==> Enabled(states[n], UnlinkFile(r))
  {
    RunInv(states, actions, n);
  }
}
