/**
 * dumpstate's DumpPool: a fixed set of threads that take tasks from a queue under one mutex and
 * wait on one condition variable.
 *
 * A step is one stretch of code between two points where the mutex is free. Waiting threads may
 * also wake up without having been notified.
 */
module DumpPool {
  import opened Common

  /** `Ready` is a thread that needs the mutex to look at the loop condition again. */
  datatype Worker = Ready | Waiting | Running(task: nat, hasFile: bool) | Exited

  datatype Phase = Serving | ShuttingDown | Closed

  /**
   * `unstarted` says that a task was posted to a pool without threads, which its owner starts
   * next. `posted`, `started`, `finished` and `dropped` are history. A temporary file has the
   * number of its maker.
   */
  datatype State = State(
    tasks: seq<nat>, shutdown: bool, workers: seq<Worker>, phase: Phase, unstarted: bool,
    posted: seq<nat>, started: seq<nat>, finished: set<nat>, dropped: seq<nat>, temps: set<nat>)

  const MAX_THREAD_COUNT := 4

  const INITIAL := State([], false, [], Serving, false, [], [], {}, [], {})

  datatype Action =
    | Post(task: nat, notified: Option<nat>)
    | Start(count: nat)
    | Take(w: nat)
    | Wait(w: nat)
    | Wake(w: nat)
    | Open(w: nat)
    | Finish(w: nat)
    | Quit(w: nat)
    | Consume(task: nat)
    | DeleteTemps
    | BeginDestroy
    | EndDestroy

  function Is(s: State, w: nat): Option<Worker> {
    if w < |s.workers| then Some(s.workers[w]) else None
  }

  /** notify_one wakes some waiting thread if there is any. */
  predicate Notifies(s: State, notified: Option<nat>) {
    match notified
    case Some(w) => Is(s, w) == Some(Waiting)
    case None => forall w :: 0 <= w < |s.workers| ==> !s.workers[w].Waiting?
  }

  predicate Enabled(s: State, a: Action) {
    match a
    case Post(t, notified) => s.phase.Serving? && !s.unstarted && t !in s.posted && Notifies(s, notified)
    case Start(n) => s.phase.Serving? && s.workers == [] && n > 0
    case Take(w) => Is(s, w) == Some(Ready) && !s.shutdown && s.tasks != []
    case Wait(w) => Is(s, w) == Some(Ready) && !s.shutdown && s.tasks == []
    case Wake(w) => Is(s, w) == Some(Waiting)
    case Open(w) => Is(s, w).Some? && Is(s, w).value.Running? && !Is(s, w).value.hasFile
    case Finish(w) => Is(s, w).Some? && Is(s, w).value.Running?
    case Quit(w) => Is(s, w) == Some(Ready) && s.shutdown
    case Consume(t) => t in s.finished
    case DeleteTemps => !s.phase.Closed?
    case BeginDestroy => s.phase.Serving? && !s.unstarted
    case EndDestroy => s.phase.ShuttingDown? && forall w :: 0 <= w < |s.workers| ==> s.workers[w].Exited?
  }

  /** The threads `start` creates. */
  function Threads(n: nat): (r: seq<Worker>)
    ensures |r| == n && forall w :: 0 <= w < n ==> r[w] == Ready
  {
    if n == 0 then [] else Threads(n - 1) + [Ready]
  }

  /** What notify_all does to the threads. */
  function AllWoken(ws: seq<Worker>): (r: seq<Worker>)
    ensures |r| == |ws| && forall w :: 0 <= w < |ws| ==> r[w] == if ws[w].Waiting? then Ready else ws[w]
  {
    if ws == [] then [] else [if ws[0].Waiting? then Ready else ws[0]] + AllWoken(ws[1..])
  }

  function Set(s: State, w: nat, x: Worker): State
    requires w < |s.workers|
  {
    s.(workers := s.workers[w := x])
  }

  function Next(s: State, a: Action): State
    requires Enabled(s, a)
  {
    match a
    case Post(t, notified) =>
      var s1 := s.(tasks := s.tasks + [t], posted := s.posted + [t], unstarted := s.workers == []);
      if notified.Some? then Set(s1, notified.value, Ready) else s1
    case Start(n) =>
      var count := if n > MAX_THREAD_COUNT then MAX_THREAD_COUNT else n;
      s.(workers := Threads(count), shutdown := false, unstarted := false)
    case Take(w) =>
      Set(s, w, Running(s.tasks[0], false)).(tasks := s.tasks[1..], started := s.started + [s.tasks[0]])
    case Wait(w) => Set(s, w, Waiting)
    case Wake(w) => Set(s, w, Ready)
    case Open(w) => Set(s, w, s.workers[w].(hasFile := true)).(temps := s.temps + {s.workers[w].task})
    case Finish(w) => Set(s, w, Ready).(finished := s.finished + {s.workers[w].task})
    case Quit(w) => Set(s, w, Exited)
    case Consume(t) => s.(temps := s.temps - {t})
    case DeleteTemps => s.(temps := {})
    case BeginDestroy =>
      if s.shutdown || s.workers == [] then s.(phase := Closed, dropped := s.dropped + s.tasks, tasks := [])
      else
        s.(tasks := [], dropped := s.dropped + s.tasks, shutdown := true, phase := ShuttingDown,
           workers := AllWoken(s.workers))
    case EndDestroy => s.(workers := [], temps := {}, phase := Closed)
  }

  // ----- Invariant -----

  ghost function ReadyWorkers(s: State): set<int> {
    set w | 0 <= w < |s.workers| && s.workers[w].Ready?
  }

  ghost predicate NobodyWaits(s: State) {
    forall w :: 0 <= w < |s.workers| ==> !s.workers[w].Waiting?
  }

  /** Every queued task has an awake worker of its own coming for it, unless all are awake. */
  ghost predicate WakeupsOk(s: State) {
    NobodyWaits(s) || |ReadyWorkers(s)| >= |s.tasks|
  }

  ghost predicate PhaseOk(s: State) {
    && (s.phase.Serving? ==> !s.shutdown && s.dropped == [])
    && (s.shutdown ==> NobodyWaits(s))
    && (!s.phase.Serving? ==> s.tasks == [] && !s.unstarted)
    && (s.phase.ShuttingDown? ==> s.shutdown && s.workers != [])
    && (s.phase.Closed? ==> s.workers == [] && s.temps == {})
    && (s.workers == [] && s.phase.Serving? ==> s.started == [] && (s.tasks == [] || s.unstarted))
    && (s.unstarted ==> s.workers == [] && s.tasks != [])
    && (forall w :: 0 <= w < |s.workers| && s.workers[w].Exited? ==> s.shutdown)
  }

  predicate Runs(s: State, w: nat, t: nat) {
    w < |s.workers| && s.workers[w].Running? && s.workers[w].task == t
  }

  /** A running task is one of those started, is not finished, and has one worker. */
  ghost predicate RunningOk(s: State) {
    && (forall w, t :: Runs(s, w, t) ==> t in s.started && t !in s.finished)
    && (forall v, w, t :: Runs(s, v, t) && Runs(s, w, t) ==> v == w)
  }

  ghost predicate IsRunning(s: State, t: nat) {
    exists w :: Runs(s, w, t)
  }

  /** Tasks start in the order they were posted; what has started is running or finished. */
  ghost predicate TasksOk(s: State) {
    && Distinct(s.posted)
    && s.posted == s.started + s.tasks + s.dropped
    && (s.dropped != [] ==> s.tasks == [])
    && (forall t :: t in s.started ==> t in s.finished || IsRunning(s, t))
    && (forall t :: t in s.finished ==> t in s.started)
    && (forall t :: t in s.temps ==> t in s.started)
  }

  ghost predicate Inv(s: State) {
    WakeupsOk(s) && PhaseOk(s) && RunningOk(s) && TasksOk(s)
  }

  lemma {:induction false} PostWakeups(s: State, a: Action)
    requires WakeupsOk(s) && PhaseOk(s) && a.Post? && Enabled(s, a)
    ensures WakeupsOk(Next(s, a))
  {
    if a.notified.Some? {
      assert ReadyWorkers(Next(s, a)) == ReadyWorkers(s) + {a.notified.value};
    }
  }

  lemma {:induction false} ReadyAfter(s: State, w: nat, x: Worker)
    requires w < |s.workers|
    ensures ReadyWorkers(Set(s, w, x)) == if x.Ready? then ReadyWorkers(s) + {w} else ReadyWorkers(s) - {w}
    ensures NobodyWaits(s) && !x.Waiting? ==> NobodyWaits(Set(s, w, x))
  {
  }

  lemma {:induction false} WorkerWakeups(s: State, a: Action)
    requires WakeupsOk(s) && PhaseOk(s) && Enabled(s, a)
    requires a.Take? || a.Wake? || a.Open? || a.Finish?
    ensures WakeupsOk(Next(s, a))
  {
    var s' := Next(s, a);
    ReadyAfter(s, a.w, s'.workers[a.w]);
    assert ReadyWorkers(s') == ReadyWorkers(Set(s, a.w, s'.workers[a.w]));
    assert NobodyWaits(s') == NobodyWaits(Set(s, a.w, s'.workers[a.w]));
    if a.Take? {
      assert a.w in ReadyWorkers(s);
    } else if a.Open? {
      assert a.w !in ReadyWorkers(s);
    }
  }

  lemma {:induction false} RestWakeups(s: State, a: Action)
    requires WakeupsOk(s) && PhaseOk(s) && Enabled(s, a) && (a.Wait? || a.Quit?)
    ensures WakeupsOk(Next(s, a))
  {
  }

  lemma {:induction false} OwnerWakeups(s: State, a: Action)
    requires WakeupsOk(s) && PhaseOk(s) && Enabled(s, a)
    requires a.Start? || a.Consume? || a.DeleteTemps? || a.BeginDestroy? || a.EndDestroy?
    ensures WakeupsOk(Next(s, a))
  {
    if a.Consume? || a.DeleteTemps? {
      assert ReadyWorkers(Next(s, a)) == ReadyWorkers(s);
    }
  }

  lemma {:induction false} StepPhase(s: State, a: Action)
    requires PhaseOk(s) && TasksOk(s) && Enabled(s, a)
    ensures PhaseOk(Next(s, a))
  {
    match a
    case Start(_) => StartPhase(s, a);
    case BeginDestroy => DestroyPhase(s);
    case _ => OtherPhase(s, a);
  }

  lemma {:induction false} StartPhase(s: State, a: Action)
    requires PhaseOk(s) && Enabled(s, a) && a.Start?
    ensures PhaseOk(Next(s, a))
  {
    assert |Next(s, a).workers| > 0;
  }

  lemma {:induction false} DestroyPhase(s: State)
    requires PhaseOk(s) && Enabled(s, BeginDestroy) && forall t :: t in s.temps ==> t in s.started
    ensures PhaseOk(Next(s, BeginDestroy))
  {
    assert s.workers != [] ==> |Next(s, BeginDestroy).workers| > 0;
    if s.workers == [] {
      assert s.temps == {};
    }
  }

  lemma {:induction false} OtherPhase(s: State, a: Action)
    requires PhaseOk(s) && Enabled(s, a) && !a.Start? && !a.BeginDestroy?
    ensures PhaseOk(Next(s, a))
  {
  }

  lemma {:induction false} TakeRunning(s: State, a: Action)
    requires RunningOk(s) && TasksOk(s) && a.Take? && Enabled(s, a)
    ensures RunningOk(Next(s, a)) && s.tasks[0] !in s.started
  {
    var s', t := Next(s, a), s.tasks[0];
    assert t !in s.started by {
      assert s.posted[|s.started|] == t;
      assert forall i :: 0 <= i < |s.started| ==> s.posted[i] == s.started[i];
    }
    assert forall w, x :: Runs(s', w, x) ==> if w == a.w then x == t else Runs(s, w, x);
  }

  lemma {:induction false} OtherRunning(s: State, a: Action)
    requires RunningOk(s) && !a.Take? && Enabled(s, a)
    ensures RunningOk(Next(s, a))
  {
    var s' := Next(s, a);
    assert forall w, x :: Runs(s', w, x) ==> Runs(s, w, x);
    if a.Finish? {
      assert Runs(s, a.w, s.workers[a.w].task);
    }
  }

  /** A step starts one task, ends one, or does neither. */
  lemma {:induction false} StartedStays(s: State, a: Action, t: nat)
    requires TasksOk(s) && Enabled(s, a) && t in Next(s, a).started
    ensures t in Next(s, a).finished || IsRunning(Next(s, a), t) || (a.EndDestroy? && IsRunning(s, t))
  {
    var s' := Next(s, a);
    if t in s.started && t !in s.finished {
      var w :| Runs(s, w, t);
      if a.Finish? && a.w == w {
        assert t in s'.finished;
      } else if !a.EndDestroy? {
        assert Runs(s', w, t);
      }
    } else if t !in s.started {
      assert a.Take?;
      assert Runs(s', a.w, t);
    }
  }

  lemma {:induction false} StepTasks(s: State, a: Action)
    requires RunningOk(s) && TasksOk(s) && PhaseOk(s) && Enabled(s, a)
    ensures TasksOk(Next(s, a))
  {
    var s' := Next(s, a);
    forall t | t in s'.started
      ensures t in s'.finished || IsRunning(s', t)
    {
      StartedStays(s, a, t);
    }
    OrderKept(s, a);
    PostedDistinct(s, a);
    FilesKept(s, a);
  }

  /** Moving the head of the queue to the end of what has started keeps the order of the two. */
  lemma {:induction false} HeadMoves(started: seq<nat>, tasks: seq<nat>)
    requires tasks != []
    ensures (started + [tasks[0]]) + tasks[1..] == started + tasks
  {
  }

  lemma {:induction false} OrderKept(s: State, a: Action)
    requires TasksOk(s) && PhaseOk(s) && Enabled(s, a)
    ensures var s' := Next(s, a);
            s'.posted == s'.started + s'.tasks + s'.dropped && (s'.dropped != [] ==> s'.tasks == [])
  {
    var s' := Next(s, a);
    if a.Take? {
      HeadMoves(s.started, s.tasks);
    } else if a.Post? {
      assert s'.posted == s.started + s.tasks + [a.task];
    }
  }

  lemma {:induction false} PostedDistinct(s: State, a: Action)
    requires TasksOk(s) && Enabled(s, a)
    ensures Distinct(Next(s, a).posted)
  {
    if !a.Post? {
      assert Next(s, a).posted == s.posted;
    }
  }

  lemma {:induction false} FilesKept(s: State, a: Action)
    requires RunningOk(s) && TasksOk(s) && Enabled(s, a)
    ensures var s' := Next(s, a);
            (forall t :: t in s'.finished ==> t in s'.started) && (forall t :: t in s'.temps ==> t in s'.started)
  {
    if a.Finish? || a.Open? {
      assert Runs(s, a.w, s.workers[a.w].task);
    }
  }

  lemma {:induction false} StepInv(s: State, a: Action)
    requires Inv(s) && Enabled(s, a)
    ensures Inv(Next(s, a))
  {
    if a.Post? {
      PostWakeups(s, a);
    } else if a.Take? || a.Wake? || a.Open? || a.Finish? {
      WorkerWakeups(s, a);
    } else if a.Wait? || a.Quit? {
      RestWakeups(s, a);
    } else {
      OwnerWakeups(s, a);
    }
    StepPhase(s, a);
    if a.Take? {
      TakeRunning(s, a);
    } else {
      OtherRunning(s, a);
    }
    StepTasks(s, a);
  }

  // ----- Runs -----

  ghost predicate StepAt(states: seq<State>, actions: seq<Action>, i: nat) {
    i + 1 < |states| == |actions| + 1 ==> Enabled(states[i], actions[i]) && states[i + 1] == Next(states[i], actions[i])
  }

  ghost predicate IsRun(states: seq<State>, actions: seq<Action>) {
    |states| == |actions| + 1 && states[0] == INITIAL && forall i: nat :: StepAt(states, actions, i)
  }

  lemma {:induction false} RunInv(states: seq<State>, actions: seq<Action>, n: nat)
    requires IsRun(states, actions) && n < |states|
    ensures Inv(states[n])
    decreases n
  {
    if n > 0 {
      RunInv(states, actions, n - 1);
      assert StepAt(states, actions, n - 1);
      StepInv(states[n - 1], actions[n - 1]);
    }
  }

  /**
   * Starting the pool makes as many threads as are asked for, but four at most. There are never
   * more, and they stay until all of them are joined.
   */
  lemma {:induction false} PoolSize(states: seq<State>, actions: seq<Action>, n: nat)
    requires IsRun(states, actions) && n < |states|
    ensures |states[n].workers| <= 4
    ensures n + 1 < |states| ==>
              match actions[n] {
                case Start(k) => |states[n + 1].workers| == (if k <= 4 then k else 4)
                case EndDestroy => states[n + 1].workers == []
                case _ => |states[n + 1].workers| == |states[n].workers|
              }
    decreases n
  {
    if n > 0 {
      PoolSize(states, actions, n - 1);
    }
    assert StepAt(states, actions, n);
  }

  /**
   * What the owner can do: post tasks, one only before the threads are started; start threads if
   * there are none; take the result of a finished task; and destroy the pool.
   */
  lemma {:induction false} OwnerServes(states: seq<State>, actions: seq<Action>, n: nat)
    requires IsRun(states, actions) && n < |states|
    ensures var s := states[n];
            && (forall t :: t !in s.posted ==>
                  ((exists notified :: Enabled(s, Post(t, notified))) <==>
                   s.phase.Serving? && (s.workers == [] ==> s.tasks == [])))
            && (forall k :: Enabled(s, Start(k)) <==> s.phase.Serving? && s.workers == [] && k >= 1)
            && (forall t :: Enabled(s, Consume(t)) <==> t in s.finished)
            && (Enabled(s, BeginDestroy) <==> s.phase.Serving? && (s.workers == [] ==> s.tasks == []))
            && (Enabled(s, DeleteTemps) <==> s.phase.Serving? || s.phase.ShuttingDown?)
  {
    RunInv(states, actions, n);
    var s := states[n];
    if NobodyWaits(s) {
      assert forall t :: s.phase.Serving? && !s.unstarted && t !in s.posted ==> Enabled(s, Post(t, None));
    } else {
      var v :| 0 <= v < |s.workers| && s.workers[v].Waiting?;
      assert forall t :: s.phase.Serving? && !s.unstarted && t !in s.posted ==> Enabled(s, Post(t, Some(v)));
    }
  }

  /**
   * Destroying the pool drops the tasks that have not started and no others; a pool without threads
   * is closed at once, and otherwise none of its threads goes on waiting.
   */
  lemma {:induction false} DestroyBegins(states: seq<State>, actions: seq<Action>, n: nat)
    requires IsRun(states, actions) && n + 1 < |states| && actions[n] == BeginDestroy
    ensures var s, s' := states[n], states[n + 1];
            && s'.tasks == [] && s'.dropped == s.tasks && s'.started == s.started
            && (if s.workers == [] then s'.phase.Closed? else s'.phase.ShuttingDown?)
            && |s'.workers| == |s.workers|
            && forall w :: 0 <= w < |s.workers| ==>
                 s'.workers[w] == if s.workers[w].Waiting? then Ready else s.workers[w]
  {
    RunInv(states, actions, n);
    assert StepAt(states, actions, n);
  }

  /** A thread takes the task that was posted first among those not started, and has no file for it yet. */
  lemma {:induction false} TakenInOrder(states: seq<State>, actions: seq<Action>, n: nat, w: nat)
    requires IsRun(states, actions) && n + 1 < |states| && actions[n] == Take(w)
    ensures |states[n].started| < |states[n].posted| && w < |states[n + 1].workers|
    ensures states[n + 1].workers[w] == Running(states[n].posted[|states[n].started|], false)
  {
    RunInv(states, actions, n);
    assert StepAt(states, actions, n);
  }

  /** What a thread can do is up to the queue and the shutdown flag alone. */
  lemma {:induction false} ThreadsServe(states: seq<State>, actions: seq<Action>, n: nat, w: nat)
    requires IsRun(states, actions) && n < |states| && w < |states[n].workers|
    ensures var s := states[n];
            match s.workers[w] {
              case Ready => Enabled(s, if s.shutdown then Quit(w) else if s.tasks != [] then Take(w) else Wait(w))
              case Waiting => Enabled(s, Wake(w))
              case Running(t, hasFile) => Enabled(s, Finish(w)) && (!hasFile ==> Enabled(s, Open(w)))
              case Exited => true
            }
  {
    RunInv(states, actions, n);
  }

  /**
   * Temporary files: one appears when a running task opens it and goes when its result is consumed
   * or all are deleted.
   */
  lemma {:induction false} TempFiles(states: seq<State>, actions: seq<Action>, n: nat, t: nat)
    requires IsRun(states, actions) && n + 1 < |states|
    ensures t in states[n + 1].temps && t !in states[n].temps <==>
            t !in states[n].temps && exists w :: Runs(states[n], w, t) && actions[n] == Open(w)
    ensures t in states[n].temps && t !in states[n + 1].temps <==>
            t in states[n].temps && (actions[n] == Consume(t) || actions[n].DeleteTemps? || actions[n].EndDestroy?)
  {
    RunInv(states, actions, n);
    assert StepAt(states, actions, n);
    if t in states[n + 1].temps && t !in states[n].temps {
      assert Runs(states[n], actions[n].w, t);
    }
  }

  /**
   * No wakeup is lost: while a task is queued and the pool is not shut down, some thread is
   * neither waiting nor gone; and either all threads are awake or there is one on its way to the
   * queue for every queued task.
   */
  lemma {:induction false} NoLostWakeup(states: seq<State>, actions: seq<Action>, n: nat)
    requires IsRun(states, actions) && n < |states|
    requires states[n].workers != [] && !states[n].shutdown && states[n].tasks != []
    ensures var s := states[n];
            && (exists w :: 0 <= w < |s.workers| && !s.workers[w].Waiting? && !s.workers[w].Exited?)
            && (NobodyWaits(s) || |ReadyWorkers(s)| >= |s.tasks|)
  {
    RunInv(states, actions, n);
    var s := states[n];
    if NobodyWaits(s) {
      assert !s.workers[0].Waiting? && !s.workers[0].Exited?;
    } else {
      assert ReadyWorkers(s) != {};
      var w :| w in ReadyWorkers(s);
      assert s.workers[w].Ready?;
    }
  }

  /**
   * Every posted task is in exactly one place: waiting in the queue, running on one thread,
   * finished, or dropped by the shutdown. Tasks start in the order they were posted, and once.
   */
  lemma {:induction false} TasksAccountedFor(states: seq<State>, actions: seq<Action>, n: nat, t: nat)
    requires IsRun(states, actions) && n < |states|
    ensures var s := states[n];
            && Distinct(s.posted) && s.started <= s.posted
            && (t in s.posted <==> t in s.tasks || IsRunning(s, t) || t in s.finished || t in s.dropped)
            && !(t in s.tasks && (IsRunning(s, t) || t in s.finished || t in s.dropped))
            && !(IsRunning(s, t) && (t in s.finished || t in s.dropped))
            && !(t in s.finished && t in s.dropped)
            && (forall v, w :: Runs(s, v, t) && Runs(s, w, t) ==> v == w)
  {
    RunInv(states, actions, n);
    var s := states[n];
    SplitDistinct(s.posted, s.started, s.tasks, s.dropped, t);
  }

  lemma {:induction false} SplitDistinct(all: seq<nat>, a: seq<nat>, b: seq<nat>, c: seq<nat>, t: nat)
    requires Distinct(all) && all == a + b + c
    ensures a <= all
    ensures t in all <==> t in a || t in b || t in c
    ensures !(t in a && t in b) && !(t in a && t in c) && !(t in b && t in c)
  {
    assert forall i :: 0 <= i < |a| ==> all[i] == a[i];
    assert forall i :: 0 <= i < |b| ==> all[|a| + i] == b[i];
    assert forall i :: 0 <= i < |c| ==> all[|a| + |b| + i] == c[i];
  }

  /** Once the destructor has returned, nothing is queued or running and no temporary file is left. */
  lemma {:induction false} ClosedPoolIsEmpty(states: seq<State>, actions: seq<Action>, n: nat, t: nat)
    requires IsRun(states, actions) && n < |states| && states[n].phase.Closed?
    ensures var s := states[n];
            && s.tasks == [] && s.workers == [] && s.temps == {}
            && (t in s.posted ==> t in s.finished || t in s.dropped)
  {
    RunInv(states, actions, n);
    TasksAccountedFor(states, actions, n, t);
  }

  // ----- Shutdown completes -----

  /** How many steps a thread may still take once the pool is shutting down. */
  function StepsOf(x: Worker): nat {
    match x
    case Running(_, hasFile) => if hasFile then 2 else 3
    case Waiting => 2
    case Ready => 1
    case Exited => 0
  }

  function StepsLeft(ws: seq<Worker>): nat {
    if ws == [] then 0 else StepsOf(ws[0]) + StepsLeft(ws[1..])
  }

  lemma {:induction false} StepsUpdate(ws: seq<Worker>, w: nat, x: Worker)
    requires w < |ws|
    ensures StepsLeft(ws[w := x]) == StepsLeft(ws) - StepsOf(ws[w]) + StepsOf(x)
  {
    if w == 0 {
      assert ws[w := x][1..] == ws[1..];
    } else {
      assert ws[w := x][1..] == ws[1..][w - 1 := x];
      StepsUpdate(ws[1..], w - 1, x);
    }
  }

  predicate OfWorker(a: Action, w: nat) {
    match a
    case Take(x) => x == w
    case Wait(x) => x == w
    case Wake(x) => x == w
    case Open(x) => x == w
    case Finish(x) => x == w
    case Quit(x) => x == w
    case _ => false
  }

  /**
   * Every join completes: during shutdown a thread that has not exited always has a step to take,
   * each step of a thread uses up one of a fixed number, and no other step gives any back.
   */
  lemma {:induction false} ShutdownCompletes(states: seq<State>, actions: seq<Action>, n: nat)
    requires IsRun(states, actions) && n < |states| && states[n].phase.ShuttingDown?
    ensures forall w :: 0 <= w < |states[n].workers| && !states[n].workers[w].Exited? ==>
              Enabled(states[n], if states[n].workers[w].Running? then Finish(w) else Quit(w))
    ensures (forall w :: 0 <= w < |states[n].workers| ==> states[n].workers[w].Exited?) ==>
              Enabled(states[n], EndDestroy)
    ensures n + 1 < |states| && states[n + 1].phase.ShuttingDown? ==>
              if exists w: nat :: OfWorker(actions[n], w)
              then StepsLeft(states[n + 1].workers) < StepsLeft(states[n].workers)
              else states[n + 1].workers == states[n].workers
  {
    RunInv(states, actions, n);
    if n + 1 < |states| && states[n + 1].phase.ShuttingDown? {
      assert StepAt(states, actions, n);
      ShutdownStep(states[n], actions[n]);
    }
  }

  function WorkerSteps(actions: seq<Action>): nat {
    if actions == [] then 0
    else (if WorkerStep(actions[|actions| - 1]) then 1 else 0) + WorkerSteps(actions[..|actions| - 1])
  }

  predicate WorkerStep(a: Action) {
    a.Take? || a.Wait? || a.Wake? || a.Open? || a.Finish? || a.Quit?
  }

  /**
   * From any state of the shutdown on, and as long as it lasts, the threads together take at most
   * as many steps as are left there.
   */
  lemma {:induction false} ShutdownIsBounded(states: seq<State>, actions: seq<Action>, n: nat, m: nat)
    requires IsRun(states, actions) && n <= m < |states|
    requires forall k :: n <= k <= m ==> states[k].phase.ShuttingDown?
    ensures WorkerSteps(actions[n..m]) + StepsLeft(states[m].workers) <= StepsLeft(states[n].workers)
    decreases m - n
  {
    if n < m {
      ShutdownIsBounded(states, actions, n, m - 1);
      ShutdownCompletes(states, actions, m - 1);
      var a := actions[m - 1];
      assert actions[n..m][..m - n - 1] == actions[n..m - 1] && actions[n..m][m - n - 1] == a;
      if WorkerStep(a) {
        assert OfWorker(a, a.w);
      }
    }
  }

  lemma {:induction false} ShutdownStep(s: State, a: Action)
    requires PhaseOk(s) && s.phase.ShuttingDown? && Enabled(s, a) && Next(s, a).phase.ShuttingDown?
    ensures if exists w: nat :: OfWorker(a, w) then StepsLeft(Next(s, a).workers) < StepsLeft(s.workers)
            else Next(s, a).workers == s.workers
  {
    match a
    case Open(w) =>
      StepsUpdate(s.workers, w, s.workers[w].(hasFile := true));
      assert OfWorker(a, w);
    case Finish(w) =>
      StepsUpdate(s.workers, w, Ready);
      assert OfWorker(a, w);
    case Quit(w) =>
      StepsUpdate(s.workers, w, Exited);
      assert OfWorker(a, w);
    case _ =>
  }
}
