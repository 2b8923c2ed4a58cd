/**
 * When the eviction loop reads free space again, and that it stops on time: what the estimate of
 * the bytes still needed is for.
 */
module TargetStops {
  import opened Bounce

  /** At this loop head a reading of free space has just been taken. */
  predicate JustRead(run: seq<State>, m: nat) {
    m < |run| && (m == 0 || run[m - 1].readings < run[m].readings)
  }

  /** The last reading before loop head n was taken just before loop head m. */
  predicate LastRead(run: seq<State>, m: nat, n: nat) {
    m <= n < |run| && JustRead(run, m) && run[m].readings == run[n].readings
  }

  /** The free space to be expected at loop head n: the last reading and what was purged since. */
  function Expected(c: Config, run: seq<State>, m: nat, n: nat): int
    requires m < |run| && n < |run| && |run[m].purges| <= |run[n].purges| && 1 <= run[m].readings
  {
    c.disk(run[m].readings - 1) + PurgedBytes(run[n].purges[|run[m].purges|..])
  }

  /** A step takes at most one reading and adds at most one purge. */
  lemma {:induction false} StepReads(c: Config, run: seq<State>, n: nat)
    requires IsRun(c, run) && n + 1 < |run|
    ensures run[n].readings <= run[n + 1].readings <= run[n].readings + 1
    ensures run[n].purges <= run[n + 1].purges && |run[n + 1].purges| <= |run[n].purges| + 1
    ensures if run[n].readings < run[n + 1].readings then run[n + 1].mark == |run[n + 1].purges|
            else run[n + 1].mark == run[n].mark
  {
    assert StepAt(c, run, n);
  }

  lemma {:induction false} ReadingsGrow(c: Config, run: seq<State>, m: nat, n: nat)
    requires IsRun(c, run) && m <= n < |run|
    ensures run[m].readings <= run[n].readings && run[m].purges <= run[n].purges
    decreases n
  {
    if m < n {
      ReadingsGrow(c, run, m, n - 1);
      StepReads(c, run, n - 1);
    }
  }

  /** The mark is the number of purges made before the last reading. */
  lemma {:induction false} MarkIsLastRead(c: Config, run: seq<State>, m: nat, n: nat)
    requires IsRun(c, run) && LastRead(run, m, n)
    ensures run[n].mark == |run[m].purges| && run[m].purges <= run[n].purges
    decreases n
  {
    ReadingsGrow(c, run, m, n);
    if n > 0 {
      StepReads(c, run, n - 1);
    }
    if m < n {
      ReadingsGrow(c, run, m, n - 1);
      MarkIsLastRead(c, run, m, n - 1);
    }
  }

  /** What is needed is what the expected free space is short of the target. */
  lemma {:induction false} NeededIsShortfall(c: Config, run: seq<State>, m: nat, n: nat)
    requires IsRun(c, run) && LastRead(run, m, n)
    ensures |run[m].purges| <= |run[n].purges| && 1 <= run[m].readings
    ensures run[n].needed == c.target - Expected(c, run, m, n)
  {
    MarkIsLastRead(c, run, m, n);
    RunInv(c, run, n);
  }

  lemma {:induction false} StepReadsIf(c: Config, s: State, s': State)
    requires Step(c, s, s')
    ensures |s'.purges| > |s.purges| ==> s'.purges == s.purges + [s'.purges[|s.purges|]]
    ensures s'.readings > s.readings <==>
            !c.defyTarget && |s'.purges| > |s.purges| && s.needed <= s'.purges[|s.purges|].size
  {
  }

  /**
   * A turn reads free space if and only if it purges and the free space to be expected then, this
   * purge included, reaches a target that is to be kept.
   */
  lemma {:induction false} ReadsWhenEnough(c: Config, run: seq<State>, m: nat, n: nat)
    requires IsRun(c, run) && LastRead(run, m, n) && n + 1 < |run|
    ensures |run[m].purges| <= |run[n + 1].purges| && 1 <= run[m].readings
    ensures run[n + 1].readings > run[n].readings <==>
            && !c.defyTarget && |run[n + 1].purges| > |run[n].purges|
            && Expected(c, run, m, n + 1) >= c.target
  {
    NeededIsShortfall(c, run, m, n);
    ReadingsGrow(c, run, m, n + 1);
    var s, s', k := run[n], run[n + 1], |run[m].purges|;
    assert StepAt(c, run, n);
    StepReadsIf(c, s, s');
    if |s'.purges| > |s.purges| {
      var p := s'.purges[|s.purges|];
      assert s'.purges[k..] == s.purges[k..] + [p];
      BytesSnoc(s.purges[k..], p);
    }
  }

  /** The target is to be kept and was not met when the loop was entered. */
  predicate Pursues(c: Config) {
    !c.defyTarget && c.disk(0) < c.target
  }

  /** At every loop head something is still needed, or the reading just taken says that the loop is done. */
  lemma {:induction false} NeedsMore(c: Config, run: seq<State>, n: nat)
    requires IsRun(c, run) && n < |run| && Pursues(c)
    ensures run[n].needed > 0 || TargetMet(c, run[n])
    decreases n
  {
    if n > 0 {
      NeedsMore(c, run, n - 1);
      assert StepAt(c, run, n - 1);
    }
  }

  /**
   * Nothing is purged while the expected free space reaches the target: the turn after which it does
   * is the one that reads free space again.
   */
  lemma {:induction false} PurgesAreNeeded(c: Config, run: seq<State>, m: nat, n: nat)
    requires IsRun(c, run) && LastRead(run, m, n) && n + 1 < |run| && Pursues(c)
    ensures |run[m].purges| <= |run[n].purges| <= |run[n + 1].purges| && 1 <= run[m].readings
    ensures Expected(c, run, m, n) < c.target
    ensures run[n + 1].readings > run[n].readings <==> Expected(c, run, m, n + 1) >= c.target
  {
    NeedsMore(c, run, n);
    assert StepAt(c, run, n);
    NeededIsShortfall(c, run, m, n);
    StepReads(c, run, n);
    ReadsWhenEnough(c, run, m, n);
  }

  /** The loop ends with the first reading that meets the target. */
  lemma {:induction false} MetIsLast(c: Config, run: seq<State>, n: nat)
    requires IsRun(c, run) && 0 < n && JustRead(run, n)
    ensures 1 <= run[n].readings
    ensures c.disk(run[n].readings - 1) >= c.target ==> n + 1 == |run|
  {
    NeededIsShortfall(c, run, n, n);
    assert run[n].purges[|run[n].purges|..] == [];
    assert StepAt(c, run, n - 1);
    if n + 1 < |run| {
      assert StepAt(c, run, n);
    }
  }
}
