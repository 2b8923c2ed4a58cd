/** dumpstate's progress estimate and the percentages it reports. */
module ProgressReports {
  import opened Common

  const DEFAULT_MAX := 5000
  const STATS_MAX_N_RUNS := 1000
  const STATS_MAX_AVERAGE := 100000

  /** What has been done, out of an estimated maximum that grows when it is overrun. */
  datatype Meter = Meter(progress: int, max: int)

  predicate MeterOk(m: Meter) {
    0 <= m.progress <= m.max && m.max > 0
  }

  /** The growth factor is 11/10; a negative delta is ignored. */
  function Advanced(m: Meter, delta: int): Meter {
    if delta < 0 then m
    else if m.progress + delta > m.max then Meter(m.progress + delta, (m.progress + delta) * 11 / 10)
    else Meter(m.progress + delta, m.max)
  }

  lemma {:induction false} AdvancedOk(m: Meter, delta: int)
    requires MeterOk(m)
    ensures var m' := Advanced(m, delta);
            && MeterOk(m') && m'.max >= m.max && m'.progress == m.progress + (if delta > 0 then delta else 0)
            && (m'.max != m.max <==> m.progress + delta > m.max)
            && (m'.max != m.max ==> 10 * m'.max <= 11 * m'.progress < 10 * m'.max + 10)
  {
    var p := m.progress + delta;
    if p > m.max {
      assert p * 11 / 10 >= p;
    }
  }

  function Percent(m: Meter): int
    requires MeterOk(m)
  {
    100 * m.progress / m.max
  }

  /** The percentage done, rounded down. */
  lemma {:induction false} PercentIsShare(m: Meter)
    requires MeterOk(m)
    ensures Percent(m) * m.max <= 100 * m.progress < (Percent(m) + 1) * m.max
  {
    var q := Percent(m);
    assert 100 * m.progress == q * m.max + 100 * m.progress % m.max;
    assert (q + 1) * m.max == q * m.max + m.max;
  }

  lemma {:induction false} PercentInRange(m: Meter)
    requires MeterOk(m)
    ensures 0 <= Percent(m) <= 100
  {
    var q := Percent(m);
    assert q * m.max <= 100 * m.progress <= 100 * m.max;
  }

  /** The meter, the percentage reported last and all the percentages reported so far. */
  datatype Log = Log(meter: Meter, last: int, reports: seq<int>)

  /** A percentage is reported if it is to be and is more than the last one. */
  function Logged(l: Log, meter: Meter, percent: int, notify: bool): Log {
    if !notify || (l.last > 0 && percent <= l.last) then l.(meter := meter)
    else Log(meter, percent, l.reports + [percent])
  }

  function Updated(l: Log, delta: int, notify: bool): Log
    requires MeterOk(l.meter)
  {
    AdvancedOk(l.meter, delta);
    var meter := Advanced(l.meter, delta);
    Logged(l, meter, Percent(meter), notify)
  }

  function Positives(reports: seq<int>): nat {
    if reports == [] then 0
    else Positives(reports[..|reports| - 1]) + if reports[|reports| - 1] > 0 then 1 else 0
  }

  ghost predicate Rising(reports: seq<int>) {
    forall i, j :: 0 <= i < j < |reports| ==> reports[i] < reports[j] || reports[i] == reports[j] == 0
  }

  ghost predicate LogOk(l: Log) {
    && MeterOk(l.meter)
    && l.last == (if l.reports == [] then 0 else l.reports[|l.reports| - 1])
    && (forall i :: 0 <= i < |l.reports| ==> 0 <= l.reports[i] <= l.last)
    && l.last <= 100
    && Rising(l.reports)
    && Positives(l.reports) <= l.last
  }

  lemma {:induction false} UpdatedOk(l: Log, delta: int, notify: bool)
    requires LogOk(l)
    ensures LogOk(Updated(l, delta, notify)) && l.reports <= Updated(l, delta, notify).reports
    ensures l.meter.max <= Updated(l, delta, notify).meter.max
  {
    AdvancedOk(l.meter, delta);
    PercentInRange(Advanced(l.meter, delta));
    LoggedOk(l, Advanced(l.meter, delta), Percent(Advanced(l.meter, delta)), notify);
  }

  lemma {:induction false} LoggedOk(l: Log, meter: Meter, percent: int, notify: bool)
    requires LogOk(l) && MeterOk(meter) && 0 <= percent <= 100
    ensures LogOk(Logged(l, meter, percent, notify)) && l.reports <= Logged(l, meter, percent, notify).reports
  {
    var l' := Logged(l, meter, percent, notify);
    if |l'.reports| > |l.reports| {
      assert l'.reports[..|l.reports|] == l.reports;
      if l.last > 0 {
        assert l'.last > l.last;
      }
      assert Positives(l'.reports) == Positives(l.reports) + if l'.last > 0 then 1 else 0;
    }
  }

  class Progress {
    var initialMax: int
    var progress: int
    var max: int

    function View(): Meter
      reads this
    {
      Meter(progress, max)
    }

    /** `stats` are the runs and the average read from the file of earlier runs, if it could be read. */
    constructor (stats: Option<(int, int)>)
      ensures MeterOk(View()) && progress == 0 && max == initialMax
      ensures max == if stats.Some? && 0 < stats.value.0 <= 1000 && 0 < stats.value.1 <= 100000
                     then stats.value.1 else 5000
    {
      progress := 0;
      if stats.None? {
        initialMax, max := DEFAULT_MAX, DEFAULT_MAX;
      } else {
        var (runs, average) := stats.value;
        var initial := average;
        if runs <= 0 || average <= 0 || runs > STATS_MAX_N_RUNS || average > STATS_MAX_AVERAGE {
          initial := DEFAULT_MAX;
        }
        initialMax, max := initial, initial;
      }
    }

    method Inc(delta: int) returns (changed: bool)
      requires MeterOk(View())
      modifies this
      ensures View() == Advanced(old(View()), delta) && MeterOk(View()) && initialMax == old(initialMax)
      ensures changed == (max > old(max)) && max >= old(max)
    {
      AdvancedOk(View(), delta);
      changed := false;
      if delta >= 0 {
        progress := progress + delta;
        if progress > max {
          max := progress * 11 / 10;
          changed := true;
        }
      }
    }
  }

  class Reporter {
    var progress: Progress?
    var notify: bool
    var last: int
    var reports: seq<int>

    function View(): Log
      requires progress != null
      reads this, progress
    {
      Log(progress.View(), last, reports)
    }

    constructor (progress: Progress?, notify: bool)
      ensures this.progress == progress && this.notify == notify && last == 0 && reports == []
    {
      this.progress, this.notify, last, reports := progress, notify, 0, [];
    }

    method UpdateProgress(delta: int)
      requires progress != null ==> LogOk(View())
      modifies this`last, this`reports, progress
      ensures progress != null ==> LogOk(View()) && View() == Updated(old(View()), delta, notify)
      ensures progress == null ==> last == old(last) && reports == old(reports)
    {
      if progress == null {
        return;
      }
      UpdatedOk(View(), delta, notify);
      var _ := progress.Inc(delta);
      if !notify {
        return;
      }
      var percent := 100 * progress.progress / progress.max;
      if last > 0 && percent <= last {
        return;
      }
      last := percent;
      reports := reports + [percent];
    }
  }

  // ----- Any sequence of updates -----

  function AllUpdated(l: Log, deltas: seq<int>, notify: bool): (r: Log)
    requires LogOk(l)
    ensures LogOk(r)
  {
    if deltas == [] then l
    else
      var before := AllUpdated(l, deltas[..|deltas| - 1], notify);
      UpdatedOk(before, deltas[|deltas| - 1], notify);
      Updated(before, deltas[|deltas| - 1], notify)
  }

  function Fresh(max: int): Log {
    Log(Meter(0, max), 0, [])
  }

  function Work(deltas: seq<int>): int {
    if deltas == [] then 0
    else Work(deltas[..|deltas| - 1]) + if deltas[|deltas| - 1] > 0 then deltas[|deltas| - 1] else 0
  }

  /**
   * After any updates: the progress is the work done, within a maximum that never shrank; the
   * reports are percentages that never fall, and at most a hundred of them are positive.
   */
  lemma {:induction false} ReportsRise(max: int, deltas: seq<int>, notify: bool)
    requires max > 0
    ensures LogOk(Fresh(max))
    ensures var l := AllUpdated(Fresh(max), deltas, notify);
            && l.meter.progress == Work(deltas) <= l.meter.max && max <= l.meter.max
            && (forall i :: 0 <= i < |l.reports| ==> 0 <= l.reports[i] <= 100)
            && (forall i, j :: 0 <= i < j < |l.reports| ==> l.reports[i] <= l.reports[j])
            && Positives(l.reports) <= 100
            && (!notify ==> l.reports == [])
    decreases |deltas|
  {
    if deltas != [] {
      var rest := deltas[..|deltas| - 1];
      ReportsRise(max, rest, notify);
      var before := AllUpdated(Fresh(max), rest, notify);
      AdvancedOk(before.meter, deltas[|deltas| - 1]);
    }
  }

  ghost predicate AllBelow(reports: seq<int>, percent: int) {
    forall i :: 0 <= i < |reports| ==> reports[i] < percent || reports[i] == 0
  }

  /** The last report speaks for all of them. */
  lemma {:induction false} LastIsLargest(l: Log, percent: int)
    requires LogOk(l) && percent >= 0
    ensures l.last > 0 && percent <= l.last <==> !AllBelow(l.reports, percent)
  {
    if l.last > 0 {
      assert l.reports[|l.reports| - 1] == l.last;
    }
  }

  /**
   * Exactly when an update reports, and what: with notification on, the percentage then done, if
   * every report before was smaller or zero.
   */
  lemma {:induction false} ReportsAreDue(max: int, deltas: seq<int>, delta: int, notify: bool)
    requires max > 0
    ensures LogOk(Fresh(max))
    ensures var l, l' := AllUpdated(Fresh(max), deltas, notify), AllUpdated(Fresh(max), deltas + [delta], notify);
            l'.reports == if notify && AllBelow(l.reports, Percent(l'.meter)) then l.reports + [Percent(l'.meter)]
                          else l.reports
  {
    var l := AllUpdated(Fresh(max), deltas, notify);
    assert (deltas + [delta])[..|deltas|] == deltas;
    AdvancedOk(l.meter, delta);
    PercentInRange(Advanced(l.meter, delta));
    LastIsLargest(l, Percent(Advanced(l.meter, delta)));
  }

  /** Reports only ever get added, and the maximum only grows. */
  lemma {:induction false} ReportsStay(l: Log, deltas: seq<int>, n: nat, notify: bool)
    requires LogOk(l) && n <= |deltas|
    ensures AllUpdated(l, deltas[..n], notify).reports <= AllUpdated(l, deltas, notify).reports
    ensures AllUpdated(l, deltas[..n], notify).meter.max <= AllUpdated(l, deltas, notify).meter.max
    decreases |deltas|
  {
    if n == |deltas| {
      assert deltas[..n] == deltas;
    } else {
      var rest, delta := deltas[..|deltas| - 1], deltas[|deltas| - 1];
      ReportsStay(l, rest, n, notify);
      assert rest[..n] == deltas[..n];
      var before := AllUpdated(l, rest, notify);
      UpdatedOk(before, delta, notify);
      assert AllUpdated(l, deltas, notify) == Updated(before, delta, notify);
    }
  }

  /** With notification on, the last report is the current percentage, or more where the maximum has grown since. */
  lemma {:induction false} LastReportCovers(max: int, deltas: seq<int>)
    requires max > 0 && deltas != []
    ensures LogOk(Fresh(max))
    ensures var l := AllUpdated(Fresh(max), deltas, true);
            l.reports != [] && Percent(l.meter) <= l.last
  {
    var rest := deltas[..|deltas| - 1];
    var before := AllUpdated(Fresh(max), rest, true);
    AdvancedOk(before.meter, deltas[|deltas| - 1]);
    if before.last > 0 {
      assert before.reports != [];
    }
  }
}
