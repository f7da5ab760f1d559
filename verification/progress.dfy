/** The joined participant/measurement table `get_progress_data` returns, and
    the per-participant computations `CreatineAnalysis` runs over it: the
    recovery averages of `analyze_fatigue_and_recovery` and the per-metric
    rate rows of `analyze_progression_rates` (analysis.py).

    Missing values (SQL NULL, pandas NaN) are `None`. A measurement date is
    its day number; ISO `YYYY-MM-DD` text orders the same way. */
module ProgressData {

  import opened Wrappers
  import Seqs

  /** One row of the progress query (database.py:146-171). */
  datatype ProgressRow = ProgressRow(
    participantId: int,
    trainingStatus: Option<string>,
    group: Option<string>,
    date: int,
    strength: Option<real>,
    leanMass: Option<real>,
    performance: Option<real>,
    fatigue: Option<real>)

  /** The three outcome metrics the analyses iterate over, in their order. */
  datatype Metric = Strength | LeanMass | Performance

  const Metrics: seq<Metric> := [Strength, LeanMass, Performance]

  function MetricName(m: Metric): string {
    match m
    case Strength => "strength_1rm_kg"
    case LeanMass => "lean_mass_kg"
    case Performance => "performance_score"
  }

  function Value(r: ProgressRow, m: Metric): Option<real> {
    match m
    case Strength => r.strength
    case LeanMass => r.leanMass
    case Performance => r.performance
  }

  /** `df[metric]` */
  function Column(rows: seq<ProgressRow>, m: Metric): (c: seq<Option<real>>)
    ensures |c| == |rows|
    ensures forall i :: 0 <= i < |rows| ==> c[i] == Value(rows[i], m)
  {
    seq(|rows|, i requires 0 <= i < |rows| => Value(rows[i], m))
  }

  function FatigueColumn(rows: seq<ProgressRow>): (c: seq<Option<real>>)
    ensures |c| == |rows|
    ensures forall i :: 0 <= i < |rows| ==> c[i] == rows[i].fatigue
  {
    seq(|rows|, i requires 0 <= i < |rows| => rows[i].fatigue)
  }

  function Ids(rows: seq<ProgressRow>): (ids: seq<int>)
    ensures |ids| == |rows|
    ensures forall i :: 0 <= i < |rows| ==> ids[i] == rows[i].participantId
  {
    seq(|rows|, i requires 0 <= i < |rows| => rows[i].participantId)
  }

  function Dates(rows: seq<ProgressRow>): (ds: seq<int>)
    ensures |ds| == |rows|
    ensures forall i :: 0 <= i < |rows| ==> ds[i] == rows[i].date
  {
    seq(|rows|, i requires 0 <= i < |rows| => rows[i].date)
  }

  /** `df[df['participant_id'] == pid]`: every row of the participant and
      no other, in table order. */
  function RowsOf(rows: seq<ProgressRow>, pid: int): (r: seq<ProgressRow>)
    ensures forall i :: 0 <= i < |r| ==> r[i].participantId == pid
  {
    Seqs.Filter(rows, (row: ProgressRow) => row.participantId == pid)
  }

  /** Filtering by participant keeps every row of that participant and no
      other, in table order. */
  lemma RowsOfExact(rows: seq<ProgressRow>, pid: int)
    ensures forall row :: row in RowsOf(rows, pid) <==> row in rows && row.participantId == pid
    ensures Seqs.IsSubseq(RowsOf(rows, pid), rows)
  {
    var p := (row: ProgressRow) => row.participantId == pid;
    Seqs.FilterMembers(rows, p);
    Seqs.FilterIsSubseq(rows, p);
  }

  // ---------------------------------------------------------------------
  // sort_values('measurement_date')

  predicate SortedByDate(rows: seq<ProgressRow>) {
    forall i, j :: 0 <= i < j < |rows| ==> rows[i].date <= rows[j].date
  }

  /** Places `x` before the first row dated no earlier than it. */
  function InsertByDate(x: ProgressRow, rows: seq<ProgressRow>): (r: seq<ProgressRow>)
    requires SortedByDate(rows)
    ensures SortedByDate(r)
    ensures multiset(r) == multiset(rows) + multiset{x}
    ensures |r| == |rows| + 1 && (r[0] == x || (rows != [] && r[0] == rows[0]))
  {
    if rows == [] || x.date <= rows[0].date then
      SortedCons(x, rows);
      [x] + rows
    else
      SortedTail(rows);
      var rest := InsertByDate(x, rows[1..]);
      InsertAfterHead(x, rows, rest);
      [rows[0]] + rest
  }

  /** The insertion step past the first row. */
  lemma InsertAfterHead(x: ProgressRow, rows: seq<ProgressRow>, rest: seq<ProgressRow>)
    requires rows != [] && rows[0].date < x.date
    requires SortedByDate(rows) && SortedByDate(rest)
    requires multiset(rest) == multiset(rows[1..]) + multiset{x}
    requires |rest| == |rows| && (rest[0] == x || (|rows| > 1 && rest[0] == rows[1]))
    ensures SortedByDate([rows[0]] + rest)
    ensures multiset([rows[0]] + rest) == multiset(rows) + multiset{x}
  {
    assert rows == [rows[0]] + rows[1..];
    SortedCons(rows[0], rest);
  }

  lemma SortedCons(a: ProgressRow, rows: seq<ProgressRow>)
    requires SortedByDate(rows) && (rows == [] || a.date <= rows[0].date)
    ensures SortedByDate([a] + rows)
  {
  }

  lemma SortedTail(rows: seq<ProgressRow>)
    requires SortedByDate(rows) && rows != []
    ensures SortedByDate(rows[1..]) && forall i :: 1 <= i < |rows| ==> rows[0].date <= rows[i].date
  {
  }

  /** `sort_values('measurement_date')`: the same rows, ordered by date.
      Which order rows of equal date take is not stated; see README. */
  function SortByDate(rows: seq<ProgressRow>): (r: seq<ProgressRow>)
    ensures SortedByDate(r)
    ensures multiset(r) == multiset(rows)
    ensures |r| == |rows|
  {
    if rows == [] then []
    else
      assert rows == [rows[0]] + rows[1..];
      InsertByDate(rows[0], SortByDate(rows[1..]))
  }

  // ---------------------------------------------------------------------
  // Series.diff().mean()

  /** `s.diff()`: each value minus its predecessor; the first entry, and any
      entry next to a missing value, is missing. */
  function Diff(xs: seq<Option<real>>): (ds: seq<Option<real>>)
    ensures |ds| == |xs|
  {
    seq(|xs|, i requires 0 <= i < |xs| =>
      if i > 0 && xs[i].Some? && xs[i - 1].Some? then Some(xs[i].value - xs[i - 1].value) else None)
  }

  /** The sum and the number of the values that are present. */
  function SumPresent(xs: seq<Option<real>>): real {
    if xs == [] then 0.0
    else SumPresent(xs[..|xs| - 1]) + (if xs[|xs| - 1].Some? then xs[|xs| - 1].value else 0.0)
  }

  function CountPresent(xs: seq<Option<real>>): nat {
    if xs == [] then 0 else CountPresent(xs[..|xs| - 1]) + (if xs[|xs| - 1].Some? then 1 else 0)
  }

  /** `s.mean()`: the average of the present values, missing when there are none. */
  function MeanSkipNa(xs: seq<Option<real>>): (m: Option<real>)
    ensures m.Some? <==> exists i :: 0 <= i < |xs| && xs[i].Some?
  {
    PresentCounted(xs);
    if CountPresent(xs) == 0 then None else Some(SumPresent(xs) / (CountPresent(xs) as real))
  }

  lemma {:induction false} PresentCounted(xs: seq<Option<real>>)
    ensures CountPresent(xs) > 0 <==> exists i :: 0 <= i < |xs| && xs[i].Some?
  {
    if xs != [] {
      var init := xs[..|xs| - 1];
      PresentCounted(init);
      if exists i :: 0 <= i < |init| && init[i].Some? {
        var i :| 0 <= i < |init| && init[i].Some?;
        assert xs[i].Some?;
      }
    }
  }

  predicate NoneMissing(xs: seq<Option<real>>) {
    forall i :: 0 <= i < |xs| ==> xs[i].Some?
  }

  lemma DiffPrefix(xs: seq<Option<real>>)
    requires |xs| >= 1
    ensures Diff(xs[..|xs| - 1]) == Diff(xs)[..|xs| - 1]
  {
  }

  /** With nothing missing, the differences telescope: their sum is the last
      value minus the first, and there is one fewer of them than values. */
  lemma {:induction false} DiffTelescopes(xs: seq<Option<real>>)
    requires |xs| >= 1 && NoneMissing(xs)
    ensures SumPresent(Diff(xs)) == xs[|xs| - 1].value - xs[0].value
    ensures CountPresent(Diff(xs)) == |xs| - 1
  {
    var ds := Diff(xs);
    if |xs| == 1 {
      assert ds[..0] == [];
    } else {
      var init := xs[..|xs| - 1];
      DiffTelescopes(init);
      DiffPrefix(xs);
      assert ds[..|ds| - 1] == Diff(init);
      assert ds[|ds| - 1] == Some(xs[|xs| - 1].value - xs[|xs| - 2].value);
    }
  }

  /** The average consecutive change of a complete series of `n >= 2` values is
      `(last - first) / (n - 1)`. */
  lemma AverageChangeTelescopes(xs: seq<Option<real>>)
    requires |xs| >= 2 && NoneMissing(xs)
    ensures MeanSkipNa(Diff(xs)) == Some((xs[|xs| - 1].value - xs[0].value) / ((|xs| - 1) as real))
  {
    DiffTelescopes(xs);
  }

  // ---------------------------------------------------------------------
  // analyze_fatigue_and_recovery, analysis.py:192-205

  datatype RecoveryRow = RecoveryRow(
    participantId: int,
    group: Option<string>,
    avgFatigueRecovery: Option<real>,
    avgPerformanceRecovery: Option<real>)

  /** The recovery row of one participant whose rows, sorted by date, are
      `sorted`. */
  function RecoveryOf(pid: int, sorted: seq<ProgressRow>): RecoveryRow
    requires |sorted| > 1
  {
    RecoveryRow(pid, sorted[0].group,
                MeanSkipNa(Diff(FatigueColumn(sorted))),
                MeanSkipNa(Diff(Column(sorted, Performance))))
  }

  /** Participants with more than one row, in order of first appearance. */
  predicate Repeated(rows: seq<ProgressRow>, pid: int) {
    |RowsOf(rows, pid)| > 1
  }

  function RepeatedIn(rows: seq<ProgressRow>): int -> bool {
    (pid: int) => Repeated(rows, pid)
  }

  /** `p` is the recovery row of its participant, who has several rows. */
  predicate RecoveredFrom(rows: seq<ProgressRow>, p: RecoveryRow) {
    var pid := p.participantId;
    Repeated(rows, pid) && p == RecoveryOf(pid, SortByDate(RowsOf(rows, pid)))
  }

  /** One row per participant that has more than one measurement, in order of
      first appearance, each computed from that participant's rows sorted by
      date. */
  function RecoveryPatterns(rows: seq<ProgressRow>): (patterns: seq<RecoveryRow>)
    ensures Gathered(rows, Seqs.Unique(Ids(rows)), patterns)
    ensures forall i :: 0 <= i < |rows| && Repeated(rows, rows[i].participantId) ==>
              rows[i].participantId in PatternIds(patterns)
    ensures Seqs.NoDuplicates(PatternIds(patterns))
  {
    var patterns := Gather(rows, Seqs.Unique(Ids(rows)));
    RepeatedListedOnce(rows, PatternIds(patterns));
    patterns
  }

  /** The recovery rows of the repeated participants among `pids`, in order. */
  function Gather(rows: seq<ProgressRow>, pids: seq<int>): (patterns: seq<RecoveryRow>)
    ensures Gathered(rows, pids, patterns)
  {
    if pids == [] then []
    else
      var init, pid := pids[..|pids| - 1], pids[|pids| - 1];
      var before := Gather(rows, init);
      var mine := SortByDate(RowsOf(rows, pid));
      var after := if |mine| > 1 then before + [RecoveryOf(pid, mine)] else before;
      GatherStep(rows, pids, before, after);
      after
  }

  /** The loop's invariant: `patterns` holds, in order, the recovery rows of
      the repeated participants among `pids`. */
  predicate Gathered(rows: seq<ProgressRow>, pids: seq<int>, patterns: seq<RecoveryRow>) {
    && PatternIds(patterns) == Seqs.Filter(pids, RepeatedIn(rows))
    && forall k :: 0 <= k < |patterns| ==> RecoveredFrom(rows, patterns[k])
  }

  /** One more participant examined keeps the invariant. */
  lemma GatherStep(rows: seq<ProgressRow>, pids: seq<int>, before: seq<RecoveryRow>, after: seq<RecoveryRow>)
    ensures var mine := if pids == [] then [] else SortByDate(RowsOf(rows, pids[|pids| - 1]));
            && pids != []
            && Gathered(rows, pids[..|pids| - 1], before)
            && after == (if |mine| > 1 then before + [RecoveryOf(pids[|pids| - 1], mine)] else before)
            ==> Gathered(rows, pids, after)
  {
    if pids == [] { return; }
    var init, pid := pids[..|pids| - 1], pids[|pids| - 1];
    assert pids == init + [pid];
    Seqs.FilterSnoc(init, pid, RepeatedIn(rows));
    var mine := SortByDate(RowsOf(rows, pid));
    if !Gathered(rows, init, before) || after != (if |mine| > 1 then before + [RecoveryOf(pid, mine)] else before) {
    } else if |mine| > 1 {
      var p := RecoveryOf(pid, mine);
      assert RecoveredFrom(rows, p);
      AppendRecovered(rows, before, p);
    } else {
      assert !RepeatedIn(rows)(pid);
    }
  }

  lemma AppendRecovered(rows: seq<ProgressRow>, before: seq<RecoveryRow>, p: RecoveryRow)
    requires forall k :: 0 <= k < |before| ==> RecoveredFrom(rows, before[k])
    requires RecoveredFrom(rows, p)
    ensures PatternIds(before + [p]) == PatternIds(before) + [p.participantId]
    ensures forall k :: 0 <= k < |before + [p]| ==> RecoveredFrom(rows, (before + [p])[k])
  {
    PatternIdsSnoc(before + [p]);
    assert (before + [p])[..|before|] == before;
  }

  /** The participants kept from the distinct ids are each listed once, and
      every participant with several rows is among them. */
  lemma RepeatedListedOnce(rows: seq<ProgressRow>, ids: seq<int>)
    requires ids == Seqs.Filter(Seqs.Unique(Ids(rows)), RepeatedIn(rows))
    ensures forall i :: 0 <= i < |rows| && Repeated(rows, rows[i].participantId) ==> rows[i].participantId in ids
    ensures Seqs.NoDuplicates(ids)
  {
    var pids := Seqs.Unique(Ids(rows));
    var keep := RepeatedIn(rows);
    Seqs.FilterNoDuplicates(pids, keep);
    forall j | 0 <= j < |rows| && Repeated(rows, rows[j].participantId)
      ensures rows[j].participantId in ids
    {
      assert Ids(rows)[j] == rows[j].participantId;
      Seqs.FilterMembership(pids, keep, rows[j].participantId);
    }
  }

  function PatternIds(patterns: seq<RecoveryRow>): (ids: seq<int>)
    ensures |ids| == |patterns|
    ensures forall k :: 0 <= k < |patterns| ==> ids[k] == patterns[k].participantId
  {
    seq(|patterns|, k requires 0 <= k < |patterns| => patterns[k].participantId)
  }

  lemma PatternIdsSnoc(patterns: seq<RecoveryRow>)
    requires |patterns| >= 1
    ensures PatternIds(patterns) == PatternIds(patterns[..|patterns| - 1]) + [patterns[|patterns| - 1].participantId]
  {
  }

  // ---------------------------------------------------------------------
  // analyze_progression_rates, analysis.py:86-108

  /** `(dates - dates.min()).dt.days` */
  function MinOf(xs: seq<int>): (m: int)
    requires |xs| > 0
    ensures forall i :: 0 <= i < |xs| ==> m <= xs[i]
    ensures exists i :: 0 <= i < |xs| && xs[i] == m
  {
    if |xs| == 1 then xs[0]
    else
      var m := MinOf(xs[1..]);
      assert forall i :: 1 <= i < |xs| ==> xs[i] == xs[1..][i - 1];
      if xs[0] <= m then xs[0] else m
  }

  /** Each date's distance in days from the participant's earliest date: never
      negative, zero at the earliest date, and preserving every gap between
      two dates. */
  function DayOffsets(dates: seq<int>): (days: seq<int>)
    ensures |days| == |dates|
    ensures forall i :: 0 <= i < |days| ==> days[i] >= 0
    ensures |dates| > 0 ==> exists i :: 0 <= i < |days| && days[i] == 0
    ensures forall i, j :: 0 <= i < |dates| && 0 <= j < |dates| ==> days[i] - days[j] == dates[i] - dates[j]
  {
    if dates == [] then []
    else
      var m := MinOf(dates);
      var days := seq(|dates|, i requires 0 <= i < |dates| => dates[i] - m);
      assert forall i :: 0 <= i < |dates| ==> days[i] == dates[i] - m;
      days
  }

  /** The present values of a column known to have none missing. */
  function Values(xs: seq<Option<real>>): (vs: seq<real>)
    requires NoneMissing(xs)
    ensures |vs| == |xs|
    ensures forall i :: 0 <= i < |xs| ==> xs[i] == Some(vs[i])
  {
    seq(|xs|, i requires 0 <= i < |xs| => xs[i].value)
  }

  /** The least-squares fit sklearn performs is a foreign call: it is a
      parameter, taking day offsets and values to a slope and an R². */
  type Fit = (seq<int>, seq<real>) -> (real, real)

  datatype RateRow = RateRow(
    rates: map<string, real>,
    participantId: int,
    group: Option<string>,
    trainingStatus: Option<string>)

  /** The rate entries the metrics `ms` contribute. */
  function MetricRates(rows: seq<ProgressRow>, fit: Fit, days: seq<int>, ms: seq<Metric>): map<string, real>
  {
    if ms == [] then map[]
    else
      var m := ms[0];
      var c := Column(rows, m);
      var here := if NoneMissing(c) then
                    var f := fit(days, Values(c));
                    map[MetricName(m) + "_rate" := f.0, MetricName(m) + "_r2" := f.1]
                  else map[];
      here + MetricRates(rows, fit, days, ms[1..])
  }

  /** A metric's `_rate` and `_r2` entries exist exactly when no row of the
      participant lacks that metric, and they hold the fit of the metric's
      values against the day offsets. */
  lemma {:induction false} MetricRatesGuarded(rows: seq<ProgressRow>, fit: Fit, days: seq<int>, ms: seq<Metric>, m: Metric)
    requires m in ms
    ensures MetricName(m) + "_rate" in MetricRates(rows, fit, days, ms) <==> NoneMissing(Column(rows, m))
    ensures MetricName(m) + "_r2" in MetricRates(rows, fit, days, ms) <==> NoneMissing(Column(rows, m))
    ensures NoneMissing(Column(rows, m)) ==>
              var f := fit(days, Values(Column(rows, m)));
              MetricRates(rows, fit, days, ms)[MetricName(m) + "_rate"] == f.0 &&
              MetricRates(rows, fit, days, ms)[MetricName(m) + "_r2"] == f.1
  {
    var rest := MetricRates(rows, fit, days, ms[1..]);
    if ms[0] == m {
      if m in ms[1..] {
        MetricRatesGuarded(rows, fit, days, ms[1..], m);
      } else {
        MetricRatesAbsent(rows, fit, days, ms[1..], m);
      }
    } else {
      MetricRatesAbsent(rows, fit, days, [ms[0]], m);
      MetricRatesGuarded(rows, fit, days, ms[1..], m);
      NamesDistinct(ms[0], m);
    }
  }

  lemma {:induction false} MetricRatesAbsent(rows: seq<ProgressRow>, fit: Fit, days: seq<int>, ms: seq<Metric>, m: Metric)
    requires m !in ms
    ensures MetricName(m) + "_rate" !in MetricRates(rows, fit, days, ms)
    ensures MetricName(m) + "_r2" !in MetricRates(rows, fit, days, ms)
  {
    if ms != [] {
      NamesDistinct(ms[0], m);
      assert m !in ms[1..];
      MetricRatesAbsent(rows, fit, days, ms[1..], m);
    }
  }

  /** Distinct metrics name distinct rate columns. */
  lemma NamesDistinct(a: Metric, b: Metric)
    requires a != b
    ensures MetricName(a) + "_rate" != MetricName(b) + "_rate"
    ensures MetricName(a) + "_r2" != MetricName(b) + "_r2"
    ensures MetricName(a) + "_rate" != MetricName(b) + "_r2"
    ensures MetricName(a) + "_r2" != MetricName(b) + "_rate"
  {
    var x, y := MetricName(a), MetricName(b);
    assert x[0] != y[0];
    assert (x + "_rate")[0] == x[0] && (y + "_rate")[0] == y[0];
    assert (x + "_rate")[1] == x[1] && (y + "_rate")[1] == y[1];
    assert (x + "_r2")[0] == x[0] && (y + "_r2")[0] == y[0];
    assert (x + "_r2")[1] == x[1] && (y + "_r2")[1] == y[1];
  }

  /** The rate row of one participant whose rows, in table order, are `mine`. */
  function RatesOf(pid: int, mine: seq<ProgressRow>, fit: Fit): (r: RateRow)
    requires |mine| > 0
    ensures r.participantId == pid
    ensures r.group == mine[0].group && r.trainingStatus == mine[0].trainingStatus
    ensures forall m :: m in Metrics ==>
              (MetricName(m) + "_rate" in r.rates <==> NoneMissing(Column(mine, m)))
  {
    var days := DayOffsets(Dates(mine));
    var rates := MetricRates(mine, fit, days, Metrics);
    forall m | m in Metrics
      ensures MetricName(m) + "_rate" in rates <==> NoneMissing(Column(mine, m))
    {
      MetricRatesGuarded(mine, fit, days, Metrics, m);
    }
    RateRow(rates, pid, mine[0].group, mine[0].trainingStatus)
  }

  /** The individual rates table: one row per participant, in order of first
      appearance, including participants for whom no metric could be fitted. */
  method IndividualRates(rows: seq<ProgressRow>, fit: Fit) returns (table: seq<RateRow>)
    ensures RateTable(rows, fit, table)
  {
    var pids := Seqs.Unique(Ids(rows));
    table := [];
    var i := 0;
    while i < |pids|
      invariant 0 <= i <= |pids|
      invariant |table| == i
      invariant forall k :: 0 <= k < i ==>
                  table[k].participantId == pids[k] &&
                  |RowsOf(rows, pids[k])| > 0 &&
                  table[k] == RatesOf(pids[k], RowsOf(rows, pids[k]), fit)
    {
      var pid := pids[i];
      assert pid in Ids(rows);
      HasRows(rows, pid);
      table := table + [RatesOf(pid, RowsOf(rows, pid), fit)];
      i := i + 1;
    }
  }

  /** A participant whose id occurs has at least one row. */
  lemma HasRows(rows: seq<ProgressRow>, pid: int)
    ensures pid in Ids(rows) ==> |RowsOf(rows, pid)| > 0
  {
    if pid in Ids(rows) {
      var j :| 0 <= j < |rows| && Ids(rows)[j] == pid;
      Seqs.FilterMembership(rows, (row: ProgressRow) => row.participantId == pid, rows[j]);
    }
  }

  /** One rate row per distinct participant, in order of first appearance,
      each computed from that participant's rows. */
  predicate RateTable(rows: seq<ProgressRow>, fit: Fit, table: seq<RateRow>) {
    && |table| == |Seqs.Unique(Ids(rows))|
    && forall k :: 0 <= k < |table| ==>
         table[k].participantId == Seqs.Unique(Ids(rows))[k] &&
         |RowsOf(rows, table[k].participantId)| > 0 &&
         table[k] == RatesOf(table[k].participantId, RowsOf(rows, table[k].participantId), fit)
  }

  /** The table as a comprehension over the distinct participants. */
  function RateTableOf(rows: seq<ProgressRow>, fit: Fit): (table: seq<RateRow>)
    ensures RateTable(rows, fit, table)
  {
    var pids := Seqs.Unique(Ids(rows));
    forall k | 0 <= k < |pids| ensures |RowsOf(rows, pids[k])| > 0 {
      HasRows(rows, pids[k]);
    }
    seq(|pids|, k requires 0 <= k < |pids| => RatesOf(pids[k], RowsOf(rows, pids[k]), fit))
  }

  /** The rows determine their rates table. */
  lemma RateTableUnique(rows: seq<ProgressRow>, fit: Fit, t1: seq<RateRow>, t2: seq<RateRow>)
    requires RateTable(rows, fit, t1) && RateTable(rows, fit, t2)
    ensures t1 == t2
  {
    assert forall k :: 0 <= k < |t1| ==> t1[k] == t2[k];
  }

  /** The table has no rows exactly when the progress data has none. */
  lemma RateTableEmpty(rows: seq<ProgressRow>, fit: Fit, table: seq<RateRow>)
    requires RateTable(rows, fit, table)
    ensures table == [] <==> rows == []
  {
    if rows != [] {
      assert Ids(rows)[0] in Seqs.Unique(Ids(rows));
    }
  }

  // ---------------------------------------------------------------------
  // The summary statistics loop

  /** A rate row the `groupby` on group and training status keeps: pandas
      drops a row whose key is missing. */
  predicate Grouped(row: RateRow) {
    row.group.Some? && row.trainingStatus.Some?
  }

  /** Some row of the table forms a group, so the loop body runs. */
  predicate AnyGroup(table: seq<RateRow>) {
    exists k :: 0 <= k < |table| && Grouped(table[k])
  }

  /** The table, built from dicts, has a column for `m`'s rate: some row
      carries that key. */
  predicate HasRateColumn(table: seq<RateRow>, m: Metric) {
    exists k :: 0 <= k < |table| && MetricName(m) + "_rate" in table[k].rates
  }

  /** The first of `ms` whose rate column the table lacks. */
  function FirstUnfitted(table: seq<RateRow>, ms: seq<Metric>): (u: Option<Metric>)
    ensures u.None? <==> forall i :: 0 <= i < |ms| ==> HasRateColumn(table, ms[i])
    ensures u.Some? ==> exists i :: 0 <= i < |ms| && ms[i] == u.value && !HasRateColumn(table, u.value)
                                    && forall j :: 0 <= j < i ==> HasRateColumn(table, ms[j])
  {
    if ms == [] then None
    else if !HasRateColumn(table, ms[0]) then Some(ms[0])
    else
      var u := FirstUnfitted(table, ms[1..]);
      if u.Some? then
        var i :| 0 <= i < |ms[1..]| && ms[1..][i] == u.value && !HasRateColumn(table, u.value)
                 && forall j :: 0 <= j < i ==> HasRateColumn(table, ms[1..][j]);
        assert ms[i + 1] == u.value;
        assert forall j :: 0 <= j < i + 1 ==> HasRateColumn(table, ms[j]) by {
          forall j | 0 <= j < i + 1 ensures HasRateColumn(table, ms[j]) {
            if j > 0 { assert ms[j] == ms[1..][j - 1]; }
          }
        }
        u
      else
        u
  }

  /** The column the summary loop of analysis.py:110-126 raises `KeyError`
      for, if any. A table with no rows has no columns, so the `groupby`
      itself fails on `group_assignment`. Otherwise, when some row forms a
      group, selecting a rate column that no row carries fails, the metrics
      taken in order; when no row forms a group the loop never runs. */
  function SummaryKeyError(table: seq<RateRow>): (e: Option<string>)
    ensures table == [] ==> e == Some("group_assignment")
    ensures table != [] ==>
              (e.None? <==> (AnyGroup(table) ==> forall i :: 0 <= i < |Metrics| ==> HasRateColumn(table, Metrics[i])))
    ensures table != [] && e.Some? ==>
              AnyGroup(table) &&
              exists i :: 0 <= i < |Metrics| && e.value == MetricName(Metrics[i]) + "_rate"
                          && !HasRateColumn(table, Metrics[i])
                          && forall j :: 0 <= j < i ==> HasRateColumn(table, Metrics[j])
  {
    if table == [] then Some("group_assignment")
    else if !AnyGroup(table) then None
    else
      match FirstUnfitted(table, Metrics)
      case None => None
      case Some(m) => Some(MetricName(m) + "_rate")
  }

  /** What `analyze_progression_rates` raises for the progress rows `rows`:
      `None` when it returns. */
  function SummaryOutcome(rows: seq<ProgressRow>, fit: Fit): Option<string> {
    SummaryKeyError(RateTableOf(rows, fit))
  }

  /** An empty progress table makes the analysis raise on the group column. */
  lemma EmptyProgressRaises(fit: Fit)
    ensures SummaryOutcome([], fit) == Some("group_assignment")
  {
    RateTableEmpty([], fit, RateTableOf([], fit));
  }

  /** A metric every participant misses at least once gets no rate column,
      so once some participant has a group and a training status on all
      their rows, the analysis raises. */
  lemma UnfittedMetricRaises(rows: seq<ProgressRow>, fit: Fit, m: Metric, pid: int)
    requires forall p :: p in Ids(rows) ==>
               exists row :: row in rows && row.participantId == p && Value(row, m).None?
    requires pid in Ids(rows)
    requires forall row :: row in rows && row.participantId == pid ==> row.group.Some? && row.trainingStatus.Some?
    ensures SummaryOutcome(rows, fit).Some?
  {
    var table := RateTableOf(rows, fit);
    UnfittedHasNoColumn(rows, fit, table, m);
    GroupedParticipant(rows, fit, table, pid);
    assert m == Metrics[0] || m == Metrics[1] || m == Metrics[2];
  }

  lemma UnfittedHasNoColumn(rows: seq<ProgressRow>, fit: Fit, table: seq<RateRow>, m: Metric)
    requires RateTable(rows, fit, table)
    requires forall p :: p in Ids(rows) ==>
               exists row :: row in rows && row.participantId == p && Value(row, m).None?
    ensures !HasRateColumn(table, m)
  {
    forall k | 0 <= k < |table| ensures MetricName(m) + "_rate" !in table[k].rates {
      var pid := table[k].participantId;
      assert pid in Ids(rows);
      var row :| row in rows && row.participantId == pid && Value(row, m).None?;
      RowsOfExact(rows, pid);
      RowLacksRate(pid, RowsOf(rows, pid), fit, m, row);
    }
  }

  /** A participant with a row missing the metric gets no rate for it. */
  lemma RowLacksRate(pid: int, mine: seq<ProgressRow>, fit: Fit, m: Metric, row: ProgressRow)
    requires |mine| > 0 && row in mine && Value(row, m).None?
    ensures MetricName(m) + "_rate" !in RatesOf(pid, mine, fit).rates
  {
    var j :| 0 <= j < |mine| && mine[j] == row;
    assert Column(mine, m)[j].None?;
    assert m in Metrics by { assert m == Metrics[0] || m == Metrics[1] || m == Metrics[2]; }
  }

  lemma GroupedParticipant(rows: seq<ProgressRow>, fit: Fit, table: seq<RateRow>, pid: int)
    requires RateTable(rows, fit, table)
    requires pid in Ids(rows)
    requires forall row :: row in rows && row.participantId == pid ==> row.group.Some? && row.trainingStatus.Some?
    ensures AnyGroup(table)
  {
    var pids := Seqs.Unique(Ids(rows));
    var k :| 0 <= k < |pids| && pids[k] == pid;
    var mine := RowsOf(rows, pid);
    RowsOfExact(rows, pid);
    assert table[k] == RatesOf(pid, mine, fit);
    assert mine[0] in rows && mine[0].participantId == pid by {
      assert mine[0] in mine;
    }
    assert Grouped(table[k]);
  }
}
