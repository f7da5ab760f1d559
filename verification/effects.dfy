/** Effect-size interpretation and the shape of the effect-size result of
    `CreatineAnalysis` (analysis.py:23-77).

    Cohen's d itself (means, variances, a square root, a division) is floating
    point computed by numpy; it enters as a value per metric. Since numpy
    yields NaN for 0/0 and an infinity for x/0, a value is one of those or a
    finite real. */
module EffectSize {

  import opened Wrappers
  import Seqs
  import ProgressData
  import QueryCatalogue

  datatype Effect = Finite(d: real) | NotANumber | Infinite(negative: bool)

  datatype Label = Negligible | Small | Medium | Large

  function LabelText(l: Label): string {
    match l
    case Negligible => "Negligible"
    case Small => "Small"
    case Medium => "Medium"
    case Large => "Large"
  }

  /** The position of a label on the size scale. */
  function Rank(l: Label): nat {
    match l
    case Negligible => 0
    case Small => 1
    case Medium => 2
    case Large => 3
  }

  function Abs(x: real): real {
    if x < 0.0 then -x else x
  }

  const Thresholds: seq<real> := [0.2, 0.5, 0.8]

  /** `_interpret_effect_size` (analysis.py:68-77). Every comparison with NaN
      is false, and an infinity passes none of the `<` tests, so both fall
      through to "Large". */
  function Interpret(e: Effect): (l: Label)
    ensures e.Finite? && Abs(e.d) < 0.2 ==> l == Negligible
    ensures !e.Finite? ==> l == Large
  {
    match e
    case Finite(d) =>
      if Abs(d) < 0.2 then Negligible
      else if Abs(d) < 0.5 then Small
      else if Abs(d) < 0.8 then Medium
      else Large
    case _ => Large
  }

  /** The number of thresholds a magnitude reaches. */
  function Reached(ts: seq<real>, a: real): nat {
    if ts == [] then 0 else (if ts[0] <= a then 1 else 0) + Reached(ts[1..], a)
  }

  /** An independent reading of the classifier: a finite effect's rank is the
      number of thresholds 0.2, 0.5, 0.8 its magnitude reaches, so each
      boundary value belongs to the larger class. */
  lemma InterpretCountsThresholds(d: real)
    ensures Rank(Interpret(Finite(d))) == Reached(Thresholds, Abs(d))
  {
    var a := Abs(d);
    assert Thresholds[1..] == [0.5, 0.8];
    assert Thresholds[1..][1..] == [0.8];
    assert Thresholds[1..][1..][1..] == [];
    assert Reached([0.8], a) == (if 0.8 <= a then 1 else 0);
    assert Reached([0.5, 0.8], a) == (if 0.5 <= a then 1 else 0) + Reached([0.8], a);
    assert Reached(Thresholds, a) == (if 0.2 <= a then 1 else 0) + Reached([0.5, 0.8], a);
  }

  function Negate(e: Effect): Effect {
    match e
    case Finite(d) => Finite(-d)
    case NotANumber => NotANumber
    case Infinite(neg) => Infinite(!neg)
  }

  /** Only the magnitude matters: d and -d get the same label. */
  lemma InterpretSymmetric(e: Effect)
    ensures Interpret(Negate(e)) == Interpret(e)
  {
  }

  /** A larger magnitude never gets a smaller label. */
  lemma InterpretMonotone(a: real, b: real)
    requires Abs(a) <= Abs(b)
    ensures Rank(Interpret(Finite(a))) <= Rank(Interpret(Finite(b)))
  {
  }

  /** Non-finite effects sit at the top of the scale, with every finite
      effect at or below them. */
  lemma NonFiniteIsLargest(e: Effect, d: real)
    requires !e.Finite?
    ensures Rank(Interpret(Finite(d))) <= Rank(Interpret(e))
    ensures Interpret(e) == Large
  {
  }

  /** The label text is one of the four words. */
  lemma LabelTextIsOneOfFour(e: Effect)
    ensures LabelText(Interpret(e)) in ["Negligible", "Small", "Medium", "Large"]
  {
  }

  /** The boundaries are strict on the left: 0.2 is already Small, 0.5 is
      Medium, 0.8 is Large; the values test_analysis.py checks agree. */
  lemma InterpretBoundaries()
    ensures Interpret(Finite(0.2)) == Small && Interpret(Finite(-0.2)) == Small
    ensures Interpret(Finite(0.5)) == Medium && Interpret(Finite(0.8)) == Large
    ensures Interpret(Finite(0.1)) == Negligible && Interpret(Finite(0.3)) == Small
    ensures Interpret(Finite(0.6)) == Medium && Interpret(Finite(0.9)) == Large
  {
  }

  // ---------------------------------------------------------------------
  // calculate_effect_sizes, analysis.py:23-66

  datatype EffectRow = EffectRow(metric: string, effectSize: Effect, interpretation: string)

  datatype EffectResult = EffectResult(populationEffects: string, effectSizes: map<string, seq<EffectRow>>)

  /** The row the inner loop appends for `metric`: it does not depend on the
      group, which the loop body never reads. */
  function RowFor(m: ProgressData.Metric, cohen: ProgressData.Metric -> Effect): EffectRow {
    EffectRow(ProgressData.MetricName(m), cohen(m), LabelText(Interpret(cohen(m))))
  }

  /** The inner loop of analysis.py:35-53: one row per distinct group value. */
  method EffectRows<G(==)>(groups: seq<G>, m: ProgressData.Metric, cohen: ProgressData.Metric -> Effect)
    returns (rows: seq<EffectRow>)
    ensures |rows| == |Seqs.Unique(groups)|
    ensures forall k :: 0 <= k < |rows| ==> rows[k] == RowFor(m, cohen)
  {
    var distinct := Seqs.Unique(groups);
    rows := [];
    var i := 0;
    while i < |distinct|
      invariant 0 <= i <= |distinct|
      invariant |rows| == i
      invariant forall k :: 0 <= k < i ==> rows[k] == RowFor(m, cohen)
    {
      rows := rows + [RowFor(m, cohen)];
      i := i + 1;
    }
  }

  /** `calculate_effect_sizes`: the population-category query is looked up
      first, so a missing queries file or a catalogue without it fails before
      anything else. The result has one table per metric, each with one row
      per distinct group value of the progress data, labelled by the
      classifier. `queries` is the catalogue loaded from the queries file. */
  method CalculateEffectSizes(queries: Option<map<string, string>>, progress: seq<ProgressData.ProgressRow>,
                              cohen: ProgressData.Metric -> Effect)
    returns (r: Result<EffectResult, QueryCatalogue.QueryError>)
    ensures var population := QueryCatalogue.Lookup(queries, "Population Category Analysis");
            && (r.Success? <==> population.Success?)
            && (r.Failure? ==> r.error == population.error)
            && (r.Success? ==> r.value.populationEffects == population.value)
    ensures r.Success? ==>
              && r.value.effectSizes.Keys == (set m | m in ProgressData.Metrics :: ProgressData.MetricName(m))
              && forall m :: m in ProgressData.Metrics ==>
                   MetricTable(r.value.effectSizes[ProgressData.MetricName(m)], m, progress, cohen)
  {
    var population := QueryCatalogue.Lookup(queries, "Population Category Analysis");
    if population.Failure? {
      return Failure(population.error);
    }
    var tables := EffectTables(progress, cohen);
    r := Success(EffectResult(population.value, tables));
  }

  /** The metric loop of analysis.py:33-55: one table per metric. */
  method EffectTables(progress: seq<ProgressData.ProgressRow>, cohen: ProgressData.Metric -> Effect)
    returns (tables: map<string, seq<EffectRow>>)
    ensures tables.Keys == (set m | m in ProgressData.Metrics :: ProgressData.MetricName(m))
    ensures forall m :: m in ProgressData.Metrics ==>
              MetricTable(tables[ProgressData.MetricName(m)], m, progress, cohen)
  {
    var groups := Groups(progress);
    var strength := EffectRows(groups, ProgressData.Strength, cohen);
    var leanMass := EffectRows(groups, ProgressData.LeanMass, cohen);
    var performance := EffectRows(groups, ProgressData.Performance, cohen);
    tables := map[ProgressData.MetricName(ProgressData.Strength) := strength,
                      ProgressData.MetricName(ProgressData.LeanMass) := leanMass,
                      ProgressData.MetricName(ProgressData.Performance) := performance];
    assert MetricTable(strength, ProgressData.Strength, progress, cohen);
    assert MetricTable(leanMass, ProgressData.LeanMass, progress, cohen);
    assert MetricTable(performance, ProgressData.Performance, progress, cohen);
  }

  /** A metric's table: one row per distinct group value of the progress
      data, each naming the metric, carrying its effect size and the
      classifier's label for it. */
  predicate MetricTable(table: seq<EffectRow>, m: ProgressData.Metric,
                        progress: seq<ProgressData.ProgressRow>, cohen: ProgressData.Metric -> Effect) {
    && |table| == |Seqs.Unique(Groups(progress))|
    && forall k :: 0 <= k < |table| ==>
         table[k].metric == ProgressData.MetricName(m) &&
         table[k].effectSize == cohen(m) &&
         table[k].interpretation == LabelText(Interpret(table[k].effectSize))
  }

  /** `progress_data['group_assignment']` */
  function Groups(progress: seq<ProgressData.ProgressRow>): (gs: seq<Option<string>>)
    ensures |gs| == |progress|
    ensures forall i :: 0 <= i < |progress| ==> gs[i] == progress[i].group
  {
    seq(|progress|, i requires 0 <= i < |progress| => progress[i].group)
  }
}
