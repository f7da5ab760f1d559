/** The analyses that are thin wrappers around named queries, and
    `generate_summary_report`, which runs all six analyses in a fixed order
    and gathers them under fixed keys (analysis.py:141-236).

    A query's result table comes from the engine; the model keeps the SQL
    text the catalogue supplied for it, which is what determines that table. */
module Report {

  import opened Wrappers
  import QueryCatalogue
  import ProgressData
  import EffectSize

  /** The named queries the report needs, in the order it asks for them. */
  const ReportQueries := ["Population Category Analysis", "Training Program Analysis",
                          "Training Compliance Impact", "Age Group Analysis",
                          "Dosing Protocol Analysis", "Fatigue Level Analysis"]

  /** `name` is the `i`-th of `names`, its lookup fails with `e`, and every
      name before it is found. */
  predicate FailsFirstAt(queries: Option<map<string, string>>, names: seq<string>, i: int, e: QueryCatalogue.QueryError) {
    && 0 <= i < |names|
    && QueryCatalogue.Lookup(queries, names[i]) == Failure(e)
    && forall j :: 0 <= j < i ==> QueryCatalogue.Lookup(queries, names[j]).Success?
  }

  /** `analyze_training_impact` (analysis.py:141-160): two lookups, the
      program query first. */
  datatype TrainingImpact = TrainingImpact(programAnalysis: string, complianceAnalysis: string)

  method AnalyzeTrainingImpact(queries: Option<map<string, string>>) returns (r: Result<TrainingImpact, QueryCatalogue.QueryError>)
    ensures r.Success? <==> QueryCatalogue.Lookup(queries, "Training Program Analysis").Success?
                            && QueryCatalogue.Lookup(queries, "Training Compliance Impact").Success?
    ensures r.Failure? ==> r.error == (if QueryCatalogue.Lookup(queries, "Training Program Analysis").Failure?
                                       then QueryCatalogue.Lookup(queries, "Training Program Analysis").error
                                       else QueryCatalogue.Lookup(queries, "Training Compliance Impact").error)
    ensures r.Success? ==> r.value == TrainingImpact(QueryCatalogue.Lookup(queries, "Training Program Analysis").value,
                                                    QueryCatalogue.Lookup(queries, "Training Compliance Impact").value)
  {
    var program := QueryCatalogue.Lookup(queries, "Training Program Analysis");
    if program.Failure? {
      return Failure(program.error);
    }
    var compliance := QueryCatalogue.Lookup(queries, "Training Compliance Impact");
    if compliance.Failure? {
      return Failure(compliance.error);
    }
    r := Success(TrainingImpact(program.value, compliance.value));
  }

  datatype FatigueRecovery = FatigueRecovery(fatigueAnalysis: string, recoveryPatterns: seq<ProgressData.RecoveryRow>)

  /** `analyze_fatigue_and_recovery` (analysis.py:182-218): the fatigue query,
      then the recovery rows. */
  method AnalyzeFatigueAndRecovery(queries: Option<map<string, string>>, progress: seq<ProgressData.ProgressRow>)
    returns (r: Result<FatigueRecovery, QueryCatalogue.QueryError>)
    ensures r.Success? <==> QueryCatalogue.Lookup(queries, "Fatigue Level Analysis").Success?
    ensures r.Failure? ==> r.error == QueryCatalogue.Lookup(queries, "Fatigue Level Analysis").error
    ensures r.Success? ==> r.value.fatigueAnalysis == QueryCatalogue.Lookup(queries, "Fatigue Level Analysis").value
                           && r.value.recoveryPatterns == ProgressData.RecoveryPatterns(progress)
  {
    var fatigue := QueryCatalogue.Lookup(queries, "Fatigue Level Analysis");
    if fatigue.Failure? {
      return Failure(fatigue.error);
    }
    r := Success(FatigueRecovery(fatigue.value, ProgressData.RecoveryPatterns(progress)));
  }

  /** `analyze_progression_rates` (analysis.py:79-139): the individual rates
      table, unless the summary statistics loop raises `KeyError`, whose
      column is the error. The statistics themselves are not modelled. */
  method AnalyzeProgressionRates(progress: seq<ProgressData.ProgressRow>, fit: ProgressData.Fit)
    returns (r: Result<seq<ProgressData.RateRow>, string>)
    ensures r.Success? <==> ProgressData.SummaryOutcome(progress, fit).None?
    ensures r.Failure? ==> ProgressData.SummaryOutcome(progress, fit) == Some(r.error)
    ensures r.Success? ==> ProgressData.RateTable(progress, fit, r.value)
  {
    var table := ProgressData.IndividualRates(progress, fit);
    ProgressData.RateTableUnique(progress, fit, table, ProgressData.RateTableOf(progress, fit));
    var e := ProgressData.SummaryKeyError(table);
    if e.Some? {
      return Failure(e.value);
    }
    r := Success(table);
  }

  /** The report dict: its six keys, in the order the literal lists them,
      and the analysis stored under each. */
  datatype SummaryReport = SummaryReport(
    effectSizes: EffectSize.EffectResult,
    progressionRates: seq<ProgressData.RateRow>,
    trainingImpact: TrainingImpact,
    ageEffects: string,
    dosingProtocols: string,
    fatigueRecovery: FatigueRecovery)

  const ReportKeys := ["effect_sizes", "progression_rates", "training_impact",
                       "age_effects", "dosing_protocols", "fatigue_recovery"]

  /** What the report can raise: a named query's error, or the `KeyError` of
      the progression summary, naming the missing column. */
  datatype ReportError =
    | QueryFailed(error: QueryCatalogue.QueryError)
    | MissingColumn(column: string)

  /** `generate_summary_report` (analysis.py:220-236): the six analyses run in
      the order the dict literal lists them, so the error raised is that of
      the first step that fails: the effect-size query, then the progression
      summary, then the remaining named queries in order. With every query
      present and a summary that raises nothing the report is complete. */
  method GenerateSummaryReport(queries: Option<map<string, string>>, progress: seq<ProgressData.ProgressRow>,
                               cohen: ProgressData.Metric -> EffectSize.Effect, fit: ProgressData.Fit)
    returns (r: Result<SummaryReport, ReportError>)
    ensures r.Success? <==> (forall i :: 0 <= i < |ReportQueries| ==> QueryCatalogue.Lookup(queries, ReportQueries[i]).Success?)
                            && ProgressData.SummaryOutcome(progress, fit).None?
    ensures r.Failure? && r.error.QueryFailed? ==>
              exists i :: FailsFirstAt(queries, ReportQueries, i, r.error.error)
                          && (i > 0 ==> ProgressData.SummaryOutcome(progress, fit).None?)
    ensures r.Failure? && r.error.MissingColumn? ==>
              QueryCatalogue.Lookup(queries, ReportQueries[0]).Success?
              && ProgressData.SummaryOutcome(progress, fit) == Some(r.error.column)
    ensures r.Success? ==> r.value.effectSizes.populationEffects == QueryCatalogue.Lookup(queries, ReportQueries[0]).value
                           && r.value.effectSizes.effectSizes.Keys == (set m | m in ProgressData.Metrics :: ProgressData.MetricName(m))
                           && forall m :: m in ProgressData.Metrics ==>
                                EffectSize.MetricTable(r.value.effectSizes.effectSizes[ProgressData.MetricName(m)], m, progress, cohen)
    ensures r.Success? ==> ProgressData.RateTable(progress, fit, r.value.progressionRates)
    ensures r.Success? ==> r.value.trainingImpact == TrainingImpact(QueryCatalogue.Lookup(queries, ReportQueries[1]).value,
                                                                    QueryCatalogue.Lookup(queries, ReportQueries[2]).value)
                           && r.value.ageEffects == QueryCatalogue.Lookup(queries, ReportQueries[3]).value
                           && r.value.dosingProtocols == QueryCatalogue.Lookup(queries, ReportQueries[4]).value
                           && r.value.fatigueRecovery.fatigueAnalysis == QueryCatalogue.Lookup(queries, ReportQueries[5]).value
                           && r.value.fatigueRecovery.recoveryPatterns == ProgressData.RecoveryPatterns(progress)
  {
    var effects := EffectSize.CalculateEffectSizes(queries, progress, cohen);
    if effects.Failure? {
      assert FailsFirstAt(queries, ReportQueries, 0, effects.error);
      return Failure(QueryFailed(effects.error));
    }
    var rates := AnalyzeProgressionRates(progress, fit);
    if rates.Failure? {
      return Failure(MissingColumn(rates.error));
    }
    var later := LaterAnalyses(queries, progress);
    if later.Failure? {
      var i :| FailsFirstAt(queries, ReportQueries, i, later.error);
      assert i > 0;
      return Failure(QueryFailed(later.error));
    }
    var (training, age, dosing, fatigue) := later.value;
    r := Success(SummaryReport(effects.value, rates.value, training, age, dosing, fatigue));
  }

  /** The analyses the report runs after the effect sizes, in its order:
      training impact, age effects, dosing protocols, fatigue and recovery. */
  method LaterAnalyses(queries: Option<map<string, string>>, progress: seq<ProgressData.ProgressRow>)
    returns (r: Result<(TrainingImpact, string, string, FatigueRecovery), QueryCatalogue.QueryError>)
    requires QueryCatalogue.Lookup(queries, ReportQueries[0]).Success?
    ensures r.Success? <==> forall i :: 0 <= i < |ReportQueries| ==> QueryCatalogue.Lookup(queries, ReportQueries[i]).Success?
    ensures r.Failure? ==> exists i :: FailsFirstAt(queries, ReportQueries, i, r.error)
    ensures r.Success? ==> r.value.0 == TrainingImpact(QueryCatalogue.Lookup(queries, ReportQueries[1]).value,
                                                      QueryCatalogue.Lookup(queries, ReportQueries[2]).value)
                           && r.value.1 == QueryCatalogue.Lookup(queries, ReportQueries[3]).value
                           && r.value.2 == QueryCatalogue.Lookup(queries, ReportQueries[4]).value
                           && r.value.3.fatigueAnalysis == QueryCatalogue.Lookup(queries, ReportQueries[5]).value
                           && r.value.3.recoveryPatterns == ProgressData.RecoveryPatterns(progress)
  {
    AllFound(queries);
    var training := AnalyzeTrainingImpact(queries);
    if training.Failure? {
      if QueryCatalogue.Lookup(queries, ReportQueries[1]).Failure? {
        assert FailsFirstAt(queries, ReportQueries, 1, training.error);
      } else {
        assert FailsFirstAt(queries, ReportQueries, 2, training.error);
      }
      return Failure(training.error);
    }
    var age := QueryCatalogue.Lookup(queries, "Age Group Analysis");
    if age.Failure? {
      assert FailsFirstAt(queries, ReportQueries, 3, age.error);
      return Failure(age.error);
    }
    var dosing := QueryCatalogue.Lookup(queries, "Dosing Protocol Analysis");
    if dosing.Failure? {
      assert FailsFirstAt(queries, ReportQueries, 4, dosing.error);
      return Failure(dosing.error);
    }
    var fatigue := AnalyzeFatigueAndRecovery(queries, progress);
    if fatigue.Failure? {
      assert FailsFirstAt(queries, ReportQueries, 5, fatigue.error);
      return Failure(fatigue.error);
    }
    r := Success((training.value, age.value, dosing.value, fatigue.value));
  }

  /** Every report query is found exactly when each of the six is. */
  lemma AllFound(queries: Option<map<string, string>>)
    ensures (forall i :: 0 <= i < |ReportQueries| ==> QueryCatalogue.Lookup(queries, ReportQueries[i]).Success?)
            <==> (&& QueryCatalogue.Lookup(queries, "Population Category Analysis").Success?
                  && QueryCatalogue.Lookup(queries, "Training Program Analysis").Success?
                  && QueryCatalogue.Lookup(queries, "Training Compliance Impact").Success?
                  && QueryCatalogue.Lookup(queries, "Age Group Analysis").Success?
                  && QueryCatalogue.Lookup(queries, "Dosing Protocol Analysis").Success?
                  && QueryCatalogue.Lookup(queries, "Fatigue Level Analysis").Success?)
  {
    assert ReportQueries[0] == "Population Category Analysis" && ReportQueries[1] == "Training Program Analysis";
    assert ReportQueries[2] == "Training Compliance Impact" && ReportQueries[3] == "Age Group Analysis";
    assert ReportQueries[4] == "Dosing Protocol Analysis" && ReportQueries[5] == "Fatigue Level Analysis";
  }

  /** One value of the report dict. */
  datatype Section =
    | EffectSizes(effects: EffectSize.EffectResult)
    | ProgressionRates(individualRates: seq<ProgressData.RateRow>)
    | Training(impact: TrainingImpact)
    | QueryTable(sql: string)
    | Fatigue(recovery: FatigueRecovery)

  /** The report as the dict the source returns. */
  function AsDict(rep: SummaryReport): map<string, Section> {
    map["effect_sizes" := EffectSizes(rep.effectSizes),
        "progression_rates" := ProgressionRates(rep.progressionRates),
        "training_impact" := Training(rep.trainingImpact),
        "age_effects" := QueryTable(rep.ageEffects),
        "dosing_protocols" := QueryTable(rep.dosingProtocols),
        "fatigue_recovery" := Fatigue(rep.fatigueRecovery)]
  }

  /** The dict has exactly the six section keys, each holding its own
      analysis: no key overwrites another. */
  lemma ReportDictKeys(rep: SummaryReport)
    ensures AsDict(rep).Keys == set k | k in ReportKeys
    ensures |AsDict(rep).Keys| == 6
    ensures AsDict(rep)["age_effects"] == QueryTable(rep.ageEffects)
    ensures AsDict(rep)["fatigue_recovery"] == Fatigue(rep.fatigueRecovery)
  {
    assert AsDict(rep).Keys == {"effect_sizes", "progression_rates", "training_impact",
                                "age_effects", "dosing_protocols", "fatigue_recovery"};
    SectionKeys();
    SectionCount();
  }

  /** The six section names are those the key list names. */
  lemma SectionKeys()
    ensures {"effect_sizes", "progression_rates", "training_impact",
             "age_effects", "dosing_protocols", "fatigue_recovery"} == set k | k in ReportKeys
  {
  }

  /** The six section names are distinct: they differ in their first letter. */
  lemma SectionCount()
    ensures |{"effect_sizes", "progression_rates", "training_impact",
              "age_effects", "dosing_protocols", "fatigue_recovery"}| == 6
  {
    var a, b, c := "effect_sizes", "progression_rates", "training_impact";
    var d, e, f := "age_effects", "dosing_protocols", "fatigue_recovery";
    assert a[0] == 'e' && b[0] == 'p' && c[0] == 't' && d[0] == 'a' && e[0] == 'd' && f[0] == 'f';
    assert |{a, b, c}| == 3;
    assert |{a, b, c} + {d, e, f}| == 6;
    assert {a, b, c} + {d, e, f} == {a, b, c, d, e, f};
  }
}
