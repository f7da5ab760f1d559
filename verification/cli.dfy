/** `main` (main.py:227-260): which steps the parsed flags select, in what
    order, when help is printed, and that cleanup runs once the study object
    exists.

    Turning the command line into flags is argparse's work and is not
    modelled; the parsed namespace is the input. Each step's own work is
    modelled elsewhere or left out; here a step is a name, and whether it
    raises is a parameter. */
module Cli {

  import opened Wrappers

  /** The parsed namespace: five `store_true` flags and `--port`. */
  datatype Args = Args(initDb: bool, analyze: bool, visualize: bool, dashboard: bool, backup: bool, port: int)

  /** What `parse_args` returns for an empty command line. */
  const DefaultPort := 8050
  const NoArgs := Args(false, false, false, false, false, DefaultPort)

  datatype Step =
    | Construct
    | InitializeDatabase
    | AddSampleData
    | RunAnalysis
    | GenerateVisualizations
    | RunDashboard(port: int)
    | BackupDatabase
    | PrintHelp
    | Cleanup

  /** `any(vars(args).values())`: the port counts as set unless it is 0. */
  predicate AnyTruthy(a: Args) {
    a.initDb || a.analyze || a.visualize || a.dashboard || a.backup || a.port != 0
  }

  /** The position of a step in the `if` chain of main.py:241-255: the
      constructor before it, cleanup after it. */
  function Rank(s: Step): nat {
    match s
    case Construct => 0
    case InitializeDatabase => 1
    case AddSampleData => 2
    case RunAnalysis => 3
    case GenerateVisualizations => 4
    case RunDashboard(_) => 5
    case PrintHelp => 6
    case BackupDatabase => 7
    case Cleanup => 8
  }

  /** Each step comes strictly after the ones before it in the chain, so no
      step repeats. */
  predicate Ranked(steps: seq<Step>) {
    forall i, j :: 0 <= i < j < |steps| ==> Rank(steps[i]) < Rank(steps[j])
  }

  /** The steps of the `try` block (main.py:241-255): each flag selects its
      own steps, and help is printed when every parsed value is falsy. The
      order is that of the `if` chain; see `PlanRanked`. */
  function Plan(a: Args): (steps: seq<Step>)
    ensures Cleanup !in steps && BackupDatabase !in steps && Construct !in steps
    ensures PrintHelp in steps <==> !AnyTruthy(a)
    ensures a.initDb <==> (|steps| >= 2 && steps[0] == InitializeDatabase && steps[1] == AddSampleData)
    ensures RunAnalysis in steps <==> a.analyze
    ensures GenerateVisualizations in steps <==> a.visualize
    ensures RunDashboard(a.port) in steps <==> a.dashboard
  {
    (if a.initDb then [InitializeDatabase, AddSampleData] else [])
    + (if a.analyze then [RunAnalysis] else [])
    + (if a.visualize then [GenerateVisualizations] else [])
    + (if a.dashboard then [RunDashboard(a.port)] else [])
    + (if !AnyTruthy(a) then [PrintHelp] else [])
  }

  function Init(a: Args): seq<Step> { if a.initDb then [InitializeDatabase, AddSampleData] else [] }
  function Analyze(a: Args): seq<Step> { if a.analyze then [RunAnalysis] else [] }
  function Visualize(a: Args): seq<Step> { if a.visualize then [GenerateVisualizations] else [] }
  function Dashboard(a: Args): seq<Step> { if a.dashboard then [RunDashboard(a.port)] else [] }
  function Help(a: Args): seq<Step> { if !AnyTruthy(a) then [PrintHelp] else [] }

  /** The plan follows the `if` chain: every step comes strictly after the
      ones before it, so none repeats and, say, the analysis never follows
      the visualisations. */
  lemma PlanRanked(a: Args)
    ensures Ranked(Plan(a)) && RanksIn(Plan(a), 1, 7)
  {
    var upToAnalyze := Init(a) + Analyze(a);
    var upToVisualize := upToAnalyze + Visualize(a);
    var upToDashboard := upToVisualize + Dashboard(a);
    assert Plan(a) == upToDashboard + Help(a);
    PiecesRanked(a);
    assert Ranked(upToAnalyze) && RanksIn(upToAnalyze, 1, 4) by {
      RankedAppend(Init(a), Analyze(a), 1, 3, 4);
    }
    assert Ranked(upToVisualize) && RanksIn(upToVisualize, 1, 5) by {
      RankedAppend(upToAnalyze, Visualize(a), 1, 4, 5);
    }
    assert Ranked(upToDashboard) && RanksIn(upToDashboard, 1, 6) by {
      RankedAppend(upToVisualize, Dashboard(a), 1, 5, 6);
    }
    RankedAppend(upToDashboard, Help(a), 1, 6, 7);
  }

  /** Each flag's steps sit in their own band of ranks. */
  lemma PiecesRanked(a: Args)
    ensures Ranked(Init(a)) && RanksIn(Init(a), 1, 3)
    ensures Ranked(Analyze(a)) && RanksIn(Analyze(a), 3, 4)
    ensures Ranked(Visualize(a)) && RanksIn(Visualize(a), 4, 5)
    ensures Ranked(Dashboard(a)) && RanksIn(Dashboard(a), 5, 6)
    ensures Ranked(Help(a)) && RanksIn(Help(a), 6, 7)
  {
  }

  /** Every step of `steps` has a rank in `lo..hi-1`. */
  predicate RanksIn(steps: seq<Step>, lo: nat, hi: nat) {
    forall i :: 0 <= i < |steps| ==> lo <= Rank(steps[i]) < hi
  }

  /** Two ranked runs, all of the first below `m` and all of the second at
      or above it, make a ranked run. */
  lemma RankedAppend(xs: seq<Step>, ys: seq<Step>, lo: nat, m: nat, hi: nat)
    requires lo <= m <= hi
    requires Ranked(xs) && Ranked(ys)
    requires RanksIn(xs, lo, m) && RanksIn(ys, m, hi)
    ensures Ranked(xs + ys) && RanksIn(xs + ys, lo, hi)
  {
    var zs := xs + ys;
    forall i, j | 0 <= i < j < |zs| ensures Rank(zs[i]) < Rank(zs[j]) {
      if j < |xs| {
        assert zs[i] == xs[i] && zs[j] == xs[j];
      } else if i < |xs| {
        assert zs[i] == xs[i] && zs[j] == ys[j - |xs|];
      } else {
        assert zs[i] == ys[i - |xs|] && zs[j] == ys[j - |xs|];
      }
    }
    forall i | 0 <= i < |zs| ensures lo <= Rank(zs[i]) < hi {
      if i < |xs| {
        assert zs[i] == xs[i];
      } else {
        assert zs[i] == ys[i - |xs|];
      }
    }
  }

  /** What a run did: the steps started, in order, and the step whose
      exception propagated out of `main`, if any. */
  datatype Outcome = Outcome(started: seq<Step>, raised: Option<Step>)

  /** Runs steps until one raises. */
  function RunUntilRaise(steps: seq<Step>, raises: Step -> bool): (o: Outcome)
    ensures |o.started| <= |steps| && o.started == steps[..|o.started|]
    ensures o.raised.None? ==> o.started == steps
    ensures o.raised.Some? ==> o.started != [] && o.raised.value == o.started[|o.started| - 1]
                               && raises(o.raised.value)
    ensures forall i :: 0 <= i < |o.started| - 1 ==> !raises(o.started[i])
    ensures o.raised.None? <==> forall i :: 0 <= i < |steps| ==> !raises(steps[i])
  {
    if steps == [] then Outcome([], None)
    else if raises(steps[0]) then Outcome([steps[0]], Some(steps[0]))
    else
      var rest := RunUntilRaise(steps[1..], raises);
      Outcome([steps[0]] + rest.started, rest.raised)
  }

  /** `try: ... finally: study.cleanup()`: cleanup runs last whatever
      happened before it, and an exception it raises replaces the pending
      one. */
  function RunThenCleanup(steps: seq<Step>, raises: Step -> bool): Outcome {
    var body := RunUntilRaise(steps, raises);
    Outcome(body.started + [Cleanup], if raises(Cleanup) then Some(Cleanup) else body.raised)
  }

  /** `study = CreatineStudy()` comes before the `try` (main.py:238), so a
      constructor that raises ends the run with nothing else started, not
      even cleanup; otherwise the steps run under the `try`. */
  function RunMain(steps: seq<Step>, raises: Step -> bool): Outcome {
    if raises(Construct) then Outcome([Construct], Some(Construct))
    else
      var o := RunThenCleanup(steps, raises);
      Outcome([Construct] + o.started, o.raised)
  }

  /** `main` as written. */
  function Main(a: Args, raises: Step -> bool): Outcome {
    RunMain(Plan(a), raises)
  }

  /** Cleanup is the last step of every run, and runs once. */
  lemma CleanupAlwaysLast(steps: seq<Step>, raises: Step -> bool)
    requires Cleanup !in steps
    ensures var o := RunThenCleanup(steps, raises);
      && o.started != [] && o.started[|o.started| - 1] == Cleanup
      && forall i :: 0 <= i < |o.started| - 1 ==> o.started[i] != Cleanup
  {
    var body := RunUntilRaise(steps, raises);
    forall i | 0 <= i < |body.started| ensures body.started[i] != Cleanup {
      assert body.started[i] == steps[i];
    }
  }

  /** A constructor that raises is all that happens. Otherwise, without
      failures every selected step runs, in the listed order, then cleanup;
      a failure stops the steps after it and is what `main` raises, unless
      cleanup raises as well. */
  lemma MainRunsPlan(a: Args, raises: Step -> bool)
    ensures var o := Main(a, raises);
      && (raises(Construct) ==> o == Outcome([Construct], Some(Construct)))
      && (Cleanup in o.started <==> !raises(Construct))
      && (!raises(Construct) && raises(Cleanup) ==> o.raised == Some(Cleanup))
      && ((forall i :: 0 <= i < |Plan(a)| ==> !raises(Plan(a)[i])) && !raises(Construct) && !raises(Cleanup) ==>
            o == Outcome([Construct] + Plan(a) + [Cleanup], None))
      && (o.raised.Some? && o.raised.value != Cleanup && o.raised.value != Construct ==>
           exists k :: 0 <= k < |Plan(a)| && o.started == [Construct] + Plan(a)[..k + 1] + [Cleanup]
                       && raises(Plan(a)[k]))
  {
    RunMainSteps(Plan(a), raises);
  }

  lemma RunMainSteps(steps: seq<Step>, raises: Step -> bool)
    ensures var o := RunMain(steps, raises);
      && (raises(Construct) ==> o == Outcome([Construct], Some(Construct)))
      && (Cleanup in o.started <==> !raises(Construct))
      && (!raises(Construct) && raises(Cleanup) ==> o.raised == Some(Cleanup))
      && ((forall i :: 0 <= i < |steps| ==> !raises(steps[i])) && !raises(Construct) && !raises(Cleanup) ==>
            o == Outcome([Construct] + steps + [Cleanup], None))
      && (o.raised.Some? && o.raised.value != Cleanup && o.raised.value != Construct ==>
           exists k :: 0 <= k < |steps| && o.started == [Construct] + steps[..k + 1] + [Cleanup]
                       && raises(steps[k]))
  {
    if !raises(Construct) {
      var body := RunUntilRaise(steps, raises);
      var o := RunThenCleanup(steps, raises);
      assert RunMain(steps, raises).started == [Construct] + o.started;
      assert RunMain(steps, raises).started[|o.started|] == Cleanup;
      if body.raised.Some? && !raises(Cleanup) {
        var k := |body.started| - 1;
        assert body.started == steps[..k + 1];
        assert RunMain(steps, raises).started == [Construct] + steps[..k + 1] + [Cleanup];
      }
    }
  }

  // ---------------------------------------------------------------------
  // Help is never printed as written; --backup is never acted on

  /** With the default port, `any(...)` is always true, so help is not
      printed even for an empty command line: the run does nothing but
      construct the study and clean up. */
  lemma HelpNeverWithDefaultPort(a: Args, raises: Step -> bool)
    requires a.port == DefaultPort
    ensures PrintHelp !in Plan(a)
    ensures Plan(NoArgs) == []
    ensures !raises(Construct) ==> Main(NoArgs, raises).started == [Construct, Cleanup]
  {
  }

  /** `--backup` is parsed but selects no step: the run does nothing but
      clean up. */
  lemma BackupIgnored(raises: Step -> bool)
    ensures var a := NoArgs.(backup := true);
      Plan(a) == [] && BackupDatabase !in Main(a, raises).started
  {
  }

  /** The flags that name a step. */
  predicate AnyStepFlag(a: Args) {
    a.initDb || a.analyze || a.visualize || a.dashboard || a.backup
  }

  /** The steps as the help text and flag list promise them: `--backup`
      runs `backup_database`, and help is printed exactly when no step is
      asked for, whatever the port. `main` never calls `backup_database`, so
      nothing fixes where the backup goes; placing it after initialisation
      and before the analysis is this model's choice. */
  function IntendedPlan(a: Args): (steps: seq<Step>)
    ensures Cleanup !in steps
  {
    (if a.initDb then [InitializeDatabase, AddSampleData] else [])
    + (if a.backup then [BackupDatabase] else [])
    + (if a.analyze then [RunAnalysis] else [])
    + (if a.visualize then [GenerateVisualizations] else [])
    + (if a.dashboard then [RunDashboard(a.port)] else [])
    + (if !AnyStepFlag(a) then [PrintHelp] else [])
  }

  /** `main` with the intended steps. */
  function IntendedMain(a: Args, raises: Step -> bool): Outcome {
    RunMain(IntendedPlan(a), raises)
  }

  /** Help exactly when no step flag is given, backup exactly when asked,
      and otherwise the same steps in the same order as written. */
  lemma IntendedPlanProperties(a: Args, raises: Step -> bool)
    ensures PrintHelp in IntendedPlan(a) <==> !AnyStepFlag(a)
    ensures IntendedPlan(a) == [PrintHelp] <==> !AnyStepFlag(a)
    ensures BackupDatabase in IntendedPlan(a) <==> a.backup
    ensures AnyStepFlag(a) && !a.backup ==> IntendedPlan(a) == Plan(a)
    ensures !raises(Construct) ==> IntendedMain(NoArgs, raises).started == [Construct, PrintHelp, Cleanup]
  {
    IntendedHelp(a);
    IntendedBackup(a);
    IntendedAgreesWithWritten(a);
    IntendedEmptyRun(raises);
  }

  lemma IntendedHelp(a: Args)
    ensures PrintHelp in IntendedPlan(a) <==> !AnyStepFlag(a)
    ensures IntendedPlan(a) == [PrintHelp] <==> !AnyStepFlag(a)
  {
  }

  lemma IntendedBackup(a: Args)
    ensures BackupDatabase in IntendedPlan(a) <==> a.backup
  {
  }

  lemma IntendedAgreesWithWritten(a: Args)
    ensures AnyStepFlag(a) && !a.backup ==> IntendedPlan(a) == Plan(a)
  {
  }

  lemma IntendedEmptyRun(raises: Step -> bool)
    ensures !raises(Construct) ==> IntendedMain(NoArgs, raises).started == [Construct, PrintHelp, Cleanup]
  {
    assert IntendedPlan(NoArgs) == [PrintHelp];
  }
}
