/** `add_sample_data` (main.py:125-225): four participants, then six weekly
    measurements each, with gains set by age and group.

    The start date is `datetime.now().date()`, taken here as a parameter, and
    dates are day numbers. */
module SampleData {

  import opened Wrappers
  import Storage

  /** A participant dict of the sample. */
  datatype Profile = Profile(age: int, gender: string, weightKg: real, heightCm: real,
                             trainingStatus: string, group: string, dosingProtocol: string,
                             populationCategory: string, experienceYears: real)

  const Participants: seq<Profile> := [
    Profile(25, "male", 75.5, 180.0, "trained", "creatine", "loading", "young trained", 3.5),
    Profile(28, "male", 78.0, 175.0, "trained", "placebo", "loading", "young trained", 4.0),
    Profile(52, "male", 82.0, 178.0, "untrained", "creatine", "maintenance", "older untrained", 0.5),
    Profile(55, "male", 80.0, 176.0, "untrained", "placebo", "maintenance", "older untrained", 0.2)
  ]

  const Weeks := 6

  /** The dict `add_participant` receives. */
  function ProfileRow(p: Profile): Storage.Row {
    map["age" := Storage.IntCell(p.age), "gender" := Storage.TextCell(p.gender),
        "weight_kg" := Storage.RealCell(p.weightKg), "height_cm" := Storage.RealCell(p.heightCm),
        "training_status" := Storage.TextCell(p.trainingStatus),
        "group_assignment" := Storage.TextCell(p.group),
        "dosing_protocol" := Storage.TextCell(p.dosingProtocol),
        "population_category" := Storage.TextCell(p.populationCategory),
        "training_experience_years" := Storage.RealCell(p.experienceYears)]
  }

  /** Weekly gains in strength (kg of 1RM) and lean mass (kg). */
  datatype Gains = Gains(strength: real, leanMass: real)

  /** main.py:194-209: the first matching branch sets the gains. */
  function WeeklyGains(p: Profile): (g: Gains)
    ensures g.strength > 0.0 && g.leanMass > 0.0
    ensures g.leanMass * 10.0 == g.strength
  {
    if p.age < 30 && p.group == "creatine" then Gains(5.0, 0.5)
    else if p.age < 30 && p.group == "placebo" then Gains(3.0, 0.3)
    else if p.age >= 50 && p.group == "creatine" then Gains(2.5, 0.25)
    else Gains(2.0, 0.2)
  }

  /** One measurement dict. */
  datatype Measurement = Measurement(participantId: int, date: int, strength: real, leanMass: real,
                                     muscleThickness: real, creatineKinase: real,
                                     performance: real, fatigue: int)

  /** The measurement of `week` (0 to 5) for a participant. */
  function MeasurementAt(pid: int, p: Profile, start: int, week: nat): Measurement {
    var g := WeeklyGains(p);
    Measurement(pid, start + 7 * week, 100.0 + g.strength * week as real, 65.0 + g.leanMass * week as real,
                35.0 + week as real * 0.2, 150.0 + (week * 10) as real, 8.5 + week as real * 0.2, 3)
  }

  /** The dict `add_measurement` receives. */
  function MeasurementRow(m: Measurement): Storage.Row {
    map["participant_id" := Storage.IntCell(m.participantId),
        "measurement_date" := Storage.DateCell(m.date),
        "strength_1rm_kg" := Storage.RealCell(m.strength),
        "lean_mass_kg" := Storage.RealCell(m.leanMass),
        "muscle_thickness_mm" := Storage.RealCell(m.muscleThickness),
        "creatine_kinase_level" := Storage.RealCell(m.creatineKinase),
        "performance_score" := Storage.RealCell(m.performance),
        "fatigue_level" := Storage.IntCell(m.fatigue)]
  }

  // ---------------------------------------------------------------------
  // Properties of the generation rule

  /** The rule the four sample participants meet, and the case it leaves to
      the last branch: a creatine participant aged 30 to 49 gains like the
      older placebo one. */
  lemma GainsBySample()
    ensures WeeklyGains(Participants[0]) == Gains(5.0, 0.5)
    ensures WeeklyGains(Participants[1]) == Gains(3.0, 0.3)
    ensures WeeklyGains(Participants[2]) == Gains(2.5, 0.25)
    ensures WeeklyGains(Participants[3]) == Gains(2.0, 0.2)
    ensures forall p: Profile :: 30 <= p.age < 50 ==> WeeklyGains(p) == Gains(2.0, 0.2)
  {
    assert "creatine" != "placebo" by { assert "creatine"[0] != "placebo"[0]; }
  }

  /** Among participants of one age band, creatine gains at least as much as
      placebo. */
  lemma CreatineGainsMore(c: Profile, q: Profile)
    requires c.group == "creatine" && q.group == "placebo"
    requires (c.age < 30 && q.age < 30) || (c.age >= 50 && q.age >= 50) || (30 <= c.age < 50 && 30 <= q.age < 50)
    ensures WeeklyGains(c).strength >= WeeklyGains(q).strength
    ensures WeeklyGains(c).leanMass >= WeeklyGains(q).leanMass
  {
    assert "creatine" != "placebo" by { assert "creatine"[0] != "placebo"[0]; }
  }

  /** Week 0 is the same baseline for everyone. */
  lemma Baseline(pid: int, p: Profile, start: int)
    ensures MeasurementAt(pid, p, start, 0)
              == Measurement(pid, start, 100.0, 65.0, 35.0, 150.0, 8.5, 3)
  {
  }

  /** Dates are a week apart, so strictly increasing; strength and lean mass
      grow with the week; fatigue stays at 3. */
  lemma Progression(pid: int, p: Profile, start: int, w1: nat, w2: nat)
    requires w1 < w2
    ensures MeasurementAt(pid, p, start, w1).date < MeasurementAt(pid, p, start, w2).date
    ensures MeasurementAt(pid, p, start, w2).date - MeasurementAt(pid, p, start, w1).date == 7 * (w2 - w1)
    ensures MeasurementAt(pid, p, start, w1).strength < MeasurementAt(pid, p, start, w2).strength
    ensures MeasurementAt(pid, p, start, w1).leanMass < MeasurementAt(pid, p, start, w2).leanMass
    ensures MeasurementAt(pid, p, start, w1).fatigue == MeasurementAt(pid, p, start, w2).fatigue == 3
  {
    var g := WeeklyGains(p);
    assert g.strength * w1 as real < g.strength * w2 as real;
    assert g.leanMass * w1 as real < g.leanMass * w2 as real;
  }

  /** The last week of each sample participant. */
  lemma FinalWeek(start: int)
    ensures MeasurementAt(1, Participants[0], start, 5).strength == 125.0
    ensures MeasurementAt(1, Participants[3], start, 5).strength == 110.0
    ensures MeasurementAt(1, Participants[2], start, 5).leanMass == 66.25
  {
    GainsBySample();
  }

  /** Every generated dict carries all the fields `add_measurement` requires,
      and a value for every parameter of its statement. */
  lemma RequiredPresent(m: Measurement)
    ensures Storage.Bound(Storage.RequiredMeasurementFields, MeasurementRow(m))
    ensures Storage.Bound(Storage.MeasurementColumns, MeasurementRow(m))
  {
  }

  /** Every participant dict gives a value for each parameter of the
      participant statement. */
  lemma ProfilePresent(p: Profile)
    ensures Storage.Bound(Storage.ParticipantColumns, ProfileRow(p))
  {
  }

  // ---------------------------------------------------------------------
  // The generator against the storage model

  /** All 24 measurements, participant by participant, week by week. */
  function Schedule(pids: seq<int>, start: int): (ms: seq<Measurement>)
    requires |pids| == |Participants|
    ensures |ms| == |Participants| * Weeks
    ensures forall j :: 0 <= j < |ms| ==> ms[j].participantId == pids[j / Weeks]
  {
    seq(|Participants| * Weeks, j requires 0 <= j < |Participants| * Weeks =>
      MeasurementAt(pids[j / Weeks], Participants[j / Weeks], start, j % Weeks))
  }

  datatype SampleOutcome = SampleOutcome(db: Storage.Db, participantIds: seq<int>, measurementIds: seq<int>)

  /** The ids are new to the table, each used once. */
  predicate FreshIds(ids: seq<int>, before: map<int, Storage.Row>) {
    && (forall j :: 0 <= j < |ids| ==> ids[j] !in before)
    && (forall j, k :: 0 <= j < k < |ids| ==> ids[j] != ids[k])
  }

  /** Row `j` of `rows`, as inserted into `columns`, is stored under `ids[j]`. */
  predicate StoredAt(table: map<int, Storage.Row>, ids: seq<int>, columns: seq<string>, rows: seq<Storage.Row>)
    requires |ids| <= |rows|
  {
    forall j :: 0 <= j < |ids| ==>
      ids[j] in table && Storage.Bound(columns, rows[j]) && table[ids[j]] == Storage.InsertedRow(columns, rows[j])
  }

  /** Every row of `before` is still in `after`, unchanged. */
  predicate Keeps(before: map<int, Storage.Row>, after: map<int, Storage.Row>) {
    forall id :: id in before ==> id in after && after[id] == before[id]
  }

  /** Storing the next row under an id not yet in the table keeps what the
      generator's loops maintain. */
  lemma StoreStep(before: map<int, Storage.Row>, table: map<int, Storage.Row>, ids: seq<int>,
                  columns: seq<string>, rows: seq<Storage.Row>, id: int)
    requires |ids| < |rows|
    requires FreshIds(ids, before) && Keeps(before, table)
    requires StoredAt(table, ids, columns, rows)
    requires forall k :: 0 <= k < |ids| ==> ids[k] in table
    requires id !in table
    requires Storage.Bound(columns, rows[|ids|])
    ensures var after := table[id := Storage.InsertedRow(columns, rows[|ids|])];
      && FreshIds(ids + [id], before) && Keeps(before, after)
      && StoredAt(after, ids + [id], columns, rows)
      && forall k :: 0 <= k < |ids| + 1 ==> (ids + [id])[k] in after
  {
  }

  function ProfileRows(): (rows: seq<Storage.Row>)
    ensures |rows| == |Participants|
    ensures forall k :: 0 <= k < |rows| ==> rows[k] == ProfileRow(Participants[k])
  {
    seq(|Participants|, k requires 0 <= k < |Participants| => ProfileRow(Participants[k]))
  }

  function MeasurementRows(ms: seq<Measurement>): (rows: seq<Storage.Row>)
    ensures |rows| == |ms|
    ensures forall j :: 0 <= j < |ms| ==> rows[j] == MeasurementRow(ms[j])
  {
    seq(|ms|, j requires 0 <= j < |ms| => MeasurementRow(ms[j]))
  }

  /** `add_sample_data` never fails on a field check or an unbound
      parameter: it inserts the four participants and their 24 measurements
      under new ids and leaves the existing rows alone. */
  method AddSampleData(db: Storage.Db, start: int) returns (r: Result<SampleOutcome, Storage.StorageError>)
    requires Storage.Valid(db)
    ensures r.Success?
    ensures r.Success? ==>
              && |r.value.participantIds| == |Participants|
              && FreshIds(r.value.participantIds, db.participants)
              && StoredAt(r.value.db.participants, r.value.participantIds, Storage.ParticipantColumns, ProfileRows())
              && Keeps(db.participants, r.value.db.participants)
    ensures r.Success? ==>
              var ms := Schedule(r.value.participantIds, start);
              && |r.value.measurementIds| == |ms|
              && FreshIds(r.value.measurementIds, db.measurements)
              && StoredAt(r.value.db.measurements, r.value.measurementIds, Storage.MeasurementColumns, MeasurementRows(ms))
              && Keeps(db.measurements, r.value.db.measurements)
  {
    var afterParticipants, pids := AddParticipants(db);
    var ms := Schedule(pids, start);
    var cur, mids := AddMeasurements(afterParticipants, ms);
    r := Success(SampleOutcome(cur, pids, mids));
  }

  /** The participant loop of main.py:182-184. */
  method AddParticipants(db: Storage.Db) returns (cur: Storage.Db, pids: seq<int>)
    requires Storage.Valid(db)
    ensures Storage.Valid(cur) && cur.measurements == db.measurements
    ensures |pids| == |Participants| && FreshIds(pids, db.participants)
    ensures StoredAt(cur.participants, pids, Storage.ParticipantColumns, ProfileRows())
    ensures Keeps(db.participants, cur.participants)
  {
    cur, pids := db, [];
    var rows := ProfileRows();
    var i := 0;
    while i < |Participants|
      invariant 0 <= i <= |Participants| && |pids| == i
      invariant Storage.Valid(cur) && cur.measurements == db.measurements
      invariant FreshIds(pids, db.participants)
      invariant forall k :: 0 <= k < i ==> pids[k] in cur.participants
      invariant StoredAt(cur.participants, pids, Storage.ParticipantColumns, rows)
      invariant Keeps(db.participants, cur.participants)
    {
      ProfilePresent(Participants[i]);
      var added := Storage.AddParticipant(cur, rows[i]);
      assert added.Success?;
      StoreStep(db.participants, cur.participants, pids, Storage.ParticipantColumns, rows, added.value.1);
      cur, pids := added.value.0, pids + [added.value.1];
      i := i + 1;
    }
  }

  /** The measurement loop of main.py:189-220: every dict passes the
      required-field check and binds every parameter, so each is stored. */
  method AddMeasurements(db: Storage.Db, ms: seq<Measurement>) returns (cur: Storage.Db, mids: seq<int>)
    requires Storage.Valid(db)
    ensures cur.participants == db.participants
    ensures |mids| == |ms| && FreshIds(mids, db.measurements)
    ensures StoredAt(cur.measurements, mids, Storage.MeasurementColumns, MeasurementRows(ms))
    ensures Keeps(db.measurements, cur.measurements)
  {
    cur, mids := db, [];
    var rows := MeasurementRows(ms);
    var i := 0;
    while i < |ms|
      invariant 0 <= i <= |ms| && |mids| == i
      invariant Storage.Valid(cur) && cur.participants == db.participants
      invariant FreshIds(mids, db.measurements)
      invariant forall k :: 0 <= k < i ==> mids[k] in cur.measurements
      invariant StoredAt(cur.measurements, mids, Storage.MeasurementColumns, rows)
      invariant Keeps(db.measurements, cur.measurements)
    {
      RequiredPresent(ms[i]);
      var added := Storage.AddMeasurement(cur, rows[i]);
      assert added.Success?;
      StoreStep(db.measurements, cur.measurements, mids, Storage.MeasurementColumns, rows, added.value.1);
      cur, mids := added.value.0, mids + [added.value.1];
      i := i + 1;
    }
  }
}
