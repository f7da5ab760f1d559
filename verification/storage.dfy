/** The write paths and file naming of `CreatineDatabase` (database.py):
    `add_participant`, `add_measurement` with its required-field check,
    `update_participant` with its SET clause and its write into the caller's
    dict, and the default name of `backup_database`.

    The database is an abstract pair of tables keyed by row id; the engine's
    SQL evaluation is not modelled, only the effect each statement has on the
    rows it names. */
module Storage {

  import opened Wrappers
  import opened Text
  import Dicts

  /** A value as it travels between Python and the engine. */
  datatype Cell = Null | IntCell(i: int) | RealCell(r: real) | TextCell(s: string) | DateCell(day: int)

  /** A row or a parameter dict, by column name. */
  type Row = map<string, Cell>

  /** The two tables the code writes, by row id, with the largest id handed out
      so far. */
  datatype Db = Db(participants: map<int, Row>, lastParticipantId: int,
                   measurements: map<int, Row>, lastMeasurementId: int)

  /** Every row id lies at or below the last id handed out for its table. */
  predicate Valid(db: Db) {
    && (forall k :: k in db.participants ==> k <= db.lastParticipantId)
    && (forall k :: k in db.measurements ==> k <= db.lastMeasurementId)
  }

  datatype StorageError =
    | MissingField(field: string)
    | UnboundParameter(name: string)
    | EmptySetClause
    | UnknownColumn(column: string)

  /** The message the source raises a `ValueError` with, or the one the
      engine raises for an unbound parameter, an empty SET list or a SET
      clause naming no column of the table. */
  function ErrorMessage(e: StorageError): string {
    match e
    case MissingField(f) => "Missing required field: " + f
    case UnboundParameter(n) => "A value is required for bind parameter '" + n + "'"
    case EmptySetClause => "syntax error"
    case UnknownColumn(c) => "no such column: " + c
  }

  // ---------------------------------------------------------------------
  // Named parameters

  /** Every name of `names` is a key of `data`; a key present with value
      `None` counts. */
  predicate Bound(names: seq<string>, data: Row) {
    forall i :: 0 <= i < |names| ==> names[i] in data
  }

  /** `name` is the first of `names`, in order, that is not a key of `data`. */
  predicate FirstAbsent(names: seq<string>, data: Row, name: string) {
    exists i :: 0 <= i < |names| && names[i] == name && name !in data
                && forall j :: 0 <= j < i ==> names[j] in data
  }

  /** The engine binds a statement's named parameters in the order they
      appear and refuses the first one the dict has no key for. */
  function FirstUnbound(names: seq<string>, data: Row): (u: Option<string>)
    ensures u.None? <==> Bound(names, data)
    ensures u.Some? ==> FirstAbsent(names, data, u.value)
  {
    if names == [] then None
    else if names[0] !in data then
      Some(names[0])
    else
      var u := FirstUnbound(names[1..], data);
      if u.Some? then
        ShiftFirstAbsent(names, data, u.value);
        u
      else
        u
  }

  /** A first absent name of the tail is the first absent name of the whole
      sequence when its head is bound. */
  lemma ShiftFirstAbsent(names: seq<string>, data: Row, name: string)
    requires names != [] && names[0] in data
    ensures FirstAbsent(names[1..], data, name) ==> FirstAbsent(names, data, name)
  {
    if FirstAbsent(names[1..], data, name) {
      var i :| 0 <= i < |names[1..]| && names[1..][i] == name && name !in data
               && forall j :: 0 <= j < i ==> names[1..][j] in data;
      assert names[i + 1] == name;
      assert forall j :: 0 <= j < i + 1 ==> names[j] in data by {
        forall j | 0 <= j < i + 1 ensures names[j] in data {
          if j > 0 { assert names[j] == names[1..][j - 1]; }
        }
      }
    }
  }

  /** The row an INSERT with named parameters stores once every parameter is
      bound: exactly the listed columns, each taking the dict's value. Keys
      of the dict that the statement does not name are ignored. */
  function InsertedRow(columns: seq<string>, data: Row): (row: Row)
    requires Bound(columns, data)
    ensures row.Keys == set c | c in columns
    ensures forall c :: c in row ==> row[c] == data[c]
  {
    map c | c in columns :: data[c]
  }

  // ---------------------------------------------------------------------
  // add_participant

  const ParticipantColumns := ["age", "gender", "weight_kg", "height_cm", "training_experience_years",
                               "training_status", "group_assignment", "dosing_protocol",
                               "population_category"]

  /** `add_participant` (database.py:50-69) checks no field itself; the
      engine refuses a dict that lacks one of the nine parameters, naming the
      first in statement order, and the database is not touched. Otherwise
      the row is stored under a new id, larger than every existing one. */
  function AddParticipant(db: Db, data: Row): (r: Result<(Db, int), StorageError>)
    requires Valid(db)
    ensures r.Failure? <==> !Bound(ParticipantColumns, data)
    ensures r.Failure? ==> r.error.UnboundParameter? && FirstAbsent(ParticipantColumns, data, r.error.name)
    ensures r.Success? ==>
              && Valid(r.value.0)
              && r.value.1 !in db.participants && r.value.1 > db.lastParticipantId
              && r.value.0.participants == db.participants[r.value.1 := InsertedRow(ParticipantColumns, data)]
              && r.value.0.measurements == db.measurements
  {
    match FirstUnbound(ParticipantColumns, data)
    case Some(name) => Failure(UnboundParameter(name))
    case None =>
      var id := db.lastParticipantId + 1;
      Success((db.(participants := db.participants[id := InsertedRow(ParticipantColumns, data)],
                   lastParticipantId := id), id))
  }

  // ---------------------------------------------------------------------
  // add_measurement

  const RequiredMeasurementFields := ["participant_id", "measurement_date", "strength_1rm_kg", "lean_mass_kg"]

  const MeasurementColumns := ["participant_id", "measurement_date", "strength_1rm_kg",
                               "lean_mass_kg", "muscle_thickness_mm", "creatine_kinase_level",
                               "performance_score", "fatigue_level"]

  /** The required-field loop of database.py:78-82: the first required field,
      in the listed order, that is not a key of `data`. A key that is present
      with value `None` counts as present. */
  method FirstMissingField(data: Row) returns (missing: Option<string>)
    ensures missing.None? <==> Bound(RequiredMeasurementFields, data)
    ensures missing.Some? ==> FirstAbsent(RequiredMeasurementFields, data, missing.value)
  {
    var i := 0;
    while i < |RequiredMeasurementFields|
      invariant 0 <= i <= |RequiredMeasurementFields|
      invariant forall j :: 0 <= j < i ==> RequiredMeasurementFields[j] in data
    {
      var field := RequiredMeasurementFields[i];
      if field !in data {
        return Some(field);
      }
      i := i + 1;
    }
    return None;
  }

  /** The required fields are the first four parameters of the statement, so
      a dict that passes the engine's binding passes the field check. */
  lemma RequiredFirst(data: Row)
    ensures !Bound(RequiredMeasurementFields, data) ==> !Bound(MeasurementColumns, data)
  {
    if !Bound(RequiredMeasurementFields, data) {
      var i :| 0 <= i < |RequiredMeasurementFields| && RequiredMeasurementFields[i] !in data;
      assert MeasurementColumns[i] == RequiredMeasurementFields[i];
    }
  }

  /** `add_measurement` (database.py:71-104): a missing required field is
      reported first, naming the first absent one in the listed order. A dict
      with all four that lacks one of the other four parameters is refused
      by the engine, naming the first in statement order. Either way the
      database is not touched. Otherwise the row is stored under a new id,
      larger than every existing one. The participant the row names is not
      checked to exist. */
  method AddMeasurement(db: Db, data: Row) returns (r: Result<(Db, int), StorageError>)
    requires Valid(db)
    ensures r.Failure? <==> !Bound(MeasurementColumns, data)
    ensures r.Failure? && r.error.MissingField? <==> !Bound(RequiredMeasurementFields, data)
    ensures r.Failure? && r.error.MissingField? ==> FirstAbsent(RequiredMeasurementFields, data, r.error.field)
    ensures r.Failure? && !r.error.MissingField? ==>
              r.error.UnboundParameter? && FirstAbsent(MeasurementColumns, data, r.error.name)
    ensures r.Success? ==>
              && Valid(r.value.0)
              && r.value.1 !in db.measurements && r.value.1 > db.lastMeasurementId
              && r.value.0.measurements == db.measurements[r.value.1 := InsertedRow(MeasurementColumns, data)]
              && r.value.0.participants == db.participants
  {
    RequiredFirst(data);
    var missing := FirstMissingField(data);
    if missing.Some? {
      return Failure(MissingField(missing.value));
    }
    var unbound := FirstUnbound(MeasurementColumns, data);
    if unbound.Some? {
      return Failure(UnboundParameter(unbound.value));
    }
    var id := db.lastMeasurementId + 1;
    var db' := db.(measurements := db.measurements[id := InsertedRow(MeasurementColumns, data)],
                   lastMeasurementId := id);
    r := Success((db', id));
  }

  // ---------------------------------------------------------------------
  // update_participant

  /** The parameter dict the caller passes, in insertion order. */
  type Params = Dicts.Dict<Cell>

  /** One `key = :key` clause per key, in dict order. */
  function SetClauses(keys: seq<string>): (cs: seq<string>)
    ensures |cs| == |keys|
  {
    if keys == [] then [] else [keys[0] + " = :" + keys[0]] + SetClauses(keys[1..])
  }

  /** The statement text of database.py:214-218, indentation included. */
  function UpdateQuery(keys: seq<string>): string {
    "\n            UPDATE participants \n            SET " + Join(SetClauses(keys), ", ")
    + "\n            WHERE participant_id = :participant_id\n            "
  }

  /** The names of the parameters an update query binds: one per SET clause
      and the id in the WHERE clause. */
  function Placeholders(keys: seq<string>): set<string> {
    (set k | k in keys) + {"participant_id"}
  }

  /** Every SET clause names a column and binds the parameter of that same
      name, in the order of the keys. */
  lemma SetClauseNamesItsColumn(keys: seq<string>, i: int)
    requires 0 <= i < |keys|
    ensures StartsWith(SetClauses(keys)[i], keys[i] + " = :")
    ensures EndsWith(SetClauses(keys)[i], ":" + keys[i])
  {
    if i > 0 {
      SetClauseNamesItsColumn(keys[1..], i - 1);
      assert SetClauses(keys)[i] == SetClauses(keys[1..])[i - 1];
    } else {
      ClauseShape(keys[0]);
    }
  }

  lemma ClauseShape(k: string)
    ensures StartsWith(k + " = :" + k, k + " = :")
    ensures EndsWith(k + " = :" + k, ":" + k)
  {
    var c := k + " = :" + k;
    assert c[..|k| + 4] == k + " = :";
    assert c[|c| - (|k| + 1)..] == ":" + k;
  }

  /** The id column: the key a stored row sits under, not one of its cells. */
  const IdColumn := "participant_id"

  /** The row the SET list `k = :k` for each key of `sets` leaves behind: each
      key sets the column of that name. A clause for the id column writes the
      id the WHERE clause matched back into it, so the row's cells do not
      change for it. */
  function Updated(row: Row, sets: Params): (r: Row)
    requires Dicts.DistinctKeys(sets)
    ensures forall k :: k != IdColumn && Dicts.Get(sets, k).Some? ==> k in r && r[k] == Dicts.Get(sets, k).value
    ensures forall k :: k in row && (k == IdColumn || Dicts.Get(sets, k).None?) ==> k in r && r[k] == row[k]
    decreases |sets|
  {
    if sets == [] then row
    else
      assert forall i :: 0 <= i < |sets[1..]| ==> sets[1..][i].0 != sets[0].0;
      Dicts.GetAbsent(sets[1..], sets[0].0);
      if sets[0].0 == IdColumn then Updated(row, sets[1..])
      else Updated(row[sets[0].0 := sets[0].1], sets[1..])
  }

  /** The updated row has a cell for every column it had and for every key
      of the SET list but the id, and for nothing else. */
  lemma {:induction false} UpdatedKeys(row: Row, sets: Params)
    requires Dicts.DistinctKeys(sets)
    ensures Updated(row, sets).Keys == row.Keys + (set k | k in Dicts.Keys(sets) && k != IdColumn)
    decreases |sets|
  {
    if sets != [] {
      assert forall i :: 0 <= i < |sets[1..]| ==> sets[1..][i].0 != sets[0].0;
      assert Dicts.Keys(sets) == [sets[0].0] + Dicts.Keys(sets[1..]);
      if sets[0].0 == IdColumn {
        UpdatedKeys(row, sets[1..]);
      } else {
        UpdatedKeys(row[sets[0].0 := sets[0].1], sets[1..]);
      }
    }
  }

  /** The first key, in SET-list order, that is not one of the column names
      as spelled in `columns`. The engine resolves names regardless of ASCII
      case; this test does not (see README). */
  function FirstUnknown(keys: seq<string>, columns: set<string>): (u: Option<string>)
    ensures u.None? <==> forall i :: 0 <= i < |keys| ==> keys[i] in columns
    ensures u.Some? ==> exists i :: 0 <= i < |keys| && keys[i] == u.value && u.value !in columns
                                    && forall j :: 0 <= j < i ==> keys[j] in columns
  {
    if keys == [] then None
    else if keys[0] !in columns then Some(keys[0])
    else
      FirstUnknown(keys[1..], columns)
  }

  /** After the id is written in, the caller's dict holds a value for every
      parameter the query names, and nothing else. */
  lemma PutPlaceholders(data: Params, participantId: int)
    requires Dicts.DistinctKeys(data)
    ensures Placeholders(Dicts.Keys(data))
            == set k | k in Dicts.Keys(Dicts.Put(data, "participant_id", IntCell(participantId)))
  {
    var ks := Dicts.Keys(data);
    var ks' := Dicts.Keys(Dicts.Put(data, "participant_id", IntCell(participantId)));
    if "participant_id" in ks {
      assert ks' == ks;
    } else {
      assert ks' == ks + ["participant_id"];
    }
  }

  datatype UpdateOutcome = UpdateOutcome(query: string, callerDict: Params, result: Result<(Db, bool), StorageError>)

  /** `update_participant` (database.py:207-234). The query is built from the
      keys the caller passed; then `participant_id` is written into the
      caller's dict, whatever happens next. The engine refuses a statement
      whose SET list is empty, and then one whose SET list names a column
      the table (whose columns are `columns`, compared exactly) does not have. Otherwise the
      matching row, if any, takes the value of every key the caller passed,
      and the result is whether a row matched. */
  function UpdateParticipant(db: Db, columns: set<string>, participantId: int, data: Params): (o: UpdateOutcome)
    requires Dicts.DistinctKeys(data)
    ensures o.query == UpdateQuery(Dicts.Keys(data))
    ensures Dicts.DistinctKeys(o.callerDict)
    ensures Placeholders(Dicts.Keys(data)) == set k | k in Dicts.Keys(o.callerDict)
    ensures Dicts.Get(o.callerDict, IdColumn) == Some(IntCell(participantId))
    ensures forall k :: k != IdColumn ==> Dicts.Get(o.callerDict, k) == Dicts.Get(data, k)
    ensures data == [] <==> o.result == Failure(EmptySetClause)
    ensures data != [] ==>
              (o.result.Failure? <==> !forall i :: 0 <= i < |data| ==> Dicts.Keys(data)[i] in columns)
    ensures o.result.Failure? && o.result.error.UnknownColumn? ==>
              o.result.error.column !in columns &&
              exists i :: 0 <= i < |data| && Dicts.Keys(data)[i] == o.result.error.column
                          && forall j :: 0 <= j < i ==> Dicts.Keys(data)[j] in columns
    ensures o.result.Success? ==> (o.result.value.1 <==> participantId in db.participants)
    ensures o.result.Success? ==> o.result.value.0.measurements == db.measurements
    ensures o.result.Success? ==>
              forall id :: id in db.participants && id != participantId ==>
                id in o.result.value.0.participants &&
                o.result.value.0.participants[id] == db.participants[id]
    ensures o.result.Success? && participantId in db.participants ==>
              participantId in o.result.value.0.participants &&
              o.result.value.0.participants[participantId] == Updated(db.participants[participantId], data)
    ensures o.result.Success? && participantId !in db.participants ==> o.result.value.0 == db
  {
    var query := UpdateQuery(Dicts.Keys(data));
    var bound := Dicts.Put(data, IdColumn, IntCell(participantId));
    PutPlaceholders(data, participantId);
    if data == [] then
      UpdateOutcome(query, bound, Failure(EmptySetClause))
    else
      match FirstUnknown(Dicts.Keys(data), columns)
      case Some(c) => UpdateOutcome(query, bound, Failure(UnknownColumn(c)))
      case None =>
        if participantId in db.participants then
          var row := Updated(db.participants[participantId], data);
          UpdateOutcome(query, bound, Success((db.(participants := db.participants[participantId := row]), true)))
        else
          UpdateOutcome(query, bound, Success((db, false)))
  }

  /** An update that succeeds on a table whose columns are at most the id and
      the inserted ones leaves a stored row with exactly the inserted columns:
      the id clause changes no cell and every other key is one of them. */
  lemma UpdateKeepsRowShape(db: Db, columns: set<string>, participantId: int, data: Params)
    requires Dicts.DistinctKeys(data)
    requires columns <= (set c | c in ParticipantColumns) + {IdColumn}
    requires participantId in db.participants
    requires db.participants[participantId].Keys == set c | c in ParticipantColumns
    ensures var o := UpdateParticipant(db, columns, participantId, data);
            o.result.Success? ==> o.result.value.0.participants[participantId].Keys == set c | c in ParticipantColumns
  {
    UpdatedKeys(db.participants[participantId], data);
  }

  // ---------------------------------------------------------------------
  // backup_database

  const DefaultDbPath := "database/creatine_study.db"

  /** The clock reading `datetime.now()` supplies. */
  datatype DateTime = DateTime(year: nat, month: nat, day: nat, hour: nat, minute: nat, second: nat)

  /** A reading `strftime` renders with fixed-width fields. Years before 1000
      are left out: how `%Y` pads them depends on the platform's C library. */
  predicate ValidDateTime(t: DateTime) {
    && 1000 <= t.year <= 9999 && 1 <= t.month <= 12 && 1 <= t.day <= 31
    && t.hour < 24 && t.minute < 60 && t.second < 60
  }

  /** `now.strftime('%Y%m%d_%H%M%S')` */
  function Timestamp(t: DateTime): (s: string)
    requires ValidDateTime(t)
    ensures |s| == 15
  {
    Padded(t.year, 4) + Padded(t.month, 2) + Padded(t.day, 2) + "_"
    + Padded(t.hour, 2) + Padded(t.minute, 2) + Padded(t.second, 2)
  }

  /** Reads a `%Y%m%d_%H%M%S` stamp. */
  function ParseTimestamp(s: string): Option<DateTime> {
    if |s| == 15 && s[8] == '_' && AllDigits(s[..8]) && AllDigits(s[9..]) then
      Some(DateTime(DigitsValue(s[0..4]), DigitsValue(s[4..6]), DigitsValue(s[6..8]),
                    DigitsValue(s[9..11]), DigitsValue(s[11..13]), DigitsValue(s[13..15])))
    else None
  }

  /** The stamp is unambiguous: reading it gives the clock reading back. */
  lemma TimestampRoundTrip(t: DateTime)
    requires ValidDateTime(t)
    ensures ParseTimestamp(Timestamp(t)) == Some(t)
  {
    var y, mo, d := Padded(t.year, 4), Padded(t.month, 2), Padded(t.day, 2);
    var h, mi, se := Padded(t.hour, 2), Padded(t.minute, 2), Padded(t.second, 2);
    StampFields(y, mo, d, h, mi, se);
    PaddedValue(t.year, 4);
    PaddedValue(t.month, 2);
    PaddedValue(t.day, 2);
    PaddedValue(t.hour, 2);
    PaddedValue(t.minute, 2);
    PaddedValue(t.second, 2);
  }

  /** Where each field of a stamp sits. */
  lemma StampFields(y: string, mo: string, d: string, h: string, mi: string, se: string)
    requires |y| == 4 && |mo| == 2 && |d| == 2 && |h| == 2 && |mi| == 2 && |se| == 2
    ensures var s := y + mo + d + "_" + h + mi + se;
      && |s| == 15 && s[8] == '_'
      && s[..8] == y + mo + d && s[9..] == h + mi + se
      && s[0..4] == y && s[4..6] == mo && s[6..8] == d
      && s[9..11] == h && s[11..13] == mi && s[13..15] == se
  {
  }

  /** database.py:239-241: without a path the copy goes next to the live file,
      named after it plus `.backup_` and the stamp; an explicit path, even an
      empty one, is used as given. */
  function BackupPath(dbPath: string, requested: Option<string>, now: DateTime): (p: string)
    requires ValidDateTime(now)
    ensures requested.Some? ==> p == requested.value
    ensures requested.None? ==> StartsWith(p, dbPath + ".backup_") && |p| == |dbPath| + 23
    ensures requested.None? ==> ParseTimestamp(p[|dbPath| + 8..]) == Some(now)
  {
    if requested.Some? then requested.value
    else
      var p := dbPath + ".backup_" + Timestamp(now);
      assert p[..|dbPath| + 8] == dbPath + ".backup_";
      assert p[|dbPath| + 8..] == Timestamp(now);
      TimestampRoundTrip(now);
      p
  }

  /** A default backup never overwrites the live file, and backups taken at
      different seconds get different names. */
  lemma BackupPathsDistinct(dbPath: string, t1: DateTime, t2: DateTime)
    requires ValidDateTime(t1) && ValidDateTime(t2)
    ensures BackupPath(dbPath, None, t1) != dbPath
    ensures t1 != t2 ==> BackupPath(dbPath, None, t1) != BackupPath(dbPath, None, t2)
  {
  }
}
