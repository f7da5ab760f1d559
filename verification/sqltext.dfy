/** SQL text the storage layer assembles before handing it to the engine:
    the schema split of `init_database` (database.py:31-48) and the filtered
    SELECTs of `get_participant_data` and `get_measurements`
    (database.py:106-144). SQL is plain text here; running it is not
    modelled.

    Every builder has a reader that recovers what was built, proved to be
    its inverse. */
module SqlText {

  import opened Wrappers
  import opened Text
  import Seqs

  // ---------------------------------------------------------------------
  // init_database

  /** The schema file the source opens, relative to the working directory. */
  const SchemaPath := "database/schema.sql"

  /** A piece of the schema is executed when something other than whitespace
      is left after stripping it. */
  predicate NonBlank(s: string) {
    Strip(s) != ""
  }

  /** The statements `init_database` executes, in order: the `;`-separated
      pieces of the schema that are not blank, each passed unstripped. */
  method SchemaStatements(schema: string) returns (executed: seq<string>)
    ensures executed == Seqs.Filter(Split(schema, ';'), NonBlank)
  {
    executed := ExecutePieces(Split(schema, ';'));
  }

  /** The loop of database.py:41-43 over the pieces of the split. */
  method ExecutePieces(pieces: seq<string>) returns (executed: seq<string>)
    ensures executed == Seqs.Filter(pieces, NonBlank)
  {
    executed := [];
    var i := 0;
    while i < |pieces|
      invariant 0 <= i <= |pieces|
      invariant executed == Seqs.Filter(pieces[..i], NonBlank)
    {
      Seqs.FilterPrefixStep(pieces, i, NonBlank);
      if NonBlank(pieces[i]) {
        executed := executed + [pieces[i]];
      }
      i := i + 1;
    }
    assert pieces[..i] == pieces;
  }

  /** What `init_database` does with the schema file: its statements, or the
      missing-file error when there is no file. */
  method InitDatabase(schemaFile: Option<string>) returns (r: Result<seq<string>, string>)
    ensures schemaFile.None? ==> r == Failure(SchemaPath)
    ensures schemaFile.Some? ==> r.Success?
    ensures schemaFile.Some? ==>
              forall k :: 0 <= k < |r.value| ==> NonBlank(r.value[k]) && ';' !in r.value[k]
    ensures schemaFile.Some? ==> Seqs.IsSubseq(r.value, Split(schemaFile.value, ';'))
    ensures schemaFile.Some? ==> |r.value| == Seqs.Count(Split(schemaFile.value, ';'), NonBlank)
  {
    if schemaFile.None? {
      return Failure(SchemaPath);
    }
    var executed := SchemaStatements(schemaFile.value);
    var pieces := Split(schemaFile.value, ';');
    Seqs.FilterIsSubseq(pieces, NonBlank);
    SplitPiecesFree(schemaFile.value, ';');
    forall k | 0 <= k < |executed| ensures ';' !in executed[k] {
      Seqs.FilterMembership(pieces, NonBlank, executed[k]);
    }
    r := Success(executed);
  }

  /** Exactly the non-blank pieces are executed: any subsequence of the pieces
      that is non-blank throughout and as long as the number of non-blank
      pieces is the list `init_database` executes. */
  lemma SchemaStatementsDetermined(schema: string, stmts: seq<string>)
    requires Seqs.IsSubseq(stmts, Split(schema, ';'))
    requires forall k :: 0 <= k < |stmts| ==> NonBlank(stmts[k])
    requires |stmts| == Seqs.Count(Split(schema, ';'), NonBlank)
    ensures stmts == Seqs.Filter(Split(schema, ';'), NonBlank)
  {
    Seqs.FilterUnique(stmts, Split(schema, ';'), NonBlank);
  }

  // ---------------------------------------------------------------------
  // Filter conditions

  /** Python truthiness of the optional arguments: `None` and `0` add no
      participant condition, `None` and `""` add no date condition. */
  predicate IdGiven(id: Option<int>) {
    id.Some? && id.value != 0
  }

  predicate DateGiven(date: Option<string>) {
    date.Some? && date.value != ""
  }

  datatype Condition = ParticipantIs(id: int) | DateFrom(date: string) | DateTo(date: string)

  /** The position a kind of condition takes in the WHERE clause. */
  function Rank(c: Condition): nat {
    match c
    case ParticipantIs(_) => 0
    case DateFrom(_) => 1
    case DateTo(_) => 2
  }

  /** The conditions `get_measurements` collects (database.py:126-132). */
  function Conditions(participant: Option<int>, start: Option<string>, end: Option<string>)
    : seq<Condition>
  {
    (if IdGiven(participant) then [ParticipantIs(participant.value)] else [])
    + (if DateGiven(start) then [DateFrom(start.value)] else [])
    + (if DateGiven(end) then [DateTo(end.value)] else [])
  }

  /** A condition is collected exactly when its argument is truthy; the
      conditions come participant first, then start, then end; and there are
      none exactly when every argument is falsy. */
  lemma ConditionsSpec(participant: Option<int>, start: Option<string>, end: Option<string>)
    ensures forall c :: c in Conditions(participant, start, end) <==>
              || (IdGiven(participant) && c == ParticipantIs(participant.value))
              || (DateGiven(start) && c == DateFrom(start.value))
              || (DateGiven(end) && c == DateTo(end.value))
    ensures var cs := Conditions(participant, start, end);
            forall i, j :: 0 <= i < j < |cs| ==> Rank(cs[i]) < Rank(cs[j])
    ensures Conditions(participant, start, end) == [] <==> !IdGiven(participant) && !DateGiven(start) && !DateGiven(end)
  {
    var a := if IdGiven(participant) then [ParticipantIs(participant.value)] else [];
    var b := if DateGiven(start) then [DateFrom(start.value)] else [];
    var c := if DateGiven(end) then [DateTo(end.value)] else [];
    assert Conditions(participant, start, end) == a + b + c;
  }

  function Render(c: Condition): string {
    match c
    case ParticipantIs(id) => "participant_id = " + IntToDecimal(id)
    case DateFrom(d) => "measurement_date >= '" + d + "'"
    case DateTo(d) => "measurement_date <= '" + d + "'"
  }

  function RenderAll(cs: seq<Condition>): (r: seq<string>)
    ensures |r| == |cs|
  {
    if cs == [] then [] else [Render(cs[0])] + RenderAll(cs[1..])
  }

  function WhereClause(cs: seq<Condition>): string {
    if cs == [] then "" else " WHERE " + Join(RenderAll(cs), " AND ")
  }

  const MeasurementsBase := "SELECT * FROM measurements"
  const MeasurementsOrder := " ORDER BY measurement_date"
  const ParticipantsBase := "SELECT * FROM participants"

  /** The query `get_measurements` runs (database.py:134-137). */
  function MeasurementQuery(participant: Option<int>, start: Option<string>, end: Option<string>)
    : string
  {
    MeasurementsBase + WhereClause(Conditions(participant, start, end)) + MeasurementsOrder
  }

  /** The query `get_participant_data` runs (database.py:109-111). */
  function ParticipantQuery(participant: Option<int>): string {
    ParticipantsBase + (if IdGiven(participant) then " WHERE " + Render(ParticipantIs(participant.value)) else "")
  }

  // ---------------------------------------------------------------------
  // Reading the SQL back

  /** The index of the first `c` in `t`, or `|t|` when there is none. */
  function SpanUntil(t: string, c: char): (k: nat)
    ensures k <= |t|
    ensures forall i :: 0 <= i < k ==> t[i] != c
    ensures k < |t| ==> t[k] == c
  {
    if t == [] || t[0] == c then 0 else 1 + SpanUntil(t[1..], c)
  }

  const ParticipantPrefix := "participant_id = "
  const FromPrefix := "measurement_date >= '"
  const ToPrefix := "measurement_date <= '"

  /** Reads one rendered condition off the front of `s`, with what follows it. */
  function ParseCondition(s: string): (r: Option<(Condition, string)>)
    ensures r.Some? ==> |r.value.1| < |s|
  {
    if StartsWith(s, ParticipantPrefix) then
      var t := s[|ParticipantPrefix|..];
      var k := SpanUntil(t, ' ');
      match ParseInt(t[..k])
      case Some(v) => Some((ParticipantIs(v), t[k..]))
      case None => None
    else if StartsWith(s, FromPrefix) then
      var t := s[|FromPrefix|..];
      var k := SpanUntil(t, '\'');
      if k < |t| then Some((DateFrom(t[..k]), t[k + 1..])) else None
    else if StartsWith(s, ToPrefix) then
      var t := s[|ToPrefix|..];
      var k := SpanUntil(t, '\'');
      if k < |t| then Some((DateTo(t[..k]), t[k + 1..])) else None
    else None
  }

  /** Reads conditions separated by ` AND ` until the text is used up. */
  function ParseConditions(s: string): Option<seq<Condition>>
    decreases |s|
  {
    match ParseCondition(s)
    case None => None
    case Some((c, rest)) =>
      if rest == "" then Some([c])
      else if StartsWith(rest, " AND ") then
        match ParseConditions(rest[5..])
        case None => None
        case Some(cs) => Some([c] + cs)
      else None
  }

  /** Recovers the conditions of a measurement query, or `None` when `q` is
      not one. */
  function ParseMeasurementQuery(q: string): Option<seq<Condition>> {
    if StartsWith(q, MeasurementsBase) && EndsWith(q[|MeasurementsBase|..], MeasurementsOrder) then
      var mid := q[|MeasurementsBase|..|q| - |MeasurementsOrder|];
      if mid == "" then Some([])
      else if StartsWith(mid, " WHERE ") then ParseConditions(mid[7..])
      else None
    else None
  }

  /** Recovers the participant filter of a participant query. */
  function ParseParticipantQuery(q: string): Option<Option<int>> {
    if q == ParticipantsBase then Some(None)
    else if StartsWith(q, ParticipantsBase + " WHERE ") then
      match ParseCondition(q[|ParticipantsBase + " WHERE "|..])
      case Some((ParticipantIs(v), "")) => Some(Some(v))
      case _ => None
    else None
  }

  /** A date can be read back only if it holds no quote character. */
  predicate Readable(c: Condition) {
    match c
    case ParticipantIs(_) => true
    case DateFrom(d) => '\'' !in d
    case DateTo(d) => '\'' !in d
  }

  lemma SpanUntilStops(a: string, b: string, c: char)
    requires c !in a
    requires b == [] || b[0] == c
    ensures SpanUntil(a + b, c) == |a|
    decreases |a|
  {
    if a != [] {
      assert (a + b)[1..] == a[1..] + b;
      SpanUntilStops(a[1..], b, c);
    }
  }

  lemma ParseRenderedParticipant(id: int, tail: string)
    requires tail == [] || tail[0] == ' '
    ensures ParseCondition(Render(ParticipantIs(id)) + tail) == Some((ParticipantIs(id), tail))
  {
    var s := Render(ParticipantIs(id)) + tail;
    var d := IntToDecimal(id);
    assert s == ParticipantPrefix + (d + tail);
    assert StartsWith(s, ParticipantPrefix);
    var t := s[|ParticipantPrefix|..];
    assert t == d + tail;
    IntToDecimalNoSpace(id);
    assert ' ' !in d;
    SpanUntilStops(d, tail, ' ');
    assert t[..|d|] == d;
    assert t[|d|..] == tail;
    IntDecimalRoundTrip(id);
  }

  lemma ParseRenderedFrom(d: string, tail: string)
    requires '\'' !in d
    ensures ParseCondition(Render(DateFrom(d)) + tail) == Some((DateFrom(d), tail))
  {
    var s := Render(DateFrom(d)) + tail;
    assert s == FromPrefix + (d + ("'" + tail));
    assert !StartsWith(s, ParticipantPrefix) by {
      assert s[0] == 'm';
    }
    assert StartsWith(s, FromPrefix);
    var t := s[|FromPrefix|..];
    assert t == d + ("'" + tail);
    SpanUntilStops(d, "'" + tail, '\'');
    assert t[..|d|] == d;
    assert t[|d| + 1..] == tail;
  }

  lemma ParseRenderedTo(d: string, tail: string)
    requires '\'' !in d
    ensures ParseCondition(Render(DateTo(d)) + tail) == Some((DateTo(d), tail))
  {
    var s := Render(DateTo(d)) + tail;
    assert s == ToPrefix + (d + ("'" + tail));
    assert !StartsWith(s, ParticipantPrefix) by {
      assert s[0] == 'm';
    }
    assert !StartsWith(s, FromPrefix) by {
      assert s[17] == '<';
    }
    assert StartsWith(s, ToPrefix);
    var t := s[|ToPrefix|..];
    assert t == d + ("'" + tail);
    SpanUntilStops(d, "'" + tail, '\'');
    assert t[..|d|] == d;
    assert t[|d| + 1..] == tail;
  }

  /** A rendered condition reads back as itself, leaving what follows it. */
  lemma ParseRendered(c: Condition, tail: string)
    requires Readable(c)
    requires tail == [] || tail[0] == ' '
    ensures ParseCondition(Render(c) + tail) == Some((c, tail))
  {
    match c
    case ParticipantIs(id) => ParseRenderedParticipant(id, tail);
    case DateFrom(d) => ParseRenderedFrom(d, tail);
    case DateTo(d) => ParseRenderedTo(d, tail);
  }

  /** Reading back a rendered, non-empty list of conditions gives the list. */
  lemma {:induction false} ParseRenderedAll(cs: seq<Condition>)
    requires cs != []
    requires forall i :: 0 <= i < |cs| ==> Readable(cs[i])
    ensures ParseConditions(Join(RenderAll(cs), " AND ")) == Some(cs)
    decreases |cs|
  {
    if |cs| == 1 {
      ParseRenderedSingle(cs[0]);
      assert RenderAll(cs) == [Render(cs[0])];
      assert cs == [cs[0]];
    } else {
      var rest := Join(RenderAll(cs[1..]), " AND ");
      ParseRenderedAll(cs[1..]);
      ParseRenderedStep(cs[0], rest, cs[1..]);
      assert RenderAll(cs) == [Render(cs[0])] + RenderAll(cs[1..]);
      JoinCons(Render(cs[0]), RenderAll(cs[1..]), " AND ");
      assert cs == [cs[0]] + cs[1..];
    }
  }

  lemma ParseRenderedSingle(c: Condition)
    requires Readable(c)
    ensures ParseConditions(Join([Render(c)], " AND ")) == Some([c])
  {
    assert Join([Render(c)], " AND ") == Render(c) + "";
    ParseRendered(c, "");
  }

  /** The induction step: one more condition in front of a readable list. */
  lemma ParseRenderedStep(c: Condition, rest: string, cs: seq<Condition>)
    requires Readable(c) && ParseConditions(rest) == Some(cs)
    ensures ParseConditions(Render(c) + " AND " + rest) == Some([c] + cs)
  {
    var tail := " AND " + rest;
    assert Render(c) + " AND " + rest == Render(c) + tail;
    ParseRendered(c, tail);
    ParseConditionsCons(Render(c) + tail, c, rest, cs);
  }

  /** A condition followed by ` AND ` and a readable list reads as both. */
  lemma ParseConditionsCons(s: string, c: Condition, rest: string, cs: seq<Condition>)
    ensures ParseCondition(s) == Some((c, " AND " + rest)) && ParseConditions(rest) == Some(cs)
            ==> ParseConditions(s) == Some([c] + cs)
  {
    var tail := " AND " + rest;
    assert tail != "" && StartsWith(tail, " AND ") && tail[5..] == rest;
  }

  /** The measurement query determines its filter: reading it back yields
      exactly the conditions the arguments asked for, provided the dates hold
      no quote character. */
  lemma MeasurementQueryRoundTrip(participant: Option<int>, start: Option<string>, end: Option<string>)
    requires start.Some? ==> '\'' !in start.value
    requires end.Some? ==> '\'' !in end.value
    ensures ParseMeasurementQuery(MeasurementQuery(participant, start, end))
            == Some(Conditions(participant, start, end))
  {
    var cs := Conditions(participant, start, end);
    ConditionsSpec(participant, start, end);
    forall i | 0 <= i < |cs| ensures Readable(cs[i]) {
      assert cs[i] in cs;
    }
    ParseFramed(cs);
  }

  /** A query framed around the clause of readable conditions reads back as
      those conditions. */
  lemma ParseFramed(cs: seq<Condition>)
    requires forall i :: 0 <= i < |cs| ==> Readable(cs[i])
    ensures ParseMeasurementQuery(MeasurementsBase + WhereClause(cs) + MeasurementsOrder) == Some(cs)
  {
    var w := WhereClause(cs);
    FrameParts(MeasurementsBase, w, MeasurementsOrder);
    if cs != [] {
      assert w[7..] == Join(RenderAll(cs), " AND ");
      ParseRenderedAll(cs);
    }
  }

  /** `WHERE` follows the table name exactly when some argument is truthy,
      and the query always ends with the date ordering. */
  lemma MeasurementQueryShape(participant: Option<int>, start: Option<string>, end: Option<string>)
    ensures StartsWith(MeasurementQuery(participant, start, end), MeasurementsBase)
    ensures EndsWith(MeasurementQuery(participant, start, end), MeasurementsOrder)
    ensures StartsWith(MeasurementQuery(participant, start, end)[|MeasurementsBase|..], " WHERE ")
            <==> IdGiven(participant) || DateGiven(start) || DateGiven(end)
  {
    var cs := Conditions(participant, start, end);
    ConditionsSpec(participant, start, end);
    QueryFrame(WhereClause(cs));
  }

  /** The base query and the ordering frame any clause; the clause starts
      with `WHERE` exactly when it is not empty. */
  lemma QueryFrame(w: string)
    requires w == "" || StartsWith(w, " WHERE ")
    ensures var q := MeasurementsBase + w + MeasurementsOrder;
      && StartsWith(q, MeasurementsBase)
      && EndsWith(q, MeasurementsOrder)
      && (StartsWith(q[|MeasurementsBase|..], " WHERE ") <==> w != "")
  {
    FrameParts(MeasurementsBase, w, MeasurementsOrder);
    if w == "" {
      assert (w + MeasurementsOrder)[1] == 'O';
    } else {
      assert (w + MeasurementsOrder)[..7] == w[..7];
    }
  }

  /** The participant query determines its filter: a truthy id is read back,
      and a falsy one (`None` or `0`) reads as no filter at all. */
  lemma ParticipantQueryRoundTrip(participant: Option<int>)
    ensures ParseParticipantQuery(ParticipantQuery(participant))
            == Some(if IdGiven(participant) then Some(participant.value) else None)
  {
    var q := ParticipantQuery(participant);
    if IdGiven(participant) {
      var c := ParticipantIs(participant.value);
      assert q == (ParticipantsBase + " WHERE ") + (Render(c) + "");
      assert q != ParticipantsBase;
      assert q[|ParticipantsBase + " WHERE "|..] == Render(c) + "";
      ParseRendered(c, "");
    }
  }

  /** The dates are pasted between quotes unescaped, so a start date holding
      a quote can pose as a second condition: two different filters, one
      query. */
  lemma DateQuoteCollision(a: string, b: string)
    requires a != "" && b != ""
    ensures MeasurementQuery(None, Some(a + "' AND measurement_date <= '" + b), None)
            == MeasurementQuery(None, Some(a), Some(b))
  {
    var x := a + "' AND measurement_date <= '" + b;
    var one := Conditions(None, Some(x), None);
    var two := Conditions(None, Some(a), Some(b));
    assert one == [DateFrom(x)];
    assert two == [DateFrom(a), DateTo(b)];
    assert WhereClause(one) == " WHERE " + Render(DateFrom(x)) by {
      assert RenderAll(one) == [Render(DateFrom(x))];
    }
    assert WhereClause(two) == " WHERE " + (Render(DateFrom(a)) + " AND " + Render(DateTo(b))) by {
      assert RenderAll(two) == [Render(DateFrom(a)), Render(DateTo(b))];
      JoinCons(Render(DateFrom(a)), [Render(DateTo(b))], " AND ");
    }
    QuotedDateSpansTwo(a, b);
  }

  /** The start condition of the quoted date renders as both conditions. */
  lemma QuotedDateSpansTwo(a: string, b: string)
    ensures Render(DateFrom(a + "' AND measurement_date <= '" + b))
            == Render(DateFrom(a)) + " AND " + Render(DateTo(b))
  {
    InjectedText();
    Regroup(FromPrefix, a, "'", " AND ", ToPrefix, b, "'");
  }

  /** The injected text closes the start date's quote and opens an end
      condition. */
  lemma InjectedText()
    ensures "' AND measurement_date <= '" == "'" + " AND " + ToPrefix
  {
  }

  /** Moving the brackets of a seven-piece concatenation. */
  lemma Regroup(p: string, a: string, x: string, y: string, z: string, b: string, e: string)
    ensures p + (a + (x + y + z) + b) + e == (p + a + x) + y + (z + b + e)
  {
  }
}
