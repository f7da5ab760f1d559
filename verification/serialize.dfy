/** `make_serializable` (main.py:56-71): the recursive transform that turns
    the report into something `json.dump` accepts.

    Python values are an abstract datatype with one constructor per case the
    transform tells apart; JSON values are what comes out. A DataFrame or
    Series enters already as the records or mapping its `to_dict` produces,
    since the transform hands that back without looking inside. */
module Serialize {

  import opened Wrappers
  import Text
  import Seqs
  import Dicts

  /** A float, with the non-finite values Python and numpy produce. */
  datatype Float = Num(x: real) | NaN | PosInf | NegInf

  /** A dict key: the transform only ever sees strings and integers. */
  datatype Key = KStr(s: string) | KInt(i: int)

  /** `str(k)` */
  function KeyText(k: Key): string {
    match k
    case KStr(s) => s
    case KInt(i) => Text.IntToDecimal(i)
  }

  type Year = y: nat | 1 <= y <= 9999 witness 1
  type Month = m: nat | 1 <= m <= 12 witness 1
  type Day = d: nat | 1 <= d <= 31 witness 1
  type Hour = h: nat | h < 24
  type Minute = m: nat | m < 60

  /** A `date`, or a `datetime` with whole seconds. */
  datatype Moment =
    | Date(year: Year, month: Month, day: Day)
    | DateTime(year: Year, month: Month, day: Day, hour: Hour, minute: Minute, second: Minute)

  datatype Json =
    | JDict(fields: Dicts.Dict<Json>)
    | JList(items: seq<Json>)
    | JStr(s: string)
    | JInt(i: int)
    | JFloat(f: Float)
    | JBool(b: bool)
    | JNull

  datatype Py =
    | PDict(entries: seq<(Key, Py)>)
    | PList(items: seq<Py>)
    | PTuple(items: seq<Py>)
    | PStr(s: string)
    | PInt(i: int)
    | PFloat(f: Float)
    | PBool(b: bool)
    | PNone
    | NpInt64(i: int)
    | NpFloat64(f: Float)
    | PMoment(t: Moment)
    /** `pd.NaT`: missing, and an instance of `datetime`, whose `isoformat()`
        is the text `NaT`. */
    | PNaT
    /** `pd.NA`: missing, and neither a float nor a date. */
    | PNA
    /** `df.to_dict('records')` */
    | Frame(records: Json)
    /** `series.to_dict()` */
    | Series(mapping: Json)
    /** Any other object, with its `str()`. */
    | Other(text: string)

  // ---------------------------------------------------------------------
  // isoformat

  /** `t.isoformat()`: `YYYY-MM-DD`, then `THH:MM:SS` for a datetime. */
  function Iso(t: Moment): (s: string)
    ensures |s| == (if t.Date? then 10 else 19)
  {
    match t
    case Date(y, mo, d) => DayText(y, mo, d)
    case DateTime(y, mo, d, h, mi, se) => DayText(y, mo, d) + ClockText(h, mi, se)
  }

  /** Reads an ISO date or date-time back. */
  function ParseIso(s: string): Option<Moment> {
    if |s| == 10 then
      match ParseDay(s)
      case Some((y, mo, d)) => Some(Date(y, mo, d))
      case None => None
    else if |s| == 19 then
      match (ParseDay(s[..10]), ParseClock(s[10..]))
      case (Some((y, mo, d)), Some((h, mi, se))) => Some(DateTime(y, mo, d, h, mi, se))
      case _ => None
    else None
  }

  /** `YYYY-MM-DD` */
  function DayText(y: Year, mo: Month, d: Day): (s: string)
    ensures |s| == 10
  {
    Text.Padded(y, 4) + "-" + Text.Padded(mo, 2) + "-" + Text.Padded(d, 2)
  }

  function ParseDay(s: string): Option<(Year, Month, Day)> {
    if |s| == 10 && s[4] == '-' && s[7] == '-'
       && Text.AllDigits(s[0..4]) && Text.AllDigits(s[5..7]) && Text.AllDigits(s[8..10])
    then
      var y, mo, d := Text.DigitsValue(s[0..4]), Text.DigitsValue(s[5..7]), Text.DigitsValue(s[8..10]);
      if 1 <= y <= 9999 && 1 <= mo <= 12 && 1 <= d <= 31 then Some((y, mo, d)) else None
    else None
  }

  /** `THH:MM:SS` */
  function ClockText(h: Hour, mi: Minute, se: Minute): (s: string)
    ensures |s| == 9
  {
    "T" + Text.Padded(h, 2) + ":" + Text.Padded(mi, 2) + ":" + Text.Padded(se, 2)
  }

  function ParseClock(s: string): Option<(Hour, Minute, Minute)> {
    if |s| == 9 && s[0] == 'T' && s[3] == ':' && s[6] == ':'
       && Text.AllDigits(s[1..3]) && Text.AllDigits(s[4..6]) && Text.AllDigits(s[7..9])
    then
      var h, mi, se := Text.DigitsValue(s[1..3]), Text.DigitsValue(s[4..6]), Text.DigitsValue(s[7..9]);
      if h < 24 && mi < 60 && se < 60 then Some((h, mi, se)) else None
    else None
  }

  lemma DayRoundTrip(y: Year, mo: Month, d: Day)
    ensures ParseDay(DayText(y, mo, d)) == Some((y, mo, d))
  {
    var ys, ms, ds := Text.Padded(y, 4), Text.Padded(mo, 2), Text.Padded(d, 2);
    Text.PaddedValue(y, 4);
    Text.PaddedValue(mo, 2);
    Text.PaddedValue(d, 2);
    var s := DayText(y, mo, d);
    assert s[0..4] == ys && s[5..7] == ms && s[8..10] == ds;
  }

  lemma ClockRoundTrip(h: Hour, mi: Minute, se: Minute)
    ensures ParseClock(ClockText(h, mi, se)) == Some((h, mi, se))
  {
    var hs, ms, ss := Text.Padded(h, 2), Text.Padded(mi, 2), Text.Padded(se, 2);
    Text.PaddedValue(h, 2);
    Text.PaddedValue(mi, 2);
    Text.PaddedValue(se, 2);
    var s := ClockText(h, mi, se);
    assert s[1..3] == hs && s[4..6] == ms && s[7..9] == ss;
  }

  /** The ISO text of a date or datetime is unambiguous: it reads back as
      the value it was written from. */
  lemma IsoRoundTrip(t: Moment)
    ensures ParseIso(Iso(t)) == Some(t)
  {
    DayRoundTrip(t.year, t.month, t.day);
    if t.DateTime? {
      ClockRoundTrip(t.hour, t.minute, t.second);
      var s := Iso(t);
      assert s[..10] == DayText(t.year, t.month, t.day);
      assert s[10..] == ClockText(t.hour, t.minute, t.second);
    }
  }

  // ---------------------------------------------------------------------
  // make_serializable

  /** The transform. The branches are tried in the source's order: frames and
      series, dicts, lists and tuples, numpy scalars, dates, then `pd.isna`,
      then the plain scalars, and `str()` for anything else.

      `npNanToNull` selects what a numpy NaN becomes: the source (false)
      hands it on as a float NaN, which `json.dump` writes as the non-JSON
      token `NaN`; see `NumpyNanKept`. */
  function Convert(p: Py, npNanToNull: bool): (r: Json)
    decreases p
    ensures p.PDict? ==> r.JDict? && Dicts.DistinctKeys(r.fields)
    ensures p.PList? || p.PTuple? ==> r.JList? && |r.items| == |p.items|
    ensures p.PMoment? ==> r.JStr? && ParseIso(r.s) == Some(p.t)
    ensures p.PNaT? ==> r == JStr("NaT") && ParseIso(r.s).None?
    ensures p.PNA? || p.PNone? || p == PFloat(NaN) ==> r == JNull
  {
    match p
    case Frame(records) => records
    case Series(mapping) => mapping
    case PDict(entries) => JDict(Dicts.FromPairs(Pairs(entries, npNanToNull)))
    case PList(items) => JList(ConvertAll(items, npNanToNull))
    case PTuple(items) => JList(ConvertAll(items, npNanToNull))
    case NpInt64(i) => JInt(i)
    case NpFloat64(f) => if npNanToNull && f == NaN then JNull else JFloat(f)
    case PMoment(t) => IsoRoundTrip(t); JStr(Iso(t))
    case PNaT => JStr("NaT")
    case PNA => JNull
    case PFloat(f) => if f == NaN then JNull else JFloat(f)
    case PNone => JNull
    case PStr(s) => JStr(s)
    case PInt(i) => JInt(i)
    case PBool(b) => JBool(b)
    case Other(text) => JStr(text)
  }

  /** `{str(k): make_serializable(v) for k, v in obj.items()}` before the
      comprehension merges equal keys. */
  function Pairs(entries: seq<(Key, Py)>, npNanToNull: bool): (ps: seq<(string, Json)>)
    decreases entries
    ensures |ps| == |entries|
  {
    seq(|entries|, i requires 0 <= i < |entries| =>
      assert entries[i] in entries && entries[i].1 < entries[i];
      (KeyText(entries[i].0), Convert(entries[i].1, npNanToNull)))
  }

  /** `[make_serializable(i) for i in obj]` */
  function ConvertAll(items: seq<Py>, npNanToNull: bool): (js: seq<Json>)
    decreases items
    ensures |js| == |items|
    ensures forall i :: 0 <= i < |items| ==> js[i] == Convert(items[i], npNanToNull)
  {
    seq(|items|, i requires 0 <= i < |items| => assert items[i] in items; Convert(items[i], npNanToNull))
  }

  /** `make_serializable` as written. */
  function Serialize(p: Py): Json {
    Convert(p, false)
  }

  /** Dicts come out with string keys, each key once, in the order its first
      spelling appeared; when two keys print the same (`1` and `"1"`), the
      value of the later one wins. */
  lemma SerializeDict(entries: seq<(Key, Py)>)
    ensures var r := Serialize(PDict(entries)); var ps := Pairs(entries, false);
      && r.JDict?
      && Dicts.Keys(r.fields) == Seqs.Unique(Dicts.Keys(ps))
      && forall k :: Dicts.Get(r.fields, k) == Dicts.LastValue(ps, k)
  {
    var ps := Pairs(entries, false);
    Dicts.FromPairsKeyOrder(ps);
    forall k ensures Dicts.Get(Dicts.FromPairs(ps), k) == Dicts.LastValue(ps, k) {
      Dicts.FromPairsLastWins(ps, k);
    }
  }

  /** `{1: 'a', '1': 'b'}` serialises to `{"1": "b"}`. */
  lemma KeyCollision()
    ensures Serialize(PDict([(KInt(1), PStr("a")), (KStr("1"), PStr("b"))])) == JDict([("1", JStr("b"))])
  {
    var ps := Pairs([(KInt(1), PStr("a")), (KStr("1"), PStr("b"))], false);
    assert Text.IntToDecimal(1) == "1";
    assert ps == [("1", JStr("a")), ("1", JStr("b"))];
    assert ps[..1] == [("1", JStr("a"))];
    assert Dicts.FromPairs(ps[..1]) == [("1", JStr("a"))] by {
      assert ps[..1][..0] == [];
    }
  }

  // ---------------------------------------------------------------------
  // Well-formedness and the JSON round trip

  /** Every dict inside has each key once. */
  predicate WellFormed(j: Json)
    decreases j
  {
    match j
    case JDict(fields) =>
      && Dicts.DistinctKeys(fields)
      && forall i :: 0 <= i < |fields| ==> (assert fields[i] in fields; WellFormed(fields[i].1))
    case JList(items) => forall i :: 0 <= i < |items| ==> WellFormed(items[i])
    case _ => true
  }

  /** Every frame and series inside came from pandas with distinct keys. */
  predicate TablesWellFormed(p: Py)
    decreases p
  {
    match p
    case Frame(records) => WellFormed(records)
    case Series(mapping) => WellFormed(mapping)
    case PDict(entries) => forall i :: 0 <= i < |entries| ==> (assert entries[i] in entries; TablesWellFormed(entries[i].1))
    case PList(items) => forall i :: 0 <= i < |items| ==> TablesWellFormed(items[i])
    case PTuple(items) => forall i :: 0 <= i < |items| ==> TablesWellFormed(items[i])
    case _ => true
  }

  /** The output is valid for `json.dump`: no dict repeats a key, however
      many Python keys printed alike. */
  lemma {:induction false} SerializeWellFormed(p: Py, npNanToNull: bool)
    requires TablesWellFormed(p)
    ensures WellFormed(Convert(p, npNanToNull))
    decreases p
  {
    match p
    case PDict(entries) =>
      var ps := Pairs(entries, npNanToNull);
      forall i | 0 <= i < |ps| ensures WellFormed(ps[i].1) {
        assert entries[i] in entries;
        SerializeWellFormed(entries[i].1, npNanToNull);
      }
      FromPairsKeepsValues(ps);
    case PList(items) =>
      forall i | 0 <= i < |items| ensures WellFormed(Convert(items[i], npNanToNull)) {
        SerializeWellFormed(items[i], npNanToNull);
      }
    case PTuple(items) =>
      forall i | 0 <= i < |items| ensures WellFormed(Convert(items[i], npNanToNull)) {
        SerializeWellFormed(items[i], npNanToNull);
      }
    case _ =>
  }

  /** Merging pairs into a dict keeps only values that were among them. */
  lemma {:induction false} FromPairsKeepsValues(ps: seq<(string, Json)>)
    requires forall i :: 0 <= i < |ps| ==> WellFormed(ps[i].1)
    ensures WellFormed(JDict(Dicts.FromPairs(ps)))
  {
    var d := Dicts.FromPairs(ps);
    forall i | 0 <= i < |d| ensures WellFormed(d[i].1) {
      var k := d[i].0;
      Dicts.FromPairsLastWins(ps, k);
      GetAt(d, i);
      LastValueFrom(ps, k);
    }
  }

  lemma {:induction false} GetAt(d: Dicts.Dict<Json>, i: int)
    requires Dicts.DistinctKeys(d)
    requires 0 <= i < |d|
    ensures Dicts.Get(d, d[i].0) == Some(d[i].1)
  {
    if i > 0 {
      GetAt(d[1..], i - 1);
    }
  }

  lemma {:induction false} LastValueFrom(ps: seq<(string, Json)>, k: string)
    requires forall i :: 0 <= i < |ps| ==> WellFormed(ps[i].1)
    ensures Dicts.LastValue(ps, k).Some? ==> WellFormed(Dicts.LastValue(ps, k).value)
  {
    if ps != [] && ps[|ps| - 1].0 != k {
      LastValueFrom(ps[..|ps| - 1], k);
    }
  }

  /** JSON data as the Python value `json.load` would give for it. */
  function Embed(j: Json): (p: Py)
    decreases j
  {
    match j
    case JDict(fields) =>
      PDict(seq(|fields|, i requires 0 <= i < |fields| =>
        assert fields[i] in fields;
        (KStr(fields[i].0), Embed(fields[i].1))))
    case JList(items) => PList(seq(|items|, i requires 0 <= i < |items| => Embed(items[i])))
    case JStr(s) => PStr(s)
    case JInt(i) => PInt(i)
    case JFloat(f) => PFloat(f)
    case JBool(b) => PBool(b)
    case JNull => PNone
  }

  /** The same data with every float NaN replaced by null. */
  function NanToNull(j: Json): Json
    decreases j
  {
    match j
    case JDict(fields) =>
      JDict(seq(|fields|, i requires 0 <= i < |fields| =>
        assert fields[i] in fields;
        (fields[i].0, NanToNull(fields[i].1))))
    case JList(items) => JList(seq(|items|, i requires 0 <= i < |items| => NanToNull(items[i])))
    case JFloat(NaN) => JNull
    case _ => j
  }

  /** Data that is already JSON comes through unchanged, except that a NaN
      becomes null; so serialising is idempotent up to NaN. */
  lemma {:induction false} EmbedRoundTrip(j: Json)
    requires WellFormed(j)
    ensures Serialize(Embed(j)) == NanToNull(j)
    decreases j
  {
    match j
    case JDict(fields) =>
      var entries := Embed(j).entries;
      var ps := Pairs(entries, false);
      var want := NanToNull(j).fields;
      forall i | 0 <= i < |fields| ensures ps[i] == want[i] {
        assert fields[i] in fields;
        EmbedRoundTrip(fields[i].1);
      }
      assert ps == want;
      assert Dicts.DistinctKeys(ps);
      Dicts.FromPairsDistinct(ps);
    case JList(items) =>
      var js := ConvertAll(Embed(j).items, false);
      forall i | 0 <= i < |items| ensures js[i] == NanToNull(j).items[i] {
        EmbedRoundTrip(items[i]);
      }
      assert js == NanToNull(j).items;
    case _ =>
  }

  // ---------------------------------------------------------------------
  // numpy NaN

  /** No float NaN anywhere inside. */
  predicate NoNaN(j: Json)
    decreases j
  {
    match j
    case JDict(fields) => forall i :: 0 <= i < |fields| ==> (assert fields[i] in fields; NoNaN(fields[i].1))
    case JList(items) => forall i :: 0 <= i < |items| ==> NoNaN(items[i])
    case JFloat(f) => f != NaN
    case _ => true
  }

  /** Every frame and series inside is free of NaN. */
  predicate TablesNoNaN(p: Py)
    decreases p
  {
    match p
    case Frame(records) => NoNaN(records)
    case Series(mapping) => NoNaN(mapping)
    case PDict(entries) => forall i :: 0 <= i < |entries| ==> (assert entries[i] in entries; TablesNoNaN(entries[i].1))
    case PList(items) => forall i :: 0 <= i < |items| ==> TablesNoNaN(items[i])
    case PTuple(items) => forall i :: 0 <= i < |items| ==> TablesNoNaN(items[i])
    case _ => true
  }

  /** As written, a Python float NaN becomes null but a numpy NaN, the kind
      pandas arithmetic yields, stays a float NaN. */
  lemma NumpyNanKept()
    ensures Serialize(PFloat(NaN)) == JNull
    ensures Serialize(NpFloat64(NaN)) == JFloat(NaN)
    ensures !NoNaN(Serialize(PList([NpFloat64(NaN)])))
  {
    assert Serialize(PList([NpFloat64(NaN)])).items[0] == JFloat(NaN);
  }

  /** With numpy NaN sent to null as well, nothing the transform builds is a
      NaN: only NaN already inside a frame or series survives. */
  lemma {:induction false} IntendedHasNoNaN(p: Py)
    requires TablesNoNaN(p)
    ensures NoNaN(Convert(p, true))
    decreases p
  {
    match p
    case PDict(entries) =>
      var ps := Pairs(entries, true);
      forall i | 0 <= i < |ps| ensures NoNaN(ps[i].1) {
        assert entries[i] in entries;
        IntendedHasNoNaN(entries[i].1);
      }
      FromPairsNoNaN(ps);
    case PList(items) =>
      forall i | 0 <= i < |items| ensures NoNaN(Convert(items[i], true)) {
        IntendedHasNoNaN(items[i]);
      }
    case PTuple(items) =>
      forall i | 0 <= i < |items| ensures NoNaN(Convert(items[i], true)) {
        IntendedHasNoNaN(items[i]);
      }
    case _ =>
  }

  lemma {:induction false} FromPairsNoNaN(ps: seq<(string, Json)>)
    requires forall i :: 0 <= i < |ps| ==> NoNaN(ps[i].1)
    ensures NoNaN(JDict(Dicts.FromPairs(ps)))
  {
    var d := Dicts.FromPairs(ps);
    forall i | 0 <= i < |d| ensures NoNaN(d[i].1) {
      var k := d[i].0;
      Dicts.FromPairsLastWins(ps, k);
      GetAt(d, i);
      LastValueNoNaN(ps, k);
    }
  }

  lemma {:induction false} LastValueNoNaN(ps: seq<(string, Json)>, k: string)
    requires forall i :: 0 <= i < |ps| ==> NoNaN(ps[i].1)
    ensures Dicts.LastValue(ps, k).Some? ==> NoNaN(Dicts.LastValue(ps, k).value)
  {
    if ps != [] && ps[|ps| - 1].0 != k {
      LastValueNoNaN(ps[..|ps| - 1], k);
    }
  }
}
