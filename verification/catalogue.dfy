/** The named-query catalogue read by `run_analysis_query`
    (database.py:173-205): a text of `-- Name` header lines, each followed by
    the SQL lines of that query, turned into a name-to-SQL map.

    `Group` and `Collect` give the reference reading of the text (a header
    owns the lines up to the next header; a later entry overrides an earlier
    one); `ParseCatalogue` is the line-by-line loop the source runs, proved to
    compute the same map. */
module QueryCatalogue {

  import opened Wrappers
  import opened Text

  /** The catalogue file the source opens, relative to the working directory. */
  const QueriesPath := "database/queries.sql"

  /** A line opens a new section when it begins with exactly `-- `. */
  predicate IsHeader(line: string) {
    StartsWith(line, "-- ")
  }

  /** The name a header line gives its section: the rest of the line after the
      three-character marker, stripped. */
  function HeaderName(line: string): string {
    if |line| >= 3 then Strip(line[3..]) else ""
  }

  /** A header line together with the non-header lines that follow it. */
  datatype Section = Section(header: string, body: seq<string>)

  /** A catalogue text cut into the lines before the first header and the
      sections after it. */
  datatype Grouping = Grouping(preamble: seq<string>, sections: seq<Section>)

  predicate NoHeaders(lines: seq<string>) {
    forall i :: 0 <= i < |lines| ==> !IsHeader(lines[i])
  }

  predicate WellGrouped(g: Grouping) {
    && NoHeaders(g.preamble)
    && forall i :: 0 <= i < |g.sections| ==>
         IsHeader(g.sections[i].header) && NoHeaders(g.sections[i].body)
  }

  /** Cuts `lines` at every header line. */
  function Group(lines: seq<string>): (g: Grouping)
    ensures WellGrouped(g)
    decreases |lines|
  {
    if lines == [] then Grouping([], [])
    else
      var g := Group(lines[1..]);
      if IsHeader(lines[0]) then
        Grouping([], [Section(lines[0], g.preamble)] + g.sections)
      else
        Grouping([lines[0]] + g.preamble, g.sections)
  }

  function FlattenSections(secs: seq<Section>): seq<string> {
    if secs == [] then [] else [secs[0].header] + secs[0].body + FlattenSections(secs[1..])
  }

  /** The lines a grouping was cut from. */
  function Flatten(g: Grouping): seq<string> {
    g.preamble + FlattenSections(g.sections)
  }

  /** Grouping loses nothing: flattening the groups gives back every line, in
      order. Together with `GroupUnique` this pins `Group` down completely. */
  lemma {:induction false} GroupFlatten(lines: seq<string>)
    ensures Flatten(Group(lines)) == lines
    decreases |lines|
  {
    if lines != [] {
      var g := Group(lines[1..]);
      GroupFlatten(lines[1..]);
      if IsHeader(lines[0]) {
        var secs := [Section(lines[0], g.preamble)] + g.sections;
        assert secs[1..] == g.sections;
        assert FlattenSections(secs) == [lines[0]] + g.preamble + FlattenSections(g.sections);
        assert lines == [lines[0]] + lines[1..];
      } else {
        assert lines == [lines[0]] + lines[1..];
      }
    }
  }

  /** A well-formed grouping is the one `Group` cuts from its own lines: no
      other way of cutting the lines at headers exists. */
  lemma {:induction false} GroupUnique(g: Grouping)
    requires WellGrouped(g)
    ensures Group(Flatten(g)) == g
    decreases |Flatten(g)|
  {
    if g.preamble != [] {
      var g' := Grouping(g.preamble[1..], g.sections);
      assert Flatten(g) == [g.preamble[0]] + Flatten(g');
      assert !IsHeader(g.preamble[0]);
      assert WellGrouped(g') by {
        forall i | 0 <= i < |g'.preamble| ensures !IsHeader(g'.preamble[i]) {
          assert g'.preamble[i] == g.preamble[i + 1];
        }
      }
      GroupUnique(g');
      assert Flatten(g)[1..] == Flatten(g');
      assert g.preamble == [g.preamble[0]] + g'.preamble;
    } else if g.sections != [] {
      var s := g.sections[0];
      var g' := Grouping(s.body, g.sections[1..]);
      assert Flatten(g) == [s.header] + Flatten(g');
      assert IsHeader(s.header);
      assert WellGrouped(g') by {
        forall i | 0 <= i < |g'.sections|
          ensures IsHeader(g'.sections[i].header) && NoHeaders(g'.sections[i].body)
        {
          assert g'.sections[i] == g.sections[i + 1];
        }
      }
      GroupUnique(g');
      assert Flatten(g)[1..] == Flatten(g');
      assert g.sections == [Section(s.header, s.body)] + g'.sections;
    }
  }

  /** Lines before the first header take no part in any section. */
  lemma {:induction false} PreambleDropped(pre: seq<string>, rest: seq<string>)
    requires NoHeaders(pre)
    ensures Group(pre + rest).sections == Group(rest).sections
    ensures Group(pre + rest).preamble == pre + Group(rest).preamble
    decreases |pre|
  {
    if pre == [] {
      assert pre + rest == rest;
    } else {
      assert (pre + rest)[1..] == pre[1..] + rest;
      assert (pre + rest)[0] == pre[0];
      PreambleDropped(pre[1..], rest);
      assert pre == [pre[0]] + pre[1..];
    }
  }

  // ---------------------------------------------------------------------
  // From sections to the map

  /** The entry a pending section contributes when it is closed: nothing
      unless it has a non-empty name and at least one body line. */
  function Entry(name: Option<string>, body: seq<string>): map<string, string> {
    if name.Some? && name.value != "" && body != [] then map[name.value := Join(body, "\n")]
    else map[]
  }

  predicate Qualifies(sec: Section) {
    HeaderName(sec.header) != "" && sec.body != []
  }

  function SectionEntry(sec: Section): map<string, string> {
    Entry(Some(HeaderName(sec.header)), sec.body)
  }

  /** The sections' entries, a later section overriding an earlier one. */
  function Collect(secs: seq<Section>): map<string, string> {
    if secs == [] then map[] else SectionEntry(secs[0]) + Collect(secs[1..])
  }

  /** The catalogue a text describes. */
  function Catalogue(text: string): map<string, string> {
    Collect(Group(Split(text, '\n')).sections)
  }

  /** Section `i` qualifies and no later section that qualifies has its name. */
  predicate LastOfItsName(secs: seq<Section>, i: int)
    requires 0 <= i < |secs|
  {
    && Qualifies(secs[i])
    && forall j :: i < j < |secs| && Qualifies(secs[j]) ==>
         HeaderName(secs[j].header) != HeaderName(secs[i].header)
  }

  /** Every name in the map comes from a qualifying section. */
  lemma {:induction false} CollectSound(secs: seq<Section>, k: string)
    requires k in Collect(secs)
    ensures exists i :: 0 <= i < |secs| && Qualifies(secs[i]) && HeaderName(secs[i].header) == k
    decreases |secs|
  {
    assert Collect(secs) == SectionEntry(secs[0]) + Collect(secs[1..]);
    if k in SectionEntry(secs[0]) {
      assert Qualifies(secs[0]) && HeaderName(secs[0].header) == k;
    } else {
      assert k in Collect(secs[1..]);
      CollectSound(secs[1..], k);
      var i :| 0 <= i < |secs[1..]| && Qualifies(secs[1..][i]) && HeaderName(secs[1..][i].header) == k;
      assert secs[i + 1] == secs[1..][i];
    }
  }

  /** The last qualifying section of a name supplies that name's SQL: its body
      lines joined with newlines. */
  lemma {:induction false} CollectLastWins(secs: seq<Section>, i: int)
    requires 0 <= i < |secs| && LastOfItsName(secs, i)
    ensures HeaderName(secs[i].header) in Collect(secs)
    ensures Collect(secs)[HeaderName(secs[i].header)] == Join(secs[i].body, "\n")
    decreases |secs|
  {
    var k := HeaderName(secs[i].header);
    if i == 0 {
      CollectMissing(secs[1..], k);
    } else {
      assert secs[1..][i - 1] == secs[i];
      forall j | i - 1 < j < |secs[1..]| && Qualifies(secs[1..][j])
        ensures HeaderName(secs[1..][j].header) != k
      {
        assert secs[1..][j] == secs[j + 1];
      }
      CollectLastWins(secs[1..], i - 1);
    }
  }

  /** A name no qualifying section carries is absent from the map. */
  lemma {:induction false} CollectMissing(secs: seq<Section>, k: string)
    requires forall j :: 0 <= j < |secs| && Qualifies(secs[j]) ==> HeaderName(secs[j].header) != k
    ensures k !in Collect(secs)
    decreases |secs|
  {
    if secs != [] {
      forall j | 0 <= j < |secs[1..]| && Qualifies(secs[1..][j])
        ensures HeaderName(secs[1..][j].header) != k
      {
        assert secs[1..][j] == secs[j + 1];
      }
      CollectMissing(secs[1..], k);
    }
  }

  /** Every body line is one of the input lines. */
  lemma {:induction false} GroupKeepsLines(lines: seq<string>, p: string -> bool)
    requires forall k :: 0 <= k < |lines| ==> p(lines[k])
    ensures forall k :: 0 <= k < |Group(lines).preamble| ==> p(Group(lines).preamble[k])
    ensures forall i, j :: 0 <= i < |Group(lines).sections| && 0 <= j < |Group(lines).sections[i].body| ==>
              p(Group(lines).sections[i].body[j])
    decreases |lines|
  {
    if lines != [] {
      GroupKeepsLines(lines[1..], p);
      var g := Group(lines[1..]);
      if IsHeader(lines[0]) {
        var secs := [Section(lines[0], g.preamble)] + g.sections;
        forall i, j | 0 <= i < |secs| && 0 <= j < |secs[i].body| ensures p(secs[i].body[j]) {
          if i > 0 {
            assert secs[i] == g.sections[i - 1];
          }
        }
      } else {
        var pre := [lines[0]] + g.preamble;
        forall k | 0 <= k < |pre| ensures p(pre[k]) {
          if k > 0 {
            assert pre[k] == g.preamble[k - 1];
          }
        }
      }
    }
  }

  /** The SQL stored for a section splits back into exactly its body lines. */
  lemma BodyRoundTrip(text: string, i: int)
    requires 0 <= i < |Group(Split(text, '\n')).sections|
    requires Group(Split(text, '\n')).sections[i].body != []
    ensures Split(Join(Group(Split(text, '\n')).sections[i].body, "\n"), '\n')
            == Group(Split(text, '\n')).sections[i].body
  {
    var lines := Split(text, '\n');
    var body := Group(lines).sections[i].body;
    SplitPiecesFree(text, '\n');
    GroupKeepsLines(lines, l => '\n' !in l);
    SplitJoin(body, '\n');
  }

  // ---------------------------------------------------------------------
  // The loop of run_analysis_query

  /** What the parse will produce from a state of the loop, given the lines
      still to read: the map so far, then the pending section once it has
      absorbed the rest's preamble, then the rest's own sections. */
  function Outcome(dict: map<string, string>, current: Option<string>, pending: seq<string>,
                   rest: seq<string>): map<string, string>
  {
    dict + Entry(current, pending + Group(rest).preamble) + Collect(Group(rest).sections)
  }

  lemma GroupHeaderCons(line: string, rest: seq<string>)
    requires IsHeader(line)
    ensures Group([line] + rest).preamble == []
    ensures Group([line] + rest).sections == [Section(line, Group(rest).preamble)] + Group(rest).sections
  {
    assert ([line] + rest)[1..] == rest;
  }

  lemma MapUnionAssoc<K, V>(a: map<K, V>, b: map<K, V>, c: map<K, V>)
    ensures a + b + c == a + (b + c)
  {
  }

  lemma OutcomeBeforeHeader(dict: map<string, string>, current: Option<string>, pending: seq<string>,
                            line: string, rest: seq<string>)
    requires IsHeader(line)
    ensures Outcome(dict, current, pending, [line] + rest)
            == dict + Entry(current, pending)
               + (SectionEntry(Section(line, Group(rest).preamble)) + Collect(Group(rest).sections))
  {
    var g := Group(rest);
    GroupHeaderCons(line, rest);
    var secs := [Section(line, g.preamble)] + g.sections;
    assert secs[1..] == g.sections;
    assert Collect(secs) == SectionEntry(secs[0]) + Collect(g.sections);
    assert pending + Group([line] + rest).preamble == pending;
  }

  lemma OutcomeAfterHeader(dict: map<string, string>, line: string, rest: seq<string>)
    ensures Outcome(dict, Some(HeaderName(line)), [], rest)
            == dict + SectionEntry(Section(line, Group(rest).preamble)) + Collect(Group(rest).sections)
  {
    assert [] + Group(rest).preamble == Group(rest).preamble;
  }

  lemma HeaderStep(dict: map<string, string>, current: Option<string>, pending: seq<string>,
                   line: string, rest: seq<string>)
    requires IsHeader(line)
    ensures Outcome(dict, current, pending, [line] + rest)
            == Outcome(dict + Entry(current, pending), Some(HeaderName(line)), [], rest)
  {
    OutcomeBeforeHeader(dict, current, pending, line, rest);
    OutcomeAfterHeader(dict + Entry(current, pending), line, rest);
    MapUnionAssoc(dict + Entry(current, pending), SectionEntry(Section(line, Group(rest).preamble)),
                  Collect(Group(rest).sections));
  }

  lemma OtherStep(dict: map<string, string>, current: Option<string>, pending: seq<string>,
                  line: string, rest: seq<string>)
    requires !IsHeader(line)
    ensures Outcome(dict, current, pending, [line] + rest)
            == Outcome(dict, current, pending + [line], rest)
  {
    var g := Group(rest);
    assert ([line] + rest)[1..] == rest;
    assert Group([line] + rest) == Grouping([line] + g.preamble, g.sections);
    assert pending + ([line] + g.preamble) == (pending + [line]) + g.preamble;
  }

  /** Closing a pending section adds its entry, if it has one. */
  lemma CloseSection(dict: map<string, string>, current: Option<string>, pending: seq<string>)
    ensures (if current.Some? && current.value != "" && pending != []
             then dict[current.value := Join(pending, "\n")] else dict)
            == dict + Entry(current, pending)
  {
  }

  lemma OutcomeAtEnd(dict: map<string, string>, current: Option<string>, pending: seq<string>)
    ensures Outcome(dict, current, pending, []) == dict + Entry(current, pending)
  {
    assert pending + [] == pending;
  }

  lemma OutcomeAtStart(lines: seq<string>)
    ensures Outcome(map[], None, [], lines) == Collect(Group(lines).sections)
  {
  }

  /** The loop of database.py:181-195, line by line: a header closes the
      pending section and opens a new one; any other line joins the pending
      section (or the discarded preamble); the last section is closed at the
      end. */
  method ParseCatalogue(text: string) returns (catalogue: map<string, string>)
    ensures catalogue == Catalogue(text)
  {
    var lines := Split(text, '\n');
    ghost var target := Catalogue(text);
    var dict: map<string, string> := map[];
    var current: Option<string> := None;
    var pending: seq<string> := [];
    var i := 0;
    assert lines[0..] == lines;
    OutcomeAtStart(lines);
    while i < |lines|
      invariant 0 <= i <= |lines|
      invariant Outcome(dict, current, pending, lines[i..]) == target
    {
      var line := lines[i];
      assert lines[i..] == [line] + lines[i + 1..];
      if IsHeader(line) {
        HeaderStep(dict, current, pending, line, lines[i + 1..]);
        CloseSection(dict, current, pending);
        if current.Some? && current.value != "" && pending != [] {
          dict := dict[current.value := Join(pending, "\n")];
        }
        current := Some(HeaderName(line));
        pending := [];
      } else {
        OtherStep(dict, current, pending, line, lines[i + 1..]);
        pending := pending + [line];
      }
      i := i + 1;
    }
    assert lines[i..] == [];
    OutcomeAtEnd(dict, current, pending);
    CloseSection(dict, current, pending);
    if current.Some? && current.value != "" && pending != [] {
      dict := dict[current.value := Join(pending, "\n")];
    }
    catalogue := dict;
  }

  datatype QueryError = FileNotFound(path: string) | QueryNotFound(name: string)

  /** The catalogue a queries file yields; `None` when there is no file. */
  function Load(queriesFile: Option<string>): Option<map<string, string>> {
    if queriesFile.None? then None else Some(Catalogue(queriesFile.value))
  }

  /** A named query's SQL, or the error a lookup raises. */
  function Lookup(queries: Option<map<string, string>>, name: string): Result<string, QueryError> {
    if queries.None? then Failure(FileNotFound(QueriesPath))
    else if name in queries.value then Success(queries.value[name])
    else Failure(QueryNotFound(name))
  }

  /** `run_analysis_query(name)`: looks `name` up in the catalogue and yields
      the SQL the engine is then handed. A missing catalogue file or an
      unknown name is an error, and then no SQL is handed over. */
  method RunAnalysisQuery(queriesFile: Option<string>, name: string) returns (r: Result<string, QueryError>)
    ensures r == Lookup(Load(queriesFile), name)
    ensures queriesFile.None? ==> r == Failure(FileNotFound(QueriesPath))
    ensures queriesFile.Some? && name !in Catalogue(queriesFile.value) ==> r == Failure(QueryNotFound(name))
    ensures queriesFile.Some? && name in Catalogue(queriesFile.value) ==>
              r == Success(Catalogue(queriesFile.value)[name])
  {
    if queriesFile.None? {
      return Failure(FileNotFound(QueriesPath));
    }
    var catalogue := ParseCatalogue(queriesFile.value);
    if name !in catalogue {
      return Failure(QueryNotFound(name));
    }
    r := Success(catalogue[name]);
  }
}
