/** `read_requirements` (setup.py:9-14): the requirement lines of a file,
    stripped, leaving out blank lines and lines that start with `#`.

    The file arrives as its text, after Python's newline translation, or as
    `None` when it does not exist. */
module Requirements {

  import opened Wrappers
  import opened Text
  import Seqs

  /** The length of the first line of `text`, its `'\n'` included. */
  function LineLength(text: string): (n: nat)
    requires text != []
    ensures 1 <= n <= |text|
    ensures '\n' !in text[..n - 1]
    ensures n < |text| ==> text[n - 1] == '\n'
    decreases |text|
  {
    if text[0] == '\n' || |text| == 1 then 1
    else
      var m := LineLength(text[1..]);
      assert text[1..][..m - 1] == text[1..m];
      1 + m
  }

  /** `for line in f`: the lines of the text, each keeping its `'\n'`; a
      final line without one is still a line. */
  function Lines(text: string): (ls: seq<string>)
    ensures forall i :: 0 <= i < |ls| ==> ls[i] != []
    ensures forall i :: 0 <= i < |ls| - 1 ==> ls[i][|ls[i]| - 1] == '\n'
    decreases |text|
  {
    if text == [] then []
    else
      var n := LineLength(text);
      [text[..n]] + Lines(text[n..])
  }

  function Concat(ls: seq<string>): string {
    if ls == [] then "" else ls[0] + Concat(ls[1..])
  }

  /** Reading the lines loses nothing: together they are the text, and no
      line holds a `'\n'` before its end. */
  lemma {:induction false} LinesCoverText(text: string)
    ensures Concat(Lines(text)) == text
    ensures forall i :: 0 <= i < |Lines(text)| ==> '\n' !in Lines(text)[i][..|Lines(text)[i]| - 1]
    decreases |text|
  {
    if text != [] {
      var n := LineLength(text);
      LinesCoverText(text[n..]);
      var ls := Lines(text);
      assert ls[1..] == Lines(text[n..]);
      assert text[..n] + text[n..] == text;
    }
  }

  /** `line.strip() and not line.startswith('#')`: the test is made on the
      raw line, so only a `#` in the very first column marks a comment. */
  predicate Keep(line: string) {
    Strip(line) != [] && !StartsWith(line, "#")
  }

  /** The comprehension of setup.py:12 over a list of lines. */
  function Kept(lines: seq<string>): (entries: seq<string>)
    ensures |entries| <= |lines|
    ensures forall i :: 0 <= i < |entries| ==> entries[i] != [] && Strip(entries[i]) == entries[i]
  {
    if lines == [] then []
    else
      StripIdempotent(lines[0]);
      (if Keep(lines[0]) then [Strip(lines[0])] else []) + Kept(lines[1..])
  }

  /** `read_requirements(filename)`: a missing file gives no requirements
      rather than an error. */
  function ReadRequirements(file: Option<string>): (entries: seq<string>)
    ensures file.None? ==> entries == []
    ensures forall i :: 0 <= i < |entries| ==> entries[i] != [] && Strip(entries[i]) == entries[i]
  {
    match file
    case None => []
    case Some(text) => Kept(Lines(text))
  }

  /** A string is listed exactly when some kept line strips to it. */
  lemma {:induction false} KeptMembership(lines: seq<string>, e: string)
    ensures e in Kept(lines) <==> exists i :: 0 <= i < |lines| && Keep(lines[i]) && Strip(lines[i]) == e
  {
    if lines != [] {
      KeptMembership(lines[1..], e);
      if e in Kept(lines[1..]) {
        var i :| 1 <= i + 1 < |lines| && Keep(lines[1..][i]) && Strip(lines[1..][i]) == e;
        assert lines[i + 1] == lines[1..][i];
      }
      if exists i :: 0 <= i < |lines| && Keep(lines[i]) && Strip(lines[i]) == e {
        var i :| 0 <= i < |lines| && Keep(lines[i]) && Strip(lines[i]) == e;
        if i > 0 {
          assert lines[1..][i - 1] == lines[i];
        }
      }
    }
  }

  /** `[line.strip() for line in lines]` */
  function StripAll(lines: seq<string>): (r: seq<string>)
    ensures |r| == |lines|
    ensures forall i :: 0 <= i < |lines| ==> r[i] == Strip(lines[i])
  {
    if lines == [] then [] else [Strip(lines[0])] + StripAll(lines[1..])
  }

  /** The requirements keep the order of their lines: they are the stripped
      lines with some left out. */
  lemma {:induction false} KeptIsSubseq(lines: seq<string>)
    ensures Seqs.IsSubseq(Kept(lines), StripAll(lines))
  {
    if lines != [] {
      KeptIsSubseq(lines[1..]);
      var k := Kept(lines);
      var s := StripAll(lines);
      assert s[1..] == StripAll(lines[1..]);
      if Keep(lines[0]) {
        assert k[0] == s[0] && k[1..] == Kept(lines[1..]);
      } else {
        assert k == Kept(lines[1..]);
        Seqs.SubseqSkip(k, s);
      }
    }
  }

  /** A line ended by a newline is split off whole. */
  lemma {:induction false} FirstLine(a: string, rest: string)
    requires '\n' !in a
    ensures LineLength(a + "\n" + rest) == |a| + 1
    ensures Lines(a + "\n" + rest) == [a + "\n"] + Lines(rest)
    decreases |a|
  {
    var t := a + "\n" + rest;
    if a != [] {
      assert t[1..] == a[1..] + "\n" + rest;
      FirstLine(a[1..], rest);
    }
    assert t[..|a| + 1] == a + "\n" && t[|a| + 1..] == rest;
  }

  /** The newline ending a line does not change what it strips to. */
  lemma StripBeforeNewline(line: string)
    ensures Strip(line + "\n") == Strip(line)
  {
    var s := line + "\n";
    var p, q := StripSurroundings(line);
    if Strip(line) == [] {
      assert AllSpace(s);
      var p', q' := StripSurroundings(s);
    } else {
      assert AllSpace(q + "\n");
      StripPadded(p, Strip(line), q + "\n");
      assert p + Strip(line) + (q + "\n") == s;
    }
  }

  /** Reading a file line by line: the first line contributes its stripped
      text when it is not blank and does not start with `#`. */
  lemma ReadFirstLine(line: string, rest: string)
    requires '\n' !in line
    ensures ReadRequirements(Some(line + "\n" + rest))
            == (if Strip(line) != [] && !StartsWith(line, "#") then [Strip(line)] else [])
               + ReadRequirements(Some(rest))
  {
    FirstLine(line, rest);
    StripBeforeNewline(line);
    var ls := Lines(line + "\n" + rest);
    assert ls[0] == line + "\n" && ls[1..] == Lines(rest);
    assert StartsWith(line + "\n", "#") <==> StartsWith(line, "#") by {
      if line != [] { assert (line + "\n")[..1] == line[..1]; }
    }
  }

  /** A comment in the first column is dropped. */
  lemma CommentDropped(comment: string, rest: string)
    requires '\n' !in comment && StartsWith(comment, "#")
    ensures ReadRequirements(Some(comment + "\n" + rest)) == ReadRequirements(Some(rest))
  {
    ReadFirstLine(comment, rest);
  }

  /** An indented comment is kept, `#` and all, since the comment test looks
      at the unstripped line. */
  lemma IndentedCommentKept(indent: string, comment: string, rest: string)
    requires indent != [] && AllSpace(indent) && '\n' !in indent
    requires '\n' !in comment && StartsWith(comment, "#") && !IsSpace(comment[|comment| - 1])
    ensures ReadRequirements(Some(indent + comment + "\n" + rest)) == [comment] + ReadRequirements(Some(rest))
  {
    var line := indent + comment;
    assert '\n' !in line;
    assert comment[0] == '#';
    StripPadded(indent, comment, "");
    assert indent + comment + "" == line;
    assert !StartsWith(line, "#") by { assert line[0] == indent[0]; }
    ReadFirstLine(line, rest);
  }
}
