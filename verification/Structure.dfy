/** `SEOScorer.calculate_structure_score` (seo_scorer.py:66-87): four
    independent checks that add 0.3, 0.2, 0.2 and 0.3 to a score starting
    at 0. The checks are written as the source performs them (split, strip,
    count); the lemmas restate them as what the text contains. */
module StructureMetric {
  import opened Text

  /** One of the list markers `•`, `-`, `*` appears. */
  predicate HasBullet(text: string): (b: bool)
    ensures b <==> CountChar(text, '\U{2022}') + CountChar(text, '-') + CountChar(text, '*') > 0
  {
    '\U{2022}' in text || '-' in text || '*' in text
  }

  /** At least three full stops and at least two commas. */
  predicate WellPunctuated(text: string): (b: bool)
    ensures b <==> |IndicesOf(text, '.')| >= 3 && |IndicesOf(text, ',')| >= 2
    ensures b ==> '.' in text && ',' in text && |text| >= 5
  {
    CountCharIndices(text, '.');
    CountCharIndices(text, ',');
    CountTwoChars(text, '.', ',');
    CountChar(text, '.') >= 3 && CountChar(text, ',') >= 2
  }

  /** The source's heading test: some `\n`-separated line, stripped, ends
      with a colon. */
  predicate HasColonLine(text: string): (b: bool)
    ensures b <==> HasHeading(text)
  {
    HeadingCheck(text);
    exists line :: line in SplitOn(text, "\n") && EndsWith(Strip(line), ':')
  }

  /** `calculate_structure_score` */
  function StructureScore(text: string): (r: real)
    ensures 0.0 <= r <= 1.0
  {
    var paragraphs := if |SplitOn(text, "\n\n")| >= 2 then 0.3 else 0.0;
    var bullets := if HasBullet(text) then 0.2 else 0.0;
    var headings := if HasColonLine(text) then 0.2 else 0.0;
    var punctuation := if WellPunctuated(text) then 0.3 else 0.0;
    0.0 + paragraphs + bullets + headings + punctuation
  }

  // ---------------------------------------------------------------------------
  // What the heading test finds

  /** From here to the next line feed (or the end) there is only whitespace. */
  predicate BlankToEol(s: string) {
    s == [] || s[0] == '\n' || (IsSpace(s[0]) && BlankToEol(s[1..]))
  }

  /** A colon that is the last visible character of its line. */
  predicate HasHeading(text: string) {
    exists i :: 0 <= i < |text| && text[i] == ':' && BlankToEol(text[i + 1..])
  }

  /** A colon followed by nothing but whitespace. */
  predicate ColonThenBlank(line: string) {
    exists i :: 0 <= i < |line| && line[i] == ':' && AllSpace(line[i + 1..])
  }

  predicate AnyColonLine(lines: seq<string>) {
    exists k :: 0 <= k < |lines| && ColonThenBlank(lines[k])
  }

  lemma ColonThenBlankDropLast(x: string)
    requires x != [] && IsSpace(x[|x| - 1])
    ensures ColonThenBlank(x) <==> ColonThenBlank(x[..|x| - 1])
  {
    var y := x[..|x| - 1];
    if ColonThenBlank(x) {
      var i :| 0 <= i < |x| && x[i] == ':' && AllSpace(x[i + 1..]);
      assert !IsSpace(':');
      DropLastAt(x, i);
      assert y[i] == ':';
    }
    if ColonThenBlank(y) {
      var i :| 0 <= i < |y| && y[i] == ':' && AllSpace(y[i + 1..]);
      DropLastAt(x, i);
      assert x[i] == ':';
    }
  }

  /** Trailing whitespace does not change whether the rest after `i` is blank. */
  lemma DropLastAt(x: string, i: nat)
    requires i < |x| - 1 && IsSpace(x[|x| - 1])
    ensures AllSpace(x[i + 1..]) <==> AllSpace(x[..|x| - 1][i + 1..])
  {
    var y := x[..|x| - 1];
    assert x[i + 1..] == y[i + 1..] + [x[|x| - 1]];
    AllSpaceAppend(y[i + 1..], [x[|x| - 1]]);
  }

  lemma ColonThenBlankSolidEnd(x: string)
    requires x == [] || !IsSpace(x[|x| - 1])
    ensures ColonThenBlank(x) <==> EndsWith(x, ':')
  {
    if EndsWith(x, ':') {
      assert AllSpace(x[|x|..]);
      assert x[|x| - 1] == ':';
    }
    if ColonThenBlank(x) {
      var i :| 0 <= i < |x| && x[i] == ':' && AllSpace(x[i + 1..]);
      BlankRestReachesEnd(x, i);
    }
  }

  /** A blank rest after a non-final index makes the last character blank. */
  lemma BlankRestReachesEnd(x: string, i: nat)
    requires i < |x| && AllSpace(x[i + 1..])
    ensures i == |x| - 1 || IsSpace(x[|x| - 1])
  {
    if i < |x| - 1 {
      assert x[i + 1..][|x| - 2 - i] == x[|x| - 1];
    }
  }

  lemma {:induction false} TrimEndColon(x: string)
    ensures EndsWith(TrimEnd(x), ':') <==> ColonThenBlank(x)
    decreases |x|
  {
    if x != [] && IsSpace(x[|x| - 1]) {
      TrimEndColon(x[..|x| - 1]);
      ColonThenBlankDropLast(x);
    } else {
      ColonThenBlankSolidEnd(x);
    }
  }

  lemma ColonThenBlankCons(c: char, line: string)
    ensures ColonThenBlank([c] + line) <==> (c == ':' && AllSpace(line)) || ColonThenBlank(line)
  {
    var x := [c] + line;
    assert x[1..] == line;
    if ColonThenBlank(x) {
      var i :| 0 <= i < |x| && x[i] == ':' && AllSpace(x[i + 1..]);
      if i > 0 {
        assert line[i - 1] == ':';
        assert line[i..] == x[i + 1..];
      }
    }
    if ColonThenBlank(line) {
      var i :| 0 <= i < |line| && line[i] == ':' && AllSpace(line[i + 1..]);
      assert x[i + 1] == ':';
      assert x[i + 2..] == line[i + 1..];
    }
    if c == ':' && AllSpace(line) {
      assert x[0] == ':';
    }
  }

  lemma {:induction false} TrimStartColon(x: string)
    ensures ColonThenBlank(TrimStart(x)) <==> ColonThenBlank(x)
    decreases |x|
  {
    if x != [] && IsSpace(x[0]) {
      TrimStartColon(x[1..]);
      ColonThenBlankCons(x[0], x[1..]);
      assert x == [x[0]] + x[1..];
    }
  }

  /** `line.strip().endswith(':')` holds exactly for a colon followed by
      nothing but whitespace. */
  lemma StripColon(line: string)
    ensures EndsWith(Strip(line), ':') <==> ColonThenBlank(line)
  {
    TrimEndColon(TrimStart(line));
    TrimStartColon(line);
  }

  lemma {:induction false} FirstLineBlank(s: string)
    ensures BlankToEol(s) <==> AllSpace(SplitOn(s, "\n")[0])
    decreases |s|
  {
    if |s| >= 1 && s[..1] != "\n" {
      assert s[0] != '\n';
      FirstLineBlank(s[1..]);
      var rest0 := SplitOn(s[1..], "\n")[0];
      assert SplitOn(s, "\n")[0] == [s[0]] + rest0;
      AllSpaceAppend([s[0]], rest0);
      assert [s[0]][0] == s[0];
      assert AllSpace([s[0]]) <==> IsSpace(s[0]);
      assert BlankToEol(s) <==> IsSpace(s[0]) && BlankToEol(s[1..]);
    } else if |s| >= 1 {
      assert s[0] == '\n' by {
        assert s[..1][0] == s[0];
      }
      assert SplitOn(s, "\n")[0] == "";
    } else {
      assert SplitOn(s, "\n") == [s];
    }
  }

  lemma AnyColonLineCons(x: string, rest: seq<string>)
    ensures AnyColonLine([x] + rest) <==> ColonThenBlank(x) || AnyColonLine(rest)
  {
    var lines := [x] + rest;
    if AnyColonLine(lines) {
      var k :| 0 <= k < |lines| && ColonThenBlank(lines[k]);
      if k > 0 {
        assert rest[k - 1] == lines[k];
      }
    }
    if AnyColonLine(rest) {
      var k :| 0 <= k < |rest| && ColonThenBlank(rest[k]);
      assert lines[k + 1] == rest[k];
      assert ColonThenBlank(lines[k + 1]);
    }
    if ColonThenBlank(x) {
      assert lines[0] == x;
    }
  }

  lemma HasHeadingCons(s: string)
    requires s != []
    ensures HasHeading(s) <==> (s[0] == ':' && BlankToEol(s[1..])) || HasHeading(s[1..])
  {
    if HasHeading(s) {
      var i :| 0 <= i < |s| && s[i] == ':' && BlankToEol(s[i + 1..]);
      if i > 0 {
        assert s[1..][i - 1] == ':';
        assert s[1..][i..] == s[i + 1..];
      }
    }
    if HasHeading(s[1..]) {
      var i :| 0 <= i < |s[1..]| && s[1..][i] == ':' && BlankToEol(s[1..][i + 1..]);
      assert s[i + 1] == ':';
      assert s[i + 2..] == s[1..][i + 1..];
    }
  }

  lemma {:induction false} ColonLinesHeading(s: string)
    ensures AnyColonLine(SplitOn(s, "\n")) <==> HasHeading(s)
    decreases |s|
  {
    if |s| < 1 {
      assert SplitOn(s, "\n") == [""];
      assert !ColonThenBlank("");
      assert !AnyColonLine([""]);
    } else if s[..1] == "\n" {
      assert s[0] == '\n' by {
        assert s[..1][0] == s[0];
      }
      ColonLinesHeading(s[1..]);
      assert !ColonThenBlank("");
      AnyColonLineCons("", SplitOn(s[1..], "\n"));
      HasHeadingCons(s);
    } else {
      assert s[0] != '\n';
      var rest := SplitOn(s[1..], "\n");
      ColonLinesHeading(s[1..]);
      FirstLineBlank(s[1..]);
      ColonThenBlankCons(s[0], rest[0]);
      AnyColonLineCons([s[0]] + rest[0], rest[1..]);
      AnyColonLineCons(rest[0], rest[1..]);
      assert rest == [rest[0]] + rest[1..];
      HasHeadingCons(s);
    }
  }

  /** The source's line-by-line heading test finds exactly the colons that
      end their line up to whitespace. */
  lemma HeadingCheck(text: string)
    ensures (exists line :: line in SplitOn(text, "\n") && EndsWith(Strip(line), ':'))
        <==> HasHeading(text)
  {
    StrippedColonLines(SplitOn(text, "\n"));
    ColonLinesHeading(text);
  }

  /** Over a list of lines, "some line ends with ':' after `strip()`" and
      "some line has a ':' followed only by whitespace" agree. */
  lemma StrippedColonLines(lines: seq<string>)
    ensures (exists line :: line in lines && EndsWith(Strip(line), ':')) <==> AnyColonLine(lines)
  {
    if AnyColonLine(lines) {
      var k :| 0 <= k < |lines| && ColonThenBlank(lines[k]);
      StripColon(lines[k]);
      assert lines[k] in lines;
    }
    if exists line :: line in lines && EndsWith(Strip(line), ':') {
      var line :| line in lines && EndsWith(Strip(line), ':');
      StripColon(line);
      var k :| 0 <= k < |lines| && lines[k] == line;
      assert ColonThenBlank(lines[k]);
    }
  }

  /** The structure score in terms of what the text contains: a blank line
      (`\n\n`), a list marker, a colon ending a line, and the punctuation. */
  lemma StructureScoreParts(text: string)
    ensures StructureScore(text)
         == (if Contains(text, "\n\n") then 0.3 else 0.0)
          + (if HasBullet(text) then 0.2 else 0.0)
          + (if HasHeading(text) then 0.2 else 0.0)
          + (if WellPunctuated(text) then 0.3 else 0.0)
  {
    SplitCountContains(text, "\n\n");
  }
}
