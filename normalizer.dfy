/**
 * The text normaliser `to_markdown` applied to every generated summary:
 * Python's `textwrap.dedent`, then every bullet, asterisk and hyphen is
 * replaced by one space.
 */
module Normalizer {
  import opened Wrappers

  // ---------------------------------------------------------------------
  // Lines: `textwrap.dedent` works on the lines of its argument, that is,
  // on the pieces between '\n' characters (the `^` of a multi-line regex).
  // ---------------------------------------------------------------------

  /** The lines of `s`, split at every '\n'; "" has one empty line. */
  function Split(s: string): (lines: seq<string>)
    ensures |lines| >= 1
  {
    if s == [] then [[]]
    else
      var rest := Split(s[1..]);
      if s[0] == '\n' then [[]] + rest
      else [[s[0]] + rest[0]] + rest[1..]
  }

  /** No line holds a '\n'. */
  lemma {:induction false} SplitNoNewline(s: string)
    ensures forall i :: 0 <= i < |Split(s)| ==> '\n' !in Split(s)[i]
  {
    if s != [] {
      SplitNoNewline(s[1..]);
      var rest := Split(s[1..]);
      if s[0] != '\n' {
        assert forall i :: 0 < i < |Split(s)| ==> Split(s)[i] == rest[i];
        assert '\n' !in [s[0]] + rest[0];
      }
    }
  }

  /** The lines glued back together with '\n' between them. */
  function Join(lines: seq<string>): string
  {
    if lines == [] then []
    else if |lines| == 1 then lines[0]
    else lines[0] + ['\n'] + Join(lines[1..])
  }

  lemma {:induction false} JoinSplit(s: string)
    ensures Join(Split(s)) == s
  {
    if s != [] {
      var rest := Split(s[1..]);
      JoinSplit(s[1..]);
      if s[0] == '\n' {
        assert ([[]] + rest)[1..] == rest;
      } else if |rest| == 1 {
        assert Split(s) == [[s[0]] + rest[0]];
      } else {
        var lines := [[s[0]] + rest[0]] + rest[1..];
        assert lines[1..] == rest[1..];
        assert Join(lines) == [s[0]] + (rest[0] + ['\n'] + Join(rest[1..]));
      }
    }
  }

  /** A first line without '\n' is glued onto the first line of what follows. */
  lemma {:induction false} SplitPrepend(l: string, t: string)
    requires '\n' !in l
    ensures Split(l + t) == [l + Split(t)[0]] + Split(t)[1..]
  {
    if l != [] {
      assert (l + t)[0] == l[0] != '\n';
      assert (l + t)[1..] == l[1..] + t;
      SplitPrepend(l[1..], t);
      var rest := Split(l[1..] + t);
      assert rest[1..] == Split(t)[1..];
      assert [l[0]] + (l[1..] + Split(t)[0]) == l + Split(t)[0];
    } else {
      assert l + t == t && l + Split(t)[0] == Split(t)[0];
      assert Split(t) == [Split(t)[0]] + Split(t)[1..];
    }
  }

  lemma {:induction false} SplitJoin(lines: seq<string>)
    requires |lines| >= 1
    requires forall i :: 0 <= i < |lines| ==> '\n' !in lines[i]
    ensures Split(Join(lines)) == lines
  {
    if |lines| == 1 {
      SplitPrepend(lines[0], []);
      assert lines[0] + [] == lines[0];
    } else {
      var tail := lines[1..];
      SplitJoin(tail);
      var j := ['\n'] + Join(tail);
      assert j[1..] == Join(tail);
      assert Split(j) == [[]] + tail;
      assert Join(lines) == lines[0] + j;
      SplitPrepend(lines[0], j);
      assert lines[0] + [] == lines[0];
    }
  }

  // ---------------------------------------------------------------------
  // Indentation.
  // ---------------------------------------------------------------------

  /** Spaces and tabs: the only whitespace `textwrap.dedent` strips. */
  predicate IsIndentChar(c: char) { c == ' ' || c == '\t' }

  /** A line holding nothing but spaces and tabs (the empty line included). */
  predicate IsBlank(line: string) {
    line == [] || (IsIndentChar(line[0]) && IsBlank(line[1..]))
  }

  lemma {:induction false} IsBlankAt(line: string)
    ensures IsBlank(line) <==> forall i :: 0 <= i < |line| ==> IsIndentChar(line[i])
  {
    if line != [] {
      IsBlankAt(line[1..]);
      assert forall i :: 0 < i < |line| ==> line[i] == line[1..][i - 1];
    }
  }

  /** The leading run of spaces and tabs of a line. */
  function Indent(line: string): string
  {
    if line != [] && IsIndentChar(line[0]) then [line[0]] + Indent(line[1..]) else []
  }

  /** The indent is a whitespace prefix of the line that no longer whitespace prefix extends. */
  lemma {:induction false} IndentFacts(line: string)
    ensures Indent(line) <= line
    ensures forall i :: 0 <= i < |Indent(line)| ==> IsIndentChar(Indent(line)[i])
    ensures |Indent(line)| == |line| || !IsIndentChar(line[|Indent(line)|])
  {
    if line != [] && IsIndentChar(line[0]) {
      IndentFacts(line[1..]);
      var w := Indent(line[1..]);
      assert Indent(line) == [line[0]] + w;
      assert forall i :: 0 < i <= |w| && i < |line| ==> line[i] == line[1..][i - 1];
    }
  }

  /** Every whitespace prefix of a line is a prefix of its indent. */
  lemma IndentGreatest(q: string, line: string)
    requires q <= line
    requires forall i :: 0 <= i < |q| ==> IsIndentChar(q[i])
    ensures q <= Indent(line)
  {
    IndentFacts(line);
    var w := Indent(line);
    if |q| > |w| {
      assert false;
    }
  }

  /** The longest common prefix of two strings. */
  function CommonPrefix(a: string, b: string): string
  {
    if a != [] && b != [] && a[0] == b[0] then [a[0]] + CommonPrefix(a[1..], b[1..]) else []
  }

  /** The common prefix is a prefix of both, and the two differ right after it. */
  lemma {:induction false} CommonPrefixFacts(a: string, b: string)
    ensures CommonPrefix(a, b) <= a && CommonPrefix(a, b) <= b
    ensures var n := |CommonPrefix(a, b)|; n == |a| || n == |b| || a[n] != b[n]
  {
    if a != [] && b != [] && a[0] == b[0] {
      CommonPrefixFacts(a[1..], b[1..]);
      var p := CommonPrefix(a[1..], b[1..]);
      assert CommonPrefix(a, b) == [a[0]] + p;
      assert |p| < |a[1..]| && |p| < |b[1..]| ==> a[|p| + 1] == a[1..][|p|] && b[|p| + 1] == b[1..][|p|];
    }
  }

  /** A string is a prefix of both arguments exactly when it is a prefix of their common prefix. */
  lemma CommonPrefixGreatest(p: string, a: string, b: string)
    ensures (p <= a && p <= b) <==> p <= CommonPrefix(a, b)
  {
    CommonPrefixFacts(a, b);
    var c := CommonPrefix(a, b);
    if p <= a && p <= b {
      if |p| > |c| {
        assert false;
      }
      assert p == a[..|p|] && c == a[..|c|];
    }
    if p <= c {
      assert p == c[..|p|] && c == a[..|c|] && c == b[..|c|];
      assert p == a[..|p|] && p == b[..|p|];
    }
  }

  /** `p` is a prefix of the indent of every line that is not blank. */
  predicate IsCommonIndent(p: string, lines: seq<string>) {
    forall j :: 0 <= j < |lines| && !IsBlank(lines[j]) ==> p <= Indent(lines[j])
  }

  /**
   * The margin `textwrap.dedent` removes: the longest common prefix of the
   * indents of the lines that are not blank, or None when every line is blank.
   */
  function Margin(lines: seq<string>): Option<string>
  {
    if lines == [] then None
    else
      var rest := Margin(lines[1..]);
      if IsBlank(lines[0]) then rest
      else match rest
        case None => Some(Indent(lines[0]))
        case Some(m) => Some(CommonPrefix(Indent(lines[0]), m))
  }

  lemma CommonIndentCons(p: string, lines: seq<string>)
    requires lines != []
    ensures IsCommonIndent(p, lines) <==>
            (IsBlank(lines[0]) || p <= Indent(lines[0])) && IsCommonIndent(p, lines[1..])
  {
    if (IsBlank(lines[0]) || p <= Indent(lines[0])) && IsCommonIndent(p, lines[1..]) {
      forall j | 0 <= j < |lines| && !IsBlank(lines[j]) ensures p <= Indent(lines[j]) {
        if j > 0 { assert lines[j] == lines[1..][j - 1]; }
      }
    }
    if IsCommonIndent(p, lines) {
      forall j | 0 <= j < |lines[1..]| && !IsBlank(lines[1..][j]) ensures p <= Indent(lines[1..][j]) {
        assert lines[1..][j] == lines[j + 1];
      }
    }
  }

  /**
   * The margin exists exactly when some line is not blank, and then it is
   * the greatest common indent: a string is a common prefix of the indents
   * of all non-blank lines if and only if it is a prefix of the margin.
   */
  lemma {:induction false} MarginSpec(lines: seq<string>)
    ensures Margin(lines).None? <==> forall j :: 0 <= j < |lines| ==> IsBlank(lines[j])
    ensures Margin(lines).Some? ==>
              forall p :: IsCommonIndent(p, lines) <==> p <= Margin(lines).value
  {
    if lines != [] {
      var tail := lines[1..];
      MarginSpec(tail);
      assert forall j :: 0 < j < |lines| ==> lines[j] == tail[j - 1];
      if Margin(lines).Some? {
        var m := Margin(lines).value;
        forall p ensures IsCommonIndent(p, lines) <==> p <= m {
          CommonIndentCons(p, lines);
          if !IsBlank(lines[0]) {
            match Margin(tail)
            case None =>
              assert IsCommonIndent(p, tail);
            case Some(mt) =>
              CommonPrefixGreatest(p, Indent(lines[0]), mt);
          }
        }
      }
    }
  }

  /** The margin as a string: "" when there is none. */
  function MarginText(lines: seq<string>): string
  {
    match Margin(lines)
    case None => []
    case Some(m) => m
  }

  /**
   * One line after dedenting: a blank line becomes empty; any other line
   * loses the margin when it starts with it.
   */
  function DedentLine(line: string, margin: string): string
  {
    if IsBlank(line) then []
    else if margin <= line then line[|margin|..]
    else line
  }

  /** The lines of a text after dedenting, the margin computed from all of them. */
  function DedentLines(lines: seq<string>): seq<string>
  {
    DedentAll(lines, MarginText(lines))
  }

  /** `DedentLine` applied to every line. */
  function DedentAll(lines: seq<string>, margin: string): seq<string>
  {
    if lines == [] then [] else [DedentLine(lines[0], margin)] + DedentAll(lines[1..], margin)
  }

  lemma {:induction false} DedentAllAt(lines: seq<string>, margin: string)
    ensures |DedentAll(lines, margin)| == |lines|
    ensures forall i :: 0 <= i < |lines| ==> DedentAll(lines, margin)[i] == DedentLine(lines[i], margin)
  {
    if lines != [] {
      DedentAllAt(lines[1..], margin);
      assert forall i :: 0 < i < |lines| ==> lines[i] == lines[1..][i - 1];
    }
  }

  /** `textwrap.dedent`: strip the margin from every line, empty the blank ones. */
  function Dedent(text: string): string
  {
    Join(DedentLines(Split(text)))
  }

  /** The margin is whitespace, and it is a common indent of the lines. */
  lemma MarginTextFacts(lines: seq<string>)
    ensures forall i :: 0 <= i < |MarginText(lines)| ==> IsIndentChar(MarginText(lines)[i])
    ensures IsCommonIndent(MarginText(lines), lines)
  {
    MarginSpec(lines);
    if Margin(lines).Some? {
      var m := MarginText(lines);
      assert IsCommonIndent(m, lines);
      var j :| 0 <= j < |lines| && !IsBlank(lines[j]);
      IndentFacts(lines[j]);
      assert m <= Indent(lines[j]);
    }
  }

  /** A non-blank line whose indent starts with the margin is the margin plus its dedented form. */
  lemma DedentLineSplits(line: string, margin: string)
    requires !IsBlank(line) && margin <= Indent(line)
    ensures line == margin + DedentLine(line, margin)
    ensures '\n' !in line ==> '\n' !in DedentLine(line, margin)
  {
    IndentFacts(line);
    assert margin <= line;
    var rest := line[|margin|..];
    if '\n' in rest {
      var k :| 0 <= k < |rest| && rest[k] == '\n';
      assert line[|margin| + k] == '\n';
    }
  }

  lemma DedentLinesSpec(lines: seq<string>)
    requires forall i :: 0 <= i < |lines| ==> '\n' !in lines[i]
    ensures var out, m := DedentLines(lines), MarginText(lines);
      && |out| == |lines|
      && (forall i :: 0 <= i < |lines| && IsBlank(lines[i]) ==> out[i] == [])
      && (forall i :: 0 <= i < |lines| && !IsBlank(lines[i]) ==> lines[i] == m + out[i])
      && (forall i :: 0 <= i < |lines| ==> '\n' !in out[i])
  {
    var out, m := DedentLines(lines), MarginText(lines);
    MarginTextFacts(lines);
    DedentAllAt(lines, m);
    forall i | 0 <= i < |lines| && !IsBlank(lines[i])
      ensures lines[i] == m + out[i] && '\n' !in out[i]
    {
      DedentLineSplits(lines[i], m);
    }
  }

  /**
   * What `Dedent` does, line by line: the result has as many lines as the
   * input; a blank line becomes empty; every other line is the margin
   * followed by its result line; the margin is whitespace and is the
   * greatest common indent of the non-blank lines.
   */
  lemma DedentSpec(text: string)
    ensures var lines, out, m := Split(text), Split(Dedent(text)), MarginText(Split(text));
      && |out| == |lines|
      && (forall i :: 0 <= i < |lines| && IsBlank(lines[i]) ==> out[i] == [])
      && (forall i :: 0 <= i < |lines| && !IsBlank(lines[i]) ==> lines[i] == m + out[i])
      && (forall i :: 0 <= i < |m| ==> IsIndentChar(m[i]))
      && (Margin(lines).Some? ==> forall p :: IsCommonIndent(p, lines) <==> p <= m)
  {
    var lines := Split(text);
    SplitNoNewline(text);
    DedentLinesSpec(lines);
    SplitJoin(DedentLines(lines));
    MarginTextFacts(lines);
    MarginSpec(lines);
  }

  /**
   * After `Dedent` no common leading whitespace is left: when some line is
   * not blank, for every space or tab some non-blank line of the result
   * does not start with it.
   */
  lemma DedentLeavesNoCommonIndent(text: string, c: char)
    requires IsIndentChar(c)
    requires exists j :: 0 <= j < |Split(text)| && !IsBlank(Split(text)[j])
    ensures exists j :: 0 <= j < |Split(Dedent(text))| && !IsBlank(Split(Dedent(text))[j])
                        && Split(Dedent(text))[j][0] != c
  {
    var lines, out, m := Split(text), Split(Dedent(text)), MarginText(Split(text));
    DedentSpec(text);
    MarginSpec(lines);
    // A non-blank line stays non-blank: the margin is whitespace.
    forall j | 0 <= j < |lines| && !IsBlank(lines[j]) ensures !IsBlank(out[j]) {
      IsBlankAt(lines[j]);
      IsBlankAt(out[j]);
    }
    if forall j :: 0 <= j < |out| && !IsBlank(out[j]) ==> out[j][0] == c {
      var q := m + [c];
      forall j | 0 <= j < |lines| && !IsBlank(lines[j]) ensures q <= Indent(lines[j]) {
        assert out[j][0] == c;
        assert q <= lines[j];
        IndentGreatest(q, lines[j]);
      }
      assert IsCommonIndent(q, lines);
      assert false;
    }
  }

  // ---------------------------------------------------------------------
  // Marker replacement.
  // ---------------------------------------------------------------------

  /** The bullet U+2022. */
  const Bullet: char := '\U{2022}'

  /** The three characters `to_markdown` blanks out: a bullet, '*' and '-'. */
  predicate IsMarker(c: char) { c == Bullet || c == '*' || c == '-' }

  /** `str.replace` with a one-character pattern and a one-character replacement. */
  function Replace(s: string, from: char, to: char): string
  {
    if s == [] then [] else [if s[0] == from then to else s[0]] + Replace(s[1..], from, to)
  }

  /** The three replacements in the source's order: bullets, then '*', then '-'. */
  function StripMarkers(s: string): string
  {
    Replace(Replace(Replace(s, Bullet, ' '), '*', ' '), '-', ' ')
  }

  /** `to_markdown`: dedent, then blank out the markers. */
  function ToMarkdown(text: string): string
  {
    StripMarkers(Dedent(text))
  }

  /** Replacement keeps the length and changes exactly the occurrences of `from`. */
  lemma {:induction false} ReplaceAt(s: string, from: char, to: char)
    ensures |Replace(s, from, to)| == |s|
    ensures forall i :: 0 <= i < |s| ==>
              Replace(s, from, to)[i] == if s[i] == from then to else s[i]
  {
    if s != [] {
      ReplaceAt(s[1..], from, to);
      assert forall i :: 0 < i < |s| ==> s[i] == s[1..][i - 1];
    }
  }

  /**
   * The replacement step keeps the length; each marker becomes exactly one
   * space and every other character stays where it was.
   */
  lemma StripMarkersAt(s: string)
    ensures |StripMarkers(s)| == |s|
    ensures forall i :: 0 <= i < |s| ==>
              StripMarkers(s)[i] == if IsMarker(s[i]) then ' ' else s[i]
  {
    var s1 := Replace(s, Bullet, ' ');
    var s2 := Replace(s1, '*', ' ');
    ReplaceAt(s, Bullet, ' ');
    ReplaceAt(s1, '*', ' ');
    ReplaceAt(s2, '-', ' ');
  }

  /** No bullet, asterisk or hyphen survives the replacement step. */
  lemma StripMarkersNoMarkers(s: string)
    ensures forall i :: 0 <= i < |StripMarkers(s)| ==> !IsMarker(StripMarkers(s)[i])
  {
    StripMarkersAt(s);
  }

  /** A text is left unchanged by the replacement step exactly when it holds no marker. */
  lemma StripMarkersFixed(s: string)
    ensures StripMarkers(s) == s <==> forall i :: 0 <= i < |s| ==> !IsMarker(s[i])
  {
    StripMarkersAt(s);
    if StripMarkers(s) == s {
      forall i | 0 <= i < |s| ensures !IsMarker(s[i]) {
        assert StripMarkers(s)[i] == s[i];
      }
    }
  }

  /** Applying the replacement step to its own output changes nothing. */
  lemma StripMarkersIdempotent(s: string)
    ensures StripMarkers(StripMarkers(s)) == StripMarkers(s)
  {
    StripMarkersNoMarkers(s);
    StripMarkersFixed(StripMarkers(s));
  }

  /**
   * `to_markdown` leaves no marker in its output, and its output is the
   * dedented text with each marker replaced by one space.
   */
  lemma ToMarkdownSpec(text: string)
    ensures |ToMarkdown(text)| == |Dedent(text)|
    ensures forall i :: 0 <= i < |ToMarkdown(text)| ==> !IsMarker(ToMarkdown(text)[i])
    ensures forall i :: 0 <= i < |Dedent(text)| && !IsMarker(Dedent(text)[i]) ==>
              ToMarkdown(text)[i] == Dedent(text)[i]
    ensures forall i :: 0 <= i < |Dedent(text)| && IsMarker(Dedent(text)[i]) ==>
              ToMarkdown(text)[i] == ' '
  {
    StripMarkersAt(Dedent(text));
  }
}
