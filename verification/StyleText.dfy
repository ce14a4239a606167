/**
The string operations the style checker of `check-style-clang-format.py` is built
on: stripping, tab expansion, and reading a text file line by line and back.
*/
module StyleText {

  type Line = string

  const TAB_SIZE := 4

  // The characters that `str.strip` removes.
  predicate IsSpace(c: char) {
    || '\t' <= c <= '\r' || '\U{1C}' <= c <= ' ' || c == '\U{85}' || c == '\U{A0}'
    || c == '\U{1680}' || '\U{2000}' <= c <= '\U{200A}' || c == '\U{2028}' || c == '\U{2029}'
    || c == '\U{202F}' || c == '\U{205F}' || c == '\U{3000}'
  }

  // There are twenty-nine of them.
  lemma SpacesAre(c: char)
    ensures IsSpace(c) <==> c in SPACES
  {
  }

  const SPACES :=
    "\t\n\U{0B}\U{0C}\r\U{1C}\U{1D}\U{1E}\U{1F} \U{85}\U{A0}\U{1680}\U{2000}\U{2001}\U{2002}\U{2003}\U{2004}\U{2005}\U{2006}\U{2007}\U{2008}\U{2009}\U{200A}\U{2028}\U{2029}\U{202F}\U{205F}\U{3000}"

  predicate AllSpace(s: string) {
    forall i :: 0 <= i < |s| ==> IsSpace(s[i])
  }

  // Where the spaces at the end of the first `n` characters begin.
  function TrailStart(s: string, n: nat): (k: nat)
    requires n <= |s|
    ensures k <= n
  {
    if n > 0 && IsSpace(s[n - 1]) then TrailStart(s, n - 1) else n
  }

  // Where the spaces from character `i` on end.
  function LeadEnd(s: string, i: nat): (k: nat)
    requires i <= |s|
    ensures i <= k <= |s|
    decreases |s| - i
  {
    if i < |s| && IsSpace(s[i]) then LeadEnd(s, i + 1) else i
  }

  function RStrip(s: string): string {
    s[..TrailStart(s, |s|)]
  }

  function LStrip(s: string): string {
    s[LeadEnd(s, 0)..]
  }

  function Strip(s: string): string {
    LStrip(RStrip(s))
  }

  // Neither the first nor the last character is a space.
  predicate Bare(s: string) {
    s != [] && !IsSpace(s[0]) && !IsSpace(s[|s| - 1])
  }

  lemma {:induction false} TrailIsSpace(s: string, n: nat)
    requires n <= |s|
    ensures forall i :: TrailStart(s, n) <= i < n ==> IsSpace(s[i])
    ensures TrailStart(s, n) > 0 ==> !IsSpace(s[TrailStart(s, n) - 1])
  {
    if n > 0 && IsSpace(s[n - 1]) {
      TrailIsSpace(s, n - 1);
    }
  }

  lemma {:induction false} TrailFound(s: string, k: nat, n: nat)
    requires k <= n <= |s| && (forall i :: k <= i < n ==> IsSpace(s[i])) && (k > 0 ==> !IsSpace(s[k - 1]))
    ensures TrailStart(s, n) == k
  {
    if k < n {
      TrailFound(s, k, n - 1);
    }
  }

  lemma {:induction false} LeadIsSpace(s: string, i: nat)
    requires i <= |s|
    ensures forall j :: i <= j < LeadEnd(s, i) ==> IsSpace(s[j])
    ensures LeadEnd(s, i) < |s| ==> !IsSpace(s[LeadEnd(s, i)])
    decreases |s| - i
  {
    if i < |s| && IsSpace(s[i]) {
      LeadIsSpace(s, i + 1);
    }
  }

  lemma {:induction false} LeadFound(s: string, i: nat, k: nat)
    requires i <= k < |s| && (forall j :: i <= j < k ==> IsSpace(s[j])) && !IsSpace(s[k])
    ensures LeadEnd(s, i) == k
    decreases k - i
  {
    if i < k {
      LeadFound(s, i + 1, k);
    }
  }

  lemma {:induction false} RStripSplits(s: string)
    ensures RStrip(s) <= s && AllSpace(s[|RStrip(s)|..])
    ensures RStrip(s) != [] ==> !IsSpace(RStrip(s)[|RStrip(s)| - 1])
  {
    TrailIsSpace(s, |s|);
  }

  lemma {:induction false} RStripOf(s: string, space: string)
    requires AllSpace(space) && (s != [] ==> !IsSpace(s[|s| - 1]))
    ensures RStrip(s + space) == s
  {
    TrailFound(s + space, |s|, |s + space|);
  }

  // Stripping finds what stands between the surrounding spaces.
  lemma {:induction false} StripOf(a: string, s: string, b: string)
    requires AllSpace(a) && AllSpace(b) && Bare(s)
    ensures Strip(a + s + b) == s
  {
    RStripOf(a + s, b);
    LeadFound(a + s, 0, |a|);
  }

  lemma {:induction false} StripSplits(s: string) returns (a: string, b: string)
    requires Bare(Strip(s))
    ensures s == a + Strip(s) + b && AllSpace(a) && AllSpace(b)
  {
    RStripSplits(s);
    var r := RStrip(s);
    LeadIsSpace(r, 0);
    a, b := r[..LeadEnd(r, 0)], s[|r|..];
  }

  // ----- tab expansion -----

  function NextStop(column: nat): nat {
    (column / TAB_SIZE + 1) * TAB_SIZE
  }

  // The display column after a character shown in a column.
  function Advance(c: char, column: nat): nat {
    if c == '\t' then NextStop(column) else if c == '\n' || c == '\r' then 0 else column + 1
  }

  function ColumnAfter(s: string, column: nat): nat {
    if s == [] then column else ColumnAfter(s[1..], Advance(s[0], column))
  }

  function Blanks(n: nat): (s: string)
    ensures |s| == n && forall i :: 0 <= i < n ==> s[i] == ' '
  {
    seq(n, _ => ' ')
  }

  // `str.expandtabs`: a tab becomes the spaces up to the next multiple of the tab size.
  function ExpandFrom(s: string, column: nat): string {
    if s == [] then []
    else if s[0] == '\t' then
      Blanks(TAB_SIZE - column % TAB_SIZE) + ExpandFrom(s[1..], column + TAB_SIZE - column % TAB_SIZE)
    else
      [s[0]] + ExpandFrom(s[1..], Advance(s[0], column))
  }

  function ExpandTabs(s: string): string {
    ExpandFrom(s, 0)
  }

  lemma {:induction false} ExpandAppend(a: string, b: string, column: nat)
    ensures ExpandFrom(a + b, column) == ExpandFrom(a, column) + ExpandFrom(b, ColumnAfter(a, column))
  {
    if a == [] {
      assert a + b == b;
    } else {
      assert (a + b)[1..] == a[1..] + b;
      ExpandAppend(a[1..], b, Advance(a[0], column));
    }
  }

  lemma {:induction false} ExpandWithoutTabs(s: string, column: nat)
    requires '\t' !in s
    ensures ExpandFrom(s, column) == s
  {
    if s != [] {
      ExpandWithoutTabs(s[1..], Advance(s[0], column));
    }
  }

  lemma {:induction false} ExpandedHasNoTabs(s: string, column: nat)
    ensures '\t' !in ExpandFrom(s, column)
    ensures forall c :: c in ExpandFrom(s, column) ==> c == ' ' || c in s
  {
    if s != [] {
      ExpandedHasNoTabs(s[1..], if s[0] == '\t' then column + TAB_SIZE - column % TAB_SIZE else Advance(s[0], column));
    }
  }

  lemma {:induction false} ExpandSpace(s: string, column: nat)
    requires AllSpace(s)
    ensures AllSpace(ExpandFrom(s, column))
  {
    ExpandedHasNoTabs(s, column);
    forall i | 0 <= i < |ExpandFrom(s, column)| ensures IsSpace(ExpandFrom(s, column)[i]) {
      var c := ExpandFrom(s, column)[i];
      assert c == ' ' || c in s;
    }
  }

  lemma {:induction false} BlanksAdvance(n: nat, column: nat)
    ensures ColumnAfter(Blanks(n), column) == column + n
  {
    if n > 0 {
      assert Blanks(n)[1..] == Blanks(n - 1);
      BlanksAdvance(n - 1, column + 1);
    }
  }

  lemma {:induction false} ColumnAppend(a: string, b: string, column: nat)
    ensures ColumnAfter(a + b, column) == ColumnAfter(b, ColumnAfter(a, column))
  {
    if a == [] {
      assert a + b == b;
    } else {
      assert (a + b)[1..] == a[1..] + b;
      ColumnAppend(a[1..], b, Advance(a[0], column));
    }
  }

  lemma {:induction false} ExpandKeepsColumn(s: string, column: nat)
    ensures ColumnAfter(ExpandFrom(s, column), column) == ColumnAfter(s, column)
  {
    if s == [] {
    } else if s[0] == '\t' {
      var n := TAB_SIZE - column % TAB_SIZE;
      assert NextStop(column) == column + n;
      BlanksAdvance(n, column);
      ColumnAppend(Blanks(n), ExpandFrom(s[1..], column + n), column);
      ExpandKeepsColumn(s[1..], column + n);
    } else {
      assert ExpandFrom(s, column)[1..] == ExpandFrom(s[1..], Advance(s[0], column));
      ExpandKeepsColumn(s[1..], Advance(s[0], column));
    }
  }

  // The display column of character `i`, and where expansion puts it.
  function DisplayColumn(s: string, i: nat): nat
    requires i <= |s|
  {
    ColumnAfter(s[..i], 0)
  }

  function Moved(s: string, i: nat): nat
    requires i <= |s|
  {
    |ExpandTabs(s[..i])|
  }

  // Every character but a tab keeps its column and its order.
  lemma {:induction false} ExpandKeepsCharacters(s: string, i: nat)
    requires i < |s| && s[i] != '\t'
    ensures Moved(s, i) < |ExpandTabs(s)| && ExpandTabs(s)[Moved(s, i)] == s[i]
    ensures DisplayColumn(ExpandTabs(s), Moved(s, i)) == DisplayColumn(s, i)
    ensures Moved(s, i + 1) == Moved(s, i) + 1
  {
    var before, after := s[..i], s[i..];
    assert s == before + after && after[0] == s[i];
    ExpandAppend(before, after, 0);
    assert ExpandTabs(s)[..Moved(s, i)] == ExpandTabs(before);
    ExpandKeepsColumn(before, 0);
    assert s[..i + 1] == before + [s[i]];
    ExpandAppend(before, [s[i]], 0);
    assert ExpandFrom([s[i]], ColumnAfter(before, 0)) == [s[i]];
  }

  // A tab becomes between one and four blanks, up to the next multiple of four.
  lemma {:induction false} ExpandBlanksTabs(s: string, i: nat)
    requires i < |s| && s[i] == '\t'
    ensures Moved(s, i + 1) <= |ExpandTabs(s)| && Moved(s, i + 1) - Moved(s, i) == 4 - DisplayColumn(s, i) % 4
    ensures forall j :: Moved(s, i) <= j < Moved(s, i + 1) ==> ExpandTabs(s)[j] == ' '
    ensures DisplayColumn(ExpandTabs(s), Moved(s, i + 1)) == DisplayColumn(s, i) + 4 - DisplayColumn(s, i) % 4
  {
    var before := s[..i];
    var column := ColumnAfter(before, 0);
    assert s[..i + 1] == before + "\t";
    ExpandAppend(before, "\t", 0);
    assert ExpandFrom("\t", column) == Blanks(TAB_SIZE - column % TAB_SIZE) + [];
    assert s == s[..i + 1] + s[i + 1..];
    ExpandAppend(s[..i + 1], s[i + 1..], 0);
    assert ExpandTabs(s)[..Moved(s, i + 1)] == ExpandTabs(s[..i + 1]);
    ExpandKeepsColumn(s[..i + 1], 0);
    ColumnAppend(before, "\t", 0);
    assert ColumnAfter("\t", column) == NextStop(column);
  }

  // Expansion changes nothing but the spaces around a stripped line without tabs.
  lemma {:induction false} StripSurvivesExpansion(s: string)
    requires Bare(Strip(s)) && '\t' !in Strip(s)
    ensures Strip(ExpandTabs(s)) == Strip(s)
  {
    var a, b := StripSplits(s);
    var core := Strip(s);
    ExpandAppend(a + core, b, 0);
    ExpandAppend(a, core, 0);
    ExpandWithoutTabs(core, ColumnAfter(a, 0));
    ExpandSpace(a, 0);
    ExpandSpace(b, ColumnAfter(a + core, 0));
    StripOf(ExpandFrom(a, 0), core, ExpandFrom(b, ColumnAfter(a + core, 0)));
  }

  // ----- text files -----

  // What text mode reads: every line end becomes a line feed.
  function Universal(text: string): string {
    if text == [] then []
    else if text[0] == '\r' then
      ['\n'] + Universal(if |text| > 1 && text[1] == '\n' then text[2..] else text[1..])
    else [text[0]] + Universal(text[1..])
  }

  lemma {:induction false} UniversalHasNoReturns(text: string)
    ensures '\r' !in Universal(text)
  {
    if text == [] {
    } else if text[0] == '\r' {
      UniversalHasNoReturns(if |text| > 1 && text[1] == '\n' then text[2..] else text[1..]);
    } else {
      UniversalHasNoReturns(text[1..]);
    }
  }

  lemma {:induction false} UniversalKeeps(text: string)
    requires '\r' !in text
    ensures Universal(text) == text
  {
    if text != [] {
      UniversalKeeps(text[1..]);
    }
  }

  // A carriage return is read as a line feed, together with a line feed that follows it.
  lemma {:induction false} UniversalIs(a: string, b: string)
    requires '\r' !in a
    ensures Universal(a + "\r\n" + b) == a + "\n" + Universal(b)
    ensures (b == [] || b[0] != '\n') ==> Universal(a + "\r" + b) == a + "\n" + Universal(b)
  {
    if a == [] {
      assert a + "\r\n" + b == "\r\n" + b && ("\r\n" + b)[2..] == b;
      assert a + "\r" + b == "\r" + b && ("\r" + b)[1..] == b;
    } else {
      UniversalIs(a[1..], b);
      assert (a + "\r\n" + b)[1..] == a[1..] + "\r\n" + b && (a + "\r" + b)[1..] == a[1..] + "\r" + b;
    }
  }

  // The lines of a text, each with its line feed.
  function SplitLines(text: string): (lines: seq<Line>)
    ensures text != [] ==> lines != []
  {
    if text == [] then []
    else if text[0] == '\n' then ["\n"] + SplitLines(text[1..])
    else if |text| == 1 then [text]
    else var rest := SplitLines(text[1..]); [[text[0]] + rest[0]] + rest[1..]
  }

  function Concat(lines: seq<Line>): string {
    if lines == [] then [] else lines[0] + Concat(lines[1..])
  }

  function ReadLines(content: string): seq<Line> {
    SplitLines(Universal(content))
  }

  // A line as it is read: not empty, without returns, and with no line feed but at its end.
  predicate IsLine(line: Line) {
    line != [] && '\r' !in line && '\n' !in line[..|line| - 1]
  }

  // Lines as they are read: only the last one may lack its line feed.
  predicate AreLines(lines: seq<Line>) {
    && (forall i :: 0 <= i < |lines| ==> IsLine(lines[i]))
    && (forall i :: 0 <= i < |lines| - 1 ==> lines[i][|lines[i]| - 1] == '\n')
  }

  lemma {:induction false} LongerLine(c: char, line: Line)
    requires IsLine(line) && c != '\r' && c != '\n'
    ensures IsLine([c] + line) && ([c] + line)[|line|] == line[|line| - 1]
  {
    assert ([c] + line)[..|line|] == [c] + line[..|line| - 1];
  }

  lemma {:induction false} LongerFirstLine(c: char, lines: seq<Line>)
    requires lines != [] && AreLines(lines) && c != '\r' && c != '\n'
    ensures AreLines([[c] + lines[0]] + lines[1..])
  {
    LongerLine(c, lines[0]);
    var longer := [[c] + lines[0]] + lines[1..];
    assert forall i :: 0 < i < |lines| ==> longer[i] == lines[i];
  }

  lemma {:induction false} SplitGivesLines(text: string)
    requires '\r' !in text
    ensures AreLines(SplitLines(text))
  {
    if text == [] {
    } else if text[0] == '\n' {
      SplitGivesLines(text[1..]);
    } else if |text| > 1 {
      SplitGivesLines(text[1..]);
      assert text[0] in text;
      LongerFirstLine(text[0], SplitLines(text[1..]));
    }
  }

  lemma {:induction false} SplitKeepsText(text: string)
    ensures Concat(SplitLines(text)) == text
  {
    if text == [] {
    } else if text[0] == '\n' {
      SplitKeepsText(text[1..]);
    } else if |text| > 1 {
      var rest := SplitLines(text[1..]);
      SplitKeepsText(text[1..]);
      assert ([[text[0]] + rest[0]] + rest[1..])[1..] == rest[1..];
    } else {
      assert [text][1..] == [];
    }
  }

  lemma {:induction false} ReadGivesLines(content: string)
    ensures AreLines(ReadLines(content))
    ensures Concat(ReadLines(content)) == Universal(content)
  {
    SplitKeepsText(Universal(content));
    UniversalHasNoReturns(content);
    SplitGivesLines(Universal(content));
  }

  lemma {:induction false} SplitFirstLine(line: Line, text: string)
    requires IsLine(line) && (text != [] ==> line[|line| - 1] == '\n')
    ensures SplitLines(line + text) == [line] + SplitLines(text)
    decreases |line|
  {
    if |line| == 1 {
      assert (line + text)[1..] == text;
      if line[0] == '\n' {
        assert line == "\n";
      } else {
        assert line + text == line && text == [] && SplitLines(text) == [];
      }
    } else {
      assert (line + text)[1..] == line[1..] + text;
      assert line[0] != '\n' by { assert line[0] in line[..|line| - 1]; }
      assert line[1..][..|line[1..]| - 1] == line[..|line| - 1][1..];
      SplitFirstLine(line[1..], text);
      assert line == [line[0]] + line[1..];
    }
  }

  lemma {:induction false} SplitConcat(lines: seq<Line>)
    requires AreLines(lines)
    ensures SplitLines(Concat(lines)) == lines && '\r' !in Concat(lines)
  {
    if lines != [] {
      SplitConcat(lines[1..]);
      assert lines[1..] == [] ==> Concat(lines[1..]) == [];
      SplitFirstLine(lines[0], Concat(lines[1..]));
    }
  }

  // Writing lines and reading the file again gives the same lines.
  lemma {:induction false} WriteThenRead(lines: seq<Line>)
    requires AreLines(lines)
    ensures ReadLines(Concat(lines)) == lines
  {
    SplitConcat(lines);
    UniversalKeeps(Concat(lines));
  }
}
