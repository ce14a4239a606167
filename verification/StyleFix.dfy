/**
The tab and trailing-whitespace fixers of `check-style-clang-format.py`.  The tab
fixer leaves alone what stands between clang-format guards; since expanding tabs
can turn a line into a guard, a second run need not see the same guards.
*/
module StyleFix {
  import opened StyleText

  // The two guard comments. All results below hold for any proper pair.
  datatype Guards = Guards(on: string, off: string)

  const CLANG_FORMAT := Guards("// clang-format on", "// clang-format off")

  predicate Proper(g: Guards) {
    Bare(g.on) && Bare(g.off) && '\t' !in g.on && '\t' !in g.off
  }

  lemma {:induction false} ClangFormatIsProper()
    ensures Proper(CLANG_FORMAT)
  {
  }

  function Stripped(lines: seq<Line>): (marks: seq<string>)
    ensures |marks| == |lines| && forall i :: 0 <= i < |lines| ==> marks[i] == Strip(lines[i])
  {
    seq(|lines|, i requires 0 <= i < |lines| => Strip(lines[i]))
  }

  // Whether formatting is enabled after the first `k` lines, given the stripped lines.
  predicate Enabled(g: Guards, marks: seq<string>, k: nat)
    requires k <= |marks|
  {
    if k == 0 then true
    else if marks[k - 1] == g.on then true
    else if marks[k - 1] == g.off then false
    else Enabled(g, marks, k - 1)
  }

  // The tab check looks at the enabled lines and at the guards themselves.
  predicate Looked(g: Guards, marks: seq<string>, i: nat)
    requires i < |marks|
  {
    Enabled(g, marks, i + 1) || marks[i] == g.on || marks[i] == g.off
  }

  ghost predicate TabsOkBy(g: Guards, marks: seq<string>, lines: seq<Line>)
    requires |marks| == |lines|
  {
    forall i :: 0 <= i < |lines| ==> Looked(g, marks, i) ==> '\t' !in lines[i]
  }

  ghost predicate TabsOk(g: Guards, lines: seq<Line>) {
    TabsOkBy(g, Stripped(lines), lines)
  }

  function TabsFixedBy(g: Guards, marks: seq<string>, lines: seq<Line>): (fixed: seq<Line>)
    requires |marks| == |lines|
    ensures |fixed| == |lines|
    ensures forall i :: 0 <= i < |lines| ==> fixed[i] == if Looked(g, marks, i) then ExpandTabs(lines[i]) else lines[i]
  {
    seq(|lines|, i requires 0 <= i < |lines| => if Looked(g, marks, i) then ExpandTabs(lines[i]) else lines[i])
  }

  function TabsFixed(g: Guards, lines: seq<Line>): seq<Line> {
    TabsFixedBy(g, Stripped(lines), lines)
  }

  function SpaceFixedLine(line: Line): Line {
    RStrip(line) + "\n"
  }

  // The line without the spaces at its end, and a line feed: nothing else of it changes.
  ghost predicate Trimmed(line: Line, fixed: Line) {
    && fixed != [] && fixed[|fixed| - 1] == '\n'
    && var text := fixed[..|fixed| - 1];
       text <= line && AllSpace(line[|text|..]) && (text != [] ==> !IsSpace(text[|text| - 1]))
  }

  lemma {:induction false} FixedIsTrimmed(line: Line, fixed: Line)
    ensures Trimmed(line, fixed) <==> fixed == SpaceFixedLine(line)
  {
    RStripSplits(line);
    assert SpaceFixedLine(line)[..|RStrip(line)|] == RStrip(line);
    if Trimmed(line, fixed) {
      var text := fixed[..|fixed| - 1];
      assert line == text + line[|text|..];
      RStripOf(text, line[|text|..]);
      assert fixed == text + "\n";
    }
  }

  predicate SpaceOk(lines: seq<Line>) {
    forall i :: 0 <= i < |lines| ==> lines[i] == SpaceFixedLine(lines[i])
  }

  function SpaceFixed(lines: seq<Line>): (fixed: seq<Line>)
    ensures |fixed| == |lines| && forall i :: 0 <= i < |lines| ==> fixed[i] == SpaceFixedLine(lines[i])
  {
    seq(|lines|, i requires 0 <= i < |lines| => SpaceFixedLine(lines[i]))
  }

  // ----- which lines the tab check looks at -----

  predicate IsGuard(g: Guards, line: Line) {
    Strip(line) == g.on || Strip(line) == g.off
  }

  // The last guard before the line switched formatting off, and the line is no guard.
  ghost predicate SwitchedOff(g: Guards, lines: seq<Line>, i: int)
    requires 0 <= i < |lines|
  {
    OffBefore(g, lines, i) && !IsGuard(g, lines[i])
  }

  ghost predicate OffBefore(g: Guards, lines: seq<Line>, k: int)
    requires 0 <= k <= |lines|
  {
    exists j :: LastOff(g, lines, j, k)
  }

  ghost predicate LastOff(g: Guards, lines: seq<Line>, j: int, k: int)
    requires 0 <= k <= |lines|
  {
    0 <= j < k && Strip(lines[j]) == g.off && forall i :: j < i < k ==> !IsGuard(g, lines[i])
  }

  lemma {:induction false} OffNext(g: Guards, lines: seq<Line>, k: nat)
    requires k < |lines|
    ensures OffBefore(g, lines, k + 1) <==> Strip(lines[k]) == g.off || (OffBefore(g, lines, k) && !IsGuard(g, lines[k]))
  {
    if Strip(lines[k]) == g.off {
      assert LastOff(g, lines, k, k + 1);
    } else if OffBefore(g, lines, k) && !IsGuard(g, lines[k]) {
      var j :| LastOff(g, lines, j, k);
      assert LastOff(g, lines, j, k + 1);
    }
    if OffBefore(g, lines, k + 1) {
      var j :| LastOff(g, lines, j, k + 1);
      if j < k {
        assert !IsGuard(g, lines[k]) && LastOff(g, lines, j, k);
      }
    }
  }

  lemma {:induction false} EnabledIff(g: Guards, lines: seq<Line>, k: nat)
    requires g.on != g.off && k <= |lines|
    ensures Enabled(g, Stripped(lines), k) <==> !OffBefore(g, lines, k)
  {
    if k > 0 {
      EnabledIff(g, lines, k - 1);
      OffNext(g, lines, k - 1);
      assert Stripped(lines)[k - 1] == Strip(lines[k - 1]);
    }
  }

  // The tab fixer expands the tabs of every line but those switched off, guards included,
  // and leaves these as they are.
  lemma {:induction false} TabsFixedWhere(g: Guards, lines: seq<Line>, i: nat)
    requires g.on != g.off && i < |lines|
    ensures Looked(g, Stripped(lines), i) <==> !SwitchedOff(g, lines, i)
    ensures TabsFixed(g, lines)[i] == if SwitchedOff(g, lines, i) then lines[i] else ExpandTabs(lines[i])
  {
    EnabledIff(g, lines, i + 1);
    OffNext(g, lines, i);
    assert Stripped(lines)[i] == Strip(lines[i]);
  }

  // ----- tab fixing is idempotent -----

  lemma {:induction false} GuardSurvives(g: Guards, line: Line)
    requires Proper(g) && (Strip(line) == g.on || Strip(line) == g.off)
    ensures Strip(ExpandTabs(line)) == Strip(line)
  {
    StripSurvivesExpansion(line);
  }

  // The second run sees the same guards, and any other change of a line only where the
  // first run looked.
  ghost predicate Revised(g: Guards, marks: seq<string>, marks': seq<string>) {
    && |marks| == |marks'|
    && forall i :: 0 <= i < |marks| ==>
         marks[i] == g.on || marks[i] == g.off || !Looked(g, marks, i) ==> marks'[i] == marks[i]
  }

  // What is enabled in the second run was enabled in the first: a line can only become a
  // guard where formatting was enabled.
  lemma {:induction false} EnabledShrinks(g: Guards, marks: seq<string>, marks': seq<string>, k: nat)
    requires Revised(g, marks, marks') && k <= |marks|
    ensures Enabled(g, marks', k) ==> Enabled(g, marks, k)
  {
    if k > 0 {
      EnabledShrinks(g, marks, marks', k - 1);
      assert marks[k - 1] == g.on || marks[k - 1] == g.off || !Looked(g, marks, k - 1) ==> marks'[k - 1] == marks[k - 1];
    }
  }

  lemma {:induction false} FixRevises(g: Guards, lines: seq<Line>)
    requires Proper(g)
    ensures Revised(g, Stripped(lines), Stripped(TabsFixed(g, lines)))
  {
    var marks, fixed := Stripped(lines), TabsFixed(g, lines);
    forall i | 0 <= i < |lines| && (marks[i] == g.on || marks[i] == g.off || !Looked(g, marks, i))
      ensures Stripped(fixed)[i] == marks[i]
    {
      if Looked(g, marks, i) {
        GuardSurvives(g, lines[i]);
      }
    }
  }

  lemma {:induction false} LookedShrinks(g: Guards, lines: seq<Line>, i: nat)
    requires Proper(g) && i < |lines|
    ensures Looked(g, Stripped(TabsFixed(g, lines)), i) ==> Looked(g, Stripped(lines), i)
  {
    FixRevises(g, lines);
    EnabledShrinks(g, Stripped(lines), Stripped(TabsFixed(g, lines)), i + 1);
  }

  // A second run finds nothing to fix.
  lemma {:induction false} TabsFixedAreOk(g: Guards, lines: seq<Line>)
    requires Proper(g)
    ensures TabsOk(g, TabsFixed(g, lines))
  {
    var fixed := TabsFixed(g, lines);
    forall i | 0 <= i < |lines| && Looked(g, Stripped(fixed), i) ensures '\t' !in fixed[i] {
      LookedShrinks(g, lines, i);
      ExpandedHasNoTabs(lines[i], 0);
    }
  }

  // The fixer changes a file exactly if the check objects to it.
  lemma {:induction false} TabsFixedIffOk(g: Guards, lines: seq<Line>)
    ensures TabsFixed(g, lines) == lines <==> TabsOk(g, lines)
  {
    var marks, fixed := Stripped(lines), TabsFixed(g, lines);
    if TabsOk(g, lines) {
      forall i | 0 <= i < |lines| ensures fixed[i] == lines[i] {
        if Looked(g, marks, i) {
          ExpandWithoutTabs(lines[i], 0);
        }
      }
    } else {
      var i :| 0 <= i < |lines| && Looked(g, marks, i) && '\t' in lines[i];
      ExpandedHasNoTabs(lines[i], 0);
    }
  }

  // A line that formatting is enabled for, is no opening guard, and expands to a closing one.
  ghost predicate Latent(g: Guards, lines: seq<Line>, i: int) {
    && 0 <= i < |lines| && Enabled(g, Stripped(lines), i + 1)
    && Strip(lines[i]) != g.on && Strip(ExpandTabs(lines[i])) == g.off
  }

  // The same on the stripped lines before and after.
  predicate LatentMark(g: Guards, marks: seq<string>, marks': seq<string>, i: int)
    requires |marks| == |marks'|
  {
    0 <= i < |marks| && Enabled(g, marks, i + 1) && marks[i] != g.on && marks'[i] == g.off
  }

  lemma {:induction false} MarksAgree(g: Guards, marks: seq<string>, marks': seq<string>, k: nat)
    requires g.on != g.off && Revised(g, marks, marks') && k <= |marks|
    requires forall i :: !LatentMark(g, marks, marks', i)
    ensures Enabled(g, marks', k) == Enabled(g, marks, k)
  {
    if k > 0 {
      MarksAgree(g, marks, marks', k - 1);
      assert !LatentMark(g, marks, marks', k - 1);
      assert marks[k - 1] == g.on || marks[k - 1] == g.off || !Looked(g, marks, k - 1) ==> marks'[k - 1] == marks[k - 1];
    }
  }

  lemma {:induction false} MarksDisagree(g: Guards, marks: seq<string>, marks': seq<string>, i: int)
    requires g.on != g.off && |marks| == |marks'| && LatentMark(g, marks, marks', i)
    ensures Enabled(g, marks, i + 1) && !Enabled(g, marks', i + 1)
  {
  }

  lemma {:induction false} LatentMarks(g: Guards, lines: seq<Line>, i: int)
    ensures Latent(g, lines, i) <==> LatentMark(g, Stripped(lines), Stripped(TabsFixed(g, lines)), i)
  {
    if 0 <= i < |lines| && Enabled(g, Stripped(lines), i + 1) {
      assert Looked(g, Stripped(lines), i);
      assert TabsFixed(g, lines)[i] == ExpandTabs(lines[i]);
    }
  }

  // For every file: two runs agree on what is enabled if and only if no line is latent.
  lemma {:induction false} RunsAgreeIff(g: Guards, lines: seq<Line>)
    requires Proper(g) && g.on != g.off
    ensures (forall k :: 0 <= k <= |lines| ==> Enabled(g, Stripped(TabsFixed(g, lines)), k) == Enabled(g, Stripped(lines), k))
       <==> (forall i :: !Latent(g, lines, i))
  {
    var marks, marks' := Stripped(lines), Stripped(TabsFixed(g, lines));
    FixRevises(g, lines);
    forall i ensures Latent(g, lines, i) <==> LatentMark(g, marks, marks', i) {
      LatentMarks(g, lines, i);
    }
    if i :| LatentMark(g, marks, marks', i) {
      assert Latent(g, lines, i);
      MarksDisagree(g, marks, marks', i);
    } else {
      forall k | 0 <= k <= |lines| ensures Enabled(g, marks', k) == Enabled(g, marks, k) {
        MarksAgree(g, marks, marks', k);
      }
    }
  }

  lemma {:induction false} LatentExpands(rest: string)
    requires '\t' !in rest
    ensures ExpandTabs(" //\t" + rest) == " // " + rest
  {
    assert " //\t" + rest == " //" + ("\t" + rest);
    ExpandAppend(" //", "\t" + rest, 0);
    ExpandWithoutTabs(" //", 0);
    assert ColumnAfter(" //", 0) == 3;
    TabExpands(rest);
  }

  lemma {:induction false} TabExpands(rest: string)
    requires '\t' !in rest
    ensures ExpandFrom("\t" + rest, 3) == " " + rest
  {
    assert ("\t" + rest)[1..] == rest;
    ExpandWithoutTabs(rest, 4);
    assert Blanks(1) == " ";
  }

  // Such lines exist, so that two runs can disagree on what is enabled: a comment that would be the closing
  // guard but for a tab in the fourth column becomes it, and switches formatting off.
  lemma {:induction false} RunsCanDisagree(g: Guards, word: string)
    requires Proper(g) && g.on != g.off && g.off == "// " + word && word != []
    ensures var lines := [" //\t" + word + "\n"];
            Enabled(g, Stripped(lines), 1) && !Enabled(g, Stripped(TabsFixed(g, lines)), 1)
  {
    var line := " //\t" + word + "\n";
    LatentStrips(g, word);
    var lines := [line];
    assert Enabled(g, Stripped(lines), 0);
    assert Looked(g, Stripped(lines), 0);
    assert TabsFixed(g, lines)[0] == ExpandTabs(line);
  }

  lemma {:induction false} LatentCore(g: Guards, word: string)
    requires Proper(g) && g.off == "// " + word && word != []
    ensures Bare("//\t" + word) && "//\t" + word != g.off
  {
    assert g.off[|g.off| - 1] == word[|word| - 1];
    assert ("//\t" + word)[2] == '\t' && g.off[2] == ' ';
  }

  lemma {:induction false} LatentParts(g: Guards, word: string)
    requires Proper(g) && g.off == "// " + word
    ensures " //\t" + word + "\n" == " " + ("//\t" + word) + "\n"
    ensures ExpandTabs(" //\t" + word + "\n") == " " + g.off + "\n"
  {
    var rest := word + "\n";
    assert '\t' !in rest by {
      assert forall i :: 0 <= i < |word| ==> word[i] == g.off[i + 3];
    }
    LatentExpands(rest);
    assert " //\t" + word + "\n" == " //\t" + rest;
    assert " // " + rest == " " + g.off + "\n";
  }

  lemma {:induction false} LatentStrips(g: Guards, word: string)
    requires Proper(g) && g.off == "// " + word && word != []
    ensures var line := " //\t" + word + "\n";
            Strip(line) != g.off && Strip(ExpandTabs(line)) == g.off
  {
    LatentCore(g, word);
    LatentParts(g, word);
    StripOf(" ", "//\t" + word, "\n");
    StripOf(" ", g.off, "\n");
  }

  // ----- the two fixers together -----

  lemma {:induction false} ExpansionKeepsLineEnd(line: Line)
    requires line == SpaceFixedLine(line)
    ensures ExpandTabs(line) == SpaceFixedLine(ExpandTabs(line))
  {
    var core := RStrip(line);
    RStripSplits(line);
    ExpandAppend(core, "\n", 0);
    assert ExpandFrom("\n", ColumnAfter(core, 0)) == "\n" + [];
    assert ExpandTabs(line) == ExpandTabs(core) + "\n";
    if core != [] {
      var n := |core| - 1;
      ExpandAppend(core[..n], [core[n]], 0);
      assert core == core[..n] + [core[n]];
      assert ExpandFrom([core[n]], ColumnAfter(core[..n], 0)) == [core[n]] + [];
    }
    RStripOf(ExpandTabs(core), "\n");
  }

  // Expanding tabs never brings trailing whitespace back.
  lemma {:induction false} TabFixKeepsSpaceOk(g: Guards, lines: seq<Line>)
    requires SpaceOk(lines)
    ensures SpaceOk(TabsFixed(g, lines))
  {
    forall i | 0 <= i < |lines| ensures TabsFixed(g, lines)[i] == SpaceFixedLine(TabsFixed(g, lines)[i]) {
      ExpansionKeepsLineEnd(lines[i]);
    }
  }

  lemma {:induction false} SpaceFixedIsOk(lines: seq<Line>)
    ensures SpaceOk(SpaceFixed(lines))
  {
    forall i | 0 <= i < |lines| ensures SpaceFixed(lines)[i] == SpaceFixedLine(SpaceFixed(lines)[i]) {
      RStripSplits(lines[i]);
      RStripOf(RStrip(lines[i]), "\n");
    }
  }

  // The order the driver uses: after both fixers both checks pass.
  lemma {:induction false} BothFixersMakeBothOk(g: Guards, lines: seq<Line>)
    requires Proper(g)
    ensures SpaceOk(TabsFixed(g, SpaceFixed(lines))) && TabsOk(g, TabsFixed(g, SpaceFixed(lines)))
  {
    SpaceFixedIsOk(lines);
    TabFixKeepsSpaceOk(g, SpaceFixed(lines));
    TabsFixedAreOk(g, SpaceFixed(lines));
  }

  // ----- what is written can be read back -----

  lemma {:induction false} ExpandedIsLine(line: Line)
    requires IsLine(line)
    ensures IsLine(ExpandTabs(line))
    ensures line[|line| - 1] == '\n' ==> ExpandTabs(line)[|ExpandTabs(line)| - 1] == '\n'
  {
    var n := |line| - 1;
    var before := line[..n];
    assert line == before + [line[n]];
    ExpandAppend(before, [line[n]], 0);
    ExpandedHasNoTabs(before, 0);
    ExpandedHasNoTabs(line, 0);
    var tail := ExpandFrom([line[n]], ColumnAfter(before, 0));
    if line[n] == '\t' {
      assert tail == Blanks(TAB_SIZE - ColumnAfter(before, 0) % TAB_SIZE) + [];
      assert forall i :: 0 <= i < |tail| ==> tail[i] == ' ';
    } else {
      assert tail == [line[n]] + [];
    }
  }

  lemma {:induction false} TabsFixedAreLines(g: Guards, lines: seq<Line>)
    requires AreLines(lines)
    ensures AreLines(TabsFixed(g, lines))
  {
    forall i | 0 <= i < |lines|
      ensures IsLine(TabsFixed(g, lines)[i])
      ensures lines[i][|lines[i]| - 1] == '\n' ==> TabsFixed(g, lines)[i][|TabsFixed(g, lines)[i]| - 1] == '\n'
    {
      ExpandedIsLine(lines[i]);
    }
  }

  lemma {:induction false} SpaceFixedAreLines(lines: seq<Line>)
    requires AreLines(lines)
    ensures AreLines(SpaceFixed(lines))
  {
    forall i | 0 <= i < |lines| ensures IsLine(SpaceFixed(lines)[i]) {
      var line := lines[i];
      RStripSplits(line);
      var n := |line| - 1;
      if RStrip(line) == line {
        assert line[n] != '\n';
        assert forall j :: 0 <= j < n ==> line[j] == line[..n][j];
      } else {
        assert RStrip(line) <= line[..n];
      }
      assert SpaceFixedLine(line)[..|RStrip(line)|] == RStrip(line);
    }
  }

  // ----- the program -----

  // A file on disk.
  class TextFile {
    var content: string

    constructor (content: string)
      ensures this.content == content
    {
      this.content := content;
    }
  }

  // The index of the first tab from `i` on, or -1.
  function FindTabFrom(line: Line, i: nat): (k: int)
    requires i <= |line|
    ensures k == -1 || i <= k < |line|
    ensures k == -1 ==> forall j :: i <= j < |line| ==> line[j] != '\t'
    ensures k >= 0 ==> line[k] == '\t' && forall j :: i <= j < k ==> line[j] != '\t'
    decreases |line| - i
  {
    if i == |line| then -1 else if line[i] == '\t' then i else FindTabFrom(line, i + 1)
  }

  function FindTab(line: Line): (k: int)
    ensures -1 <= k < |line| && (k == -1 <==> '\t' !in line)
    ensures k >= 0 ==> line[k] == '\t' && '\t' !in line[..k]
  {
    FindTabFrom(line, 0)
  }

  // A complaint: line and column, both counted from 1.
  datatype Report = Report(line: nat, column: nat)

  // The complaints about the first `k` lines.
  function TabReports(g: Guards, marks: seq<string>, lines: seq<Line>, k: nat): seq<Report>
    requires k <= |lines| == |marks|
  {
    if k == 0 then []
    else TabReports(g, marks, lines, k - 1)
         + if Looked(g, marks, k - 1) && '\t' in lines[k - 1] then [Report(k, FindTab(lines[k - 1]) + 1)] else []
  }

  ghost predicate LinesIncrease(reports: seq<Report>) {
    forall i, j :: 0 <= i < j < |reports| ==> reports[i].line < reports[j].line
  }

  // A complaint about a line that is looked at and has a tab, at its first tab.
  ghost predicate TabReportFits(g: Guards, marks: seq<string>, lines: seq<Line>, r: Report)
    requires |marks| == |lines|
  {
    && 1 <= r.line <= |lines| && Looked(g, marks, r.line - 1)
    && 1 <= r.column <= |lines[r.line - 1]| && lines[r.line - 1][r.column - 1] == '\t'
    && '\t' !in lines[r.line - 1][..r.column - 1]
  }

  // There is one complaint for each such line, in their order.
  lemma {:induction false} TabReportsAre(g: Guards, marks: seq<string>, lines: seq<Line>, k: nat, r: Report)
    requires k <= |lines| == |marks|
    ensures r in TabReports(g, marks, lines, k) <==> r.line <= k && TabReportFits(g, marks, lines, r)
    ensures LinesIncrease(TabReports(g, marks, lines, k))
  {
    TabReportsIncrease(g, marks, lines, k);
    if k > 0 {
      TabReportsAre(g, marks, lines, k - 1, r);
      FirstTab(lines[k - 1], r.column);
      ReportNext(g, marks, lines, k - 1);
    }
  }

  lemma {:induction false} TabReportsIncrease(g: Guards, marks: seq<string>, lines: seq<Line>, k: nat)
    requires k <= |lines| == |marks|
    ensures LinesIncrease(TabReports(g, marks, lines, k))
    ensures forall i :: 0 <= i < |TabReports(g, marks, lines, k)| ==> TabReports(g, marks, lines, k)[i].line <= k
  {
    if k > 0 {
      TabReportsIncrease(g, marks, lines, k - 1);
    }
  }

  lemma {:induction false} FirstTab(line: Line, column: nat)
    ensures '\t' in line && column == FindTab(line) + 1 <==>
      1 <= column <= |line| && line[column - 1] == '\t' && '\t' !in line[..column - 1]
  {
  }

  // The lines whose check is done hold their fixed form.
  ghost predicate FixedUpTo(now: seq<Line>, lines: seq<Line>, fixed: seq<Line>, k: nat) {
    && |now| == |lines| == |fixed|
    && forall j :: 0 <= j < |lines| ==> now[j] == if j < k then fixed[j] else lines[j]
  }

  lemma {:induction false} FixNext(now: seq<Line>, lines: seq<Line>, fixed: seq<Line>, k: nat, line: Line)
    requires FixedUpTo(now, lines, fixed, k) && k < |lines| && line == fixed[k]
    ensures FixedUpTo(now[k := line], lines, fixed, k + 1)
    ensures line == lines[k] ==> FixedUpTo(now, lines, fixed, k + 1)
  {
  }

  lemma {:induction false} ReportNext(g: Guards, marks: seq<string>, lines: seq<Line>, k: nat)
    requires k < |lines| == |marks|
    ensures Looked(g, marks, k) && FindTab(lines[k]) >= 0 ==>
      TabReports(g, marks, lines, k + 1) == TabReports(g, marks, lines, k) + [Report(k + 1, FindTab(lines[k]) + 1)]
    ensures !Looked(g, marks, k) || FindTab(lines[k]) == -1 ==>
      TabReports(g, marks, lines, k + 1) == TabReports(g, marks, lines, k)
  {
  }

  // The loop of the tab check over the lines of a file; `marks` are the stripped lines.
  method CheckTabLines(g: Guards, lines: seq<Line>, ghost marks: seq<string>, fix: bool, verbose: bool)
    returns (isFileCompliant: bool, fileLines: seq<Line>, infos: seq<Report>)
    requires |marks| == |lines|
    requires forall i {:trigger Strip(lines[i])} :: 0 <= i < |lines| ==> marks[i] == Strip(lines[i])
    ensures isFileCompliant <==> TabsOkBy(g, marks, lines)
    ensures fix || verbose || isFileCompliant ==> fileLines == TabsFixedBy(g, marks, lines)
    ensures infos == if verbose then TabReports(g, marks, lines, |lines|) else []
  {
    isFileCompliant, fileLines, infos := true, lines, [];
    var clangFormatEnabled := true;
    ghost var fixed := TabsFixedBy(g, marks, lines);
    for i := 0 to |lines|
      invariant clangFormatEnabled <==> Enabled(g, marks, i)
      invariant isFileCompliant <==> forall j :: 0 <= j < i ==> Looked(g, marks, j) ==> '\t' !in lines[j]
      invariant FixedUpTo(fileLines, lines, fixed, i)
      invariant infos == if verbose then TabReports(g, marks, lines, i) else []
      invariant !fix && !verbose ==> isFileCompliant
    {
      ReportNext(g, marks, lines, i);
      FixNext(fileLines, lines, fixed, i, fixed[i]);
      var lineStripped := Strip(lines[i]);
      if lineStripped == g.on {
        clangFormatEnabled := true;
      } else if lineStripped == g.off {
        clangFormatEnabled := false;
      }
      if !clangFormatEnabled && lineStripped != g.on && lineStripped != g.off {
        assert !Looked(g, marks, i) && fixed[i] == lines[i];
        continue;
      }
      assert Looked(g, marks, i);
      var tabIndex := FindTab(lines[i]);
      if tabIndex == -1 {
        ExpandWithoutTabs(lines[i], 0);
        assert fixed[i] == lines[i];
        continue;
      }
      isFileCompliant := false;
      fileLines := fileLines[i := ExpandTabs(lines[i])];
      if verbose {
        infos := infos + [Report(i + 1, tabIndex + 1)];
      }
      // In check mode one complaint decides.
      if !fix && !verbose {
        break;
      }
    }
  }

  // Between the lines of a file before and after, tabs are expanded, but for lines for which
  // formatting is switched off.
  ghost predicate TabsExpanded(g: Guards, lines: seq<Line>, fixed: seq<Line>) {
    && |fixed| == |lines|
    && forall i :: 0 <= i < |lines| ==> fixed[i] == if SwitchedOff(g, lines, i) then lines[i] else ExpandTabs(lines[i])
  }

  lemma {:induction false} FixExpands(g: Guards, lines: seq<Line>)
    ensures g.on != g.off ==> TabsExpanded(g, lines, TabsFixed(g, lines))
  {
    if g.on != g.off {
      forall i | 0 <= i < |lines|
        ensures TabsFixed(g, lines)[i] == if SwitchedOff(g, lines, i) then lines[i] else ExpandTabs(lines[i])
      {
        TabsFixedWhere(g, lines, i);
      }
    }
  }

  method CheckTabsFile(g: Guards, file: TextFile, fix: bool, verbose: bool)
    returns (isFileCompliant: bool, infos: seq<Report>)
    modifies file
    ensures isFileCompliant <==> TabsOk(g, ReadLines(old(file.content)))
    ensures file.content == if fix && !isFileCompliant then Concat(TabsFixed(g, ReadLines(old(file.content))))
                            else old(file.content)
    ensures var lines := ReadLines(old(file.content));
            infos == if verbose then TabReports(g, Stripped(lines), lines, |lines|) else []
    ensures fix && g.on != g.off ==> TabsExpanded(g, ReadLines(old(file.content)), ReadLines(file.content))
  {
    var lines := ReadLines(file.content);
    TabFixReadsBack(g, file.content);
    FixExpands(g, lines);
    var fileLines;
    isFileCompliant, fileLines, infos := CheckTabLines(g, lines, Stripped(lines), fix, verbose);
    if fix && !isFileCompliant {
      file.content := Concat(fileLines);
    }
  }

  // The complaints of the whitespace check about the first `k` lines: each shows where the
  // fixed line ends.
  function SpaceReports(fixed: seq<Line>, columns: seq<nat>, lines: seq<Line>, k: nat): seq<Report>
    requires k <= |lines| == |fixed| == |columns|
  {
    if k == 0 then []
    else SpaceReports(fixed, columns, lines, k - 1)
         + if fixed[k - 1] == lines[k - 1] then [] else [Report(k, columns[k - 1])]
  }

  function EndColumn(line: Line): nat {
    |ExpandTabs(RStrip(line))| + 1
  }

  function EndColumns(fixed: seq<Line>): (columns: seq<nat>)
    ensures |columns| == |fixed| && forall i :: 0 <= i < |fixed| ==> columns[i] == EndColumn(fixed[i])
  {
    seq(|fixed|, i requires 0 <= i < |fixed| => EndColumn(fixed[i]))
  }

  // That is the display column behind what is kept of the line.
  lemma {:induction false} EndColumnIs(line: Line)
    ensures EndColumn(SpaceFixedLine(line)) == |ExpandTabs(TextOf(SpaceFixedLine(line)))| + 1
  {
    RStripSplits(line);
    RStripOf(RStrip(line), "\n");
    assert TextOf(SpaceFixedLine(line)) == RStrip(line);
  }

  // A line without its last character.
  function TextOf(line: Line): string {
    if line == [] then [] else line[..|line| - 1]
  }

  lemma {:induction false} SpaceReportNext(fixed: seq<Line>, columns: seq<nat>, lines: seq<Line>, k: nat)
    requires k < |lines| == |fixed| == |columns|
    ensures fixed[k] == lines[k] ==> SpaceReports(fixed, columns, lines, k + 1) == SpaceReports(fixed, columns, lines, k)
    ensures fixed[k] != lines[k] ==>
      SpaceReports(fixed, columns, lines, k + 1) == SpaceReports(fixed, columns, lines, k) + [Report(k + 1, columns[k])]
  {
  }

  // There is one complaint for each line that is changed, in their order.
  lemma {:induction false} SpaceReportsAre(fixed: seq<Line>, columns: seq<nat>, lines: seq<Line>, k: nat, r: Report)
    requires k <= |lines| == |fixed| == |columns|
    ensures LinesIncrease(SpaceReports(fixed, columns, lines, k))
    ensures r in SpaceReports(fixed, columns, lines, k) <==>
      1 <= r.line <= k && fixed[r.line - 1] != lines[r.line - 1] && r.column == columns[r.line - 1]
  {
    SpaceReportsIncrease(fixed, columns, lines, k);
    if k > 0 {
      SpaceReportsAre(fixed, columns, lines, k - 1, r);
      SpaceReportNext(fixed, columns, lines, k - 1);
    }
  }

  lemma {:induction false} SpaceReportsIncrease(fixed: seq<Line>, columns: seq<nat>, lines: seq<Line>, k: nat)
    requires k <= |lines| == |fixed| == |columns|
    ensures LinesIncrease(SpaceReports(fixed, columns, lines, k))
    ensures forall i :: 0 <= i < |SpaceReports(fixed, columns, lines, k)| ==> SpaceReports(fixed, columns, lines, k)[i].line <= k
  {
    if k > 0 {
      SpaceReportsIncrease(fixed, columns, lines, k - 1);
    }
  }

  // The lines as they should be, and where they end then.
  ghost predicate AreFixed(lines: seq<Line>, fixed: seq<Line>, columns: seq<nat>) {
    && |lines| == |fixed| == |columns|
    && (forall i {:trigger SpaceFixedLine(lines[i])} :: 0 <= i < |lines| ==> fixed[i] == SpaceFixedLine(lines[i]))
    && (forall i {:trigger EndColumn(fixed[i])} :: 0 <= i < |fixed| ==> columns[i] == EndColumn(fixed[i]))
  }

  method FixSpaceLine(lines: seq<Line>, ghost fixed: seq<Line>, ghost columns: seq<nat>, i: nat) returns (lineFixed: Line)
    requires AreFixed(lines, fixed, columns) && i < |lines|
    ensures lineFixed == fixed[i]
  {
    lineFixed := SpaceFixedLine(lines[i]);
  }

  method SpaceColumn(lines: seq<Line>, ghost fixed: seq<Line>, ghost columns: seq<nat>, i: nat, lineFixed: Line) returns (column: nat)
    requires AreFixed(lines, fixed, columns) && i < |lines| && lineFixed == fixed[i]
    ensures column == columns[i]
  {
    assert EndColumn(fixed[i]) == columns[i];
    column := EndColumn(lineFixed);
  }

  // The loop of the trailing-whitespace check over the lines of a file; `fixed` are the
  // lines as they should be.
  method CheckSpaceLines(lines: seq<Line>, ghost fixed: seq<Line>, ghost columns: seq<nat>, fix: bool, verbose: bool)
    returns (isFileCompliant: bool, fileLines: seq<Line>, infos: seq<Report>)
    requires AreFixed(lines, fixed, columns)
    ensures isFileCompliant <==> Unchanged(lines, fixed, |lines|)
    ensures fix || verbose || isFileCompliant ==> fileLines == fixed
    ensures infos == if verbose then SpaceReports(fixed, columns, lines, |lines|) else []
  {
    isFileCompliant, fileLines, infos := true, lines, [];
    for i := 0 to |lines|
      invariant SpaceProgress(fixed, columns, lines, i, isFileCompliant, fileLines, infos, verbose)
      invariant !fix && !verbose ==> isFileCompliant
    {
      var lineFixed := FixSpaceLine(lines, fixed, columns, i);
      SpaceStep(fixed, columns, lines, i, isFileCompliant, fileLines, infos, verbose);
      if lineFixed == lines[i] {
        continue;
      }
      isFileCompliant := false;
      fileLines := fileLines[i := lineFixed];
      if verbose {
        var column := SpaceColumn(lines, fixed, columns, i, lineFixed);
        infos := infos + [Report(i + 1, column)];
      }
      // In check mode one complaint decides.
      if !fix && !verbose {
        SpaceStopped(fixed, columns, lines, i + 1, fileLines, infos);
        return;
      }
    }
    SpaceDone(fixed, columns, lines, isFileCompliant, fileLines, infos, verbose);
  }

  // The first `k` lines are as they should be.
  ghost predicate Unchanged(lines: seq<Line>, fixed: seq<Line>, k: nat)
    requires k <= |lines| == |fixed|
  {
    forall j :: 0 <= j < k ==> lines[j] == fixed[j]
  }

  // Where the loop stands after `k` lines.
  ghost predicate SpaceProgress(fixed: seq<Line>, columns: seq<nat>, lines: seq<Line>, k: nat,
                                compliant: bool, now: seq<Line>, infos: seq<Report>, verbose: bool) {
    && k <= |lines| == |fixed| == |columns|
    && (compliant <==> Unchanged(lines, fixed, k))
    && FixedUpTo(now, lines, fixed, k)
    && infos == if verbose then SpaceReports(fixed, columns, lines, k) else []
  }

  lemma {:induction false} SpaceStep(fixed: seq<Line>, columns: seq<nat>, lines: seq<Line>, k: nat,
                                     compliant: bool, now: seq<Line>, infos: seq<Report>, verbose: bool)
    requires SpaceProgress(fixed, columns, lines, k, compliant, now, infos, verbose) && k < |lines|
    ensures fixed[k] == lines[k] ==> SpaceProgress(fixed, columns, lines, k + 1, compliant, now, infos, verbose)
    ensures fixed[k] != lines[k] ==>
      SpaceProgress(fixed, columns, lines, k + 1, false, now[k := fixed[k]],
                    if verbose then infos + [Report(k + 1, columns[k])] else infos, verbose)
  {
    SpaceReportNext(fixed, columns, lines, k);
    FixNext(now, lines, fixed, k, fixed[k]);
  }

  lemma {:induction false} SpaceStopped(fixed: seq<Line>, columns: seq<nat>, lines: seq<Line>, k: nat,
                                        now: seq<Line>, infos: seq<Report>)
    requires SpaceProgress(fixed, columns, lines, k, false, now, infos, false)
    ensures infos == [] && !Unchanged(lines, fixed, |lines|)
  {
  }

  lemma {:induction false} SpaceDone(fixed: seq<Line>, columns: seq<nat>, lines: seq<Line>,
                                     compliant: bool, now: seq<Line>, infos: seq<Report>, verbose: bool)
    requires SpaceProgress(fixed, columns, lines, |lines|, compliant, now, infos, verbose)
    ensures now == fixed
  {
  }

  ghost predicate AllTrimmed(lines: seq<Line>, fixed: seq<Line>) {
    |fixed| == |lines| && forall i :: 0 <= i < |lines| ==> Trimmed(lines[i], fixed[i])
  }

  lemma {:induction false} FixTrims(lines: seq<Line>, fixed: seq<Line>)
    requires |fixed| == |lines|
    ensures AllTrimmed(lines, fixed) <==> fixed == SpaceFixed(lines)
    ensures AllTrimmed(lines, lines) <==> SpaceOk(lines)
  {
    forall i | 0 <= i < |lines|
      ensures Trimmed(lines[i], fixed[i]) <==> fixed[i] == SpaceFixedLine(lines[i])
      ensures Trimmed(lines[i], lines[i]) <==> lines[i] == SpaceFixedLine(lines[i])
    {
      FixedIsTrimmed(lines[i], fixed[i]);
      FixedIsTrimmed(lines[i], lines[i]);
    }
  }

  method CheckTrailingWhitespaceFile(file: TextFile, fix: bool, verbose: bool)
    returns (isFileCompliant: bool, infos: seq<Report>)
    modifies file
    ensures isFileCompliant <==> SpaceOk(ReadLines(old(file.content)))
    ensures file.content == if fix && !isFileCompliant then Concat(SpaceFixed(ReadLines(old(file.content))))
                            else old(file.content)
    ensures var lines := ReadLines(old(file.content));
            infos == if verbose then SpaceReports(SpaceFixed(lines), EndColumns(SpaceFixed(lines)), lines, |lines|) else []
    ensures isFileCompliant <==> AllTrimmed(ReadLines(old(file.content)), ReadLines(old(file.content)))
    ensures fix ==> AllTrimmed(ReadLines(old(file.content)), ReadLines(file.content))
  {
    var lines := ReadLines(file.content);
    SpaceFixReadsBack(file.content);
    FixTrims(lines, lines);
    FixTrims(lines, SpaceFixed(lines));
    var fileLines;
    isFileCompliant, fileLines, infos := CheckSpaceLines(lines, SpaceFixed(lines), EndColumns(SpaceFixed(lines)), fix, verbose);
    if fix && !isFileCompliant {
      file.content := Concat(fileLines);
    }
  }

  // ----- files fixed twice -----

  // What a file holds after a fixing run of the tab check.
  ghost function TabFixedContent(g: Guards, content: string): string {
    var lines := ReadLines(content);
    if TabsOk(g, lines) then content else Concat(TabsFixed(g, lines))
  }

  ghost function SpaceFixedContent(content: string): string {
    var lines := ReadLines(content);
    if SpaceOk(lines) then content else Concat(SpaceFixed(lines))
  }

  lemma {:induction false} TabFixReadsBack(g: Guards, content: string)
    ensures ReadLines(TabFixedContent(g, content)) == TabsFixed(g, ReadLines(content))
  {
    var lines := ReadLines(content);
    ReadGivesLines(content);
    TabsFixedIffOk(g, lines);
    TabsFixedAreLines(g, lines);
    WriteThenRead(TabsFixed(g, lines));
  }

  lemma {:induction false} SpaceFixReadsBack(content: string)
    ensures ReadLines(SpaceFixedContent(content)) == SpaceFixed(ReadLines(content))
  {
    var lines := ReadLines(content);
    ReadGivesLines(content);
    SpaceFixedAreLines(lines);
    WriteThenRead(SpaceFixed(lines));
    assert SpaceOk(lines) ==> SpaceFixed(lines) == lines;
  }

  // A second fixing run of the tab check changes no file and finds it compliant.
  lemma {:induction false} TabFixIsIdempotent(g: Guards, content: string)
    requires Proper(g)
    ensures TabsOk(g, ReadLines(TabFixedContent(g, content)))
    ensures TabFixedContent(g, TabFixedContent(g, content)) == TabFixedContent(g, content)
  {
    TabFixReadsBack(g, content);
    TabsFixedAreOk(g, ReadLines(content));
  }

  // Fixing whitespace and then tabs leaves a file on which neither check finds anything,
  // so that fixing it again changes nothing.
  lemma {:induction false} StyleFixIsComplete(g: Guards, content: string)
    requires Proper(g)
    ensures var fixed := TabFixedContent(g, SpaceFixedContent(content));
            && SpaceOk(ReadLines(fixed)) && TabsOk(g, ReadLines(fixed))
            && TabFixedContent(g, SpaceFixedContent(fixed)) == fixed
  {
    SpaceFixReadsBack(content);
    TabFixReadsBack(g, SpaceFixedContent(content));
    BothFixersMakeBothOk(g, ReadLines(content));
  }

  // All this holds for the guards of clang-format.
  lemma {:induction false} ClangFormatFixes(content: string)
    ensures var fixed := TabFixedContent(CLANG_FORMAT, SpaceFixedContent(content));
            && SpaceOk(ReadLines(fixed)) && TabsOk(CLANG_FORMAT, ReadLines(fixed))
            && TabFixedContent(CLANG_FORMAT, SpaceFixedContent(fixed)) == fixed
  {
    ClangFormatIsProper();
    StyleFixIsComplete(CLANG_FORMAT, content);
  }

  lemma {:induction false} ClangFormatCanDisagree()
    ensures var lines := [" //\t" + "clang-format off" + "\n"];
            Enabled(CLANG_FORMAT, Stripped(lines), 1) && !Enabled(CLANG_FORMAT, Stripped(TabsFixed(CLANG_FORMAT, lines)), 1)
  {
    ClangFormatIsProper();
    OnIsNotOff();
    RunsCanDisagree(CLANG_FORMAT, "clang-format off");
  }

  lemma OnIsNotOff()
    ensures CLANG_FORMAT.on != CLANG_FORMAT.off && CLANG_FORMAT.off == "// " + "clang-format off"
  {
    assert |CLANG_FORMAT.on| < |CLANG_FORMAT.off|;
  }

  // The driver on one file that both checks apply to: the whitespace check runs before the
  // tab check, and a run that fixes always reports success.
  method CheckStyle(g: Guards, file: TextFile, fix: bool, verbose: bool) returns (successful: bool)
    requires Proper(g)
    modifies file
    ensures !fix ==> file.content == old(file.content)
    ensures !fix ==> (successful <==> SpaceOk(ReadLines(file.content)) && TabsOk(g, ReadLines(file.content)))
    ensures fix ==> successful && file.content == TabFixedContent(g, SpaceFixedContent(old(file.content)))
    ensures fix ==> SpaceOk(ReadLines(file.content)) && TabsOk(g, ReadLines(file.content))
  {
    StyleFixIsComplete(g, file.content);
    var whitespaceOk, tabsOk, infos;
    whitespaceOk, infos := CheckTrailingWhitespaceFile(file, fix, verbose);
    tabsOk, infos := CheckTabsFile(g, file, fix, verbose);
    successful := (whitespaceOk || fix) && (tabsOk || fix);
  }
}
