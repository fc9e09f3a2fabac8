/** The other lines of a printed report: the names of the test, of its subtests and of
    their results, and the measured times of all results. */
module ReportNames {
  import opened Text
  import opened ReportReader
  import opened Report
  import opened RoundTrip
  import opened ReportFigures

  datatype Mark = TestName | SubtestName | ResultName | Times

  function MarkCaption(m: Mark): string {
    match m
    case TestName => "Report for test: "
    case SubtestName => " Scores for subtest: "
    case ResultName => "Test results for : "
    case Times => "Execution time "
  }

  function Marked(m: Mark, lines: seq<string>): seq<string> { Captioned(MarkCaption(m), lines) }

  lemma MarkChars(m: Mark)
    ensures var c := MarkCaption(m);
            && |c| > 10
            && At(c, 0) == (match m
                            case TestName => 'R'
                            case SubtestName => ' '
                            case ResultName => 'T'
                            case Times => 'E')
            && (m.SubtestName? ==> At(c, 6) == 's') && (m.ResultName? ==> At(c, 1) == 'e')
  {
  }

  lemma MarkedAppend(m: Mark, a: seq<string>, b: seq<string>)
    ensures Marked(m, a + b) == Marked(m, a) + Marked(m, b)
  {
    hide MarkCaption;
    CaptionedAppend(MarkCaption(m), a, b);
  }

  lemma MarkedLine(m: Mark, line: string)
    ensures Marked(m, [line]) == if MarkCaption(m) <= line then [line] else []
  {
    hide MarkCaption;
    assert [line][..0] == [];
    assert Captioned(MarkCaption(m), []) == [];
    assert [] + [line] == [line];
  }

  lemma {:induction false} NoneMarked(m: Mark, lines: seq<string>)
    requires forall i :: 0 <= i < |lines| ==> !(MarkCaption(m) <= lines[i])
    ensures Marked(m, lines) == []
  {
    hide MarkCaption;
    if lines != [] {
      NoneMarked(m, lines[..|lines| - 1]);
    }
  }

  // ------------------------------------------------------------------ lines not marked

  lemma FigureIsUnmarked(m: Mark, g: Figure, rest: string)
    ensures !(MarkCaption(m) <= Caption(g) + rest)
  {
    CaptionChars(g);
    MarkChars(m);
    hide Caption, MarkCaption;
    var p := if At(MarkCaption(m), 0) != At(Caption(g), 0) then 0 else if m.ResultName? then 1 else 6;
    NotPrefix(MarkCaption(m), Caption(g), rest, p);
  }

  lemma FieldIsUnmarked(m: Mark, g: Figure, more: string, blanks: string, number: string, unit: string)
    ensures !(MarkCaption(m) <= Field(Caption(g) + more, blanks, number, unit))
    ensures !(MarkCaption(m) <= Field(Caption(g), blanks, number, unit))
  {
    hide Caption, MarkCaption;
    FigureIsUnmarked(m, g, more + ":" + blanks + number + unit);
    assert Field(Caption(g) + more, blanks, number, unit) == Caption(g) + (more + ":" + blanks + number + unit);
    FigureIsUnmarked(m, g, ":" + blanks + number + unit);
    assert Field(Caption(g), blanks, number, unit) == Caption(g) + (":" + blanks + number + unit);
  }

  lemma OtherIsUnmarked(m: Mark, start: string, rest: string)
    requires start != "" && start[0] != 'R' && start[0] != ' ' && start[0] != 'T' && start[0] != 'E'
    ensures !(MarkCaption(m) <= start + rest)
  {
    MarkChars(m);
    hide MarkCaption;
    NotPrefix(MarkCaption(m), start, rest, 0);
  }

  /** A line of one mark begins with no other. */
  lemma MarksDiffer(m: Mark, n: Mark, rest: string)
    ensures MarkCaption(m) <= MarkCaption(n) + rest <==> m == n
  {
    MarkChars(m);
    MarkChars(n);
    hide MarkCaption;
    if m != n {
      NotPrefix(MarkCaption(m), MarkCaption(n), rest, 0);
    }
  }

  lemma BlanksAreUnmarked(m: Mark)
    ensures !(MarkCaption(m) <= "") && !(MarkCaption(m) <= "  ")
  {
    MarkChars(m);
    hide MarkCaption;
  }

  lemma HeaderIsUnmarked(m: Mark)
    ensures !(MarkCaption(m) <= HEADER)
  {
    HeaderChars();
    hide MarkCaption;
    OtherIsUnmarked(m, HEADER, "");
    assert HEADER + "" == HEADER;
  }

  lemma RulesAreUnmarked(m: Mark)
    ensures !(MarkCaption(m) <= RULE) && !(MarkCaption(m) <= "===================================")
  {
    hide MarkCaption;
    var rule := "===================================";
    OtherIsUnmarked(m, RULE, "");
    OtherIsUnmarked(m, rule, "");
    assert RULE + "" == RULE && rule + "" == rule;
  }

  // ---------------------------------------------------------------------------- blocks

  lemma SummaryIsUnmarked(m: Mark, r: Result)
    ensures Marked(m, SummaryLines(r)) == []
  {
    hide MarkCaption, Caption, SummaryLines, Marked, Field, SummaryPlace, Thousandths, Signed;
    SummaryLength(r);
    forall i | 0 <= i < |SummaryLines(r)| ensures !(MarkCaption(m) <= SummaryLines(r)[i]) {
      var g := SummaryFigure(i);
      PlaceOfFigure(i);
      if Measured(g) {
        SummaryTimeLine(r, g);
        FieldIsUnmarked(m, g, TEST_RUN, " ", Thousandths(TimeOf(r, g)),
                        if g.MedianTime? || g.MeanTime? then " us " else " us");
      } else {
        SummaryCountLine(r, g);
        FieldIsUnmarked(m, g, "", if g.Iterations? then "  " else " ", Signed(CountOf(r, g)), " ");
      }
    }
    NoneMarked(m, SummaryLines(r));
  }

  lemma {:induction false} TimesAreMarked(m: Mark, values: seq<int>)
    ensures Marked(m, TimeLines(values)) == if m.Times? then TimeLines(values) else []
  {
    hide MarkCaption, Marked, Decimal, Thousandths;
    if values == [] {
      NoneMarked(m, []);
    } else {
      var n := |values| - 1;
      TimesAreMarked(m, values[..n]);
      var line := TimeLine(n, values[n]);
      var rest := Decimal(n) + ":" + " " + Thousandths(values[n]) + " us";
      assert MarkCaption(Times) == "Execution time " by { TimesCaption(); }
      assert line == MarkCaption(Times) + rest;
      MarksDiffer(m, Times, rest);
      MarkedLine(m, line);
      MarkedAppend(m, TimeLines(values[..n]), [line]);
    }
  }

  lemma TimesCaption()
    ensures MarkCaption(Times) == "Execution time "
  {
  }

  /** What is marked of the lines of one result. */
  function OfResult(m: Mark, r: Result, verbose: int): seq<string> {
    if m.Times? && verbose >= 1 then TimeLines(r.values) else []
  }

  lemma ResultIsMarked(m: Mark, r: Result, verbose: int)
    ensures Marked(m, ResultLines(r, verbose)) == OfResult(m, r, verbose)
  {
    hide MarkCaption, Marked, SummaryLines, TimeLines;
    SummaryIsUnmarked(m, r);
    var head := ["  ", HEADER, ""];
    if verbose >= 1 {
      BlanksAreUnmarked(m);
      HeaderIsUnmarked(m);
      NoneMarked(m, head);
      TimesAreMarked(m, r.values);
      MarkedAppend(m, head, TimeLines(r.values));
      MarkedAppend(m, SummaryLines(r), head + TimeLines(r.values));
    } else {
      assert SummaryLines(r) + [] == SummaryLines(r);
    }
  }

  function OfNamed(m: Mark, several: bool, r: Result, verbose: int): seq<string> {
    (if m.ResultName? && several then ["Test results for : " + r.name + " "] else []) + OfResult(m, r, verbose)
  }

  lemma NameLineIsMarked(m: Mark, n: Mark, rest: string)
    ensures Marked(m, [MarkCaption(n) + rest]) == if m == n then [MarkCaption(n) + rest] else []
  {
    hide MarkCaption, Marked;
    MarksDiffer(m, n, rest);
    MarkedLine(m, MarkCaption(n) + rest);
  }

  lemma UnmarkedLine(m: Mark, line: string)
    requires !(MarkCaption(m) <= line)
    ensures Marked(m, [line]) == []
  {
    hide MarkCaption, Marked;
    MarkedLine(m, line);
  }

  lemma NamedHeadIsMarked(m: Mark, name: string)
    ensures Marked(m, ["", "Test results for : " + name + " ", RULE])
            == if m.ResultName? then ["Test results for : " + name + " "] else []
  {
    assert MarkCaption(ResultName) == "Test results for : ";
    hide MarkCaption, Marked;
    var line := "Test results for : " + name + " ";
    assert line == MarkCaption(ResultName) + (name + " ");
    NameLineIsMarked(m, ResultName, name + " ");
    BlanksAreUnmarked(m);
    RulesAreUnmarked(m);
    UnmarkedLine(m, "");
    UnmarkedLine(m, RULE);
    MarkedAppend(m, [""], [line]);
    MarkedAppend(m, ["", line], [RULE]);
    assert [""] + [line] == ["", line] && ["", line] + [RULE] == ["", line, RULE];
  }

  lemma NamedIsMarked(m: Mark, several: bool, r: Result, verbose: int)
    ensures Marked(m, NamedResult(several, r, verbose)) == OfNamed(m, several, r, verbose)
  {
    hide MarkCaption, Marked, ResultLines, OfResult;
    ResultIsMarked(m, r, verbose);
    var line := "Test results for : " + r.name + " ";
    var head := if several then ["", line, RULE] else [""];
    NamedHeadIsMarked(m, r.name);
    BlanksAreUnmarked(m);
    UnmarkedLine(m, "");
    MarkedAppend(m, head, ResultLines(r, verbose));
    assert NamedResult(several, r, verbose) == head + ResultLines(r, verbose);
  }

  function OfAllNamed(m: Mark, several: bool, results: seq<Result>, verbose: int): seq<string> {
    if results == [] then []
    else OfAllNamed(m, several, results[..|results| - 1], verbose)
         + OfNamed(m, several, results[|results| - 1], verbose)
  }

  lemma {:induction false} AllNamedAreMarked(m: Mark, several: bool, results: seq<Result>, verbose: int)
    ensures Marked(m, NamedResults(several, results, verbose)) == OfAllNamed(m, several, results, verbose)
  {
    hide MarkCaption, Marked, NamedResult, OfNamed;
    if results == [] {
      NoneMarked(m, []);
    } else {
      var n := |results| - 1;
      AllNamedAreMarked(m, several, results[..n], verbose);
      NamedIsMarked(m, several, results[n], verbose);
      MarkedAppend(m, NamedResults(several, results[..n], verbose), NamedResult(several, results[n], verbose));
    }
  }

  lemma ThroughputsAreUnmarked(m: Mark, s: Score)
    ensures Marked(m, Throughputs(s)) == []
  {
    hide MarkCaption, Marked, Throughputs, Caption, Field, Thousandths;
    BlanksAreUnmarked(m);
    ThroughputLine(s, 0);
    forall i | 0 <= i < |Throughputs(s)| ensures !(MarkCaption(m) <= Throughputs(s)[i]) {
      if i > 0 {
        ThroughputLine(s, i - 1);
        var g := ThroughputFigure(i - 1);
        FieldIsUnmarked(m, g, "", " ", Thousandths(ThroughputOf(s, g)), "");
      }
    }
    NoneMarked(m, Throughputs(s));
  }

  lemma HeadParts(s: Score)
    ensures ScoreHead(false, s) == Throughputs(s)
    ensures ScoreHead(true, s)
            == [""] + [" Scores for subtest: " + s.name] + Throughputs(s)
               + [Field(Caption(SubtestDeterminism), " ", Thousandths(s.consistency), "")]
  {
    SubtestCaptionIs();
    hide Field, Thousandths, Caption;
  }

  lemma FourParts(m: Mark, a: seq<string>, b: seq<string>, c: seq<string>, d: seq<string>)
    requires Marked(m, a) == Marked(m, c) == Marked(m, d) == []
    ensures Marked(m, a + b + c + d) == Marked(m, b)
  {
    hide MarkCaption, Marked;
    MarkedAppend(m, a, b);
    MarkedAppend(m, a + b, c);
    MarkedAppend(m, a + b + c, d);
  }

  lemma SubtestLineIsMarked(m: Mark, name: string)
    ensures Marked(m, [" Scores for subtest: " + name])
            == if m.SubtestName? then [" Scores for subtest: " + name] else []
  {
    assert MarkCaption(SubtestName) == " Scores for subtest: ";
    hide MarkCaption, Marked;
    NameLineIsMarked(m, SubtestName, name);
  }

  lemma HeadIsMarked(m: Mark, several: bool, s: Score)
    ensures Marked(m, ScoreHead(several, s))
            == if m.SubtestName? && several then [" Scores for subtest: " + s.name] else []
  {
    hide MarkCaption, Marked, Field, Thousandths, Caption, Throughputs, ScoreHead;
    HeadParts(s);
    ThroughputsAreUnmarked(m, s);
    if several {
      var line := " Scores for subtest: " + s.name;
      var last := Field(Caption(SubtestDeterminism), " ", Thousandths(s.consistency), "");
      SubtestLineIsMarked(m, s.name);
      BlanksAreUnmarked(m);
      UnmarkedLine(m, "");
      FieldIsUnmarked(m, SubtestDeterminism, "", " ", Thousandths(s.consistency), "");
      UnmarkedLine(m, last);
      FourParts(m, [""], [line], Throughputs(s), [last]);
    }
  }

  function OfScores(m: Mark, several: bool, scores: seq<Score>, verbose: int): seq<string> {
    if scores == [] then []
    else
      var s := scores[|scores| - 1];
      OfScores(m, several, scores[..|scores| - 1], verbose)
      + ((if m.SubtestName? && several then [" Scores for subtest: " + s.name] else [])
         + OfAllNamed(m, |s.results| > 1, s.results, verbose))
  }

  lemma {:induction false} DumpIsMarked(m: Mark, several: bool, scores: seq<Score>, verbose: int)
    ensures Marked(m, DumpLines(several, scores, verbose)) == OfScores(m, several, scores, verbose)
  {
    hide MarkCaption, Marked, ScoreHead, NamedResults, OfAllNamed;
    if scores == [] {
      NoneMarked(m, []);
    } else {
      var n := |scores| - 1;
      var s := scores[n];
      DumpIsMarked(m, several, scores[..n], verbose);
      HeadIsMarked(m, several, s);
      AllNamedAreMarked(m, |s.results| > 1, s.results, verbose);
      MarkedAppend(m, ScoreHead(several, s), NamedResults(|s.results| > 1, s.results, verbose));
      MarkedAppend(m, DumpLines(several, scores[..n], verbose), ScoreLines(several, s, verbose));
    }
  }

  lemma PreambleIsMarked(m: Mark, t: TestReport)
    ensures Marked(m, Preamble(t)) == if m.TestName? then ["Report for test: " + t.name] else []
  {
    assert MarkCaption(TestName) == "Report for test: ";
    assert Caption(Determinism) == "Score for determinism" && Caption(ThroughputScore) == "Score for throughput";
    hide MarkCaption, Marked, Field, Thousandths, Caption;
    var first, rest := ["Report for test: " + t.name], Preamble(t)[1..];
    NameLineIsMarked(m, TestName, t.name);
    BlanksAreUnmarked(m);
    RulesAreUnmarked(m);
    FieldIsUnmarked(m, Determinism, "", " ", Thousandths(t.determinism), "");
    FieldIsUnmarked(m, ThroughputScore, "", "  ", Thousandths(t.throughput), "");
    NoneMarked(m, rest);
    MarkedAppend(m, first, rest);
    assert Preamble(t) == first + rest;
  }

  lemma ReportIsMarked(m: Mark, t: TestReport, verbose: int)
    ensures Marked(m, ReportLines(t, verbose))
            == (if m.TestName? then ["Report for test: " + t.name] else [])
               + OfScores(m, |t.scores| > 1, t.scores, verbose)
  {
    hide MarkCaption, Marked, Preamble, DumpLines, OfScores;
    PreambleIsMarked(m, t);
    DumpIsMarked(m, |t.scores| > 1, t.scores, verbose);
    MarkedAppend(m, Preamble(t), DumpLines(|t.scores| > 1, t.scores, verbose));
  }

  // ------------------------------------------------------------------- the whole report

  /** The names of the results that are printed with one: those with siblings. */
  function ShownNames(scores: seq<Score>): seq<string> {
    if scores == [] then []
    else
      var results := scores[|scores| - 1].results;
      ShownNames(scores[..|scores| - 1])
      + if |results| > 1 then ResultNames(results) else []
  }

  /** Caption, name and end of line. */
  function NameLines(caption: string, names: seq<string>, end: string): (lines: seq<string>)
    ensures |lines| == |names| && forall i :: 0 <= i < |names| ==> lines[i] == caption + names[i] + end
  {
    seq(|names|, i requires 0 <= i < |names| => caption + names[i] + end)
  }

  lemma NameLinesAppend(caption: string, a: seq<string>, b: seq<string>, end: string)
    ensures NameLines(caption, a + b, end) == NameLines(caption, a, end) + NameLines(caption, b, end)
  {
    hide NameLines;
  }

  function ResultNames(results: seq<Result>): (names: seq<string>)
    ensures |names| == |results| && forall i :: 0 <= i < |results| ==> names[i] == results[i].name
  {
    seq(|results|, i requires 0 <= i < |results| => results[i].name)
  }

  function SubtestNames(scores: seq<Score>): (names: seq<string>)
    ensures |names| == |scores| && forall i :: 0 <= i < |scores| ==> names[i] == scores[i].name
  {
    seq(|scores|, i requires 0 <= i < |scores| => scores[i].name)
  }

  lemma {:induction false} NamesOfResults(several: bool, results: seq<Result>, verbose: int)
    ensures OfAllNamed(ResultName, several, results, verbose)
            == NameLines("Test results for : ", if several then ResultNames(results) else [], " ")
  {
    hide NameLines, ResultNames;
    if results != [] {
      var n := |results| - 1;
      NamesOfResults(several, results[..n], verbose);
      assert ResultNames(results) == ResultNames(results[..n]) + [results[n].name];
      NameLinesAppend("Test results for : ", ResultNames(results[..n]), [results[n].name], " ");
    }
  }

  lemma {:induction false} NamesOfScores(several: bool, scores: seq<Score>, verbose: int)
    ensures OfScores(ResultName, several, scores, verbose) == NameLines("Test results for : ", ShownNames(scores), " ")
  {
    hide OfAllNamed, NameLines, ResultNames;
    if scores != [] {
      var n := |scores| - 1;
      var results := scores[n].results;
      NamesOfScores(several, scores[..n], verbose);
      NamesOfResults(|results| > 1, results, verbose);
      NameLinesAppend("Test results for : ", ShownNames(scores[..n]),
                      if |results| > 1 then ResultNames(results) else [], " ");
      var named := OfAllNamed(ResultName, |results| > 1, results, verbose);
      assert [] + named == named;
    }
  }

  lemma {:induction false} NothingNamed(m: Mark, several: bool, results: seq<Result>, verbose: int)
    requires m.TestName? || m.SubtestName?
    ensures OfAllNamed(m, several, results, verbose) == []
  {
    if results != [] {
      NothingNamed(m, several, results[..|results| - 1], verbose);
    }
  }

  lemma {:induction false} NamesOfSubtests(m: Mark, several: bool, scores: seq<Score>, verbose: int)
    requires m.TestName? || m.SubtestName?
    ensures OfScores(m, several, scores, verbose)
            == NameLines(" Scores for subtest: ", if m.SubtestName? && several then SubtestNames(scores) else [], "")
  {
    hide OfAllNamed, NameLines, SubtestNames;
    if scores != [] {
      var n := |scores| - 1;
      var line := " Scores for subtest: " + scores[n].name;
      NamesOfSubtests(m, several, scores[..n], verbose);
      NothingNamed(m, |scores[n].results| > 1, scores[n].results, verbose);
      assert [line] + [] == [line] && line + "" == line;
      assert SubtestNames(scores) == SubtestNames(scores[..n]) + [scores[n].name];
      NameLinesAppend(" Scores for subtest: ", SubtestNames(scores[..n]), [scores[n].name], "");
    }
  }

  lemma {:induction false} HoldTimes(values: seq<int>)
    ensures Hold(TimeLines(values), Micros(values))
  {
    hide TimeLine, ParseLine;
    if values != [] {
      HoldTimes(values[..|values| - 1]);
      TimeLineIsRead(|values| - 1, values[|values| - 1]);
    }
  }

  lemma MicrosAppend(a: seq<int>, b: seq<int>)
    ensures Micros(a + b) == Micros(a) + Micros(b)
  {
  }

  lemma {:induction false} TimesOfResults(several: bool, results: seq<Result>, verbose: int)
    requires verbose >= 1
    ensures Hold(OfAllNamed(Times, several, results, verbose), Micros(TimesOf(results)))
  {
    hide TimeLines, Hold, Micros;
    if results == [] {
      HoldTimes([]);
      assert TimeLines([]) == [] by { NoTimeLines(); }
    } else {
      var n := |results| - 1;
      TimesOfResults(several, results[..n], verbose);
      HoldTimes(results[n].values);
      MicrosAppend(TimesOf(results[..n]), results[n].values);
      HoldAppend(OfAllNamed(Times, several, results[..n], verbose), Micros(TimesOf(results[..n])),
                 TimeLines(results[n].values), Micros(results[n].values));
      assert OfNamed(Times, several, results[n], verbose) == [] + TimeLines(results[n].values);
      assert [] + TimeLines(results[n].values) == TimeLines(results[n].values);
    }
  }

  lemma NoTimeLines()
    ensures TimeLines([]) == []
  {
  }

  lemma TimesOfLast(a: seq<Result>, r: Result)
    ensures TimesOf(a + [r]) == TimesOf(a) + r.values
  {
    assert (a + [r])[..|a|] == a;
  }

  lemma TimesOfNothing(a: seq<Result>)
    ensures a + [] == a && TimesOf(a) + TimesOf([]) == TimesOf(a)
  {
  }

  lemma Regroup(x: seq<int>, y: seq<int>, z: seq<int>)
    ensures x + y + z == x + (y + z)
  {
  }

  lemma RegroupResults(a: seq<Result>, b: seq<Result>)
    requires b != []
    ensures var front, r := b[..|b| - 1], b[|b| - 1];
            front + [r] == b && a + front + [r] == a + b
  {
  }

  lemma {:induction false} TimesOfAppend(a: seq<Result>, b: seq<Result>)
    ensures TimesOf(a + b) == TimesOf(a) + TimesOf(b)
  {
    hide TimesOf;
    if b == [] {
      TimesOfNothing(a);
    } else {
      var front, r := b[..|b| - 1], b[|b| - 1];
      TimesOfAppend(a, front);
      TimesOfLast(front, r);
      TimesOfLast(a + front, r);
      RegroupResults(a, b);
      Regroup(TimesOf(a), TimesOf(front), r.values);
    }
  }

  lemma {:induction false} TimesOfScores(several: bool, scores: seq<Score>, verbose: int)
    requires verbose >= 1
    ensures Hold(OfScores(Times, several, scores, verbose), Micros(TimesOf(AllResults(scores))))
  {
    hide Hold, Micros, OfAllNamed, TimesOf;
    if scores == [] {
      TimesOfResults(several, [], verbose);
      assert OfAllNamed(Times, several, [], verbose) == [] by { NobodyNamed(several, verbose); }
    } else {
      var n := |scores| - 1;
      var s := scores[n];
      TimesOfScores(several, scores[..n], verbose);
      TimesOfResults(|s.results| > 1, s.results, verbose);
      TimesOfAppend(AllResults(scores[..n]), s.results);
      MicrosAppend(TimesOf(AllResults(scores[..n])), TimesOf(s.results));
      HoldAppend(OfScores(Times, several, scores[..n], verbose), Micros(TimesOf(AllResults(scores[..n]))),
                 OfAllNamed(Times, |s.results| > 1, s.results, verbose), Micros(TimesOf(s.results)));
      var named := OfAllNamed(Times, |s.results| > 1, s.results, verbose);
      assert [] + named == named;
    }
  }

  lemma NobodyNamed(several: bool, verbose: int)
    ensures OfAllNamed(Times, several, [], verbose) == []
  {
  }

  lemma {:induction false} QuietTimes(several: bool, results: seq<Result>, verbose: int)
    requires verbose < 1
    ensures OfAllNamed(Times, several, results, verbose) == []
  {
    if results != [] {
      QuietTimes(several, results[..|results| - 1], verbose);
    }
  }

  lemma {:induction false} QuietScores(several: bool, scores: seq<Score>, verbose: int)
    requires verbose < 1
    ensures OfScores(Times, several, scores, verbose) == []
  {
    hide OfAllNamed;
    if scores != [] {
      var s := scores[|scores| - 1];
      QuietScores(several, scores[..|scores| - 1], verbose);
      QuietTimes(|s.results| > 1, s.results, verbose);
    }
  }

  /** The names and times of a report, as lines show them: the name of the test; those of
      the subtests if there are several; those of the results of every subtest that has
      several; and, from verbose level 1 on and only then, the measured times of all
      results in order, in microseconds. */
  ghost predicate ListsNamesAndTimes(t: TestReport, verbose: int, lines: seq<string>) {
    && Captioned("Report for test: ", lines) == ["Report for test: " + t.name]
    && Captioned(" Scores for subtest: ", lines)
       == NameLines(" Scores for subtest: ", if |t.scores| > 1 then SubtestNames(t.scores) else [], "")
    && Captioned("Test results for : ", lines) == NameLines("Test results for : ", ShownNames(t.scores), " ")
    && Hold(Captioned("Execution time ", lines),
            if verbose >= 1 then Micros(TimesOf(AllResults(t.scores))) else [])
  }

  lemma NamesAndTimes(t: TestReport, verbose: int)
    ensures ListsNamesAndTimes(t, verbose, ReportLines(t, verbose))
  {
    MarkCaptions();
    hide MarkCaption, ReportLines, Captioned, NameLines, ShownNames, Micros, TimesOf, AllResults, OfScores, ParseLine;
    var several := |t.scores| > 1;
    ReportIsMarked(TestName, t, verbose);
    ReportIsMarked(SubtestName, t, verbose);
    ReportIsMarked(ResultName, t, verbose);
    ReportIsMarked(Times, t, verbose);
    NamesOfSubtests(TestName, several, t.scores, verbose);
    NamesOfSubtests(SubtestName, several, t.scores, verbose);
    NamesOfScores(several, t.scores, verbose);
    if verbose >= 1 {
      TimesOfScores(several, t.scores, verbose);
    } else {
      QuietScores(several, t.scores, verbose);
    }
  }

  lemma MarkCaptions()
    ensures MarkCaption(TestName) == "Report for test: " && MarkCaption(SubtestName) == " Scores for subtest: "
    ensures MarkCaption(ResultName) == "Test results for : " && MarkCaption(Times) == "Execution time "
  {
  }

  /** What the printed file says: for every figure of the report, the lines of its text
      that begin with the figure's caption are as many as there are results, scores or
      tests to print it for, and hold their numbers in order; and the lines with names
      and times list those of the report. */
  method PrintAndLookUp(t: TestReport, verbose: int) returns (fp: Stream)
    requires NamesAreOneLine(t)
    ensures forall f: Figure ::
              var found := Captioned(Caption(f), Lines(fp.text));
              |found| == |Expected(t, f)|
              && forall i :: 0 <= i < |found| ==> ParseLine(found[i]) == [Expected(t, f)[i]]
    ensures ListsNamesAndTimes(t, verbose, Lines(fp.text))
  {
    hide NamesAreOneLine, ReportLines, Lines, Unlines, Captioned, Caption, Expected, ParseLine, ListsNamesAndTimes;
    fp := WriteReport(t, verbose);
    ReportIsOneLine(t, verbose);
    LinesOfUnlines(ReportLines(t, verbose));
    forall f: Figure ensures Shows(f, Lines(fp.text), Expected(t, f)) { ReportShows(f, t, verbose); }
    NamesAndTimes(t, verbose);
  }
}
