/** Reading a printed report: exact for a report of one result, and only for those. */
module RoundTrip {
  import opened Text
  import opened ReportReader
  import opened Report

  /** The recorded times in microseconds. */
  function Micros(values: seq<int>): (r: seq<real>)
    ensures |r| == |values| && forall i :: 0 <= i < |r| ==> r[i] == values[i] as real / 1000.0
  {
    seq(|values|, i requires 0 <= i < |values| => values[i] as real / 1000.0)
  }

  // --------------------------------------------------------------- lines with times

  lemma NoColonInDecimal(k: nat)
    ensures ':' !in "Execution time " + Decimal(k)
  {
    hide Decimal;
    DecimalIsRead(k);
  }

  /** A caption is visible from its first character on and holds no colon. */
  predicate IsCaption(s: string) { s != "" && s[0] > ' ' && ':' !in s }

  predicate IsUnit(s: string) { s == "" || s[0] == ' ' }

  lemma FieldIsRead(caption: string, blanks: string, number: string, unit: string, v: real)
    requires IsCaption(caption) && IsUnit(unit) && (blanks == " " || blanks == "  ")
    requires number != "" && IsVisible(number) && ParseDouble(number) == Some(v)
    ensures ParseLine(Field(caption, blanks, number, unit)) == [v]
  {
    hide NumberText, ParseDouble;
    LabelledNumber(caption, blanks, number, unit);
  }

  lemma TimeFieldIsRead(caption: string, blanks: string, v: int, unit: string)
    requires IsCaption(caption) && IsUnit(unit) && (blanks == " " || blanks == "  ")
    ensures ParseLine(Field(caption, blanks, Thousandths(v), unit)) == [v as real / 1000.0]
  {
    hide Thousandths, ParseDouble, ParseLine, IsCaption;
    NumbersAreVisible(v);
    ThousandthsAreRead(v);
    FieldIsRead(caption, blanks, Thousandths(v), unit, v as real / 1000.0);
  }

  lemma CountFieldIsRead(caption: string, blanks: string, v: int, unit: string)
    requires IsCaption(caption) && IsUnit(unit) && (blanks == " " || blanks == "  ")
    ensures ParseLine(Field(caption, blanks, Signed(v), unit)) == [v as real]
  {
    hide Signed, ParseDouble, ParseLine, IsCaption;
    NumbersAreVisible(v);
    SignedIsRead(v);
    FieldIsRead(caption, blanks, Signed(v), unit, v as real);
  }

  lemma TimeLineIsRead(k: nat, v: int)
    ensures ParseLine(TimeLine(k, v)) == [v as real / 1000.0]
  {
    hide Decimal, Thousandths, ParseLine;
    NoColonInDecimal(k);
    TimeFieldIsRead("Execution time " + Decimal(k), " ", v, " us");
  }

  lemma IterationsLineIsRead(r: Result)
    ensures ParseLine(IterationsLine(r)) == [r.iterations as real]
  {
    hide Signed, ParseLine;
    CountFieldIsRead("Total number of iterations of test run", "  ", r.iterations, " ");
  }

  lemma {:induction false} TimeLinesAreRead(values: seq<int>)
    ensures ParseAll(TimeLines(values)) == Micros(values)
  {
    hide TimeLine, ParseLine;
    if values == [] {
    } else {
      var n := |values| - 1;
      var last := TimeLine(n, values[n]);
      TimeLinesAreRead(values[..n]);
      TimeLineIsRead(n, values[n]);
      ParseAppend(TimeLines(values[..n]), [last]);
      assert [last][1..] == [];
      assert ParseAll([last]) == ParseLine(last) + [];
      assert Micros(values) == Micros(values[..n]) + [values[n] as real / 1000.0];
    }
  }

  // ------------------------------------------------------- lines that are no header

  lemma NotHeader(name: string, rest: string, p: nat)
    requires p < |name| && name[0] > ' ' && name[p] > ' ' && (p < |HEADER| ==> name[p] != HEADER[p])
    ensures !IsHeader(name + rest)
  {
    TrimKeeps(name, rest, p);
  }

  lemma BlankIsNoHeader()
    ensures !IsHeader("") && !IsHeader("  ")
  {
    assert "  "[1..] == " " && " "[1..] == "";
  }

  lemma HeaderIsHeader()
    ensures IsHeader(HEADER)
  {
    TrimLabelled(HEADER, "");
    assert HEADER + "" == HEADER;
  }

  lemma FieldIsNoHeader(start: string, more: string, blanks: string, number: string, unit: string, p: nat)
    requires p < |start| && start[0] > ' ' && start[p] > ' ' && (p < |HEADER| ==> start[p] != HEADER[p])
    ensures !IsHeader(Field(start + more, blanks, number, unit))
  {
    hide IsHeader;
    NotHeader(start, more + ":" + blanks + number + unit, p);
    assert Field(start + more, blanks, number, unit) == start + (more + ":" + blanks + number + unit);
  }

  lemma PlainFieldIsNoHeader(caption: string, blanks: string, number: string, unit: string, p: nat)
    requires p < |caption| && caption[0] > ' ' && caption[p] > ' ' && (p < |HEADER| ==> caption[p] != HEADER[p])
    ensures !IsHeader(Field(caption, blanks, number, unit))
  {
    hide IsHeader, Field;
    FieldIsNoHeader(caption, "", blanks, number, unit, p);
    assert caption + "" == caption;
  }

  lemma SummaryHasNoHeader(r: Result)
    ensures !HasHeader(SummaryLines(r))
  {
    hide IsHeader, Thousandths, Signed, Field;
    PlainFieldIsNoHeader("Total number of iterations of test run", "  ", Signed(r.iterations), " ", 0);
    FieldIsNoHeader("Measured Median", TEST_RUN, " ", Thousandths(r.mediantime), " us ", 9);
    FieldIsNoHeader("Measured maximum time", TEST_RUN, " ", Thousandths(r.maxtime), " us", 9);
    FieldIsNoHeader("Measured minimum time", TEST_RUN, " ", Thousandths(r.mintime), " us", 9);
    FieldIsNoHeader("Measured mean", TEST_RUN, " ", Thousandths(r.meantime), " us ", 9);
    FieldIsNoHeader("Measured standard deviation", TEST_RUN, " ", Thousandths(r.stdtime), " us", 9);
    PlainFieldIsNoHeader("Total number of conforming iterations", " ", Signed(r.iterations - r.nonConforming), " ", 0);
    PlainFieldIsNoHeader("Total number of outlying iterations", " ", Signed(r.nonConforming), " ", 0);
  }

  lemma RuleIsNoHeader()
    ensures !IsHeader("===================================")
  {
    hide IsHeader;
    var rule := "===================================";
    NotHeader(rule, "", 0);
    assert rule + "" == rule;
  }

  lemma PreambleHasNoHeader(t: TestReport)
    ensures !HasHeader(Preamble(t))
  {
    hide IsHeader, Thousandths, Field;
    BlankIsNoHeader();
    NotHeader("Report for test: ", t.name, 0);
    RuleIsNoHeader();
    PlainFieldIsNoHeader("Score for determinism", " ", Thousandths(t.determinism), "", 0);
    PlainFieldIsNoHeader("Score for throughput", "  ", Thousandths(t.throughput), "", 0);
  }

  lemma SingleHeadHasNoHeader(score: Score)
    ensures !HasHeader(ScoreHead(false, score))
  {
    hide IsHeader, Thousandths, Field;
    BlankIsNoHeader();
    PlainFieldIsNoHeader("Maximum throughput score  ", " ", Thousandths(score.maxThroughput), "", 1);
    PlainFieldIsNoHeader("Minimum throughput score   ", " ", Thousandths(score.minThroughput), "", 1);
    PlainFieldIsNoHeader("Mean throughput score      ", " ", Thousandths(score.meanThroughput), "", 3);
    PlainFieldIsNoHeader("Weighted throughput score  ", " ", Thousandths(score.wgtThroughput), "", 0);
  }

  // --------------------------------------------------------------- a single result

  lemma NothingOnBlankLine()
    ensures ParseAll([""]) == [] && !HasHeader([""]) && !HasHeader(["  "])
  {
    assert [""][1..] == [];
    BlankIsNoHeader();
    hide IsHeader;
  }

  lemma HeaderLineIsRead(rest: seq<string>)
    ensures ReadBack([HEADER] + rest) == ParseAll(rest)
  {
    hide IsHeader, ParseAll;
    HeaderIsHeader();
    assert ([HEADER] + rest)[1..] == rest;
  }

  /** A printed result gives its recorded times. */
  lemma ResultIsRead(r: Result, verbose: int)
    requires verbose >= 1
    ensures ReadBack(ResultLines(r, verbose)) == Micros(r.values)
    ensures HasHeader(ResultLines(r, verbose))
  {
    hide SummaryLines, TimeLines, IsHeader, ReadBack, ParseAll, ParseLine;
    var times := TimeLines(r.values);
    SummaryHasNoHeader(r);
    ReadAppend(SummaryLines(r), ["  ", HEADER, ""] + times);
    NothingOnBlankLine();
    ReadAppend(["  "], [HEADER, ""] + times);
    assert ["  ", HEADER, ""] + times == ["  "] + ([HEADER, ""] + times);
    assert [HEADER, ""] + times == [HEADER] + ([""] + times);
    HeaderLineIsRead([""] + times);
    ParseAppend([""], times);
    TimeLinesAreRead(r.values);
    HeaderIsHeader();
    assert ResultLines(r, verbose)[|SummaryLines(r)| + 1] == HEADER;
  }

  lemma SingleReport(t: TestReport, s: Score, r: Result, verbose: int)
    requires t.scores == [s] && s.results == [r]
    ensures ReportLines(t, verbose) == Preamble(t) + (ScoreHead(false, s) + ([""] + ResultLines(r, verbose)))
  {
    hide Preamble, ScoreHead, ResultLines;
    assert [s][..0] == [] && [r][..0] == [];
    assert NamedResult(false, r, verbose) == [""] + ResultLines(r, verbose);
    assert NamedResults(false, [r], verbose) == [] + NamedResult(false, r, verbose);
    assert DumpLines(false, [s], verbose) == [] + ScoreLines(false, s, verbose);
  }

  /** A report of a single result gives exactly its recorded times, in order. */
  lemma SingleReportIsRead(t: TestReport, s: Score, r: Result, verbose: int)
    requires t.scores == [s] && s.results == [r] && verbose >= 1
    ensures ReadBack(ReportLines(t, verbose)) == Micros(r.values)
  {
    hide Preamble, ScoreHead, ResultLines, ReportLines, IsHeader, ReadBack, ParseAll, HasHeader;
    SingleReport(t, s, r, verbose);
    PreambleHasNoHeader(t);
    SingleHeadHasNoHeader(s);
    NothingOnBlankLine();
    ReadAppend(Preamble(t), ScoreHead(false, s) + ([""] + ResultLines(r, verbose)));
    ReadAppend(ScoreHead(false, s), [""] + ResultLines(r, verbose));
    ReadAppend([""], ResultLines(r, verbose));
    ResultIsRead(r, verbose);
  }

  // --------------------------------------------------------------- several results

  function TimesOf(results: seq<Result>): seq<int> {
    if results == [] then [] else TimesOf(results[..|results| - 1]) + results[|results| - 1].values
  }

  /** All the results of a report, in the order they are printed. */
  function AllResults(scores: seq<Score>): seq<Result> {
    if scores == [] then [] else AllResults(scores[..|scores| - 1]) + scores[|scores| - 1].results
  }

  /** The lines give at least the times of these results and one number more for
      every result but the first. */
  ghost predicate ReadsTooMuch(lines: seq<string>, results: seq<Result>) {
    results != [] ==> HasHeader(lines) && |ReadBack(lines)| >= |TimesOf(results)| + |results| - 1
  }

  lemma OtherLines(lines: seq<string>, results: seq<Result>, more: seq<string>)
    requires ReadsTooMuch(lines, results)
    ensures ReadsTooMuch(lines + more, results)
  {
    hide IsHeader, ReadBack, ParseAll;
    ReadAppend(lines, more);
    if results != [] {
      var line :| line in lines && IsHeader(line);
      assert line in lines + more;
    }
  }

  lemma SummaryParsed(r: Result)
    ensures |ParseAll(SummaryLines(r))| >= 1
  {
    hide ParseAll, IterationsLine, ParseLine;
    var s := SummaryLines(r);
    assert s == [IterationsLine(r)] + s[1..];
    ParseAppend([IterationsLine(r)], s[1..]);
    OneLineParsed(IterationsLine(r));
    IterationsLineIsRead(r);
  }

  lemma ResultAlsoParsed(r: Result, verbose: int)
    requires verbose >= 1
    ensures |ParseAll(ResultLines(r, verbose))| >= |r.values| + 1
  {
    hide ParseAll, TimeLines, SummaryLines;
    ParseAppend(SummaryLines(r), ["  ", HEADER, ""] + TimeLines(r.values));
    ParseAppend(["  ", HEADER, ""], TimeLines(r.values));
    TimeLinesAreRead(r.values);
    SummaryParsed(r);
  }

  lemma OneLineParsed(line: string)
    ensures ParseAll([line]) == ParseLine(line)
  {
    hide ParseLine;
    assert [line][1..] == [];
    assert ParseLine(line) + [] == ParseLine(line);
  }

  lemma AnotherResult(lines: seq<string>, results: seq<Result>, r: Result, verbose: int)
    requires ReadsTooMuch(lines, results) && verbose >= 1
    ensures ReadsTooMuch(lines + ResultLines(r, verbose), results + [r])
  {
    hide IsHeader, ReadBack, ParseAll, ResultLines;
    ReadAppend(lines, ResultLines(r, verbose));
    ResultIsRead(r, verbose);
    ResultAlsoParsed(r, verbose);
    assert (results + [r])[..|results|] == results;
    assert results == [] ==> TimesOf(results) == [];
    var line :| line in ResultLines(r, verbose) && IsHeader(line);
    assert line in lines + ResultLines(r, verbose);
  }

  lemma {:induction false} MoreResults(lines: seq<string>, before: seq<Result>, several: bool, results: seq<Result>,
                                       verbose: int)
    requires ReadsTooMuch(lines, before) && verbose >= 1
    ensures ReadsTooMuch(lines + NamedResults(several, results, verbose), before + results)
  {
    hide ReadsTooMuch, ResultLines;
    if results == [] {
      assert before + results == before && lines + NamedResults(several, results, verbose) == lines;
    } else {
      var n := |results| - 1;
      MoreResults(lines, before, several, results[..n], verbose);
      var done, r := lines + NamedResults(several, results[..n], verbose), results[n];
      var named := NamedResult(several, r, verbose);
      var head := named[..|named| - |ResultLines(r, verbose)|];
      assert named == head + ResultLines(r, verbose);
      OtherLines(done, before + results[..n], head);
      AnotherResult(done + head, before + results[..n], r, verbose);
      assert done + head + ResultLines(r, verbose) == lines + NamedResults(several, results, verbose);
      assert before + results[..n] + [r] == before + results;
    }
  }

  lemma {:induction false} MoreScores(lines: seq<string>, several: bool, scores: seq<Score>, verbose: int)
    requires verbose >= 1
    ensures ReadsTooMuch(lines + DumpLines(several, scores, verbose), AllResults(scores))
  {
    hide ReadsTooMuch, ScoreHead, NamedResults;
    if scores == [] {
      assert ReadsTooMuch(lines + DumpLines(several, scores, verbose), []) by { Nothing(lines + []); }
    } else {
      var n := |scores| - 1;
      MoreScores(lines, several, scores[..n], verbose);
      var done, s := lines + DumpLines(several, scores[..n], verbose), scores[n];
      OtherLines(done, AllResults(scores[..n]), ScoreHead(several, s));
      MoreResults(done + ScoreHead(several, s), AllResults(scores[..n]), |s.results| > 1, s.results, verbose);
      assert done + ScoreHead(several, s) + NamedResults(|s.results| > 1, s.results, verbose)
          == lines + DumpLines(several, scores, verbose);
    }
  }

  lemma Nothing(lines: seq<string>)
    ensures ReadsTooMuch(lines, [])
  {
  }

  lemma {:induction false} ResultPerScore(scores: seq<Score>)
    requires forall s :: s in scores ==> s.results != []
    ensures |scores| <= |AllResults(scores)|
  {
    if scores != [] {
      assert scores[|scores| - 1] in scores;
      ResultPerScore(scores[..|scores| - 1]);
    }
  }

  /** Of the reports whose every score has a result, exactly those of at most one
      result give back their recorded times. */
  lemma ReadsBackExactlyWhen(t: TestReport, verbose: int)
    requires verbose >= 1 && forall s :: s in t.scores ==> s.results != []
    ensures ReadBack(ReportLines(t, verbose)) == Micros(TimesOf(AllResults(t.scores)))
            <==> |AllResults(t.scores)| <= 1
  {
    hide Preamble, ScoreLines, IsHeader, ReadBack, ParseAll, HasHeader, TimesOf;
    ResultPerScore(t.scores);
    MoreScores(Preamble(t), |t.scores| > 1, t.scores, verbose);
    if t.scores == [] {
      PreambleHasNoHeader(t);
      ReadAppend(Preamble(t), []);
      assert TimesOf([]) == [] && ReadBack([]) == [] by { NoTimes(); }
    } else if |AllResults(t.scores)| <= 1 {
      var s := t.scores[0];
      assert t.scores == [s] && [s][..0] == [];
      assert AllResults([s]) == [] + s.results;
      var r := s.results[0];
      assert [] + s.results == s.results == [r];
      OneResult(r);
      SingleReportIsRead(t, s, r, verbose);
    }
  }

  lemma NoTimes()
    ensures TimesOf([]) == [] && ReadBack([]) == []
  {
  }

  lemma OneResult(r: Result)
    ensures TimesOf([r]) == r.values
  {
    assert [r][..0] == [];
    assert [] + r.values == r.values;
  }

  // ------------------------------------------------------------ through the file

  predicate AllOneLine(lines: seq<string>) { forall i :: 0 <= i < |lines| ==> OneLine(lines[i]) }

  /** The names that a report prints hold no line break. */
  predicate NamesAreOneLine(t: TestReport) {
    && OneLine(t.name)
    && forall i :: 0 <= i < |t.scores| ==> ScoreNamesAreOneLine(t.scores[i])
  }

  predicate ScoreNamesAreOneLine(s: Score) {
    OneLine(s.name) && forall i :: 0 <= i < |s.results| ==> OneLine(s.results[i].name)
  }

  lemma NumbersAreOneLine(n: int)
    ensures OneLine(Signed(n)) && OneLine(Thousandths(n))
  {
    hide Signed, Thousandths;
    NumbersAreVisible(n);
  }

  lemma RowIsOneLine(name: string, value: string, tail: string)
    requires OneLine(name) && OneLine(value) && OneLine(tail)
    ensures OneLine(name + value) && OneLine(name + value + tail)
  {
  }

  lemma FieldIsOneLine(caption: string, blanks: string, number: string, unit: string)
    requires OneLine(caption) && OneLine(blanks) && OneLine(number) && OneLine(unit)
    ensures OneLine(Field(caption, blanks, number, unit))
  {
    assert OneLine(":");
    hide OneLine;
    RowIsOneLine(caption, ":", blanks);
    RowIsOneLine(caption + ":" + blanks, number, unit);
  }

  lemma {:induction false} TimeLinesAreOneLine(values: seq<int>)
    ensures AllOneLine(TimeLines(values))
  {
    hide Decimal, Thousandths, Field;
    if values == [] {
    } else {
      var n := |values| - 1;
      TimeLinesAreOneLine(values[..n]);
      DecimalIsRead(n);
      NumbersAreOneLine(values[n]);
      TailsAreOneLine();
      FieldIsOneLine("Execution time " + Decimal(n), " ", Thousandths(values[n]), " us");
    }
  }

  lemma TailsAreOneLine()
    ensures OneLine("") && OneLine(" ") && OneLine("  ") && OneLine(" us") && OneLine(" us ") && OneLine(HEADER)
  {
  }

  lemma TimeCaptionsAreOneLine()
    ensures OneLine("Measured Median" + TEST_RUN) && OneLine("Measured maximum time" + TEST_RUN)
    ensures OneLine("Measured minimum time" + TEST_RUN) && OneLine("Measured mean" + TEST_RUN)
    ensures OneLine("Measured standard deviation" + TEST_RUN)
  {
    TimeNamesAreOneLine();
    hide OneLine;
    RowIsOneLine("Measured Median", TEST_RUN, "");
    RowIsOneLine("Measured maximum time", TEST_RUN, "");
    RowIsOneLine("Measured minimum time", TEST_RUN, "");
    RowIsOneLine("Measured mean", TEST_RUN, "");
    RowIsOneLine("Measured standard deviation", TEST_RUN, "");
  }

  lemma TimeNamesAreOneLine()
    ensures OneLine("Measured Median") && OneLine("Measured maximum time") && OneLine("Measured minimum time")
    ensures OneLine("Measured mean") && OneLine("Measured standard deviation")
    ensures OneLine(TEST_RUN) && OneLine("")
  {
  }

  lemma CountCaptionsAreOneLine()
    ensures OneLine("Total number of iterations of test run")
    ensures OneLine("Total number of conforming iterations")
    ensures OneLine("Total number of outlying iterations")
  {
  }

  lemma SummaryIsOneLine(r: Result)
    ensures AllOneLine(SummaryLines(r))
  {
    hide Signed, Thousandths, OneLine, Field;
    NumbersAreOneLine(r.iterations);
    NumbersAreOneLine(r.mediantime);
    NumbersAreOneLine(r.maxtime);
    NumbersAreOneLine(r.mintime);
    NumbersAreOneLine(r.meantime);
    NumbersAreOneLine(r.stdtime);
    NumbersAreOneLine(r.iterations - r.nonConforming);
    NumbersAreOneLine(r.nonConforming);
    TailsAreOneLine();
    TimeCaptionsAreOneLine();
    CountCaptionsAreOneLine();
    FieldIsOneLine("Total number of iterations of test run", "  ", Signed(r.iterations), " ");
    FieldIsOneLine("Measured Median" + TEST_RUN, " ", Thousandths(r.mediantime), " us ");
    FieldIsOneLine("Measured maximum time" + TEST_RUN, " ", Thousandths(r.maxtime), " us");
    FieldIsOneLine("Measured minimum time" + TEST_RUN, " ", Thousandths(r.mintime), " us");
    FieldIsOneLine("Measured mean" + TEST_RUN, " ", Thousandths(r.meantime), " us ");
    FieldIsOneLine("Measured standard deviation" + TEST_RUN, " ", Thousandths(r.stdtime), " us");
    FieldIsOneLine("Total number of conforming iterations", " ", Signed(r.iterations - r.nonConforming), " ");
    FieldIsOneLine("Total number of outlying iterations", " ", Signed(r.nonConforming), " ");
  }

  lemma ResultIsOneLine(r: Result, verbose: int)
    ensures AllOneLine(ResultLines(r, verbose))
  {
    hide SummaryLines, TimeLines, OneLine;
    TimeLinesAreOneLine(r.values);
    SummaryIsOneLine(r);
    TailsAreOneLine();
  }

  lemma NameLabelsAreOneLine()
    ensures OneLine("Test results for : ") && OneLine(RULE)
    ensures OneLine(" Scores for subtest: ") && OneLine("Report for test: ")
  {
  }

  lemma ScoreLabelsAreOneLine()
    ensures OneLine("Maximum throughput score  ") && OneLine("Minimum throughput score   ")
    ensures OneLine("Mean throughput score      ") && OneLine("Weighted throughput score  ")
  {
  }

  lemma PreambleLabelsAreOneLine()
    ensures OneLine("===================================")
    ensures OneLine("Score for determinism") && OneLine("Score for throughput")
    ensures OneLine(" " + "Score for determinism for this subtest")
  {
  }

  lemma NamedResultIsOneLine(several: bool, r: Result, verbose: int)
    requires OneLine(r.name)
    ensures AllOneLine(NamedResult(several, r, verbose))
  {
    hide ResultLines, OneLine;
    ResultIsOneLine(r, verbose);
    TailsAreOneLine();
    NameLabelsAreOneLine();
    RowIsOneLine("Test results for : ", r.name, " ");
  }

  lemma {:induction false} ResultsAreOneLine(several: bool, results: seq<Result>, verbose: int)
    requires forall i :: 0 <= i < |results| ==> OneLine(results[i].name)
    ensures AllOneLine(NamedResults(several, results, verbose))
  {
    hide NamedResult, OneLine;
    if results == [] {
    } else {
      var n := |results| - 1;
      ResultsAreOneLine(several, results[..n], verbose);
      NamedResultIsOneLine(several, results[n], verbose);
    }
  }

  lemma ScoreHeadIsOneLine(several: bool, s: Score)
    requires OneLine(s.name)
    ensures AllOneLine(ScoreHead(several, s))
  {
    hide Thousandths, OneLine, Field;
    NumbersAreOneLine(s.maxThroughput);
    NumbersAreOneLine(s.minThroughput);
    NumbersAreOneLine(s.meanThroughput);
    NumbersAreOneLine(s.wgtThroughput);
    NumbersAreOneLine(s.consistency);
    TailsAreOneLine();
    NameLabelsAreOneLine();
    ScoreLabelsAreOneLine();
    PreambleLabelsAreOneLine();
    RowIsOneLine(" Scores for subtest: ", s.name, "");
    FieldIsOneLine("Maximum throughput score  ", " ", Thousandths(s.maxThroughput), "");
    FieldIsOneLine("Minimum throughput score   ", " ", Thousandths(s.minThroughput), "");
    FieldIsOneLine("Mean throughput score      ", " ", Thousandths(s.meanThroughput), "");
    FieldIsOneLine("Weighted throughput score  ", " ", Thousandths(s.wgtThroughput), "");
    FieldIsOneLine(" " + "Score for determinism for this subtest", " ", Thousandths(s.consistency), "");
  }

  lemma {:induction false} DumpIsOneLine(several: bool, scores: seq<Score>, verbose: int)
    requires forall i :: 0 <= i < |scores| ==> ScoreNamesAreOneLine(scores[i])
    ensures AllOneLine(DumpLines(several, scores, verbose))
  {
    hide ScoreHead, NamedResults;
    if scores == [] {
    } else {
      var n := |scores| - 1;
      DumpIsOneLine(several, scores[..n], verbose);
      assert ScoreNamesAreOneLine(scores[n]);
      ScoreHeadIsOneLine(several, scores[n]);
      ResultsAreOneLine(|scores[n].results| > 1, scores[n].results, verbose);
    }
  }

  lemma ReportIsOneLine(t: TestReport, verbose: int)
    requires NamesAreOneLine(t)
    ensures AllOneLine(ReportLines(t, verbose))
  {
    hide DumpLines, Preamble, OneLine;
    PreambleIsOneLine(t);
    DumpIsOneLine(|t.scores| > 1, t.scores, verbose);
  }

  lemma PreambleIsOneLine(t: TestReport)
    requires OneLine(t.name)
    ensures AllOneLine(Preamble(t))
  {
    hide Thousandths, OneLine, Field;
    NumbersAreOneLine(t.determinism);
    NumbersAreOneLine(t.throughput);
    TailsAreOneLine();
    NameLabelsAreOneLine();
    PreambleLabelsAreOneLine();
    RowIsOneLine("Report for test: ", t.name, "");
    FieldIsOneLine("Score for determinism", " ", Thousandths(t.determinism), "");
    FieldIsOneLine("Score for throughput", "  ", Thousandths(t.throughput), "");
  }

  /** The round trip: printing a report and reading the text returns the recorded
      times, each divided by 1000, exactly when the report holds at most one result. */
  method PrintAndRead(t: TestReport, verbose: int) returns (list: seq<real>)
    requires verbose >= 1 && NamesAreOneLine(t) && forall s :: s in t.scores ==> s.results != []
    ensures list == Micros(TimesOf(AllResults(t.scores))) <==> |AllResults(t.scores)| <= 1
  {
    hide NamesAreOneLine, ReportLines, ReadBack, TimesOf, AllResults, Lines, Unlines;
    var fp := WriteReport(t, verbose);
    var input := new BufferedReader(fp.text);
    list := Read(input);
    ReportIsOneLine(t, verbose);
    LinesOfUnlines(ReportLines(t, verbose));
    ReadsBackExactlyWhen(t, verbose);
  }
}
