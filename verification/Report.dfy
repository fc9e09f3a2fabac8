/** The printer of a test report, line by line, and what its reader makes of it. */
module Report {
  import opened Text
  import opened ReportReader

  // -------------------------------------------------------------------- the report

  /** What a report prints of one result; times in nanoseconds. */
  datatype Result = Result(name: string, iterations: int, mediantime: int, maxtime: int, mintime: int,
                           meantime: int, stdtime: int, nonConforming: int, values: seq<int>)

  /** What it prints of one score, in thousandths. */
  datatype Score = Score(name: string, consistency: int, maxThroughput: int, minThroughput: int,
                         meanThroughput: int, wgtThroughput: int, results: seq<Result>)

  datatype TestReport = TestReport(name: string, determinism: int, throughput: int, scores: seq<Score>)

  const TEST_RUN := " for this test run"
  const RULE := "=======================" + "========================"

  /** A caption, a colon, a number and its unit. */
  function Field(caption: string, blanks: string, number: string, unit: string): string {
    caption + ":" + blanks + number + unit
  }

  function TimeLine(k: nat, v: int): string {
    Field("Execution time " + Decimal(k), " ", Thousandths(v), " us")
  }

  function TimeLines(values: seq<int>): seq<string> {
    if values == [] then []
    else TimeLines(values[..|values| - 1]) + [TimeLine(|values| - 1, values[|values| - 1])]
  }

  function IterationsLine(r: Result): string {
    Field("Total number of iterations of test run", "  ", Signed(r.iterations), " ")
  }

  /** The eight lines before the measured times. */
  function SummaryLines(r: Result): seq<string> {
    [IterationsLine(r),
     Field("Measured Median" + TEST_RUN, " ", Thousandths(r.mediantime), " us "),
     Field("Measured maximum time" + TEST_RUN, " ", Thousandths(r.maxtime), " us"),
     Field("Measured minimum time" + TEST_RUN, " ", Thousandths(r.mintime), " us"),
     Field("Measured mean" + TEST_RUN, " ", Thousandths(r.meantime), " us "),
     Field("Measured standard deviation" + TEST_RUN, " ", Thousandths(r.stdtime), " us"),
     Field("Total number of conforming iterations", " ", Signed(r.iterations - r.nonConforming), " "),
     Field("Total number of outlying iterations", " ", Signed(r.nonConforming), " ")]
  }

  function ResultLines(r: Result, verbose: int): seq<string> {
    SummaryLines(r) + if verbose >= 1 then ["  ", HEADER, ""] + TimeLines(r.values) else []
  }

  /** A result inside the dump of the scores, named if there are several. */
  function NamedResult(several: bool, r: Result, verbose: int): seq<string> {
    [""]
    + (if several then
         ["Test results for : " + r.name + " ", RULE]
       else [])
    + ResultLines(r, verbose)
  }

  function NamedResults(several: bool, results: seq<Result>, verbose: int): seq<string> {
    if results == [] then []
    else NamedResults(several, results[..|results| - 1], verbose)
         + NamedResult(several, results[|results| - 1], verbose)
  }

  /** The lines of a score above its results. */
  function ScoreHead(several: bool, s: Score): seq<string> {
    (if several then ["", " Scores for subtest: " + s.name] else [])
    + ["",
       Field("Maximum throughput score  ", " ", Thousandths(s.maxThroughput), ""),
       Field("Minimum throughput score   ", " ", Thousandths(s.minThroughput), ""),
       Field("Mean throughput score      ", " ", Thousandths(s.meanThroughput), ""),
       Field("Weighted throughput score  ", " ", Thousandths(s.wgtThroughput), "")]
    + (if several then
         [Field(" " + "Score for determinism for this subtest", " ", Thousandths(s.consistency), "")]
       else [])
  }

  function ScoreLines(several: bool, s: Score, verbose: int): seq<string> {
    ScoreHead(several, s) + NamedResults(|s.results| > 1, s.results, verbose)
  }

  function DumpLines(several: bool, scores: seq<Score>, verbose: int): seq<string> {
    if scores == [] then []
    else DumpLines(several, scores[..|scores| - 1], verbose) + ScoreLines(several, scores[|scores| - 1], verbose)
  }

  function Preamble(t: TestReport): seq<string> {
    ["Report for test: " + t.name,
     "===================================",
     "",
     Field("Score for determinism", " ", Thousandths(t.determinism), ""),
     Field("Score for throughput", "  ", Thousandths(t.throughput), "")]
  }

  function ReportLines(t: TestReport, verbose: int): seq<string> {
    Preamble(t) + DumpLines(|t.scores| > 1, t.scores, verbose)
  }

  // ------------------------------------------------------------------- the printer

  class Stream {
    var text: string

    constructor ()
      ensures text == ""
    {
      text := "";
    }

    method PrintLines(lines: seq<string>)
      modifies this
      ensures text == old(text) + Unlines(lines)
    {
      for i := 0 to |lines|
        invariant text == old(text) + Unlines(lines[..i])
      {
        assert lines[..i + 1][..i] == lines[..i];
        text := text + lines[i] + "\n";
      }
      assert lines[..|lines|] == lines;
    }
  }

  method PrintResult(fp: Stream, r: Result, verbose: int)
    modifies fp
    ensures fp.text == old(fp.text) + Unlines(ResultLines(r, verbose))
  {
    hide SummaryLines, TimeLine, Unlines;
    ghost var start := fp.text;
    fp.PrintLines(SummaryLines(r));
    if verbose >= 1 {
      fp.PrintLines(["  ", HEADER, ""]);
      UnlinesAppend(SummaryLines(r), ["  ", HEADER, ""]);
      ghost var head := SummaryLines(r) + ["  ", HEADER, ""];
      assert TimeLines(r.values[..0]) == [] && head + [] == head;
      for k := 0 to |r.values|
        invariant fp.text == start + Unlines(head + TimeLines(r.values[..k]))
      {
        assert r.values[..k + 1][..k] == r.values[..k];
        fp.PrintLines([TimeLine(k, r.values[k])]);
        UnlinesAppend(head + TimeLines(r.values[..k]), [TimeLine(k, r.values[k])]);
        assert head + TimeLines(r.values[..k + 1]) == head + TimeLines(r.values[..k]) + [TimeLine(k, r.values[k])];
      }
      assert r.values[..|r.values|] == r.values;
      assert ResultLines(r, verbose) == head + TimeLines(r.values);
    } else {
      assert ResultLines(r, verbose) == SummaryLines(r);
    }
  }

  method PrintNamedResults(fp: Stream, results: seq<Result>, verbose: int)
    modifies fp
    ensures fp.text == old(fp.text) + Unlines(NamedResults(|results| > 1, results, verbose))
  {
    hide ResultLines, Unlines;
    var several := |results| > 1;
    ghost var start := fp.text;
    assert Unlines([]) == "" by { NothingPrinted(); }
    for j := 0 to |results|
      invariant fp.text == start + Unlines(NamedResults(several, results[..j], verbose))
    {
      ghost var done := NamedResults(several, results[..j], verbose);
      var head := [""] + if several then
        ["Test results for : " + results[j].name + " ", RULE]
      else [];
      fp.PrintLines(head);
      PrintResult(fp, results[j], verbose);
      UnlinesAppend(head, ResultLines(results[j], verbose));
      UnlinesAppend(done, head + ResultLines(results[j], verbose));
      assert results[..j + 1][..j] == results[..j];
      assert NamedResult(several, results[j], verbose) == head + ResultLines(results[j], verbose);
    }
    assert results[..|results|] == results;
  }

  lemma NothingPrinted()
    ensures Unlines([]) == ""
  {
  }

  method DumpScore(fp: Stream, scores: seq<Score>, verbose: int)
    modifies fp
    ensures fp.text == old(fp.text) + Unlines(DumpLines(|scores| > 1, scores, verbose))
  {
    hide ScoreHead, NamedResults, Unlines;
    var several := |scores| > 1;
    ghost var start := fp.text;
    NothingPrinted();
    for i := 0 to |scores|
      invariant fp.text == start + Unlines(DumpLines(several, scores[..i], verbose))
    {
      ghost var done := DumpLines(several, scores[..i], verbose);
      fp.PrintLines(ScoreHead(several, scores[i]));
      PrintNamedResults(fp, scores[i].results, verbose);
      UnlinesAppend(ScoreHead(several, scores[i]), NamedResults(|scores[i].results| > 1, scores[i].results, verbose));
      UnlinesAppend(done, ScoreLines(several, scores[i], verbose));
      assert scores[..i + 1][..i] == scores[..i];
    }
    assert scores[..|scores|] == scores;
  }

  /** Prints a whole report to a new file. */
  method WriteReport(t: TestReport, verbose: int) returns (fp: Stream)
    ensures fresh(fp) && fp.text == Unlines(ReportLines(t, verbose))
  {
    hide Preamble, DumpLines, Unlines;
    fp := new Stream();
    fp.PrintLines(Preamble(t));
    DumpScore(fp, t.scores, verbose);
    UnlinesAppend(Preamble(t), DumpLines(|t.scores| > 1, t.scores, verbose));
  }
}
