/** What a reader who looks for a caption finds in a printed report: for every figure
    exactly the lines that begin with its caption, each holding its own number. */
module ReportFigures {
  import opened Text
  import opened ReportReader
  import opened Report
  import opened RoundTrip

  datatype Figure =
    // of every result
    | Iterations | MedianTime | MaximumTime | MinimumTime | MeanTime | Deviation | Conforming | Outlying
    // of every score, the last only if there are several
    | MaximumThroughput | MinimumThroughput | MeanThroughput | WeightedThroughput | SubtestDeterminism
    // of the test
    | Determinism | ThroughputScore
  {
    predicate OfResult() {
      Iterations? || MedianTime? || MaximumTime? || MinimumTime? || MeanTime? || Deviation? || Conforming? || Outlying?
    }

    predicate OfScore() {
      MaximumThroughput? || MinimumThroughput? || MeanThroughput? || WeightedThroughput? || SubtestDeterminism?
    }

    predicate OfTest() { Determinism? || ThroughputScore? }
  }

  /** What the figure's line begins with. */
  function Caption(f: Figure): string {
    match f
    case Iterations => "Total number of iterations of test run"
    case MedianTime => "Measured Median"
    case MaximumTime => "Measured maximum time"
    case MinimumTime => "Measured minimum time"
    case MeanTime => "Measured mean"
    case Deviation => "Measured standard deviation"
    case Conforming => "Total number of conforming iterations"
    case Outlying => "Total number of outlying iterations"
    case MaximumThroughput => "Maximum throughput score  "
    case MinimumThroughput => "Minimum throughput score   "
    case MeanThroughput => "Mean throughput score      "
    case WeightedThroughput => "Weighted throughput score  "
    case SubtestDeterminism => " " + "Score for determinism for this subtest"
    case Determinism => "Score for determinism"
    case ThroughputScore => "Score for throughput"
  }

  /** Times in microseconds, counts as they are. */
  function OfOneResult(r: Result, f: Figure): real
    requires f.OfResult()
  {
    match f
    case Iterations => r.iterations as real
    case MedianTime => r.mediantime as real / 1000.0
    case MaximumTime => r.maxtime as real / 1000.0
    case MinimumTime => r.mintime as real / 1000.0
    case MeanTime => r.meantime as real / 1000.0
    case Deviation => r.stdtime as real / 1000.0
    case Conforming => (r.iterations - r.nonConforming) as real
    case Outlying => r.nonConforming as real
  }

  /** Scores are given in thousandths. */
  function OfOneScore(s: Score, f: Figure): real
    requires f.OfScore()
  {
    match f
    case MaximumThroughput => s.maxThroughput as real / 1000.0
    case MinimumThroughput => s.minThroughput as real / 1000.0
    case MeanThroughput => s.meanThroughput as real / 1000.0
    case WeightedThroughput => s.wgtThroughput as real / 1000.0
    case SubtestDeterminism => s.consistency as real / 1000.0
  }

  function OfReport(t: TestReport, f: Figure): real
    requires f.OfTest()
  {
    if f.Determinism? then t.determinism as real / 1000.0 else t.throughput as real / 1000.0
  }

  /** The figures that a report must show, in order. */
  function Expected(t: TestReport, f: Figure): seq<real> {
    if f.OfTest() then [OfReport(t, f)]
    else if f.OfResult() then
      var all := AllResults(t.scores);
      seq(|all|, i requires 0 <= i < |all| => OfOneResult(all[i], f))
    else if f.SubtestDeterminism? && |t.scores| <= 1 then []
    else seq(|t.scores|, i requires 0 <= i < |t.scores| => OfOneScore(t.scores[i], f))
  }

  /** The lines that begin with a caption. */
  function Captioned(caption: string, lines: seq<string>): seq<string> {
    if lines == [] then []
    else Captioned(caption, lines[..|lines| - 1]) + if caption <= lines[|lines| - 1] then [lines[|lines| - 1]] else []
  }

  /** Each line holds its own figure. */
  ghost predicate Hold(lines: seq<string>, figures: seq<real>) {
    |lines| == |figures| && forall i :: 0 <= i < |lines| ==> ParseLine(lines[i]) == [figures[i]]
  }

  /** The lines for a figure are as many as the numbers and hold them in order. */
  ghost predicate Shows(f: Figure, lines: seq<string>, figures: seq<real>) {
    Hold(Captioned(Caption(f), lines), figures)
  }

  // ------------------------------------------------------------------ composing blocks

  lemma {:induction false} CaptionedAppend(caption: string, a: seq<string>, b: seq<string>)
    ensures Captioned(caption, a + b) == Captioned(caption, a) + Captioned(caption, b)
  {
    if b == [] {
      assert a + b == a;
    } else {
      var n := |b| - 1;
      CaptionedAppend(caption, a, b[..n]);
      assert (a + b)[..|a + b| - 1] == a + b[..n];
    }
  }

  lemma HoldAppend(a: seq<string>, x: seq<real>, b: seq<string>, y: seq<real>)
    requires Hold(a, x) && Hold(b, y)
    ensures Hold(a + b, x + y)
  {
    hide ParseLine;
  }

  lemma ShowsAppend(f: Figure, a: seq<string>, x: seq<real>, b: seq<string>, y: seq<real>)
    requires Shows(f, a, x) && Shows(f, b, y)
    ensures Shows(f, a + b, x + y)
  {
    hide Captioned, Caption, Hold;
    CaptionedAppend(Caption(f), a, b);
    HoldAppend(Captioned(Caption(f), a), x, Captioned(Caption(f), b), y);
  }

  /** A block that shows nothing of the figure may stand on either side. */
  lemma AppendSilent(f: Figure, a: seq<string>, x: seq<real>, b: seq<string>, y: seq<real>)
    requires Shows(f, a, x) && Shows(f, b, y) && (x == [] || y == [])
    ensures Shows(f, a + b, if x == [] then y else x)
  {
    hide Shows;
    ShowsAppend(f, a, x, b, y);
    assert x + [] == x && [] + y == y;
  }

  lemma NothingShown(f: Figure)
    ensures Shows(f, [], [])
  {
  }

  lemma ShowsNot(f: Figure, line: string)
    requires !(Caption(f) <= line)
    ensures Shows(f, [line], [])
  {
    hide Caption;
    assert [line][..0] == [];
    assert Captioned(Caption(f), [line]) == [] + [];
  }

  lemma ShowsOne(f: Figure, line: string, figure: real)
    requires Caption(f) <= line && ParseLine(line) == [figure]
    ensures Shows(f, [line], [figure])
  {
    hide Caption, ParseLine;
    assert [line][..0] == [];
    assert Captioned(Caption(f), [line]) == [] + [line];
  }

  // ------------------------------------------------------------------------ captions

  function At(s: string, p: nat): char { if p < |s| then s[p] else ' ' }

  predicate Total(f: Figure) { f.Iterations? || f.Conforming? || f.Outlying? }

  predicate Measured(f: Figure) {
    f.MedianTime? || f.MaximumTime? || f.MinimumTime? || f.MeanTime? || f.Deviation?
  }

  /** The characters that tell the captions apart. */
  predicate Characteristic(f: Figure, c: string) {
    if Total(f) then
      && |c| > 16 && At(c, 0) == 'T' && At(c, 1) == 'o'
      && At(c, 16) == if f.Iterations? then 'i' else if f.Conforming? then 'c' else 'o'
    else
      && |c| > 10
      && if Measured(f) then
           && At(c, 0) == 'M' && At(c, 1) == 'e' && At(c, 3) == 's'
           && At(c, 9) == (if f.MedianTime? then 'M' else if f.Deviation? then 's' else 'm')
           && At(c, 10) == (if f.MaximumTime? then 'a' else if f.MinimumTime? then 'i'
                            else if f.Deviation? then 't' else 'e')
         else if f.OfScore() then
           && At(c, 0) == (if f.WeightedThroughput? then 'W' else if f.SubtestDeterminism? then ' ' else 'M')
           && At(c, 1) == (if f.MaximumThroughput? then 'a' else if f.MinimumThroughput? then 'i'
                           else if f.SubtestDeterminism? then 'S' else 'e')
           && (f.MeanThroughput? ==> At(c, 3) == 'n') && (f.SubtestDeterminism? ==> At(c, 6) == ' ')
         else At(c, 0) == 'S' && At(c, 10) == if f.Determinism? then 'd' else 't'
  }

  lemma TotalChars(f: Figure)
    requires Total(f)
    ensures Characteristic(f, Caption(f))
  {
  }

  lemma MeasuredChars(f: Figure)
    requires Measured(f)
    ensures Characteristic(f, Caption(f))
  {
  }

  lemma ThroughputChars(f: Figure)
    requires f.OfScore() && !f.SubtestDeterminism?
    ensures Characteristic(f, Caption(f))
  {
  }

  lemma SubtestChars()
    ensures Characteristic(SubtestDeterminism, Caption(SubtestDeterminism))
  {
  }

  lemma TestChars(f: Figure)
    requires f.OfTest()
    ensures Characteristic(f, Caption(f))
  {
  }

  lemma CaptionChars(f: Figure)
    ensures Characteristic(f, Caption(f))
  {
    hide Caption, Characteristic;
    if Total(f) {
      TotalChars(f);
    } else if Measured(f) {
      MeasuredChars(f);
    } else if f.SubtestDeterminism? {
      SubtestChars();
    } else if f.OfScore() {
      ThroughputChars(f);
    } else {
      TestChars(f);
    }
  }

  lemma NotPrefix(caption: string, start: string, rest: string, p: nat)
    requires p < |caption| && p < |start| && caption[p] != start[p]
    ensures !(caption <= start + rest)
  {
    assert (start + rest)[p] == start[p];
  }

  /** No line of one figure begins with the caption of another. */
  lemma CaptionsDiffer(f: Figure, g: Figure, rest: string)
    ensures Caption(f) <= Caption(g) + rest <==> f == g
  {
    CaptionChars(f);
    CaptionChars(g);
    hide Caption;
    if f != g {
      var c, d := Caption(f), Caption(g);
      var p := if At(c, 0) != At(d, 0) then 0
               else if At(c, 1) != At(d, 1) then 1
               else if At(c, 3) != At(d, 3) then 3
               else if At(c, 9) != At(d, 9) then 9
               else if At(c, 10) != At(d, 10) then 10
               else 16;
      NotPrefix(c, d, rest, p);
    }
  }

  /** Nor does a line that starts with a character no caption starts with, */
  lemma OtherStart(f: Figure, start: string, rest: string)
    requires start != "" && start[0] != 'T' && start[0] != 'M' && start[0] != 'W' && start[0] != ' ' && start[0] != 'S'
    ensures Shows(f, [start + rest], [])
  {
    CaptionChars(f);
    hide Caption, Shows;
    NotPrefix(Caption(f), start, rest, 0);
    ShowsNot(f, start + rest);
  }

  /** a blank line, */
  lemma BlankLines(f: Figure)
    ensures Shows(f, [""], []) && Shows(f, ["  "], [])
  {
    CaptionChars(f);
    hide Caption, Shows;
    ShowsNot(f, "");
    ShowsNot(f, "  ");
  }

  /** the header of the times, */
  lemma HeaderLine(f: Figure)
    ensures Shows(f, [HEADER], [])
  {
    CaptionChars(f);
    HeaderChars();
    hide Caption, Shows;
    NotPrefix(Caption(f), HEADER, "", if At(Caption(f), 0) != 'M' then 0 else if At(Caption(f), 1) != 'e' then 1
                                      else if At(Caption(f), 3) != 's' then 3 else 9);
    assert HEADER + "" == HEADER;
    ShowsNot(f, HEADER);
  }

  lemma HeaderChars()
    ensures |HEADER| > 10 && HEADER[0] == 'M' && HEADER[1] == 'e' && HEADER[3] == 's' && HEADER[9] == 'e'
  {
  }

  /** or the name of a result or of a score. */
  lemma NameLines(f: Figure, name: string)
    ensures Shows(f, ["Test results for : " + name + " "], [])
    ensures Shows(f, [" Scores for subtest: " + name], [])
  {
    CaptionChars(f);
    NameChars();
    hide Caption, Shows;
    var c, start := Caption(f), "Test results for : ";
    NotPrefix(c, start, name + " ", if At(c, 0) != 'T' then 0 else 1);
    assert start + (name + " ") == start + name + " ";
    ShowsNot(f, start + name + " ");
    NotPrefix(c, " Scores for subtest: ", name, if At(c, 0) != ' ' then 0 else 6);
    ShowsNot(f, " Scores for subtest: " + name);
  }

  lemma NameChars()
    ensures "Test results for : "[0] == 'T' && "Test results for : "[1] == 'e'
    ensures " Scores for subtest: "[0] == ' ' && " Scores for subtest: "[6] == 's'
  {
  }

  // ---------------------------------------------------------------- lines with figures

  /** The figure of a line, if it is the one looked for. */
  function Own(f: Figure, g: Figure, figure: real): seq<real> {
    if f == g then [figure] else []
  }

  /** A line of figure g. */
  lemma FieldShows(f: Figure, g: Figure, more: string, blanks: string, number: string, unit: string, v: real)
    requires ParseLine(Field(Caption(g) + more, blanks, number, unit)) == [v]
    ensures Shows(f, [Field(Caption(g) + more, blanks, number, unit)], Own(f, g, v))
  {
    hide Caption, Shows, ParseLine;
    var line, rest := Field(Caption(g) + more, blanks, number, unit), more + ":" + blanks + number + unit;
    assert line == Caption(g) + rest;
    CaptionsDiffer(f, g, rest);
    if f == g {
      ShowsOne(f, line, v);
    } else {
      ShowsNot(f, line);
    }
  }

  lemma TimeFieldShows(f: Figure, g: Figure, more: string, blanks: string, v: int, unit: string)
    requires IsCaption(Caption(g) + more) && IsUnit(unit) && (blanks == " " || blanks == "  ")
    ensures Shows(f, [Field(Caption(g) + more, blanks, Thousandths(v), unit)], Own(f, g, v as real / 1000.0))
  {
    hide Caption, Shows, ParseLine, Thousandths, Field, IsCaption;
    TimeFieldIsRead(Caption(g) + more, blanks, v, unit);
    FieldShows(f, g, more, blanks, Thousandths(v), unit, v as real / 1000.0);
  }

  lemma CountFieldShows(f: Figure, g: Figure, blanks: string, v: int, unit: string)
    requires IsCaption(Caption(g)) && IsUnit(unit) && (blanks == " " || blanks == "  ")
    ensures Shows(f, [Field(Caption(g), blanks, Signed(v), unit)], Own(f, g, v as real))
  {
    hide Caption, Shows, ParseLine, Signed, Field, IsCaption;
    CountFieldIsRead(Caption(g), blanks, v, unit);
    assert Caption(g) + "" == Caption(g);
    FieldShows(f, g, "", blanks, Signed(v), unit, v as real);
  }

  lemma PlainTimeFieldShows(f: Figure, g: Figure, blanks: string, v: int)
    requires IsCaption(Caption(g)) && (blanks == " " || blanks == "  ")
    ensures Shows(f, [Field(Caption(g), blanks, Thousandths(v), "")], Own(f, g, v as real / 1000.0))
  {
    hide Caption, Shows, ParseLine, Thousandths, Field, IsCaption;
    assert Caption(g) + "" == Caption(g);
    TimeFieldShows(f, g, "", blanks, v, "");
  }

  lemma CountCaptions(g: Figure)
    requires Total(g)
    ensures IsCaption(Caption(g))
  {
  }

  lemma TimeCaptions(g: Figure)
    requires Measured(g)
    ensures IsCaption(Caption(g) + TEST_RUN)
  {
  }

  lemma ThroughputCaptions(g: Figure)
    requires g.OfScore() && !g.SubtestDeterminism?
    ensures IsCaption(Caption(g))
  {
  }

  lemma TestCaptions(g: Figure)
    requires g.OfTest()
    ensures IsCaption(Caption(g))
  {
  }

  lemma SubtestCaption()
    ensures IsCaption("Score for determinism for this subtest")
  {
  }

  lemma BlankField(caption: string, blanks: string, number: string, unit: string)
    ensures Field(" " + caption, blanks, number, unit) == " " + Field(caption, blanks, number, unit)
  {
    assert " " + caption + ":" + blanks + number + unit == " " + (caption + ":" + blanks + number + unit);
  }

  /** The one figure whose line starts with a blank. */
  lemma SubtestFieldShows(f: Figure, v: int)
    ensures Shows(f, [Field(Caption(SubtestDeterminism), " ", Thousandths(v), "")],
                  Own(f, SubtestDeterminism, v as real / 1000.0))
  {
    hide Shows, Thousandths, IsCaption, Field, ParseLine;
    var caption := "Score for determinism for this subtest";
    assert Caption(SubtestDeterminism) == " " + caption;
    hide Caption;
    SubtestCaption();
    SubtestField(f, SubtestDeterminism, caption, v);
  }

  lemma SubtestField(f: Figure, g: Figure, caption: string, v: int)
    requires IsCaption(caption) && Caption(g) == " " + caption
    ensures Shows(f, [Field(Caption(g), " ", Thousandths(v), "")], Own(f, g, v as real / 1000.0))
  {
    hide Shows, Thousandths, IsCaption, Field, ParseLine, Caption;
    TimeFieldIsRead(caption, " ", v, "");
    BlankField(caption, " ", Thousandths(v), "");
    BlankBefore(Field(caption, " ", Thousandths(v), ""));
    assert Caption(g) + "" == Caption(g);
    FieldShows(f, g, "", " ", Thousandths(v), "", v as real / 1000.0);
  }

  lemma BlankBefore(line: string)
    ensures ParseLine(" " + line) == ParseLine(line)
  {
    hide Trim, FirstWord, ParseDouble, IndexOf;
    TrimBlank(line);
  }

  lemma TrimBlank(line: string)
    ensures Trim(" " + line) == Trim(line)
  {
    TrimLeftAppend(" ", line);
    hide TrimLeft, TrimRight;
  }

  // ---------------------------------------------------------------------------- blocks

  /** Of the lines of a block only the k-th is for the figure. */
  ghost predicate OnlyLine(f: Figure, lines: seq<string>, k: int, figure: real) {
    forall i :: 0 <= i < |lines| ==> Shows(f, [lines[i]], if i == k then [figure] else [])
  }

  lemma FrontAndLast(f: Figure, lines: seq<string>, k: int, figure: real)
    requires lines != [] && OnlyLine(f, lines, k, figure)
    ensures OnlyLine(f, lines[..|lines| - 1], k, figure)
    ensures Shows(f, [lines[|lines| - 1]], if |lines| - 1 == k then [figure] else [])
  {
    hide Shows;
  }

  lemma {:induction false} ShowsOnly(f: Figure, lines: seq<string>, k: int, figure: real)
    requires OnlyLine(f, lines, k, figure)
    ensures Shows(f, lines, if 0 <= k < |lines| then [figure] else [])
  {
    hide Shows, OnlyLine;
    if lines == [] {
      NothingShown(f);
    } else {
      var n := |lines| - 1;
      FrontAndLast(f, lines, k, figure);
      ShowsOnly(f, lines[..n], k, figure);
      AppendSilent(f, lines[..n], if 0 <= k < n then [figure] else [], [lines[n]], if n == k then [figure] else []);
      assert lines[..n] + [lines[n]] == lines;
    }
  }

  function OneResult(r: Result, f: Figure): seq<real> {
    if f.OfResult() then [OfOneResult(r, f)] else []
  }

  /** The figures of a summary, line by line. */
  function SummaryFigure(i: nat): Figure
    requires i < 8
  {
    [Iterations, MedianTime, MaximumTime, MinimumTime, MeanTime, Deviation, Conforming, Outlying][i]
  }

  function SummaryPlace(f: Figure): (k: int)
    ensures -1 <= k < 8 && (0 <= k <==> f.OfResult()) && (0 <= k ==> SummaryFigure(k) == f)
  {
    match f
    case Iterations => 0
    case MedianTime => 1
    case MaximumTime => 2
    case MinimumTime => 3
    case MeanTime => 4
    case Deviation => 5
    case Conforming => 6
    case Outlying => 7
    case _ => -1
  }

  function TimeOf(r: Result, g: Figure): int
    requires Measured(g)
  {
    match g
    case MedianTime => r.mediantime
    case MaximumTime => r.maxtime
    case MinimumTime => r.mintime
    case MeanTime => r.meantime
    case Deviation => r.stdtime
  }

  function CountOf(r: Result, g: Figure): int
    requires Total(g)
  {
    match g
    case Iterations => r.iterations
    case Conforming => r.iterations - r.nonConforming
    case Outlying => r.nonConforming
  }

  lemma SummaryLength(r: Result)
    ensures |SummaryLines(r)| == 8
  {
  }

  lemma SummaryTimeLine(r: Result, g: Figure)
    requires Measured(g)
    ensures |SummaryLines(r)| == 8
    ensures SummaryLines(r)[SummaryPlace(g)]
            == Field(Caption(g) + TEST_RUN, " ", Thousandths(TimeOf(r, g)),
                     if g.MedianTime? || g.MeanTime? then " us " else " us")
  {
    hide Field, Thousandths, Signed;
  }

  lemma SummaryCountLine(r: Result, g: Figure)
    requires Total(g)
    ensures |SummaryLines(r)| == 8
    ensures SummaryLines(r)[SummaryPlace(g)]
            == Field(Caption(g), if g.Iterations? then "  " else " ", Signed(CountOf(r, g)), " ")
  {
    hide Field, Thousandths, Signed;
  }

  lemma SummaryLineShows(f: Figure, r: Result, g: Figure)
    requires g.OfResult()
    ensures |SummaryLines(r)| == 8
    ensures Shows(f, [SummaryLines(r)[SummaryPlace(g)]], Own(f, g, OfOneResult(r, g)))
  {
    hide Shows, Field, Thousandths, Signed, IsCaption, SummaryLines, Caption, SummaryPlace;
    SummaryLength(r);
    if Measured(g) {
      SummaryTimeLine(r, g);
      TimeCaptions(g);
      TimeFieldShows(f, g, TEST_RUN, " ", TimeOf(r, g), if g.MedianTime? || g.MeanTime? then " us " else " us");
    } else {
      SummaryCountLine(r, g);
      CountCaptions(g);
      CountFieldShows(f, g, if g.Iterations? then "  " else " ", CountOf(r, g), " ");
    }
  }

  lemma SummaryShows(f: Figure, r: Result)
    ensures Shows(f, SummaryLines(r), OneResult(r, f))
  {
    hide Shows, SummaryLines, OfOneResult, SummaryPlace;
    SummaryLength(r);
    var lines, k := SummaryLines(r), SummaryPlace(f);
    var figure := if f.OfResult() then OfOneResult(r, f) else 0.0;
    forall i | 0 <= i < |lines| ensures Shows(f, [lines[i]], if i == k then [figure] else []) {
      var g := SummaryFigure(i);
      assert SummaryPlace(g) == i by { PlaceOfFigure(i); }
      SummaryLineShows(f, r, g);
    }
    ShowsOnly(f, lines, k, figure);
  }

  lemma PlaceOfFigure(i: nat)
    requires i < 8
    ensures SummaryFigure(i).OfResult() && SummaryPlace(SummaryFigure(i)) == i
  {
  }

  lemma {:induction false} TimesShowNothing(f: Figure, values: seq<int>)
    ensures Shows(f, TimeLines(values), [])
  {
    hide Shows, Decimal, Thousandths;
    if values == [] {
      NothingShown(f);
    } else {
      var n := |values| - 1;
      TimesShowNothing(f, values[..n]);
      var rest := Decimal(n) + ":" + " " + Thousandths(values[n]) + " us";
      assert TimeLine(n, values[n]) == "Execution time " + rest;
      OtherStart(f, "Execution time ", rest);
      AppendSilent(f, TimeLines(values[..n]), [], [TimeLine(n, values[n])], []);
    }
  }

  lemma ResultShows(f: Figure, r: Result, verbose: int)
    ensures Shows(f, ResultLines(r, verbose), OneResult(r, f))
  {
    hide Shows, SummaryLines, TimeLines, OneResult;
    SummaryShows(f, r);
    if verbose >= 1 {
      BlankLines(f);
      HeaderLine(f);
      ShowsOnly(f, ["  ", HEADER, ""], -1, 0.0);
      TimesShowNothing(f, r.values);
      AppendSilent(f, ["  ", HEADER, ""], [], TimeLines(r.values), []);
      AppendSilent(f, SummaryLines(r), OneResult(r, f), ["  ", HEADER, ""] + TimeLines(r.values), []);
    } else {
      assert SummaryLines(r) + [] == SummaryLines(r);
    }
  }

  lemma NamedResultShows(f: Figure, several: bool, r: Result, verbose: int)
    ensures Shows(f, NamedResult(several, r, verbose), OneResult(r, f))
  {
    hide Shows, ResultLines, OneResult;
    var name := "Test results for : " + r.name + " ";
    var head := [""] + if several then [name, RULE] else [];
    BlankLines(f);
    NameLines(f, r.name);
    RuleShowsNothing(f);
    ShowsOnly(f, head, -1, 0.0);
    ResultShows(f, r, verbose);
    AppendSilent(f, head, [], ResultLines(r, verbose), OneResult(r, f));
  }

  lemma RuleShowsNothing(f: Figure)
    ensures Shows(f, [RULE], [])
  {
    hide Shows;
    OtherStart(f, RULE, "");
    assert RULE + "" == RULE;
  }

  function OfResults(results: seq<Result>, f: Figure): seq<real> {
    if results == [] then [] else OfResults(results[..|results| - 1], f) + OneResult(results[|results| - 1], f)
  }

  lemma {:induction false} ResultsShow(f: Figure, several: bool, results: seq<Result>, verbose: int)
    ensures Shows(f, NamedResults(several, results, verbose), OfResults(results, f))
  {
    hide Shows, NamedResult, OneResult;
    if results == [] {
      NothingShown(f);
    } else {
      var n := |results| - 1;
      ResultsShow(f, several, results[..n], verbose);
      NamedResultShows(f, several, results[n], verbose);
      ShowsAppend(f, NamedResults(several, results[..n], verbose), OfResults(results[..n], f),
                  NamedResult(several, results[n], verbose), OneResult(results[n], f));
    }
  }

  function OneScore(several: bool, s: Score, f: Figure): seq<real> {
    if f.OfScore() && (several || !f.SubtestDeterminism?) then [OfOneScore(s, f)] else []
  }

  /** The four throughput lines after their blank line. */
  function Throughputs(s: Score): seq<string> {
    ["",
     Field("Maximum throughput score  ", " ", Thousandths(s.maxThroughput), ""),
     Field("Minimum throughput score   ", " ", Thousandths(s.minThroughput), ""),
     Field("Mean throughput score      ", " ", Thousandths(s.meanThroughput), ""),
     Field("Weighted throughput score  ", " ", Thousandths(s.wgtThroughput), "")]
  }

  function ThroughputFigure(i: nat): Figure
    requires i < 4
  {
    [MaximumThroughput, MinimumThroughput, MeanThroughput, WeightedThroughput][i]
  }

  function ThroughputOf(s: Score, g: Figure): int
    requires g.OfScore() && !g.SubtestDeterminism?
  {
    match g
    case MaximumThroughput => s.maxThroughput
    case MinimumThroughput => s.minThroughput
    case MeanThroughput => s.meanThroughput
    case WeightedThroughput => s.wgtThroughput
  }

  lemma ThroughputLine(s: Score, i: nat)
    requires i < 4
    ensures |Throughputs(s)| == 5 && Throughputs(s)[0] == ""
    ensures ThroughputFigure(i).OfScore() && !ThroughputFigure(i).SubtestDeterminism?
    ensures Throughputs(s)[i + 1]
            == Field(Caption(ThroughputFigure(i)), " ", Thousandths(ThroughputOf(s, ThroughputFigure(i))), "")
  {
    hide Field, Thousandths;
  }

  lemma ThroughputShows(f: Figure, s: Score, i: nat)
    requires i < 4
    ensures |Throughputs(s)| == 5
    ensures Shows(f, [Throughputs(s)[i + 1]], if f == ThroughputFigure(i) then OneScore(false, s, f) else [])
  {
    hide Shows, Field, Thousandths, IsCaption, Throughputs, Caption;
    var g := ThroughputFigure(i);
    ThroughputLine(s, i);
    ThroughputCaptions(g);
    PlainTimeFieldShows(f, g, " ", ThroughputOf(s, g));
  }

  lemma ThroughputsShow(f: Figure, s: Score)
    ensures Shows(f, Throughputs(s), OneScore(false, s, f))
  {
    hide Shows, Throughputs, OfOneScore;
    ThroughputLine(s, 0);
    BlankLines(f);
    var lines := Throughputs(s);
    var k := match f
      case MaximumThroughput => 1
      case MinimumThroughput => 2
      case MeanThroughput => 3
      case WeightedThroughput => 4
      case _ => -1;
    var figure := if f.OfScore() then OfOneScore(s, f) else 0.0;
    forall i | 0 <= i < |lines| ensures Shows(f, [lines[i]], if i == k then [figure] else []) {
      if i > 0 {
        ThroughputShows(f, s, i - 1);
      }
    }
    ShowsOnly(f, lines, k, figure);
  }

  lemma ScoreHeadShows(f: Figure, several: bool, s: Score)
    ensures Shows(f, ScoreHead(several, s), OneScore(several, s, f))
  {
    hide Shows, Field, Thousandths, Caption;
    ThroughputsShow(f, s);
    var throughputs := Throughputs(s);
    if several {
      var name := ["", " Scores for subtest: " + s.name];
      BlankLines(f);
      NameLines(f, s.name);
      ShowsOnly(f, name, -1, 0.0);
      SubtestFieldShows(f, s.consistency);
      AppendSilent(f, name, [], throughputs, OneScore(false, s, f));
      var last := [Field(" " + "Score for determinism for this subtest", " ", Thousandths(s.consistency), "")];
      SubtestCaptionIs();
      AppendSilent(f, name + throughputs, OneScore(false, s, f),
                   last, Own(f, SubtestDeterminism, s.consistency as real / 1000.0));
      assert ScoreHead(several, s) == name + throughputs + last;
    } else {
      assert ScoreHead(several, s) == throughputs;
    }
  }

  lemma SubtestCaptionIs()
    ensures Caption(SubtestDeterminism) == " " + "Score for determinism for this subtest"
  {
  }

  function OfScores(several: bool, scores: seq<Score>, f: Figure): seq<real> {
    if scores == [] then []
    else
      OfScores(several, scores[..|scores| - 1], f)
      + (OneScore(several, scores[|scores| - 1], f) + OfResults(scores[|scores| - 1].results, f))
  }

  lemma {:induction false} DumpShows(f: Figure, several: bool, scores: seq<Score>, verbose: int)
    ensures Shows(f, DumpLines(several, scores, verbose), OfScores(several, scores, f))
  {
    hide Shows, ScoreHead, NamedResults, OneScore, OfResults;
    if scores == [] {
      NothingShown(f);
    } else {
      var n := |scores| - 1;
      var s := scores[n];
      DumpShows(f, several, scores[..n], verbose);
      ScoreHeadShows(f, several, s);
      ResultsShow(f, |s.results| > 1, s.results, verbose);
      ShowsAppend(f, ScoreHead(several, s), OneScore(several, s, f),
                  NamedResults(|s.results| > 1, s.results, verbose), OfResults(s.results, f));
      ShowsAppend(f, DumpLines(several, scores[..n], verbose), OfScores(several, scores[..n], f),
                  ScoreLines(several, s, verbose), OneScore(several, s, f) + OfResults(s.results, f));
    }
  }

  lemma PreambleShows(f: Figure, t: TestReport)
    ensures Shows(f, Preamble(t), if f.OfTest() then [OfReport(t, f)] else [])
  {
    hide Shows, Field, Thousandths, IsCaption;
    OtherStart(f, "Report for test: ", t.name);
    UnderlineShowsNothing(f);
    BlankLines(f);
    forall g: Figure | g.OfTest() ensures IsCaption(Caption(g)) { TestCaptions(g); }
    PlainTimeFieldShows(f, Determinism, " ", t.determinism);
    PlainTimeFieldShows(f, ThroughputScore, "  ", t.throughput);
    var k := if f.Determinism? then 3 else if f.ThroughputScore? then 4 else -1;
    ShowsOnly(f, Preamble(t), k, if f.OfTest() then OfReport(t, f) else 0.0);
  }

  lemma UnderlineShowsNothing(f: Figure)
    ensures Shows(f, ["==================================="], [])
  {
    hide Shows;
    var rule := "===================================";
    OtherStart(f, rule, "");
    assert rule + "" == rule;
  }

  // ------------------------------------------------------------------- the whole report

  /** The lines of a whole report show its figures. */
  lemma ReportShows(f: Figure, t: TestReport, verbose: int)
    ensures Shows(f, ReportLines(t, verbose), Expected(t, f))
  {
    hide Shows, Preamble, DumpLines, Expected, OfScores;
    var several := |t.scores| > 1;
    PreambleShows(f, t);
    DumpShows(f, several, t.scores, verbose);
    ShowsAppend(f, Preamble(t), if f.OfTest() then [OfReport(t, f)] else [],
                DumpLines(several, t.scores, verbose), OfScores(several, t.scores, f));
    ExpectedFigures(t, f);
  }

  lemma ExpectedFigures(t: TestReport, f: Figure)
    ensures Expected(t, f) == (if f.OfTest() then [OfReport(t, f)] else []) + OfScores(|t.scores| > 1, t.scores, f)
  {
    hide AllResults, OfOneResult, OfOneScore, OfReport, OfResults, OneResult, OneScore, OfScores;
    if f.OfTest() {
      NoScoresForTest(|t.scores| > 1, t.scores, f);
    } else if f.OfResult() {
      ScoresAreResults(|t.scores| > 1, t.scores, f);
      ResultsInOrder(AllResults(t.scores), f);
    } else {
      ScoresInOrder(|t.scores| > 1, t.scores, f);
    }
  }

  lemma {:induction false} NoResults(results: seq<Result>, f: Figure)
    requires !f.OfResult()
    ensures OfResults(results, f) == []
  {
    if results != [] {
      NoResults(results[..|results| - 1], f);
    }
  }

  lemma {:induction false} NoScoresForTest(several: bool, scores: seq<Score>, f: Figure)
    requires f.OfTest()
    ensures OfScores(several, scores, f) == []
  {
    if scores != [] {
      NoScoresForTest(several, scores[..|scores| - 1], f);
      NoResults(scores[|scores| - 1].results, f);
    }
  }

  lemma {:induction false} ResultsAppend(a: seq<Result>, b: seq<Result>, f: Figure)
    ensures OfResults(a + b, f) == OfResults(a, f) + OfResults(b, f)
  {
    hide OneResult;
    if b == [] {
      assert a + b == a;
    } else {
      var n := |b| - 1;
      ResultsAppend(a, b[..n], f);
      assert (a + b)[..|a + b| - 1] == a + b[..n];
    }
  }

  lemma {:induction false} ScoresAreResults(several: bool, scores: seq<Score>, f: Figure)
    requires f.OfResult()
    ensures OfScores(several, scores, f) == OfResults(AllResults(scores), f)
  {
    hide OneResult;
    if scores != [] {
      var n := |scores| - 1;
      ScoresAreResults(several, scores[..n], f);
      ResultsAppend(AllResults(scores[..n]), scores[n].results, f);
      assert OneScore(several, scores[n], f) == [];
      assert [] + OfResults(scores[n].results, f) == OfResults(scores[n].results, f);
    }
  }

  lemma {:induction false} ResultsInOrder(results: seq<Result>, f: Figure)
    requires f.OfResult()
    ensures |OfResults(results, f)| == |results|
    ensures forall i :: 0 <= i < |results| ==> OfResults(results, f)[i] == OfOneResult(results[i], f)
  {
    hide OfOneResult;
    if results != [] {
      ResultsInOrder(results[..|results| - 1], f);
    }
  }

  lemma OneMore(a: seq<real>, b: seq<real>)
    ensures a + (b + []) == a + b
  {
    assert b + [] == b;
  }

  lemma {:induction false} ScoresInOrder(several: bool, scores: seq<Score>, f: Figure)
    requires f.OfScore()
    ensures if f.SubtestDeterminism? && !several then OfScores(several, scores, f) == []
            else |OfScores(several, scores, f)| == |scores|
                 && forall i :: 0 <= i < |scores| ==> OfScores(several, scores, f)[i] == OfOneScore(scores[i], f)
  {
    hide OfOneScore, OfResults;
    if scores != [] {
      var n := |scores| - 1;
      ScoresInOrder(several, scores[..n], f);
      NoResults(scores[n].results, f);
      OneMore(OfScores(several, scores[..n], f), OneScore(several, scores[n], f));
    }
  }

  /** The text of a single result: every figure has one line, which holds its number. */
  method PrintOneResult(r: Result, verbose: int) returns (fp: Stream)
    ensures forall f: Figure | f.OfResult() ::
              var found := Captioned(Caption(f), Lines(fp.text));
              |found| == 1 && ParseLine(found[0]) == [OfOneResult(r, f)]
  {
    hide ResultLines, Lines, Unlines, Captioned, Caption, OfOneResult, ParseLine;
    fp := new Stream();
    PrintResult(fp, r, verbose);
    assert "" + Unlines(ResultLines(r, verbose)) == Unlines(ResultLines(r, verbose));
    ResultIsOneLine(r, verbose);
    LinesOfUnlines(ResultLines(r, verbose));
    forall f: Figure | f.OfResult() ensures Shows(f, Lines(fp.text), [OfOneResult(r, f)]) {
      ResultShows(f, r, verbose);
    }
  }
}
