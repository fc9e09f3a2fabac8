/** The reader of the tools: skip to the header line, then collect the number after
    the colon of every line that has one. */
module ReportReader {
  import opened Text

  const HEADER := "Measured execution times:"

  /** The text a line's number is parsed from, if the line has a colon. */
  function NumberText(line: string): Option<string> {
    var t := Trim(line);
    var colon := IndexOf(t, ':');
    if colon < 0 then None
    else Some(FirstWord(Trim(t[colon + 1..])))
  }

  function FirstWord(s: string): string {
    var blank := IndexOf(s, ' ');
    if blank < 0 then s else Trim(s[..blank])
  }

  function ParseLine(line: string): seq<real> {
    match NumberText(line)
    case None => []
    case Some(number) =>
      match ParseDouble(number)
      case None => []
      case Some(v) => [v]
  }

  predicate IsHeader(line: string) { Trim(line) == HEADER }

  predicate HasHeader(lines: seq<string>) { exists line :: line in lines && IsHeader(line) }

  /** The numbers of all lines. */
  function ParseAll(lines: seq<string>): seq<real> {
    if lines == [] then [] else ParseLine(lines[0]) + ParseAll(lines[1..])
  }

  /** The numbers of the lines below the first header. */
  function ReadBack(lines: seq<string>): seq<real> {
    if lines == [] then []
    else if IsHeader(lines[0]) then ParseAll(lines[1..])
    else ReadBack(lines[1..])
  }

  // -------------------------------------------------------------------- the reader

  class BufferedReader {
    var rest: string

    constructor (text: string)
      ensures rest == text
    {
      rest := text;
    }

    /** The next line; `ok` is false at the end of the text. */
    method ReadLine() returns (ok: bool, line: string)
      modifies this
      ensures ok <==> old(rest) != ""
      ensures ok ==> Lines(old(rest)) == [line] + Lines(rest) && |rest| < |old(rest)|
      ensures !ok ==> rest == ""
    {
      ok, line := rest != "", "";
      if ok {
        line := rest[..LineLength(rest)];
        rest := AfterLine(rest);
      }
    }
  }

  method Read(input: BufferedReader) returns (list: seq<real>)
    modifies input
    ensures list == ReadBack(Lines(old(input.rest)))
    ensures input.rest == ""
  {
    hide ParseLine, IsHeader, Lines;
    list := [];
    var ok, line := input.ReadLine();
    ghost var all := Lines(old(input.rest));
    NoLines();
    while ok && !IsHeader(line)
      invariant ok ==> ReadBack(all) == ReadBack([line] + Lines(input.rest))
      invariant !ok ==> ReadBack(all) == [] && input.rest == ""
      decreases |input.rest|, ok
    {
      assert ([line] + Lines(input.rest))[1..] == Lines(input.rest);
      ok, line := input.ReadLine();
    }
    ghost var below := Lines(input.rest);
    assert ReadBack(all) == ParseAll(below) by {
      assert ok ==> ([line] + below)[1..] == below;
    }
    ok, line := input.ReadLine();
    while ok
      invariant list + (if ok then ParseAll([line] + Lines(input.rest)) else []) == ParseAll(below)
      invariant !ok ==> input.rest == ""
      decreases |input.rest|, ok
    {
      assert ([line] + Lines(input.rest))[1..] == Lines(input.rest);
      list := list + ParseLine(line);
      ok, line := input.ReadLine();
    }
  }

  lemma NoLines()
    ensures Lines("") == [] && ReadBack([]) == [] && ParseAll([]) == []
  {
  }

  /** Blanks around the header do not hide it. */
  lemma HeaderMayBePadded(blanks: string, tail: string)
    requires forall i :: 0 <= i < |blanks| ==> blanks[i] <= ' '
    requires forall i :: 0 <= i < |tail| ==> tail[i] <= ' '
    ensures IsHeader(blanks + HEADER + tail)
  {
    HeaderEnds();
    hide TrimLeft, TrimRight;
    TrimLeftAppend(blanks, HEADER + tail);
    assert blanks + HEADER + tail == blanks + (HEADER + tail);
    BlankTail(tail);
    assert TrimLeft(HEADER + tail) == HEADER + tail by { StartsVisibly(HEADER + tail); }
    TrimRightAppend(HEADER, tail);
    assert HEADER + "" == HEADER;
  }

  lemma HeaderEnds()
    ensures HEADER != "" && HEADER[0] > ' ' && HEADER[|HEADER| - 1] > ' '
  {
  }

  lemma StartsVisibly(s: string)
    requires s != "" && s[0] > ' '
    ensures TrimLeft(s) == s
  {
  }

  lemma {:induction false} BlankTail(tail: string)
    requires forall i :: 0 <= i < |tail| ==> tail[i] <= ' '
    ensures TrimRight(tail) == ""
  {
    if tail != "" {
      BlankTail(tail[..|tail| - 1]);
    }
  }

  // ----------------------------------------------------------- lines without a number

  function AfterColon(s: string): string {
    var colon := IndexOf(s, ':');
    if colon < 0 then "" else s[colon + 1..]
  }

  predicate HasDigit(s: string) { exists i :: 0 <= i < |s| && IsDigit(s[i]) }

  lemma {:induction false} TrimLeftAfterColon(s: string)
    ensures AfterColon(TrimLeft(s)) == AfterColon(s) && (HasDigit(TrimLeft(s)) ==> HasDigit(s))
  {
    if s != "" && s[0] <= ' ' {
      TrimLeftAfterColon(s[1..]);
      if HasDigit(s[1..]) {
        var i :| 0 <= i < |s[1..]| && IsDigit(s[1..][i]);
        assert IsDigit(s[i + 1]);
      }
    }
  }

  lemma PrefixAfterColon(r: string, s: string)
    requires r <= s
    ensures AfterColon(r) <= AfterColon(s) && (HasDigit(r) ==> HasDigit(s))
  {
    var colon := IndexOf(r, ':');
    if colon >= 0 {
      IndexOfAppend(r[..colon], ':', s[colon + 1..]);
      assert s == r[..colon] + [':'] + s[colon + 1..];
    }
    if i :| 0 <= i < |r| && IsDigit(r[i]) {
      assert s[i] == r[i];
    }
  }

  lemma TrimAfterColon(s: string)
    ensures AfterColon(Trim(s)) <= AfterColon(s) && (HasDigit(Trim(s)) ==> HasDigit(s))
  {
    hide AfterColon, HasDigit;
    TrimLeftAfterColon(s);
    PrefixAfterColon(Trim(s), TrimLeft(s));
  }

  lemma FirstWordHasDigit(s: string)
    ensures HasDigit(FirstWord(s)) ==> HasDigit(s)
  {
    hide HasDigit, Trim, AfterColon;
    var blank := IndexOf(s, ' ');
    if blank >= 0 {
      TrimAfterColon(s[..blank]);
      PrefixAfterColon(s[..blank], s);
    }
  }

  lemma ParsedHasDigit(s: string)
    ensures ParseUnsigned(s).Some? ==> HasDigit(s)
  {
    var dot := IndexOf(s, '.');
    if ParseUnsigned(s).Some? {
      assert IsDigit(if dot == 0 then s[1] else s[0]);
    }
  }

  /** A line contributes at most one number, and none unless a digit follows its first
      colon. */
  lemma NumberNeedsDigit(line: string)
    ensures |ParseLine(line)| <= 1
    ensures ParseLine(line) != [] ==> ':' in line && HasDigit(AfterColon(line))
  {
    hide Trim, FirstWord, ParseUnsigned, HasDigit;
    var t := Trim(line);
    if ParseLine(line) != [] {
      var after := AfterColon(t);
      var number := FirstWord(Trim(after));
      assert NumberText(line) == Some(number);
      TrimAfterColon(line);
      TrimAfterColon(after);
      FirstWordHasDigit(Trim(after));
      PrefixAfterColon(after, AfterColon(line));
      NumberHasDigit(number);
      assert AfterColon(line) != "" by { NothingHasDigit(); }
    }
  }

  lemma NothingHasDigit()
    ensures !HasDigit("")
  {
  }

  lemma NumberHasDigit(s: string)
    ensures ParseDouble(s).Some? ==> HasDigit(s)
  {
    hide ParseUnsigned;
    ParsedHasDigit(s);
    if s != "" {
      ParsedHasDigit(s[1..]);
      if HasDigit(s[1..]) {
        var i :| 0 <= i < |s[1..]| && IsDigit(s[1..][i]);
        assert IsDigit(s[i + 1]);
      }
    }
  }

  // ------------------------------------------------------ reading text piece by piece

  lemma {:induction false} ParseAppend(a: seq<string>, b: seq<string>)
    ensures ParseAll(a + b) == ParseAll(a) + ParseAll(b)
  {
    hide ParseLine;
    if a == [] {
      assert a + b == b;
    } else {
      assert ParseAll(a) == ParseLine(a[0]) + ParseAll(a[1..]);
      ParseAppend(a[1..], b);
      assert (a + b)[1..] == a[1..] + b;
    }
  }

  /** Before a header nothing is read, after it everything is. */
  lemma {:induction false} ReadAppend(a: seq<string>, b: seq<string>)
    ensures ReadBack(a + b) == if HasHeader(a) then ReadBack(a) + ParseAll(b) else ReadBack(b)
  {
    hide IsHeader, ParseLine, ParseAll;
    if a == [] {
      assert a + b == b;
    } else {
      assert a == [a[0]] + a[1..];
      assert (a + b)[1..] == a[1..] + b;
      if IsHeader(a[0]) {
        assert a[0] in a;
        ParseAppend(a[1..], b);
      } else {
        assert HasHeader(a) <==> HasHeader(a[1..]);
        ReadAppend(a[1..], b);
      }
    }
  }

  /** A line that is a name, a colon, blanks, a visible number and a blank tail. */
  lemma LabelledNumber(name: string, blanks: string, number: string, tail: string)
    requires name != "" && name[0] > ' ' && ':' !in name
    requires forall i :: 0 <= i < |blanks| ==> blanks[i] <= ' '
    requires number != "" && IsVisible(number) && (tail == "" || tail[0] == ' ')
    ensures NumberText(name + ":" + blanks + number + tail) == Some(number)
  {
    hide Trim, IndexOf, FirstWord;
    var end := TrimRight(tail);
    TrimLabelled(name + ":" + blanks + number, tail);
    var rest := blanks + number + end;
    assert name + ":" + blanks + number + end == name + [':'] + rest;
    IndexOfAppend(name, ':', rest);
    assert (name + [':'] + rest)[|name| + 1..] == rest;
    TrimNumber(blanks, number, end);
    TrimRightTwice(tail);
    FirstWordIs(number, end);
  }

  lemma FirstWordIs(number: string, end: string)
    requires number != "" && IsVisible(number) && (end == "" || end[0] == ' ')
    ensures FirstWord(number + end) == number
  {
    hide Trim;
    var blank := IndexOf(number + end, ' ');
    if end == "" {
      assert number + end == number;
    } else {
      IndexOfAppend(number, ' ', end[1..]);
      assert number + end == number + [' '] + end[1..];
      TrimNumber("", number, "");
      assert (number + end)[..|number|] == number == "" + number + "";
    }
  }

  lemma TrimLabelled(s: string, tail: string)
    requires s != "" && s[0] > ' ' && s[|s| - 1] > ' '
    ensures Trim(s + tail) == s + TrimRight(tail)
  {
    TrimRightAppend(s, tail);
  }

  lemma TrimNumber(blanks: string, number: string, end: string)
    requires forall i :: 0 <= i < |blanks| ==> blanks[i] <= ' '
    requires number != "" && IsVisible(number)
    ensures Trim(blanks + number + end) == number + TrimRight(end)
  {
    assert blanks + number + end == blanks + (number + end);
    TrimLeftAppend(blanks, number + end);
    TrimRightAppend(number, end);
  }
}
