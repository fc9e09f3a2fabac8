/** Strings as the report printer and its reader see them: decimal numbers, blanks,
    the search for a character, and the division into lines. */
module Text {
  import opened Statistics

  datatype Option<T> = None | Some(value: T)

  // ---------------------------------------------------------------------- numbers

  function Digit(d: nat): char
    requires d < 10
  {
    "0123456789"[d]
  }

  predicate IsDigit(c: char) { '0' <= c <= '9' }

  predicate AllDigits(s: string) { forall i :: 0 <= i < |s| ==> IsDigit(s[i]) }

  function DigitsValue(s: string): nat
    requires AllDigits(s)
  {
    if s == "" then 0 else 10 * DigitsValue(s[..|s| - 1]) + (s[|s| - 1] as int - '0' as int)
  }

  function Pow10(n: nat): nat {
    if n == 0 then 1 else 10 * Pow10(n - 1)
  }

  lemma {:induction false} Pow10IsPositive(n: nat)
    ensures 0 < Pow10(n)
  {
    if n > 0 {
      Pow10IsPositive(n - 1);
    }
  }

  /** %d of a number that is not negative. */
  function Decimal(n: nat): string {
    (if n < 10 then "" else Decimal(n / 10)) + [Digit(n % 10)]
  }

  /** %d. */
  function Signed(n: int): string {
    if n < 0 then "-" + Decimal(-n) else Decimal(n)
  }

  /** The three digits of a number below 1000. */
  function ThreeDigits(n: nat): string
    requires n < 1000
  {
    [Digit(n / 100), Digit(n / 10 % 10), Digit(n % 10)]
  }

  /** %.3f of a number of thousandths. */
  function Thousandths(t: int): string {
    (if t < 0 then "-" else "") + Decimal(Abs(t) / 1000) + "." + ThreeDigits(Abs(t) % 1000)
  }

  /** indexOf: the first position of a character, or -1. */
  function IndexOf(s: string, c: char): (i: int)
    ensures i == -1 || 0 <= i < |s|
    ensures if i == -1 then c !in s else s[i] == c && c !in s[..i]
  {
    if s == "" then -1
    else if s[0] == c then 0
    else
      var i := IndexOf(s[1..], c);
      assert i >= 0 ==> s[..i + 1] == [s[0]] + s[1..][..i];
      if i == -1 then -1 else i + 1
  }

  lemma {:induction false} IndexOfAppend(s: string, c: char, t: string)
    requires c !in s
    ensures IndexOf(s + [c] + t, c) == |s|
  {
    if s == "" {
    } else {
      assert s[0] in s && c !in s[1..];
      IndexOfAppend(s[1..], c, t);
      assert (s + [c] + t)[1..] == s[1..] + [c] + t;
    }
  }

  function ParseUnsigned(s: string): Option<real> {
    var dot := IndexOf(s, '.');
    var whole := if dot < 0 then s else s[..dot];
    var fraction := if dot < 0 then "" else s[dot + 1..];
    if whole + fraction != "" && AllDigits(whole) && AllDigits(fraction) then
      Pow10IsPositive(|fraction|);
      Some(DigitsValue(whole) as real + DigitsValue(fraction) as real / Pow10(|fraction|) as real)
    else None
  }

  /** parseDouble on plain decimal numbers. */
  function ParseDouble(s: string): Option<real> {
    if s != "" && s[0] == '-' then
      match ParseUnsigned(s[1..])
      case None => None
      case Some(v) => Some(-v)
    else if s != "" && s[0] == '+' then ParseUnsigned(s[1..])
    else ParseUnsigned(s)
  }

  lemma NoDigits()
    ensures AllDigits("") && DigitsValue("") == 0 && Pow10(0) == 1
  {
  }

  lemma OneMoreDigit(s: string, d: nat)
    requires AllDigits(s) && d < 10
    ensures AllDigits(s + [Digit(d)]) && DigitsValue(s + [Digit(d)]) == 10 * DigitsValue(s) + d
  {
    assert (s + [Digit(d)])[..|s|] == s;
  }

  lemma {:induction false} DecimalIsRead(n: nat)
    ensures Decimal(n) != "" && AllDigits(Decimal(n)) && DigitsValue(Decimal(n)) == n
  {
    hide AllDigits, DigitsValue, Digit;
    var front := if n < 10 then "" else Decimal(n / 10);
    NoDigits();
    if n >= 10 {
      DecimalIsRead(n / 10);
    }
    OneMoreDigit(front, n % 10);
  }

  lemma SplitThree(n: nat)
    requires n < 1000
    ensures n / 100 < 10 && n == 100 * (n / 100) + 10 * (n / 10 % 10) + n % 10
  {
  }

  lemma ThreeAreRead(a: nat, b: nat, c: nat)
    requires a < 10 && b < 10 && c < 10
    ensures var s := [Digit(a), Digit(b), Digit(c)];
            AllDigits(s) && DigitsValue(s) == 100 * a + 10 * b + c
  {
    hide DigitsValue, AllDigits, Digit;
    NoDigits();
    OneMoreDigit("", a);
    OneMoreDigit("" + [Digit(a)], b);
    OneMoreDigit("" + [Digit(a)] + [Digit(b)], c);
    assert [Digit(a), Digit(b), Digit(c)] == "" + [Digit(a)] + [Digit(b)] + [Digit(c)];
  }

  lemma ThreeDigitsAreRead(n: nat)
    requires n < 1000
    ensures AllDigits(ThreeDigits(n)) && DigitsValue(ThreeDigits(n)) == n
  {
    SplitThree(n);
    hide DigitsValue, AllDigits, Digit;
    ThreeAreRead(n / 100, n / 10 % 10, n % 10);
  }

  lemma UnsignedThousandths(n: nat)
    ensures ParseUnsigned(Decimal(n / 1000) + "." + ThreeDigits(n % 1000)) == Some(n as real / 1000.0)
  {
    hide Decimal, ThreeDigits, DigitsValue;
    var whole, fraction := Decimal(n / 1000), ThreeDigits(n % 1000);
    DecimalIsRead(n / 1000);
    ThreeDigitsAreRead(n % 1000);
    IndexOfAppend(whole, '.', fraction);
    var s := whole + "." + fraction;
    assert s[..|whole|] == whole && s[|whole| + 1..] == fraction;
    assert |fraction| == 3 && Pow10(3) == 1000 by { ThreeLong(n % 1000); }
    ThousandthsOfReal(n);
  }

  lemma ThreeLong(n: nat)
    requires n < 1000
    ensures |ThreeDigits(n)| == 3 && Pow10(3) == 1000
  {
    assert Pow10(0) == 1 && Pow10(1) == 10 && Pow10(2) == 100;
  }

  lemma ThousandthsOfReal(n: nat)
    ensures (n / 1000) as real + (n % 1000) as real / 1000.0 == n as real / 1000.0
  {
    assert n == 1000 * (n / 1000) + n % 1000;
  }

  /** What %.3f prints of a number of thousandths is read back exactly. */
  lemma ThousandthsAreRead(t: int)
    ensures ParseDouble(Thousandths(t)) == Some(t as real / 1000.0)
  {
    hide Decimal, ThreeDigits, ParseUnsigned;
    var n := Abs(t);
    UnsignedThousandths(n);
    DecimalIsRead(n / 1000);
    var s := Decimal(n / 1000) + "." + ThreeDigits(n % 1000);
    if t < 0 {
      assert Thousandths(t) == "-" + s && Thousandths(t)[1..] == s;
    } else {
      assert Thousandths(t) == s && IsDigit(s[0]);
    }
  }

  lemma UnsignedDecimal(n: nat)
    ensures ParseUnsigned(Decimal(n)) == Some(n as real)
  {
    hide Decimal, DigitsValue, Pow10;
    DecimalIsRead(n);
    NoDigits();
    assert '.' !in Decimal(n);
    assert Decimal(n) + "" == Decimal(n);
  }

  /** So is what %d prints. */
  lemma SignedIsRead(n: int)
    ensures ParseDouble(Signed(n)) == Some(n as real)
  {
    hide Decimal, ParseUnsigned, DigitsValue;
    UnsignedDecimal(Abs(n));
    DecimalIsRead(Abs(n));
    if n < 0 {
      assert Signed(n)[1..] == Decimal(Abs(n));
    } else {
      assert IsDigit(Signed(n)[0]);
    }
  }

  /** No blank, colon or line break occurs in a printed number. */
  predicate IsVisible(s: string) { forall i :: 0 <= i < |s| ==> s[i] > ' ' && s[i] != ':' }

  lemma NumbersAreVisible(n: int)
    ensures IsVisible(Signed(n)) && Signed(n) != "" && IsVisible(Thousandths(n)) && Thousandths(n) != ""
  {
    hide Decimal, ThreeDigits;
    DecimalIsRead(Abs(n));
    DecimalIsRead(Abs(n) / 1000);
    ThreeDigitsAreRead(Abs(n) % 1000);
  }

  // ----------------------------------------------------------------------- blanks

  function TrimLeft(s: string): string {
    if s != "" && s[0] <= ' ' then TrimLeft(s[1..]) else s
  }

  function TrimRight(s: string): (r: string)
    ensures r <= s
  {
    if s != "" && s[|s| - 1] <= ' ' then TrimRight(s[..|s| - 1]) else s
  }

  function Trim(s: string): string { TrimRight(TrimLeft(s)) }

  lemma {:induction false} TrimLeftAppend(blanks: string, s: string)
    requires forall i :: 0 <= i < |blanks| ==> blanks[i] <= ' '
    ensures TrimLeft(blanks + s) == TrimLeft(s)
  {
    if blanks == "" {
      assert blanks + s == s;
    } else {
      TrimLeftAppend(blanks[1..], s);
      assert (blanks + s)[1..] == blanks[1..] + s;
    }
  }

  lemma {:induction false} TrimRightAppend(s: string, t: string)
    requires s != "" && s[|s| - 1] > ' '
    ensures TrimRight(s + t) == s + TrimRight(t)
  {
    if t == "" {
      assert s + t == s;
    } else {
      TrimRightAppend(s, t[..|t| - 1]);
      assert (s + t)[..|s + t| - 1] == s + t[..|t| - 1];
    }
  }

  lemma {:induction false} TrimRightTwice(t: string)
    ensures TrimRight(TrimRight(t)) == TrimRight(t)
  {
    if t != "" {
      TrimRightTwice(t[..|t| - 1]);
    }
  }

  /** A visible character after a visible first one survives in its place. */
  lemma TrimKeeps(s: string, t: string, p: nat)
    requires p < |s| && s[0] > ' ' && s[p] > ' '
    ensures p < |Trim(s + t)| && Trim(s + t)[p] == s[p]
  {
    assert s + t == s[..p + 1] + (s[p + 1..] + t);
    TrimRightAppend(s[..p + 1], s[p + 1..] + t);
  }

  // ------------------------------------------------------------------------ lines

  predicate IsBreak(c: char) { c == '\n' || c == '\r' }

  predicate OneLine(s: string) { forall i :: 0 <= i < |s| ==> !IsBreak(s[i]) }

  function LineLength(t: string): (n: nat)
    ensures n <= |t|
  {
    if t == "" || IsBreak(t[0]) then 0 else 1 + LineLength(t[1..])
  }

  /** The text after the first line and its terminator. */
  function AfterLine(t: string): (rest: string)
    ensures t != "" ==> |rest| < |t|
  {
    var n := LineLength(t);
    if n == |t| then "" else if t[n] == '\r' && n + 1 < |t| && t[n + 1] == '\n' then t[n + 2..] else t[n + 1..]
  }

  /** The lines of a text, each ended by a line feed, a carriage return, both, or the
      end of the text. */
  function Lines(t: string): seq<string>
    decreases |t|
  {
    if t == "" then [] else [t[..LineLength(t)]] + Lines(AfterLine(t))
  }

  /** The text of some lines, each ended by a line feed. */
  function Unlines(lines: seq<string>): string {
    if lines == [] then "" else Unlines(lines[..|lines| - 1]) + lines[|lines| - 1] + "\n"
  }

  lemma {:induction false} LineLengthIs(s: string, t: string)
    requires OneLine(s)
    ensures LineLength(s + "\n" + t) == |s|
  {
    if s == "" {
    } else {
      LineLengthIs(s[1..], t);
      assert (s + "\n" + t)[1..] == s[1..] + "\n" + t;
    }
  }

  /** A line may be ended by a line feed, a carriage return or both; the last one need
      not be ended at all. */
  lemma LineEnds(s: string, end: string, t: string)
    requires OneLine(s) && (end == "\n" || end == "\r\n" || (end == "\r" && (t == "" || t[0] != '\n')))
    ensures Lines(s + end + t) == [s] + Lines(t)
    ensures s != "" ==> Lines(s) == [s]
  {
    hide OneLine, Lines;
    LineStops(s, end + t);
    LineStops(s, "");
    assert s + (end + t) == s + end + t && s + "" == s;
    FirstLine(s + end + t);
    AfterEnd(s, end, t);
    assert (s + end + t)[..|s|] == s;
    if s != "" {
      FirstLine(s);
      assert AfterLine(s) == "" && Lines("") == [] by { NoLine(s); }
    }
  }

  lemma NoLine(s: string)
    requires LineLength(s) == |s|
    ensures AfterLine(s) == "" && Lines("") == []
  {
  }

  lemma FirstLine(t: string)
    requires t != ""
    ensures Lines(t) == [t[..LineLength(t)]] + Lines(AfterLine(t))
  {
  }

  lemma {:induction false} LineStops(s: string, rest: string)
    requires OneLine(s) && (rest == "" || IsBreak(rest[0]))
    ensures LineLength(s + rest) == |s|
  {
    if s != "" {
      LineStops(s[1..], rest);
      assert (s + rest)[1..] == s[1..] + rest;
    } else {
      assert s + rest == rest;
    }
  }

  lemma AfterEnd(s: string, end: string, t: string)
    requires LineLength(s + end + t) == |s|
    requires end == "\n" || end == "\r\n" || (end == "\r" && (t == "" || t[0] != '\n'))
    ensures AfterLine(s + end + t) == t
  {
    hide LineLength;
    var u := s + end + t;
    assert u[|s|] == end[0];
    assert u[|s| + |end|..] == t;
    if |end| == 1 && t != "" {
      assert u[|s| + 1] == t[0];
    }
  }

  lemma UnlinesLast(lines: seq<string>, line: string)
    ensures Unlines(lines + [line]) == Unlines(lines) + line + "\n"
  {
    assert (lines + [line])[..|lines|] == lines;
  }

  lemma {:induction false} UnlinesFirst(lines: seq<string>)
    requires lines != []
    ensures Unlines(lines) == lines[0] + "\n" + Unlines(lines[1..])
  {
    var n := |lines| - 1;
    var front, last := lines[..n], lines[n];
    assert lines == front + [last];
    assert Unlines([]) == "";
    UnlinesLast(front, last);
    hide Unlines;
    if n == 0 {
      assert front == [] && lines[1..] == [];
    } else {
      UnlinesFirst(front);
      UnlinesLast(front[1..], last);
      assert lines[1..] == front[1..] + [last];
      assert lines[0] == front[0];
    }
  }

  /** Dividing the text of some lines gives the lines back. */
  lemma {:induction false} LinesOfUnlines(lines: seq<string>)
    requires forall i :: 0 <= i < |lines| ==> OneLine(lines[i])
    ensures Lines(Unlines(lines)) == lines
  {
    if lines == [] {
    } else {
      UnlinesFirst(lines);
      LinesOfUnlines(lines[1..]);
      var rest := Unlines(lines[1..]);
      var t := lines[0] + "\n" + rest;
      LineLengthIs(lines[0], rest);
      assert t[..|lines[0]|] == lines[0] && t[|lines[0]| + 1..] == rest;
    }
  }

  lemma {:induction false} UnlinesAppend(a: seq<string>, b: seq<string>)
    ensures Unlines(a + b) == Unlines(a) + Unlines(b)
  {
    assert Unlines([]) == "";
    hide Unlines;
    if b == [] {
      assert a + b == a;
    } else {
      var front, last := b[..|b| - 1], b[|b| - 1];
      UnlinesAppend(a, front);
      UnlinesLast(front, last);
      UnlinesLast(a + front, last);
      assert front + [last] == b && a + front + [last] == a + b;
    }
  }
}
