/**
 * The plain-text trajectory log that saveArt writes: one numbered line per
 * idea, and readers for the line numbers and the bracketed coordinates
 * that prove each entry's number and rounded position can be read back.
 */
module Export {
  import opened Wrappers
  import opened Ideas

  predicate IsDigit(c: char)
  {
    '0' <= c <= '9'
  }

  function DigitChar(d: nat): (c: char)
    requires d < 10
    ensures IsDigit(c)
  {
    "0123456789"[d]
  }

  function DigitValue(c: char): (d: nat)
    requires IsDigit(c)
    ensures d < 10
  {
    (c as int - '0' as int) as nat
  }

  predicate AllDigits(s: string)
  {
    forall i :: 0 <= i < |s| ==> IsDigit(s[i])
  }

  /** The decimal numeral of `n`, as a template literal prints an integer. */
  function NatToDecimal(n: nat): (s: string)
    ensures |s| >= 1 && AllDigits(s)
    decreases n
  {
    if n < 10 then [DigitChar(n)] else NatToDecimal(n / 10) + [DigitChar(n % 10)]
  }

  /** An integer printed by a template literal: a minus sign for negatives. */
  function IntToDecimal(i: int): (s: string)
    ensures |s| >= 1
    ensures i >= 0 <==> s[0] != '-'
  {
    if i < 0 then "-" + NatToDecimal(-i) else NatToDecimal(i)
  }

  /** p.round(x), that is Math.round(x): the nearest integer, halves rounded up. */
  function Round(x: real): (n: int)
    ensures x - 0.5 < n as real <= x + 0.5
  {
    (x + 0.5).Floor
  }

  /** The value of a string of decimal digits. */
  function DecimalValue(s: string): nat
    requires AllDigits(s)
  {
    if s == [] then 0 else DecimalValue(s[..|s| - 1]) * 10 + DigitValue(s[|s| - 1])
  }

  /** Length of the run of digits a string starts with. */
  function DigitRun(s: string): (k: nat)
    ensures k <= |s| && AllDigits(s[..k])
    ensures k < |s| ==> !IsDigit(s[k])
  {
    if s != [] && IsDigit(s[0]) then
      var k := 1 + DigitRun(s[1..]);
      assert s[..k] == [s[0]] + s[1..][..k - 1];
      k
    else 0
  }

  /** The number a line starts with. */
  function LeadingNumber(s: string): nat
  {
    DecimalValue(s[..DigitRun(s)])
  }

  /** Reading the decimal numeral of `n` gives `n` back. */
  lemma {:induction false} DecimalRoundTrip(n: nat)
    ensures DecimalValue(NatToDecimal(n)) == n
    decreases n
  {
    if n >= 10 {
      var s := NatToDecimal(n);
      assert s[..|s| - 1] == NatToDecimal(n / 10);
      DecimalRoundTrip(n / 10);
    }
  }

  /** A digit run followed by a non-digit is exactly that run. */
  lemma {:induction false} DigitRunOfNumeral(digits: string, rest: string)
    requires AllDigits(digits)
    requires rest != [] && !IsDigit(rest[0])
    ensures DigitRun(digits + rest) == |digits|
  {
    if digits != [] {
      assert (digits + rest)[1..] == digits[1..] + rest;
      DigitRunOfNumeral(digits[1..], rest);
    } else {
      assert digits + rest == rest;
    }
  }

  /** The integer a string starts with: an optional minus sign, then digits. */
  function LeadingInt(s: string): int
  {
    if s != [] && s[0] == '-' then -(LeadingNumber(s[1..]) as int) else LeadingNumber(s)
  }

  /** Length of the optionally signed run of digits a string starts with. */
  function IntRun(s: string): (k: nat)
    ensures k <= |s|
  {
    if s != [] && s[0] == '-' then 1 + DigitRun(s[1..]) else DigitRun(s)
  }

  /** A numeral followed by a non-digit reads back as its number, and its run is the numeral. */
  lemma NumeralReadsBack(n: nat, rest: string)
    requires rest != [] && !IsDigit(rest[0])
    ensures DigitRun(NatToDecimal(n) + rest) == |NatToDecimal(n)|
    ensures LeadingNumber(NatToDecimal(n) + rest) == n
  {
    var digits := NatToDecimal(n);
    DigitRunOfNumeral(digits, rest);
    assert (digits + rest)[..|digits|] == digits;
    DecimalRoundTrip(n);
  }

  /**
   * A printed integer followed by a non-digit reads back as that integer,
   * and the signed digit run covers exactly the printed integer.
   */
  lemma IntReadsBack(i: int, rest: string)
    requires rest != [] && !IsDigit(rest[0])
    ensures LeadingInt(IntToDecimal(i) + rest) == i
    ensures IntRun(IntToDecimal(i) + rest) == |IntToDecimal(i)|
  {
    var n: nat := if i < 0 then -i else i;
    NumeralReadsBack(n, rest);
    SignedReadsBack(i < 0, NatToDecimal(n), n, rest);
    assert IntToDecimal(i) == (if i < 0 then "-" else "") + NatToDecimal(n);
  }

  /** An optional minus sign before a digit run that reads as `n` reads as `n` or `-n`. */
  lemma SignedReadsBack(negative: bool, digits: string, n: nat, rest: string)
    requires digits != [] && IsDigit(digits[0])
    requires DigitRun(digits + rest) == |digits| && LeadingNumber(digits + rest) == n
    ensures var s := (if negative then "-" else "") + digits + rest;
      LeadingInt(s) == (if negative then -(n as int) else n) && IntRun(s) == (if negative then 1 else 0) + |digits|
  {
    var unsigned := digits + rest;
    if negative {
      var s := "-" + digits + rest;
      assert s == "-" + unsigned && s[0] == '-' && s[1..] == unsigned;
    } else {
      assert ("" + digits + rest) == unsigned && unsigned[0] == digits[0];
    }
  }

  /** One entry of the log: `<number>. [<x>, <y>] - <text>`. */
  function FormatLine(number: nat, idea: IdeaRecord): (line: string)
    ensures var numeral := NatToDecimal(number);
      && |numeral| + 11 + |idea.text| <= |line|
      && line[..|numeral|] == numeral && line[|numeral|..|numeral| + 3] == ". ["
      && line[|line| - |idea.text| - 4..] == "] - " + idea.text
  {
    NatToDecimal(number) + ". [" + IntToDecimal(Round(idea.x)) + ", " + IntToDecimal(Round(idea.y)) + "] - " + idea.text
  }

  /** `ideaTrajectory.map((idea, index) => ...)`: entry `index` gets number `index + 1`. */
  function FormatTrajectory(trajectory: seq<IdeaRecord>): (lines: seq<string>)
    ensures |lines| == |trajectory|
  {
    seq(|trajectory|, i requires 0 <= i < |trajectory| => FormatLine(i + 1, trajectory[i]))
  }

  /** A log line starts with its number and ends with the idea's text. */
  lemma FormatLineReadsBack(number: nat, idea: IdeaRecord)
    ensures LeadingNumber(FormatLine(number, idea)) == number
    ensures |idea.text| <= |FormatLine(number, idea)|
    ensures FormatLine(number, idea)[|FormatLine(number, idea)| - |idea.text|..] == idea.text
  {
    var numeral := NatToDecimal(number);
    var rest := ". [" + IntToDecimal(Round(idea.x)) + ", " + IntToDecimal(Round(idea.y)) + "] - " + idea.text;
    assert FormatLine(number, idea) == numeral + rest;
    NumeralReadsBack(number, rest);
  }

  /**
   * Reads `<x>, <y>` from the start of a string: two optionally signed
   * integers separated by a comma and a space.
   */
  function ReadPoint(s: string): Option<(int, int)>
  {
    var k := IntRun(s);
    if k + 2 <= |s| && s[k..k + 2] == ", " then Some((LeadingInt(s), LeadingInt(s[k + 2..]))) else None
  }

  /**
   * The bracket of a log line holds the entry's coordinates rounded by
   * p.round: what follows `<number>. [` reads back as the rounded x and y.
   */
  lemma FormatLineCoordinates(number: nat, idea: IdeaRecord)
    ensures |NatToDecimal(number)| + 3 <= |FormatLine(number, idea)|
    ensures ReadPoint(FormatLine(number, idea)[|NatToDecimal(number)| + 3..]) == Some((Round(idea.x), Round(idea.y)))
  {
    var numeral, x, y := NatToDecimal(number), Round(idea.x), Round(idea.y);
    var xs, ys, tail := IntToDecimal(x), IntToDecimal(y), "] - " + idea.text;
    Regroup(numeral, ". [", xs, ", ", ys, "] - ", idea.text);
    IntReadsBack(x, ", " + (ys + tail));
    IntReadsBack(y, tail);
    PointReadsBack(FormatLine(number, idea), numeral + ". [", xs, ys, tail, x, y);
  }

  /** The log line's concatenation, regrouped around the bracket. */
  lemma Regroup(numeral: string, opening: string, xs: string, comma: string, ys: string, closing: string, text: string)
    ensures numeral + opening + xs + comma + ys + closing + text == (numeral + opening) + (xs + (comma + (ys + (closing + text))))
  {
  }

  /**
   * Two integers `x` and `y`, printed as `xs` and `ys` and joined by `, `,
   * read back as that pair, whatever precedes them.
   */
  lemma PointReadsBack(line: string, head: string, xs: string, ys: string, tail: string, x: int, y: int)
    requires line == head + (xs + (", " + (ys + tail)))
    requires IntRun(xs + (", " + (ys + tail))) == |xs| && LeadingInt(xs + (", " + (ys + tail))) == x
    requires LeadingInt(ys + tail) == y
    ensures |head| <= |line| && ReadPoint(line[|head|..]) == Some((x, y))
  {
    var afterComma := ys + tail;
    var afterX := ", " + afterComma;
    var bracket := xs + afterX;
    DropPrefix(head, bracket);
    DropPrefix(xs, afterX);
    assert bracket[|xs|..|xs| + 2] == ", ";
    assert bracket[|xs| + 2..] == afterComma;
  }

  /** Dropping a prefix leaves the rest. */
  lemma DropPrefix(a: string, b: string)
    ensures (a + b)[|a|..] == b
  {
  }

  /**
   * The log has one line per trajectory entry, numbered 1, 2, 3, ... in
   * trajectory order, each ending with its entry's text.
   */
  lemma ExportNumbering(trajectory: seq<IdeaRecord>)
    ensures |FormatTrajectory(trajectory)| == |trajectory|
    ensures forall i :: 0 <= i < |trajectory| ==> LeadingNumber(FormatTrajectory(trajectory)[i]) == i + 1
    ensures forall i :: 0 <= i < |trajectory| ==>
      var line := FormatTrajectory(trajectory)[i];
      |trajectory[i].text| <= |line| && line[|line| - |trajectory[i].text|..] == trajectory[i].text
  {
    forall i | 0 <= i < |trajectory|
      ensures LeadingNumber(FormatTrajectory(trajectory)[i]) == i + 1
      ensures var line := FormatTrajectory(trajectory)[i];
        |trajectory[i].text| <= |line| && line[|line| - |trajectory[i].text|..] == trajectory[i].text
    {
      assert FormatTrajectory(trajectory)[i] == FormatLine(i + 1, trajectory[i]);
      FormatLineReadsBack(i + 1, trajectory[i]);
    }
  }
}
