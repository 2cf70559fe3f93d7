/**
 * How SQLite reads a text as a number when it meets a column of numeric affinity (the
 * `sqlite3AtoF` rules): the handlers bind ids from the URL as text, so every comparison
 * `WHERE id = ?` and every insert into an INTEGER column goes through this reading.
 */
module Affinity {
  import opened Wrappers
  import opened Text

  /** The white space SQLite skips around a number: space, tab, line feed, vertical tab, form feed, carriage return. */
  predicate IsSqlSpace(c: char) {
    c == ' ' || c == '\t' || c == '\n' || c == '\r' || c as int == 11 || c as int == 12
  }

  /** The text without SQLite's white space at either end. */
  function TrimSqlSpace(s: string): (t: string)
    ensures |t| <= |s|
    ensures |t| > 0 ==> !IsSqlSpace(t[0]) && !IsSqlSpace(t[|t| - 1])
    ensures |s| > 0 && !IsSqlSpace(s[0]) && !IsSqlSpace(s[|s| - 1]) ==> t == s
  {
    if |s| > 0 && IsSqlSpace(s[0]) then TrimSqlSpace(s[1..])
    else if |s| > 0 && IsSqlSpace(s[|s| - 1]) then TrimSqlSpace(s[..|s| - 1])
    else s
  }

  /** How many decimal digits `s` starts with. */
  function DigitRun(s: string): (n: nat)
    ensures n <= |s| && AllDigits(s[..n])
    ensures n < |s| ==> !IsDigit(s[n])
  {
    if |s| == 0 || !IsDigit(s[0]) then 0
    else
      var n := 1 + DigitRun(s[1..]);
      assert forall i :: 1 <= i < n ==> s[..n][i] == s[1..][..n - 1][i - 1];
      n
  }

  /** Whether `s` opens with a `-` sign. */
  predicate NegativeSign(s: string) {
    |s| > 0 && s[0] == '-'
  }

  /** `s` without its leading `+` or `-`, if it has one. */
  function Unsigned(s: string): string {
    if |s| > 0 && (s[0] == '+' || s[0] == '-') then s[1..] else s
  }

  /** `n` times ten to the power `k`. */
  function ShiftUp(n: nat, k: nat): nat
    decreases k
  {
    if k == 0 then n else ShiftUp(10 * n, k - 1)
  }

  /** `n` divided by ten to the power `k`, when that leaves no remainder. */
  function ShiftDown(n: nat, k: nat): Option<nat> {
    if k == 0 then Some(n)
    else if n % 10 != 0 then None
    else ShiftDown(n / 10, k - 1)
  }

  lemma AllDigitsConcat(a: string, b: string)
    requires AllDigits(a) && AllDigits(b)
    ensures AllDigits(a + b)
  {
    assert forall i :: |a| <= i < |a + b| ==> (a + b)[i] == b[i - |a|];
  }

  /** A decimal number: `digits` times ten to the power `scale`, negated when `negative`. */
  datatype Decimal = Decimal(negative: bool, digits: nat, scale: int)

  /** The digits before the point, the digits after it, and what follows them. */
  datatype Mantissa = Mantissa(whole: string, fraction: string, tail: string)

  /** Splits unsigned text into leading digits, an optional `.` with its digits, and the rest. */
  function ReadMantissa(s: string): (r: Mantissa)
    ensures AllDigits(r.whole) && AllDigits(r.fraction)
  {
    var n := DigitRun(s);
    if n < |s| && s[n] == '.' then
      var m := DigitRun(s[n + 1..]);
      Mantissa(s[..n], s[n + 1..][..m], s[n + 1..][m..])
    else Mantissa(s[..n], "", s[n..])
  }

  /** What follows the mantissa: nothing (exponent 0), or `e`/`E`, an optional sign and digits. */
  function ReadExponent(tail: string): (r: Option<int>)
    ensures tail == "" ==> r == Some(0)
  {
    if tail == "" then Some(0)
    else if tail[0] != 'e' && tail[0] != 'E' then None
    else if |Unsigned(tail[1..])| == 0 || !AllDigits(Unsigned(tail[1..])) then None
    else if NegativeSign(tail[1..]) then Some(0 - DigitsValue(Unsigned(tail[1..])))
    else Some(DigitsValue(Unsigned(tail[1..])))
  }

  /** The number the mantissa and exponent denote, or `None` when there is no digit at all. */
  function MakeDecimal(negative: bool, m: Mantissa, e: Option<int>): Option<Decimal>
    requires AllDigits(m.whole) && AllDigits(m.fraction)
  {
    if |m.whole| + |m.fraction| == 0 || e.None? then None
    else
      AllDigitsConcat(m.whole, m.fraction);
      Some(Decimal(negative, DigitsValue(m.whole + m.fraction), e.value - |m.fraction|))
  }

  /**
   * The number a text holds under SQLite's numeric affinity: white space at either end, an
   * optional sign, decimal digits with an optional `.` and fraction (at least one digit in all),
   * and an optional `e` or `E` exponent with its own optional sign and at least one digit. Any
   * other text (hexadecimal, trailing letters, the empty text) stays text: `None`.
   */
  function SqlNumber(text: string): Option<Decimal> {
    var t := TrimSqlSpace(text);
    var m := ReadMantissa(Unsigned(t));
    MakeDecimal(NegativeSign(t), m, ReadExponent(m.tail))
  }

  /** The whole number `d` is, if it is one. */
  function WholeValue(d: Decimal): (r: Option<int>)
    ensures d.scale == 0 ==> r == Some(if d.negative then 0 - d.digits else d.digits)
  {
    var magnitude := if d.scale >= 0 then Some(ShiftUp(d.digits, d.scale)) else ShiftDown(d.digits, -d.scale);
    match magnitude
    case None => None
    case Some(m) =>
      var v: int := m;
      Some(if d.negative then -v else v)
  }

  /** The integer a text stands for under SQLite's numeric affinity: its number, when that is whole. */
  function SqlInteger(text: string): Option<int> {
    match SqlNumber(text)
    case None => None
    case Some(d) => WholeValue(d)
  }

  /** Texts that trim to the same text read alike. */
  lemma SameTrimReadsAlike(a: string, b: string)
    requires TrimSqlSpace(a) == TrimSqlSpace(b)
    ensures SqlInteger(a) == SqlInteger(b)
  {
  }

  /** `SqlNumber` as its three stages: trim, mantissa, exponent. */
  lemma SqlNumberStages(text: string)
    ensures var t := TrimSqlSpace(text); var m := ReadMantissa(Unsigned(t));
      SqlNumber(text) == MakeDecimal(NegativeSign(t), m, ReadExponent(m.tail))
  {
  }

  /** A mantissa with at least one digit and an exponent make a number. */
  lemma MakeDecimalOfDigits(negative: bool, m: Mantissa, e: int)
    requires AllDigits(m.whole) && AllDigits(m.fraction)
    requires |m.whole| + |m.fraction| > 0
    ensures AllDigits(m.whole + m.fraction)
    ensures MakeDecimal(negative, m, Some(e)) == Some(Decimal(negative, DigitsValue(m.whole + m.fraction), e - |m.fraction|))
  {
    AllDigitsConcat(m.whole, m.fraction);
  }

  /** Reading a trimmed, unsigned text piece by piece: mantissa, then exponent. */
  lemma {:induction false} ReadPieces(text: string, m: Mantissa, e: int)
    requires ReadMantissa(Unsigned(TrimSqlSpace(text))) == m
    requires |m.whole| + |m.fraction| > 0 && ReadExponent(m.tail) == Some(e)
    ensures AllDigits(m.whole + m.fraction)
    ensures SqlNumber(text) == Some(Decimal(NegativeSign(TrimSqlSpace(text)), DigitsValue(m.whole + m.fraction), e - |m.fraction|))
  {
    SqlNumberStages(text);
    MakeDecimalOfDigits(NegativeSign(TrimSqlSpace(text)), m, e);
  }

  // ---------------------------------------------------------------------------------------
  // Reading digits

  /** Digits followed by text that does not start with a digit: the run stops where the digits do. */
  lemma {:induction false} DigitRunThen(d: string, rest: string)
    requires AllDigits(d) && (rest == "" || !IsDigit(rest[0]))
    ensures DigitRun(d + rest) == |d|
  {
    if |d| > 0 {
      assert (d + rest)[1..] == d[1..] + rest;
      DigitRunThen(d[1..], rest);
    } else {
      assert d + rest == rest;
    }
  }

  /** Unsigned digits followed by a tail that is neither a digit nor a point: all whole part. */
  lemma {:induction false} ReadWholeThen(d: string, tail: string)
    requires AllDigits(d) && (tail == "" || (!IsDigit(tail[0]) && tail[0] != '.'))
    ensures ReadMantissa(d + tail) == Mantissa(d, "", tail)
  {
    DigitRunThen(d, tail);
    assert (d + tail)[..|d|] == d && (d + tail)[|d|..] == tail;
  }

  /** Unsigned digits, a point and more digits: a whole part and a fraction. */
  lemma {:induction false} ReadWholeAndFraction(d: string, f: string)
    requires AllDigits(d) && AllDigits(f)
    ensures ReadMantissa(d + "." + f) == Mantissa(d, f, "")
  {
    var s := d + "." + f;
    DigitRunThen(d, "." + f);
    assert s[..|d|] == d && s[|d|] == '.' && s[|d| + 1..] == f;
    DigitRunThen(f, "");
    assert f + "" == f && f[..|f|] == f && f[|f|..] == "";
  }

  /** A text whose two ends are not white space is its own trimmed form. */
  lemma NothingToTrim(s: string)
    requires |s| > 0 && !IsSqlSpace(s[0]) && !IsSqlSpace(s[|s| - 1])
    ensures TrimSqlSpace(s) == s
  {
  }

  /** The integer of a text is the whole value of its number. */
  lemma IntegerOfNumber(text: string, d: Decimal)
    requires SqlNumber(text) == Some(d)
    ensures SqlInteger(text) == WholeValue(d)
  {
  }

  /** A run of decimal digits is a number with no fraction. */
  lemma {:induction false} DigitsNumber(body: string)
    requires |body| > 0 && AllDigits(body)
    ensures SqlNumber(body) == Some(Decimal(false, DigitsValue(body), 0))
  {
    assert IsDigit(body[0]) && IsDigit(body[|body| - 1]);
    NothingToTrim(body);
    assert Unsigned(body) == body && !NegativeSign(body);
    ReadWholeThen(body, "");
    assert body + "" == body;
    ReadPieces(body, Mantissa(body, "", ""), 0);
  }

  /** A sign and a run of decimal digits is a number with no fraction. */
  lemma {:induction false} SignedNumber(sign: char, body: string)
    requires sign == '+' || sign == '-'
    requires |body| > 0 && AllDigits(body)
    ensures SqlNumber([sign] + body) == Some(Decimal(sign == '-', DigitsValue(body), 0))
  {
    var s := [sign] + body;
    assert s[0] == sign && s[|s| - 1] == body[|body| - 1] && IsDigit(s[|s| - 1]);
    NothingToTrim(s);
    assert s[1..] == body;
    assert Unsigned(s) == body && (NegativeSign(s) <==> sign == '-');
    ReadWholeThen(body, "");
    assert body + "" == body;
    ReadPieces(s, Mantissa(body, "", ""), 0);
  }

  /** A run of decimal digits reads as the number it spells. */
  lemma {:induction false} DigitsRead(body: string)
    requires |body| > 0 && AllDigits(body)
    ensures SqlInteger(body) == Some(DigitsValue(body))
  {
    DigitsNumber(body);
    IntegerOfNumber(body, Decimal(false, DigitsValue(body), 0));
  }

  /** A sign and a run of decimal digits reads as the signed number it spells. */
  lemma {:induction false} SignedRead(text: string)
    requires |text| > 1 && (text[0] == '+' || text[0] == '-') && AllDigits(text[1..])
    ensures SqlInteger(text) == Some(if text[0] == '-' then 0 - DigitsValue(text[1..]) else DigitsValue(text[1..]))
  {
    assert text == [text[0]] + text[1..];
    SignedNumber(text[0], text[1..]);
    IntegerOfNumber(text, Decimal(text[0] == '-', DigitsValue(text[1..]), 0));
  }

  /** `strconv.Itoa` of any integer reads back as that integer. */
  lemma {:induction false} DecimalFormRead(i: int)
    ensures SqlInteger(IntToString(i)) == Some(i)
  {
    var n: nat := if i < 0 then -i else i;
    var t := NatToString(n);
    NatToStringValue(n);
    if i < 0 {
      assert IntToString(i)[1..] == t;
      SignedRead(IntToString(i));
    } else {
      DigitsRead(t);
    }
  }

  // ---------------------------------------------------------------------------------------
  // Other spellings of a number

  /** A decimal form with a blank on either side reads as the decimal form. */
  lemma {:induction false} SpacedDecimalRead(n: nat)
    ensures SqlInteger(" " + NatToString(n) + " ") == Some(n)
  {
    var t := NatToString(n);
    var s := " " + t + " ";
    assert s[1..] == t + " " && (t + " ")[..|t|] == t;
    assert IsDigit(t[0]) && IsDigit(t[|t| - 1]);
    NothingToTrim(t);
    assert TrimSqlSpace(s) == TrimSqlSpace(t);
    SameTrimReadsAlike(s, t);
    DecimalFormRead(n);
  }

  /** A leading zero does not change the value of a run of digits. */
  lemma {:induction false} LeadingZeroValue(t: string)
    requires AllDigits(t)
    ensures AllDigits("0" + t) && DigitsValue("0" + t) == DigitsValue(t)
  {
    if |t| > 0 {
      assert ("0" + t)[..|t|] == "0" + t[..|t| - 1];
      LeadingZeroValue(t[..|t| - 1]);
    } else {
      assert "0" + t == "0";
    }
  }

  /** The decimal form with a `+` or with a leading zero reads as the same number. */
  lemma {:induction false} SignedOrPaddedDecimalRead(n: nat)
    ensures SqlInteger("+" + NatToString(n)) == Some(n)
    ensures SqlInteger("0" + NatToString(n)) == Some(n)
  {
    var t := NatToString(n);
    NatToStringValue(n);
    assert ("+" + t)[1..] == t;
    SignedRead("+" + t);
    LeadingZeroValue(t);
    DigitsRead("0" + t);
  }

  /** Appending a digit multiplies by ten and adds it. */
  lemma {:induction false} AppendDigitValue(t: string, d: nat)
    requires AllDigits(t) && d < 10
    ensures AllDigits(t + [DigitChar(d)]) && DigitsValue(t + [DigitChar(d)]) == 10 * DigitsValue(t) + d
  {
    AllDigitsConcat(t, [DigitChar(d)]);
    assert (t + [DigitChar(d)])[..|t|] == t;
  }

  /** Unsigned digits, a point and more digits: the digits together, scaled down by the fraction's length. */
  lemma {:induction false} DigitsWithFraction(t: string, f: string)
    requires |t| > 0 && AllDigits(t) && |f| > 0 && AllDigits(f)
    ensures AllDigits(t + f)
    ensures SqlNumber(t + "." + f) == Some(Decimal(false, DigitsValue(t + f), -|f|))
  {
    var s := t + "." + f;
    assert s[0] == t[0] && s[|s| - 1] == f[|f| - 1];
    NothingToTrim(s);
    assert Unsigned(s) == s && !NegativeSign(s);
    ReadWholeAndFraction(t, f);
    ReadPieces(s, Mantissa(t, f, ""), 0);
  }

  /** `t + ".0"` is `t`, a point and the fraction "0". */
  lemma PointZeroSpelling(t: string)
    ensures t + "." + "0" == t + ".0"
  {
  }

  /** Digits with a zero fraction, `t.0`, hold the digits of `t` and a zero, in tenths. */
  lemma {:induction false} ZeroFractionDigits(t: string)
    requires |t| > 0 && AllDigits(t)
    ensures AllDigits(t + "0")
    ensures SqlNumber(t + ".0") == Some(Decimal(false, DigitsValue(t + "0"), -1))
  {
    DigitsWithFraction(t, "0");
    PointZeroSpelling(t);
  }

  /** A trailing zero multiplies by ten. */
  lemma AppendZeroValue(t: string)
    requires AllDigits(t)
    ensures AllDigits(t + "0") && DigitsValue(t + "0") == 10 * DigitsValue(t)
  {
    AppendDigitValue(t, 0);
    assert [DigitChar(0)] == "0";
  }

  /** Digits with a zero fraction, `t.0`, hold ten times `t` tenths. */
  lemma {:induction false} ZeroFractionNumber(t: string)
    requires |t| > 0 && AllDigits(t)
    ensures SqlNumber(t + ".0") == Some(Decimal(false, 10 * DigitsValue(t), -1))
  {
    ZeroFractionDigits(t);
    AppendZeroValue(t);
  }

  /** Digits with the fraction five, `t.5`, hold the digits of `t` and a five, in tenths. */
  lemma {:induction false} HalfDigits(t: string)
    requires |t| > 0 && AllDigits(t)
    ensures AllDigits(t + "5")
    ensures SqlNumber(t + ".5") == Some(Decimal(false, DigitsValue(t + "5"), -1))
  {
    DigitsWithFraction(t, "5");
    assert t + "." + "5" == t + ".5";
  }

  /** A trailing five multiplies by ten and adds five. */
  lemma AppendFiveValue(t: string)
    requires AllDigits(t)
    ensures AllDigits(t + "5") && DigitsValue(t + "5") == 10 * DigitsValue(t) + 5
  {
    AppendDigitValue(t, 5);
    assert [DigitChar(5)] == "5";
  }

  /** A text that holds ten times `n` tenths reads as the whole number `n`. */
  lemma {:induction false} WholeTenthsRead(text: string, n: nat)
    requires SqlNumber(text) == Some(Decimal(false, 10 * n, -1))
    ensures SqlInteger(text) == Some(n)
  {
    IntegerOfNumber(text, Decimal(false, 10 * n, -1));
    TenthsOfWhole(n);
  }

  /** Ten times `n` tenths is the whole number `n`. */
  lemma TenthsOfWhole(n: nat)
    ensures WholeValue(Decimal(false, 10 * n, -1)) == Some(n)
  {
    assert ShiftDown(10 * n, 1) == ShiftDown(n, 0);
  }

  /** A count of tenths that is not a multiple of ten makes no whole number. */
  lemma TenthsNotWhole(v: nat)
    requires v % 10 != 0
    ensures WholeValue(Decimal(false, v, -1)).None?
  {
  }

  /** The decimal form with a zero fraction, `n.0`, is the whole number `n`. */
  lemma {:induction false} ZeroFractionRead(n: nat)
    ensures SqlInteger(NatToString(n) + ".0") == Some(n)
  {
    NatToStringValue(n);
    ZeroFractionNumber(NatToString(n));
    WholeTenthsRead(NatToString(n) + ".0", n);
  }

  /** A nonzero fraction, as in "7.5", is not a whole number: the text reaches no integer. */
  lemma {:induction false} HalfRefused(t: string)
    requires |t| > 0 && AllDigits(t)
    ensures SqlInteger(t + ".5") == None
  {
    HalfDigits(t);
    FiveLast(t);
    NotWholeRead(t + ".5", DigitsValue(t + "5"));
  }

  /** Digits ending in five are not a multiple of ten. */
  lemma FiveLast(t: string)
    requires AllDigits(t)
    ensures AllDigits(t + "5") && DigitsValue(t + "5") % 10 != 0
  {
    AppendFiveValue(t);
    FiveTenthsRemain(DigitsValue(t));
  }

  /** A text that holds a count of tenths that is not a multiple of ten reads as no integer. */
  lemma {:induction false} NotWholeRead(text: string, v: nat)
    requires SqlNumber(text) == Some(Decimal(false, v, -1))
    requires v % 10 != 0
    ensures SqlInteger(text) == None
  {
    TenthsNotWhole(v);
    IntegerOfNumber(text, Decimal(false, v, -1));
  }

  lemma FiveTenthsRemain(k: nat)
    ensures (10 * k + 5) % 10 == 5
  {
  }

  /** Unsigned digits and an exponent: the digits' value at that scale. */
  lemma {:induction false} DigitsWithExponent(t: string, tail: string, e: int)
    requires |t| > 0 && AllDigits(t) && |tail| > 0 && !IsDigit(tail[0]) && tail[0] != '.'
    requires !IsSqlSpace(tail[|tail| - 1]) && ReadExponent(tail) == Some(e)
    ensures SqlNumber(t + tail) == Some(Decimal(false, DigitsValue(t), e))
  {
    var s := t + tail;
    assert s[0] == t[0] && s[|s| - 1] == tail[|tail| - 1];
    NothingToTrim(s);
    assert Unsigned(s) == s && !NegativeSign(s);
    ReadWholeThen(t, tail);
    ReadPieces(s, Mantissa(t, "", tail), e);
    assert t + "" == t;
  }

  /** The decimal form with a zero exponent, `ne0`, is the number `n` with no fraction. */
  lemma {:induction false} ZeroExponentNumber(n: nat)
    ensures SqlNumber(NatToString(n) + "e0") == Some(Decimal(false, n, 0))
  {
    assert ReadExponent("e0") == Some(0) by {
      assert "e0"[1..] == "0";
    }
    DigitsWithExponent(NatToString(n), "e0", 0);
    NatToStringValue(n);
  }

  /** The decimal form with a zero exponent, `ne0`, is the whole number `n`. */
  lemma {:induction false} ZeroExponentRead(n: nat)
    ensures SqlInteger(NatToString(n) + "e0") == Some(n)
  {
    ZeroExponentNumber(n);
    IntegerOfNumber(NatToString(n) + "e0", Decimal(false, n, 0));
  }

  // ---------------------------------------------------------------------------------------
  // Texts that are not numbers

  /**
   * Digits followed by a character that cannot continue a number (a letter other than `e`, as
   * in "7a", or an `e` with no exponent digits, as in "7e") leave the text a text.
   */
  lemma {:induction false} TrailingCharRefused(n: nat, c: char)
    requires !IsDigit(c) && c != '.' && !IsSqlSpace(c)
    ensures SqlNumber(NatToString(n) + [c]).None?
  {
    var t := NatToString(n);
    var s := t + [c];
    assert s[0] == t[0] && s[|s| - 1] == c;
    NothingToTrim(s);
    assert Unsigned(s) == s;
    ReadWholeThen(t, [c]);
    assert [c][1..] == "";
    SqlNumberStages(s);
  }

  /** A hexadecimal spelling such as "0x7" or "0xff" is not a number to SQLite. */
  lemma {:induction false} HexRefused(digits: string)
    requires forall i :: 0 <= i < |digits| ==> !IsSqlSpace(digits[i])
    ensures SqlNumber("0x" + digits).None?
  {
    var s := "0x" + digits;
    assert s[|s| - 1] == if |digits| == 0 then 'x' else digits[|digits| - 1];
    NothingToTrim(s);
    assert Unsigned(s) == s;
    assert s == "0" + ("x" + digits);
    ReadWholeThen("0", "x" + digits);
    SqlNumberStages(s);
  }

  /** White space alone trims to nothing. */
  lemma {:induction false} BlankTrimsAway(text: string)
    requires forall i :: 0 <= i < |text| ==> IsSqlSpace(text[i])
    ensures TrimSqlSpace(text) == ""
  {
    if |text| > 0 {
      assert forall i :: 0 <= i < |text[1..]| ==> text[1..][i] == text[i + 1];
      BlankTrimsAway(text[1..]);
    }
  }

  /** The empty text, or white space alone, is no number. */
  lemma {:induction false} BlankRefused(text: string)
    requires forall i :: 0 <= i < |text| ==> IsSqlSpace(text[i])
    ensures SqlNumber(text).None?
  {
    BlankTrimsAway(text);
    assert Unsigned("") == "" && ""[0..] == "" && ""[..0] == "";
    SqlNumberStages(text);
  }
}
