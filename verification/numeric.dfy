/**
 Numeric coercion of an object column, as `clean_data` performs it: each
 cell is turned into text, its commas are removed, and the text is read as a
 number with failures coerced to missing. A cell that does not read as a number becomes missing instead of raising.
 */
module Numeric {
  import opened Base
  import opened FrameOps

  /** A raw cell of a mixed-type column: a number, a piece of text, or NaN. */
  datatype Cell = Num(x: real) | Text(s: string) | NaN

  predicate IsDigit(c: char) {
    '0' <= c <= '9'
  }

  predicate AllDigits(s: string) {
    forall i :: 0 <= i < |s| ==> IsDigit(s[i])
  }

  /** The characters a plain decimal number may be written with. */
  predicate IsNumberChar(c: char) {
    IsDigit(c) || c == '.' || c == '+' || c == '-'
  }

  function DigitValue(c: char): nat
    requires IsDigit(c)
  {
    c as int - '0' as int
  }

  function Pow10(n: nat): (p: nat)
    ensures p >= 1
  {
    if n == 0 then 1 else 10 * Pow10(n - 1)
  }

  /** The value of a string of decimal digits, most significant first. */
  function DigitsValue(s: string): nat
    requires AllDigits(s)
  {
    if |s| == 0 then 0
    else DigitsValue(s[..|s| - 1]) * 10 + DigitValue(s[|s| - 1])
  }

  function NotComma(c: char): bool {
    c != ','
  }

  /** `str.replace(',', '')`: every thousands separator removed, nothing else touched. */
  function StripCommas(s: string): (r: string)
    ensures ',' !in r
    ensures IsSubseq(r, s)
    ensures forall i :: 0 <= i < |s| && s[i] != ',' ==> s[i] in r
    ensures |r| == |s| - Count(s, c => c == ',')
  {
    CountComplement(s);
    Filter(s, NotComma)
  }

  lemma {:induction false} CountComplement(s: string)
    ensures Count(s, NotComma) == |s| - Count(s, c => c == ',')
    decreases |s|
  {
    if |s| > 0 {
      CountComplement(s[1..]);
    }
  }

  /** An unsigned decimal: digits, optionally a point and more digits, at least one digit. */
  function ParseUnsigned(s: string): (r: Option<real>)
    ensures r.Some? ==> |s| > 0 && forall i :: 0 <= i < |s| ==> IsDigit(s[i]) || s[i] == '.'
  {
    if '.' !in s then
      if |s| > 0 && AllDigits(s) then Some(DigitsValue(s) as real) else None
    else
      var i := FirstIndex(s, '.');
      var whole, frac := s[..i], s[i + 1..];
      if AllDigits(whole) && AllDigits(frac) && |whole| + |frac| > 0 then Some(DecimalOf(whole, frac))
      else None
  }

  /** The value of `whole.frac`: all its digits read as one number, over ten to the number of decimals. */
  function DecimalOf(whole: string, frac: string): (v: real)
    requires AllDigits(whole) && AllDigits(frac)
    ensures v * Pow10(|frac|) as real == DigitsValue(whole + frac) as real
  {
    AllDigitsConcat(whole, frac);
    DivMulInt(DigitsValue(whole + frac), Pow10(|frac|));
    DigitsValue(whole + frac) as real / Pow10(|frac|) as real
  }

  lemma AllDigitsConcat(a: string, b: string)
    requires AllDigits(a) && AllDigits(b)
    ensures AllDigits(a + b)
  {
  }

  /** The value of `whole.frac` is the whole part plus the decimals over the matching power of ten. */
  lemma DecimalParts(whole: string, frac: string)
    requires AllDigits(whole) && AllDigits(frac)
    ensures DecimalOf(whole, frac) == DigitsValue(whole) as real + DigitsValue(frac) as real / Pow10(|frac|) as real
  {
    DigitsConcat(whole, frac);
    DivOfScaled(DigitsValue(whole + frac), DigitsValue(whole), DigitsValue(frac), Pow10(|frac|));
  }

  lemma DivOfScaled(x: int, w: int, f: int, p: int)
    requires p >= 1 && x == w * p + f
    ensures x as real / p as real == w as real + f as real / p as real
  {
    IntToRealMulAdd(w, p, f);
    DivSplit(w as real, f as real, p as real);
  }

  lemma DivMulInt(x: int, p: int)
    requires p >= 1
    ensures (x as real / p as real) * p as real == x as real
  {
  }

  lemma DivSplit(a: real, b: real, q: real)
    requires q > 0.0
    ensures (a * q + b) / q == a + b / q
  {
  }

  lemma IntToRealMulAdd(x: int, y: int, z: int)
    ensures (x * y + z) as real == x as real * y as real + z as real
  {
  }

  /** Appending digits shifts the value left by their number of places and adds theirs. */
  lemma {:induction false} DigitsConcat(a: string, b: string)
    requires AllDigits(a) && AllDigits(b)
    ensures AllDigits(a + b)
    ensures DigitsValue(a + b) == DigitsValue(a) * Pow10(|b|) + DigitsValue(b)
    decreases |b|
  {
    if |b| == 0 {
      assert a + b == a;
    } else {
      var b' := b[..|b| - 1];
      DigitsConcat(a, b');
      assert (a + b)[..|a + b| - 1] == a + b';
      assert (a + b)[|a + b| - 1] == b[|b| - 1];
      assert DigitsValue(a + b) == DigitsValue(a + b') * 10 + DigitValue(b[|b| - 1]);
      assert DigitsValue(b) == DigitsValue(b') * 10 + DigitValue(b[|b| - 1]);
      ShiftStep(DigitsValue(a), Pow10(|b'|), DigitsValue(b'), DigitValue(b[|b| - 1]));
    }
  }

  lemma ShiftStep(x: int, p: int, y: int, d: int)
    ensures (x * p + y) * 10 + d == x * (10 * p) + (y * 10 + d)
  {
    assert (x * p) * 10 == x * (10 * p);
  }

  // ---------------------------------------------------------------------------
  // The grammar of decimal text, stated apart from the parser
  // ---------------------------------------------------------------------------

  /** The point at `i` splits `s` into two digit strings. */
  predicate PointAt(s: string, i: int) {
    0 <= i < |s| && s[i] == '.' && AllDigits(s[..i]) && AllDigits(s[i + 1..])
  }

  /** Unsigned decimal text: digits, or digits, a point and digits with at least one digit in all. */
  predicate IsUnsignedText(s: string) {
    (|s| > 0 && AllDigits(s)) || (|s| > 1 && exists i :: 0 <= i < |s| && PointAt(s, i))
  }

  /** Decimal text: an optional sign followed by unsigned decimal text. */
  predicate IsDecimalText(s: string) {
    IsUnsignedText(s) || (|s| > 0 && (s[0] == '-' || s[0] == '+') && IsUnsignedText(s[1..]))
  }

  /** The unsigned parser accepts exactly the unsigned decimal text. */
  lemma UnsignedGrammar(s: string)
    ensures ParseUnsigned(s).Some? <==> IsUnsignedText(s)
  {
    if '.' !in s {
      assert forall j :: 0 <= j < |s| ==> s[j] != '.';
      assert forall j :: 0 <= j < |s| ==> !PointAt(s, j);
    } else {
      var i := FirstIndex(s, '.');
      assert !IsDigit(s[i]);
      forall j | PointAt(s, j) && |s| > 1 ensures ParseUnsigned(s).Some? {
        assert forall k :: 0 <= k < j ==> IsDigit(s[..j][k]);
        PointAtFirstIndex(s, j);
      }
      if ParseUnsigned(s).Some? {
        assert PointAt(s, i);
      }
    }
  }

  /** Text that starts with a sign is not unsigned text. */
  lemma SignedNotUnsigned(s: string)
    requires |s| > 0 && (s[0] == '-' || s[0] == '+')
    ensures !IsUnsignedText(s)
  {
    assert !IsDigit(s[0]);
    forall j | 0 < j < |s| ensures !AllDigits(s[..j]) {
      assert s[..j][0] == s[0];
    }
  }

  /**
   The number a string denotes, or None when it does not read as one: an
   optional sign followed by an unsigned decimal.
   */
  function ParseNumber(s: string): (r: Option<real>)
    ensures r.Some? ==> |s| > 0 && forall i :: 0 <= i < |s| ==> IsNumberChar(s[i])
    ensures |s| > 0 && AllDigits(s) ==> r == Some(DigitsValue(s) as real)
  {
    if |s| > 0 && (s[0] == '-' || s[0] == '+') then
      match ParseUnsigned(s[1..])
      case Some(v) => Some(if s[0] == '-' then -v else v)
      case None => None
    else ParseUnsigned(s)
  }

  /**
   The parser accepts exactly the decimal text: an optional sign, then digits
   with at most one point and at least one digit. Anything else, such as
   "5-", "--5", "1.2.3" or ".", reads as missing.
   */
  lemma ParseNumberGrammar(s: string)
    ensures ParseNumber(s).Some? <==> IsDecimalText(s)
  {
    if |s| > 0 && (s[0] == '-' || s[0] == '+') {
      UnsignedGrammar(s[1..]);
      SignedNotUnsigned(s);
    } else {
      UnsignedGrammar(s);
    }
  }

  /**
   One cell of the amount coercion: commas removed, then read as a number.
   A number's string form reads back as the same number; NaN's string form
   'nan' reads back as NaN; text is read after its commas are removed.
   */
  function ToNumeric(c: Cell): (r: Option<real>)
    ensures c.NaN? ==> r.None?
    ensures c.Num? ==> r == Some(c.x)
    ensures c.Text? ==> (r.Some? <==> IsDecimalText(StripCommas(c.s)))
    ensures c.Text? && r.Some? ==>
              forall i :: 0 <= i < |c.s| && c.s[i] != ',' ==> IsNumberChar(c.s[i])
  {
    match c
    case Num(x) => Some(x)
    case NaN => None
    case Text(s) =>
      TextNumberChars(s);
      ParseNumberGrammar(StripCommas(s));
      ParseNumber(StripCommas(s))
  }

  /** Text that reads as a number holds nothing but digits, signs, points and commas. */
  lemma TextNumberChars(s: string)
    ensures ParseNumber(StripCommas(s)).Some? ==>
              forall i :: 0 <= i < |s| && s[i] != ',' ==> IsNumberChar(s[i])
  {
    var t := StripCommas(s);
    if ParseNumber(t).Some? {
      forall i | 0 <= i < |s| && s[i] != ',' ensures IsNumberChar(s[i]) {
        assert s[i] in t;
        var j :| 0 <= j < |t| && t[j] == s[i];
      }
    }
  }

  /**
   A leading minus negates the value of an unsigned number and a leading plus
   keeps it; a sign in front of text that does not read as a number still
   does not read as one.
   */
  lemma SignedValue(t: string)
    requires |t| > 0 && t[0] != '-' && t[0] != '+'
    ensures ParseNumber("-" + t) == (if ParseNumber(t).Some? then Some(-ParseNumber(t).value) else None)
    ensures ParseNumber("+" + t) == ParseNumber(t)
  {
    var minus, plus := "-" + t, "+" + t;
    assert minus[0] == '-' && minus[1..] == t;
    assert plus[0] == '+' && plus[1..] == t;
    assert ParseNumber(t) == ParseUnsigned(t);
  }

  /** `whole.frac` reads as its decimal value, with or without digits on either side of the point. */
  lemma DecimalValue(whole: string, frac: string)
    requires AllDigits(whole) && AllDigits(frac) && |whole| + |frac| > 0
    ensures ParseNumber(whole + "." + frac) == Some(DecimalOf(whole, frac))
  {
    var s := whole + "." + frac;
    assert s[0] != '-' && s[0] != '+' by {
      if |whole| > 0 {
        assert s[0] == whole[0];
      }
    }
    DecimalSplit(whole, frac);
    assert ParseNumber(s) == ParseUnsigned(s);
    assert ParseUnsigned(s) == Some(DecimalOf(whole, frac));
  }

  /** The first point of `whole.frac` is the one between the two digit strings. */
  lemma DecimalSplit(whole: string, frac: string)
    requires AllDigits(whole) && AllDigits(frac)
    ensures '.' in whole + "." + frac
    ensures FirstIndex(whole + "." + frac, '.') == |whole|
    ensures (whole + "." + frac)[..|whole|] == whole && (whole + "." + frac)[|whole| + 1..] == frac
  {
    var s := whole + "." + frac;
    assert s[|whole|] == '.';
    assert s[..|whole|] == whole && s[|whole| + 1..] == frac;
    assert forall k :: 0 <= k < |whole| ==> IsDigit(s[..|whole|][k]);
    PointAtFirstIndex(s, |whole|);
  }

  // ---------------------------------------------------------------------------
  // Rendering numbers, used to state what the parser accepts
  // ---------------------------------------------------------------------------

  function DigitChar(d: nat): (c: char)
    requires d < 10
    ensures IsDigit(c) && DigitValue(c) == d
  {
    ('0' as int + d) as char
  }

  /** The decimal digits of `n` (`str(n)` for a non-negative integer). */
  function ShowNat(n: nat): (s: string)
    ensures |s| > 0 && AllDigits(s)
  {
    if n < 10 then [DigitChar(n)] else ShowNat(n / 10) + [DigitChar(n % 10)]
  }

  /** Digits with a comma before every group of three from the right ("15000" to "15,000"). */
  function GroupThousands(s: string): string
    decreases |s|
  {
    if |s| <= 3 then s else GroupThousands(s[..|s| - 3]) + "," + s[|s| - 3..]
  }

  /** Reading the digits of `n` gives back `n`. */
  lemma {:induction false} ShowNatValue(n: nat)
    ensures DigitsValue(ShowNat(n)) == n
  {
    if n >= 10 {
      var s := ShowNat(n);
      assert s[..|s| - 1] == ShowNat(n / 10);
      ShowNatValue(n / 10);
    }
  }

  /** A trailing separator is dropped by comma stripping. */
  lemma StripTrailingComma(g: string)
    ensures Filter(g + ",", NotComma) == Filter(g, NotComma)
  {
    FilterConcat(g, ",", NotComma);
    assert Filter(",", NotComma) == [];
  }

  /** Both parts of a comma-free string are comma-free. */
  lemma CommaFreeSplit(s: string, k: nat)
    requires ',' !in s && k <= |s|
    ensures ',' !in s[..k]
    ensures forall i :: 0 <= i < |s[k..]| ==> NotComma(s[k..][i])
  {
    assert forall i :: 0 <= i < k ==> s[..k][i] == s[i];
    assert forall i :: 0 <= i < |s[k..]| ==> s[k..][i] == s[k + i];
  }

  /** Removing the commas that GroupThousands inserted restores the digits. */
  lemma {:induction false} StripGroupThousands(s: string)
    requires ',' !in s
    ensures StripCommas(GroupThousands(s)) == s
    decreases |s|
  {
    if |s| <= 3 {
      FilterKeepsAll(s, NotComma);
    } else {
      var head, tail := s[..|s| - 3], s[|s| - 3..];
      var g := GroupThousands(head);
      CommaFreeSplit(s, |s| - 3);
      calc {
        StripCommas(GroupThousands(s));
        Filter(GroupThousands(s), NotComma);
        { assert GroupThousands(s) == (g + ",") + tail; }
        Filter((g + ",") + tail, NotComma);
        { FilterConcat(g + ",", tail, NotComma); }
        Filter(g + ",", NotComma) + Filter(tail, NotComma);
        { StripTrailingComma(g); FilterKeepsAll(tail, NotComma); }
        Filter(g, NotComma) + tail;
        { StripGroupThousands(head); }
        head + tail;
      }
      assert head + tail == s;
    }
  }

  /** Every non-negative whole number written with thousands separators cleans to itself. */
  lemma ThousandsRoundTrip(n: nat)
    ensures ToNumeric(Text(GroupThousands(ShowNat(n)))) == Some(n as real)
  {
    var digits := ShowNat(n);
    StripGroupThousands(digits);
    ShowNatValue(n);
  }

  /** A comma-free integer string is read as its digits, whatever the cell held before. */
  lemma PlainRoundTrip(n: nat)
    ensures ToNumeric(Text(ShowNat(n))) == Some(n as real)
  {
    var digits := ShowNat(n);
    FilterKeepsAll(digits, NotComma);
    ShowNatValue(n);
  }

  /** Text that cannot start a number (and is not a comma) is coerced to missing rather than raising. */
  lemma NonNumericTextIsMissing(s: string)
    requires |s| > 0 && s[0] != ',' && !IsNumberChar(s[0])
    ensures ToNumeric(Text(s)) == None
  {
    var t := StripCommas(s);
    assert t == [s[0]] + Filter(s[1..], NotComma);
    assert !IsNumberChar(t[0]);
  }

  /** Both spellings of a grouped number in the sample data clean to the number. */
  lemma GroupedSample(n: nat, digits: string, grouped: string)
    requires ShowNat(n) == digits && GroupThousands(digits) == grouped
    ensures ToNumeric(Text(grouped)) == Some(n as real)
    ensures ToNumeric(Text(digits)) == Some(n as real)
  {
    ThousandsRoundTrip(n);
    PlainRoundTrip(n);
  }

  /** '15,000' of the pipeline's sample data becomes 15000. */
  lemma Sample15000()
    ensures ToNumeric(Text("15,000")) == Some(15000.0)
  {
    assert ShowNat(15000) == "15000" by {
      assert ShowNat(1) == "1";
      assert ShowNat(15) == ShowNat(1) + "5";
      assert ShowNat(150) == ShowNat(15) + "0";
      assert ShowNat(1500) == ShowNat(150) + "0";
      assert ShowNat(15000) == ShowNat(1500) + "0";
    }
    assert GroupThousands("15000") == "15,000" by {
      var s := "15000";
      assert s[..|s| - 3] == "15" && s[|s| - 3..] == "000";
    }
    GroupedSample(15000, "15000", "15,000");
  }

  /** '20000' of the pipeline's sample data becomes 20000. */
  lemma Sample20000()
    ensures ToNumeric(Text("20000")) == Some(20000.0)
  {
    assert ShowNat(20000) == "20000" by {
      assert ShowNat(2) == "2";
      assert ShowNat(20) == ShowNat(2) + "0";
      assert ShowNat(200) == ShowNat(20) + "0";
      assert ShowNat(2000) == ShowNat(200) + "0";
      assert ShowNat(20000) == ShowNat(2000) + "0";
    }
    assert GroupThousands("20000") == "20,000" by {
      var s := "20000";
      assert s[..|s| - 3] == "20" && s[|s| - 3..] == "000";
    }
    GroupedSample(20000, "20000", "20,000");
  }

  /** '12,000' of the cleaning script's sample data becomes 12000. */
  lemma Sample12000()
    ensures ToNumeric(Text("12,000")) == Some(12000.0)
  {
    assert ShowNat(12000) == "12000" by {
      assert ShowNat(1) == "1";
      assert ShowNat(12) == ShowNat(1) + "2";
      assert ShowNat(120) == ShowNat(12) + "0";
      assert ShowNat(1200) == ShowNat(120) + "0";
      assert ShowNat(12000) == ShowNat(1200) + "0";
    }
    assert GroupThousands("12000") == "12,000" by {
      var s := "12000";
      assert s[..|s| - 3] == "12" && s[|s| - 3..] == "000";
    }
    GroupedSample(12000, "12000", "12,000");
  }

  /** A date-like text that is not a number, as in the cleaning script's sample, becomes missing. */
  lemma SampleInvalid()
    ensures ToNumeric(Text("Invalid_Date")) == None
  {
    NonNumericTextIsMissing("Invalid_Date");
  }

  /** A decimal reads as its value: '12.5' is 12.5. */
  lemma SampleDecimal()
    ensures ParseNumber("12.5") == Some(12.5)
  {
    DecimalValue("12", "5");
    assert "12" + "." + "5" == "12.5";
    Decimal125();
  }

  lemma Decimal125()
    ensures DecimalOf("12", "5") == 12.5
  {
    assert "12" + "5" == "125";
    Digits125();
    assert Pow10(1) == 10;
    var v := DecimalOf("12", "5");
    assert v * 10.0 == 125.0;
  }

  lemma Digits125()
    ensures DigitsValue("125") == 125
  {
    assert "125"[..2] == "12" && "12"[..1] == "1" && "1"[..0] == "";
  }

  /** A negative number reads as its value: '-5' is -5. */
  lemma SampleNegative()
    ensures ParseNumber("-5") == Some(-5.0)
  {
    SignedValue("5");
    assert "-" + "5" == "-5";
    assert DigitsValue("5") == 5 by {
      assert "5"[..0] == "";
    }
  }

  /** Text of number characters outside the grammar reads as missing: '5-', '--5', '1.2.3' and '.'. */
  lemma SampleMalformed()
    ensures ParseNumber("5-") == None
    ensures ParseNumber("--5") == None
    ensures ParseNumber("1.2.3") == None
    ensures ParseNumber(".") == None
  {
    TrailingSign();
    DoubleSign();
    TwoPoints();
    LonePoint();
  }

  lemma TrailingSign()
    ensures ParseNumber("5-") == None
  {
    var s := "5-";
    assert s[1] == '-' && !IsDigit(s[1]);
    assert '.' !in s;
  }

  lemma DoubleSign()
    ensures ParseNumber("--5") == None
  {
    var s := "--5";
    assert s[1..] == "-5";
    var t := s[1..];
    assert !IsDigit(t[0]);
    assert '.' !in t;
  }

  lemma TwoPoints()
    ensures ParseNumber("1.2.3") == None
  {
    var s := "1.2.3";
    assert s[1] == '.' && s[..1] == "1";
    assert forall k :: 0 <= k < 1 ==> s[..1][k] != '.';
    PointAtFirstIndex(s, 1);
    assert s[2..] == "2.3";
    assert !IsDigit(s[2..][1]);
  }

  /** The first point of text whose prefix has none. */
  lemma PointAtFirstIndex(s: string, j: int)
    requires 0 <= j < |s| && s[j] == '.' && '.' !in s[..j]
    ensures '.' in s && FirstIndex(s, '.') == j
  {
    assert s[j] in s;
    var i := FirstIndex(s, '.');
    assert forall k :: 0 <= k < j ==> s[..j][k] == s[k];
    assert i >= j;
    assert forall k :: 0 <= k < i ==> s[..i][k] == s[k];
    assert i <= j;
  }

  lemma LonePoint()
    ensures ParseNumber(".") == None
  {
    var s := ".";
    assert s[0] == '.';
    PointAtFirstIndex(s, 0);
  }
}
