/**
 Numbers as text, the way scratch/nr-x2-handover-measures-cho.cc reads and writes them: `operator>>` of a
 stream for reading, and fixed notation with three decimals for writing.
 */
module DecimalText {
  import opened Reals
  import opened Sequences

  // ----- Digits -----

  const DIGITS: string := "0123456789"

  predicate IsDigit(c: char) {
    '0' <= c <= '9'
  }

  function DigitValue(c: char): (d: nat)
    requires IsDigit(c)
    ensures d < 10
  {
    (c as int) - ('0' as int)
  }

  function Digit(d: nat): (c: char)
    requires d < 10
    ensures IsDigit(c) && DigitValue(c) == d
  {
    DIGITS[d]
  }

  predicate AllDigits(s: string) {
    forall c :: c in s ==> IsDigit(c)
  }

  function NumberOf(digits: string): nat
    requires AllDigits(digits)
  {
    if digits == "" then 0
    else 10 * NumberOf(digits[..|digits| - 1]) + DigitValue(digits[|digits| - 1])
  }

  function Digits(n: nat): (s: string)
    ensures s != "" && AllDigits(s)
  {
    if n < 10 then [Digit(n)] else Digits(n / 10) + [Digit(n % 10)]
  }

  function ThreeDigits(n: nat): (s: string)
    requires n < 1000
    ensures |s| == 3 && AllDigits(s)
  {
    [Digit(n / 100), Digit(n / 10 % 10), Digit(n % 10)]
  }

  lemma NumberOfStep(digits: string, d: nat)
    requires AllDigits(digits) && d < 10
    ensures NumberOf(digits + [Digit(d)]) == 10 * NumberOf(digits) + d
  {
    assert (digits + [Digit(d)])[..|digits|] == digits;
  }

  lemma {:induction false} NumberOfDigits(n: nat)
    ensures NumberOf(Digits(n)) == n
  {
    if n < 10 {
      NumberOfStep("", n);
      assert "" + [Digit(n)] == [Digit(n)];
    } else {
      NumberOfDigits(n / 10);
      NumberOfStep(Digits(n / 10), n % 10);
    }
  }

  lemma NumberOfThreeMore(digits: string, n: nat)
    requires AllDigits(digits) && n < 1000
    ensures NumberOf(digits + ThreeDigits(n)) == 1000 * NumberOf(digits) + n
  {
    hide NumberOf, Digit, IsDigit;
    var hundreds, tens, ones := n / 100, n / 10 % 10, n % 10;
    var digits1 := digits + [Digit(hundreds)];
    var digits2 := digits1 + [Digit(tens)];
    NumberOfStep(digits, hundreds);
    NumberOfStep(digits1, tens);
    NumberOfStep(digits2, ones);
    assert digits + ThreeDigits(n) == digits2 + [Digit(ones)];
    ThreePlaces(n);
  }

  lemma ThreePlaces(n: nat)
    ensures n == 100 * (n / 100) + 10 * (n / 10 % 10) + n % 10
  {
    assert n / 10 / 10 == n / 100;
  }

  // ----- Reading -----

  predicate IsSpace(c: char) {
    c == ' ' || '\t' <= c <= '\r'
  }

  function SkipSpaces(s: string): string {
    if s != "" && IsSpace(s[0]) then SkipSpaces(s[1..]) else s
  }

  /** How many digits the text starts with. */
  function Run(s: string): (n: nat)
    ensures n <= |s| && AllDigits(s[..n])
    ensures n < |s| ==> !IsDigit(s[n])
  {
    if s != "" && IsDigit(s[0]) then
      var n := Run(s[1..]);
      assert s[..n + 1] == [s[0]] + s[1..][..n];
      n + 1
    else 0
  }

  function PowerOfTen(n: nat): (p: real)
    ensures p > 0.0
  {
    if n == 0 then 1.0 else 10.0 * PowerOfTen(n - 1)
  }

  predicate StartsWith(s: string, c: char) {
    s != "" && s[0] == c
  }

  predicate Signed(s: string) {
    StartsWith(s, '+') || StartsWith(s, '-')
  }

  function Unsigned(s: string): string {
    if Signed(s) then s[1..] else s
  }

  /** The digits before and after the decimal point, and what follows. */
  datatype Parts = Parts(whole: string, fraction: string, tail: string)

  function Split(u: string): (p: Parts)
    ensures AllDigits(p.whole) && AllDigits(p.fraction)
  {
    var n := Run(u);
    var rest := u[n..];
    if StartsWith(rest, '.') then
      var k := Run(rest[1..]);
      Parts(u[..n], rest[1..][..k], rest[1..][k..])
    else Parts(u[..n], "", rest)
  }

  /** The number without its exponent and sign. */
  function Size(whole: string, fraction: string): real
    requires AllDigits(whole) && AllDigits(fraction)
  {
    (NumberOf(whole + fraction) as real) / PowerOfTen(|fraction|)
  }

  function Shift(mantissa: real, power: real, down: bool): real
    requires power > 0.0
  {
    if down then mantissa / power else mantissa * power
  }

  /** An exponent: whether it is negative, and its size. */
  datatype Exponent = Exponent(down: bool, size: nat)

  function ReadExponent(text: string): Option<Exponent> {
    var e := Unsigned(text);
    if Run(e) == 0 then None else Some(Exponent(StartsWith(text, '-'), NumberOf(e[..Run(e)])))
  }

  function Scale(mantissa: real, tail: string): Option<real> {
    if StartsWith(tail, 'e') || StartsWith(tail, 'E') then
      var e := ReadExponent(tail[1..]);
      if e.None? then None else Some(Shift(mantissa, PowerOfTen(e.value.size), e.value.down))
    else Some(mantissa)
  }

  /** A decimal number with optional sign, fraction and exponent; what follows it does not matter. */
  function Parse(text: string): Option<real> {
    var s := SkipSpaces(text);
    var p := Split(Unsigned(s));
    if p.whole == "" && p.fraction == "" then None
    else Scale(if StartsWith(s, '-') then -Size(p.whole, p.fraction) else Size(p.whole, p.fraction), p.tail)
  }

  // ----- Writing -----

  /** The nearest number of thousandths, the even one of two. */
  function Thousandths(size: real): (n: nat)
    requires size >= 0.0
    ensures Abs(size - (n as real) / 1000.0) <= 0.0005
  {
    var below := (size * 1000.0).Floor;
    var rest := size * 1000.0 - (below as real);
    if rest < 0.5 || (rest == 0.5 && below % 2 == 0) then below else below + 1
  }

  function Print(value: real): string {
    (if value < 0.0 then "-" else "") + PrintThousandths(Thousandths(Abs(value)))
  }

  function PrintThousandths(n: nat): string {
    Digits(n / 1000) + "." + ThreeDigits(n % 1000)
  }

  function Rounded(value: real): (r: real)
    ensures Abs(value - r) <= 0.0005
  {
    var size := (Thousandths(Abs(value)) as real) / 1000.0;
    if value < 0.0 then -size else size
  }

  // ----- Rounding -----

  lemma ThousandthsOrder(a: real, b: real)
    requires 0.0 <= a <= b
    ensures Thousandths(a) <= Thousandths(b)
  {
    var x, y := a * 1000.0, b * 1000.0;
    assert x <= y;
    assert x.Floor <= y.Floor;
  }

  lemma ThousandthsExact(n: nat)
    ensures Thousandths((n as real) / 1000.0) == n
  {
    assert (n as real) / 1000.0 * 1000.0 == n as real;
    assert (n as real).Floor == n;
  }

  lemma RoundedOrder(v: real, w: real)
    requires v <= w
    ensures Rounded(v) <= Rounded(w)
  {
    hide Thousandths;
    if 0.0 <= v {
      ThousandthsOrder(v, w);
    } else if w < 0.0 {
      ThousandthsOrder(-w, -v);
    }
  }

  lemma RoundedOpposite(v: real)
    ensures Rounded(-v) == -Rounded(v)
  {
    ThousandthsExact(0);
  }

  predicate IsWhole(v: real) {
    (v * 1000.0).Floor as real == v * 1000.0
  }

  /** Whole thousandths stay as they are. */
  lemma RoundedWhole(v: real)
    requires IsWhole(v)
    ensures Rounded(v) == v
  {
    var n := (v * 1000.0).Floor;
    hide Thousandths;
    if v < 0.0 {
      ThousandthsExact(-n);
      assert ((-n) as real) / 1000.0 == -v;
    } else {
      ThousandthsExact(n);
      assert (n as real) / 1000.0 == v;
    }
  }

  lemma WholeThousandths(n: int, v: real)
    requires v == (n as real) / 1000.0
    ensures IsWhole(v)
  {
    assert v * 1000.0 == n as real;
    assert (n as real).Floor == n;
  }

  lemma RoundedIsWhole(v: real)
    ensures IsWhole(Rounded(v))
  {
    hide Thousandths, IsWhole;
    var n: int := Thousandths(Abs(v));
    WholeThousandths(if v < 0.0 then -n else n, Rounded(v));
  }

  // ----- Reading what was written -----

  lemma {:induction false} RunOfDigits(digits: string, rest: string)
    requires AllDigits(digits) && (rest != "" ==> !IsDigit(rest[0]))
    ensures Run(digits + rest) == |digits|
  {
    if digits == "" {
      assert digits + rest == rest;
    } else {
      RunOfDigits(digits[1..], rest);
      assert (digits + rest)[1..] == digits[1..] + rest;
    }
  }

  /** Text behind a number that does not go on with digits. */
  predicate Ends(tail: string) {
    tail == "" || !IsDigit(tail[0])
  }

  lemma SplitOfPrint(whole: string, fraction: string, tail: string)
    requires AllDigits(whole) && AllDigits(fraction) && Ends(tail)
    ensures Split(whole + ("." + (fraction + tail))) == Parts(whole, fraction, tail)
  {
    var rest := "." + (fraction + tail);
    var u := whole + rest;
    RunOfDigits(whole, rest);
    RunOfDigits(fraction, tail);
    hide Run, AllDigits;
    assert u[..|whole|] == whole && u[|whole|..] == rest && rest[1..] == fraction + tail;
    assert (fraction + tail)[..|fraction|] == fraction && (fraction + tail)[|fraction|..] == tail;
  }

  lemma ThreeMore(n: nat)
    ensures NumberOf(Digits(n / 1000) + ThreeDigits(n % 1000)) == n
  {
    hide *;
    NumberOfDigits(n / 1000);
    NumberOfThreeMore(Digits(n / 1000), n % 1000);
    assert n == 1000 * (n / 1000) + n % 1000;
  }

  lemma SizeOfPrint(n: nat)
    ensures Size(Digits(n / 1000), ThreeDigits(n % 1000)) == (n as real) / 1000.0
  {
    hide Digits, ThreeDigits, NumberOf, AllDigits, PowerOfTen;
    ThreeMore(n);
    Thousand();
  }

  lemma Thousand()
    ensures PowerOfTen(3) == 1000.0
  {
    assert PowerOfTen(0) == 1.0;
    assert PowerOfTen(1) == 10.0;
    assert PowerOfTen(2) == 100.0;
  }

  lemma SignOfPrint(negative: bool, digits: string, rest: string)
    requires digits != "" && AllDigits(digits)
    ensures var s := (if negative then "-" else "") + (digits + rest);
      SkipSpaces(s) == s && Unsigned(s) == digits + rest && (StartsWith(s, '-') <==> negative)
  {
    var s := (if negative then "-" else "") + (digits + rest);
    assert IsDigit(digits[0]);
    assert s[0] == if negative then '-' else digits[0];
  }

  /** A written number is read, and then what follows it as an exponent. */
  lemma ParsePrinted(value: real, tail: string)
    requires Ends(tail)
    ensures Parse(Print(value) + tail) == Scale(Rounded(value), tail)
  {
    hide Size, Split, Scale, Digits, ThreeDigits, SkipSpaces, Unsigned, AllDigits, Ends;
    var n := Thousandths(Abs(value));
    var whole, fraction := Digits(n / 1000), ThreeDigits(n % 1000);
    var rest := "." + (fraction + tail);
    assert Print(value) + tail == (if value < 0.0 then "-" else "") + (whole + rest);
    SignOfPrint(value < 0.0, whole, rest);
    SplitOfPrint(whole, fraction, tail);
    SizeOfPrint(n);
  }

  /** What is written is read as the value rounded to three decimals. */
  lemma ParseUndoesPrint(value: real)
    ensures Parse(Print(value)) == Some(Rounded(value))
  {
    ParsePrinted(value, "");
    hide Parse, Print, Rounded;
    assert Print(value) + "" == Print(value);
  }

  // ----- Numbers of any length -----

  ghost predicate IsNumeral(whole: string, fraction: string) {
    AllDigits(whole) && AllDigits(fraction) && (whole != "" || fraction != "")
  }

  /** The size of a number is the number of its digits, by the power of ten of those behind the point. */
  lemma SizeTimesPower(whole: string, fraction: string)
    requires AllDigits(whole) && AllDigits(fraction)
    ensures Size(whole, fraction) * PowerOfTen(|fraction|) == NumberOf(whole + fraction) as real
  {
    hide NumberOf, PowerOfTen, AllDigits;
  }

  lemma SignOfNumeral(sign: string, u: string)
    requires sign in {"", "+", "-"} && u != "" && (IsDigit(u[0]) || u[0] == '.')
    ensures var s := sign + u;
      SkipSpaces(s) == s && Unsigned(s) == u && (StartsWith(s, '-') <==> sign == "-")
  {
    var s := sign + u;
    assert sign == "" ==> s == u;
    assert sign != "" ==> s[0] == sign[0] && s[1..] == u;
  }

  function WithSign(minus: bool, x: real): real {
    if minus then -x else x
  }

  lemma ParseByParts(sign: string, u: string, p: Parts)
    requires sign in {"", "+", "-"} && u != "" && (IsDigit(u[0]) || u[0] == '.')
    requires Split(u) == p && IsNumeral(p.whole, p.fraction)
    ensures Parse(sign + u) == Scale(WithSign(sign == "-", Size(p.whole, p.fraction)), p.tail)
  {
    SignOfNumeral(sign, u);
    hide Split, SkipSpaces, Unsigned, StartsWith, Size, Scale, AllDigits, IsDigit;
  }

  lemma FirstOfNumeral(whole: string, rest: string)
    requires AllDigits(whole)
    ensures var u := whole + ("." + rest); u != "" && (IsDigit(u[0]) || u[0] == '.')
  {
    var u := whole + ("." + rest);
    assert whole != "" ==> whole[0] in whole && u[0] == whole[0];
  }

  /** A decimal number, with any number of digits on both sides of the point. */
  lemma ParseDecimal(sign: string, whole: string, fraction: string, tail: string)
    requires sign in {"", "+", "-"} && IsNumeral(whole, fraction) && Ends(tail)
    ensures Parse(sign + (whole + ("." + (fraction + tail))))
         == Scale(WithSign(sign == "-", Size(whole, fraction)), tail)
  {
    assert AllDigits(whole) && AllDigits(fraction);
    hide *;
    FirstOfNumeral(whole, fraction + tail);
    SplitOfPrint(whole, fraction, tail);
    ParseByParts(sign, whole + ("." + (fraction + tail)), Parts(whole, fraction, tail));
  }

  lemma SplitOfWhole(whole: string, tail: string)
    requires AllDigits(whole) && Ends(tail) && !StartsWith(tail, '.')
    ensures Split(whole + tail) == Parts(whole, "", tail)
  {
    RunOfDigits(whole, tail);
    hide Run;
    assert (whole + tail)[..|whole|] == whole && (whole + tail)[|whole|..] == tail;
  }

  lemma SizeOfWhole(whole: string)
    requires AllDigits(whole)
    ensures AllDigits("") && Size(whole, "") == NumberOf(whole) as real
  {
    assert PowerOfTen(|""|) == 1.0 && whole + "" == whole;
  }

  lemma FirstOfWhole(whole: string, tail: string)
    requires IsNumeral(whole, "")
    ensures var u := whole + tail; u != "" && IsDigit(u[0])
  {
    assert (whole + tail)[0] == whole[0] && whole[0] in whole;
  }

  /** One without a point is the number of its digits. */
  lemma ParseWhole(sign: string, whole: string, tail: string)
    requires sign in {"", "+", "-"} && IsNumeral(whole, "") && Ends(tail) && !StartsWith(tail, '.')
    ensures Parse(sign + (whole + tail)) == Scale(WithSign(sign == "-", NumberOf(whole) as real), tail)
  {
    assert AllDigits(whole);
    hide *;
    SizeOfWhole(whole);
    FirstOfWhole(whole, tail);
    SplitOfWhole(whole, tail);
    ParseByParts(sign, whole + tail, Parts(whole, "", tail));
  }

  /** A minus sign is written for every negative value, also for one that is rounded to 0, and for no other. */
  lemma SignIsWritten(value: real)
    ensures StartsWith(Print(value), '-') <==> value < 0.0
  {
    var whole := Digits(Thousandths(Abs(value)) / 1000);
    assert whole[0] in whole;
    hide Digits, ThreeDigits, Thousandths;
  }

  // ----- What stands before a number -----

  /** Spaces before a number are passed over; nothing else is but a sign. */
  lemma ParseAfter(c: char, text: string)
    ensures c == ' ' || c == '\t' || c == '\n' || c == '\U{B}' || c == '\U{C}' || c == '\r' ==>
      Parse([c] + text) == Parse(text)
    ensures Parse([c] + text).Some? ==>
      c == ' ' || '\t' <= c <= '\r' || c == '+' || c == '-' || c == '.' || '0' <= c <= '9'
  {
    var s := [c] + text;
    assert s[0] == c && s[1..] == text;
    assert IsSpace(c) ==> SkipSpaces(s) == SkipSpaces(text);
    if !IsSpace(c) && c != '+' && c != '-' {
      assert SkipSpaces(s) == s && Unsigned(s) == s;
      assert !IsDigit(c) ==> Run(s) == 0;
      hide Run, Scale, Size, SkipSpaces;
    }
  }

  // ----- Exponents -----

  lemma {:induction false} PowersAdd(a: nat, b: nat)
    ensures PowerOfTen(a + b) == PowerOfTen(a) * PowerOfTen(b)
  {
    if a > 0 {
      PowersAdd(a - 1, b);
      assert PowerOfTen(a + b) == 10.0 * PowerOfTen(a - 1 + b);
      assert 10.0 * (PowerOfTen(a - 1) * PowerOfTen(b)) == 10.0 * PowerOfTen(a - 1) * PowerOfTen(b);
    }
  }

  lemma SignRead(sign: string, u: string)
    requires sign in {"", "+", "-"} && u != "" && IsDigit(u[0])
    ensures Unsigned(sign + u) == u && (StartsWith(sign + u, '-') <==> sign == "-")
  {
    assert sign == "" ==> sign + u == u;
    assert sign != "" ==> (sign + u)[1..] == u;
  }

  lemma DigitsFirst(digits: string, rest: string)
    requires digits != "" && AllDigits(digits) && Ends(rest)
    ensures var u := digits + rest;
      u != "" && IsDigit(u[0]) && Run(u) == |digits| && u[..Run(u)] == digits
  {
    RunOfDigits(digits, rest);
    hide Run;
    assert (digits + rest)[0] == digits[0] && digits[0] in digits;
    assert (digits + rest)[..|digits|] == digits;
  }

  lemma ExponentRead(sign: string, digits: string, rest: string)
    requires sign in {"", "+", "-"} && digits != "" && AllDigits(digits) && Ends(rest)
    ensures ReadExponent(sign + digits + rest) == Some(Exponent(sign == "-", NumberOf(digits)))
  {
    hide Run, NumberOf, Unsigned, StartsWith, AllDigits, Ends, IsDigit;
    DigitsFirst(digits, rest);
    SignRead(sign, digits + rest);
    assert sign + digits + rest == sign + (digits + rest);
  }

  lemma ShiftedBack(mantissa: real, power: real, down: bool)
    requires power > 0.0
    ensures if down then Shift(mantissa, power, down) * power == mantissa
            else Shift(mantissa, power, down) == mantissa * power
  {
    assert mantissa / power * power == mantissa;
  }

  /** An exponent that is not negative multiplies by its power of ten, and a negative one divides. */
  lemma ScaleByExponent(mantissa: real, mark: char, sign: string, digits: string, rest: string)
    requires mark == 'e' || mark == 'E'
    requires sign in {"", "+", "-"} && digits != "" && AllDigits(digits) && Ends(rest)
    ensures var r, power := Scale(mantissa, [mark] + (sign + digits + rest)), PowerOfTen(NumberOf(digits));
      r.Some? && if sign == "-" then r.value * power == mantissa else r.value == mantissa * power
  {
    hide NumberOf, Shift, PowerOfTen, AllDigits, ReadExponent, Ends;
    ExponentRead(sign, digits, rest);
    var tail := [mark] + (sign + digits + rest);
    assert tail[1..] == sign + digits + rest;
    ShiftedBack(mantissa, PowerOfTen(NumberOf(digits)), sign == "-");
  }

  /** A number with an exponent, as a stream writes large and small ones. */
  lemma ParseWithExponent(value: real, mark: char, sign: string, n: nat)
    requires (mark == 'e' || mark == 'E') && sign in {"", "+", "-"}
    ensures var r := Parse(Print(value) + ([mark] + (sign + Digits(n))));
      r.Some? && if sign == "-" then r.value * PowerOfTen(n) == Rounded(value)
                 else r.value == Rounded(value) * PowerOfTen(n)
  {
    hide Parse, Print, Rounded, Scale, Digits;
    NumberOfDigits(n);
    ScaleByExponent(Rounded(value), mark, sign, Digits(n), "");
    assert sign + Digits(n) + "" == sign + Digits(n);
    ParsePrinted(value, [mark] + (sign + Digits(n)));
  }

  /** Without a digit behind the mark there is no number. */
  lemma ExponentWithoutDigits(value: real, mark: char, sign: string, rest: string)
    requires (mark == 'e' || mark == 'E') && sign in {"+", "-"} && Ends(rest)
    ensures Parse(Print(value) + ([mark] + (sign + rest))).None?
  {
    hide Parse, Print, Rounded;
    var tail := [mark] + (sign + rest);
    assert tail[1..] == sign + rest && (sign + rest)[1..] == rest;
    ParsePrinted(value, tail);
  }

  /** Halfway between two thousandths the even one is taken. */
  lemma TieIsEven(k: nat)
    ensures Thousandths(((2 * k + 1) as real) / 2000.0) == if k % 2 == 0 then k else k + 1
  {
    var size := ((2 * k + 1) as real) / 2000.0;
    assert size * 1000.0 == k as real + 0.5;
    assert (k as real + 0.5).Floor == k;
  }

  /** Text that is written holds no quotation mark, no line break and no equals sign. */
  lemma PrintIsPlain(value: real)
    ensures Print(value) != ""
    ensures forall c :: c in Print(value) ==> IsDigit(c) || c == '.' || c == '-'
  {
  }
}
