// Decimal printing and parsing: strconv.Itoa, strconv.Atoi, the hand-written uint64ToString, and the
// six-decimal trimFloat, with the round trips that make the printed forms injective.
module Decimal {
  import opened Text

  const TWO64: nat := 0x1_0000_0000_0000_0000
  const MAX_INT: int := 0x7FFF_FFFF_FFFF_FFFF
  const MIN_INT: int := -0x8000_0000_0000_0000
  const MILLION: nat := 1_000_000

  function Digit(d: nat): char
    requires d < 10
  {
    ('0' as int + d) as char
  }

  predicate AllDigits(s: string) {
    forall i :: 0 <= i < |s| ==> '0' <= s[i] <= '9'
  }

  function FormatNat(n: nat): string {
    if n < 10 then [Digit(n)] else FormatNat(n / 10) + [Digit(n % 10)]
  }

  function ParseNat(s: string): nat
    requires AllDigits(s)
  {
    if s == "" then 0
    else 10 * ParseNat(s[..|s| - 1]) + (s[|s| - 1] as int - '0' as int)
  }

  // Printing then parsing gives the number back, and the text has no leading zero.
  lemma {:induction false} FormatNatRoundTrip(n: nat)
    ensures FormatNat(n) != "" && AllDigits(FormatNat(n))
    ensures ParseNat(FormatNat(n)) == n
    ensures n > 0 ==> FormatNat(n)[0] != '0'
  {
    var s := FormatNat(n);
    if n >= 10 {
      FormatNatRoundTrip(n / 10);
      assert s[..|s| - 1] == FormatNat(n / 10);
    } else {
      assert s[..|s| - 1] == "";
    }
  }

  function Pow10(k: nat): nat {
    if k == 0 then 1 else 10 * Pow10(k - 1)
  }

  lemma TwentyDigitsSuffice()
    ensures TWO64 < Pow10(20)
  {
    assert Pow10(10) == 10_000_000_000 by {
      assert Pow10(5) == 100_000 by {
        assert Pow10(2) == 100;
      }
      assert Pow10(7) == 10_000_000;
    }
    assert Pow10(12) == 1_000_000_000_000;
    assert Pow10(14) == 100_000_000_000_000;
    assert Pow10(16) == 10_000_000_000_000_000;
    assert Pow10(18) == 1_000_000_000_000_000_000;
  }

  lemma PowDrop(n: nat, k: nat)
    requires 0 < n < Pow10(k)
    ensures k > 0 && n / 10 < Pow10(k - 1)
  {
  }

  lemma FormatNatStep(n: nat, tail: string)
    ensures FormatNat(n) + tail ==
            if n >= 10 then FormatNat(n / 10) + ([Digit(n % 10)] + tail) else [Digit(n % 10)] + tail
  {
  }

  // Fills a 20-byte buffer from the right. Every index stays inside the buffer for every 64-bit value.
  method Uint64ToString(n: nat) returns (s: string)
    requires n < TWO64
    ensures s == FormatNat(n)
  {
    if n == 0 {
      return "0";
    }
    hide FormatNat, Pow10;
    TwentyDigitsSuffice();
    var buf := new char[20];
    var i := 20;
    var rest := n;
    while rest > 0
      invariant 0 <= i <= 20
      invariant rest < Pow10(i)
      invariant if rest > 0 then FormatNat(rest) + buf[i..] == FormatNat(n) else buf[i..] == FormatNat(n)
    {
      ghost var tail := buf[i..];
      PowDrop(rest, i);
      i := i - 1;
      buf[i] := Digit(rest % 10);
      assert buf[i..] == [Digit(rest % 10)] + tail;
      FormatNatStep(rest, tail);
      rest := rest / 10;
    }
    s := buf[i..];
  }

  function FormatInt(n: int): string {
    if n < 0 then "-" + FormatNat(-n) else FormatNat(n)
  }

  // strconv.Atoi: a value, a range error that still carries the clamped value, or a syntax error.
  datatype AtoiResult = Value(n: int) | OutOfRange(clamped: int) | BadSyntax

  function Atoi(s: string): AtoiResult {
    var negative := s != "" && s[0] == '-';
    var digits := if s != "" && (s[0] == '-' || s[0] == '+') then s[1..] else s;
    if digits == "" || !AllDigits(digits) then BadSyntax
    else
      var m: int := ParseNat(digits);
      var n := if negative then -m else m;
      if n > MAX_INT then OutOfRange(MAX_INT)
      else if n < MIN_INT then OutOfRange(MIN_INT)
      else Value(n)
  }

  lemma AtoiFormatInt(n: int)
    requires MIN_INT <= n <= MAX_INT
    ensures Atoi(FormatInt(n)) == Value(n)
    ensures FormatInt(n) != "" && Trimmed(FormatInt(n))
  {
    var s := FormatInt(n);
    var digits := FormatNat(if n < 0 then -n else n);
    FormatNatRoundTrip(if n < 0 then -n else n);
    if n < 0 {
      assert s[0] == '-' && s[1..] == digits;
    }
    assert s[|s| - 1] == digits[|digits| - 1];
    DigitsAreNotSpace(s[0]);
    DigitsAreNotSpace(s[|s| - 1]);
  }

  // Which texts are numbers, and which: digits with at most one sign, leading zeros included, in 64 bits.
  lemma AtoiReads(digits: string, n: int)
    requires digits != "" && AllDigits(digits) && ParseNat(digits) == n
    ensures n <= MAX_INT ==> Atoi(digits) == Value(n) && Atoi("+" + digits) == Value(n)
    ensures -n >= MIN_INT ==> Atoi("-" + digits) == Value(-n)
    ensures n > MAX_INT ==> !Atoi(digits).Value? && !Atoi("+" + digits).Value?
    ensures -n < MIN_INT ==> !Atoi("-" + digits).Value?
  {
    assert ("+" + digits)[1..] == digits && ("-" + digits)[1..] == digits;
  }

  lemma AtoiRefuses(s: string)
    requires s == "" || s == "+" || s == "-"
             || exists i :: 0 <= i < |s| && !('0' <= s[i] <= '9') && (i == 0 ==> s[0] != '+' && s[0] != '-')
    ensures Atoi(s) == BadSyntax
  {
    if i :| 1 <= i < |s| && !('0' <= s[i] <= '9') {
      assert s[1..][i - 1] == s[i];
    }
  }

  // Leading zeros do not change a number.
  lemma LeadingZerosRead(k: nat, n: nat)
    requires n <= MAX_INT
    ensures Atoi(seq(k, _ => '0') + FormatNat(n)) == Value(n)
  {
    FormatNatRoundTrip(n);
    LeadingZeros(k, FormatNat(n));
    AtoiReads(seq(k, _ => '0') + FormatNat(n), n);
  }

  lemma DigitsAreNotSpace(c: char)
    ensures c == '-' || '0' <= c <= '9' ==> !IsSpace(c)
  {
  }

  lemma FormatIntInjective(m: int, n: int)
    requires FormatInt(m) == FormatInt(n)
    ensures m == n
  {
    FormatNatRoundTrip(if m < 0 then -m else m);
    FormatNatRoundTrip(if n < 0 then -n else n);
    if m < 0 && n < 0 {
      assert FormatInt(m)[1..] == FormatNat(-m) && FormatInt(n)[1..] == FormatNat(-n);
    }
  }

  // ----- trimFloat ---------------------------------------------------------------------------

  // The floats the backend can meet: numbers, the zero with a sign, and what is not a number. An infinity stands
  // with the numbers, out of every range.
  datatype Float = Number(v: real) | NegativeZero | NaN

  // What the range check f < 0 || f > 1 lets through; every comparison with NaN is false.
  predicate InUnitRange(f: Float) {
    f.Number? ==> 0.0 <= f.v <= 1.0
  }

  type Probability = f: Float | InUnitRange(f) witness NaN

  // Rounding to the nearest integer, ties to even, as "%.6f" rounds the scaled value.
  function RoundHalfEven(x: real): int {
    var low := x.Floor;
    var rest := x - low as real;
    if rest < 0.5 || (rest == 0.5 && low % 2 == 0) then low else low + 1
  }

  // The six-decimal value that survives printing, in millionths.
  function Micros(v: real): (m: nat)
    requires v >= 0.0
  {
    RoundHalfEven(v * 1000000.0)
  }

  // It is the nearest number of millionths, and of two nearest ones the even one.
  lemma MicrosIsNearest(v: real, m: nat)
    requires v >= 0.0
    ensures var d := v * 1000000.0 - Micros(v) as real;
            -0.5 <= d <= 0.5 && (d == 0.5 || d == -0.5 ==> Micros(v) % 2 == 0)
    ensures v == m as real / 1000000.0 ==> Micros(v) == m
  {
    var x := v * 1000000.0;
    assert x.Floor as real <= x < x.Floor as real + 1.0;
  }

  // A value that six decimals express exactly.
  predicate SixDecimal(p: Probability) {
    p.Number? ==> Micros(p.v) as real == p.v * 1000000.0
  }

  // What is left of a probability after rounding to six decimals.
  datatype Places = Millionths(m: nat) | MinusZero | NotANumber

  function SixPlaces(p: Probability): Places {
    match p
    case Number(v) => Millionths(Micros(v))
    case NegativeZero => MinusZero
    case NaN => NotANumber
  }

  // Left-padding with zeros to the given width.
  function PadZeros(s: string, width: nat): string {
    if |s| < width then seq(width - |s|, _ => '0') + s else s
  }

  lemma {:induction false} FormatNatLength(n: nat, width: nat)
    requires width > 0 && n < Pow10(width)
    ensures |FormatNat(n)| <= width
  {
    if n >= 10 {
      FormatNatLength(n / 10, width - 1);
    }
  }

  lemma {:induction false} LeadingZeros(k: nat, s: string)
    requires AllDigits(s)
    ensures AllDigits(seq(k, _ => '0') + s) && ParseNat(seq(k, _ => '0') + s) == ParseNat(s)
  {
    var t := seq(k, _ => '0') + s;
    if s != "" {
      LeadingZeros(k, s[..|s| - 1]);
      assert t[..|t| - 1] == seq(k, _ => '0') + s[..|s| - 1];
    } else if k > 0 {
      LeadingZeros(k - 1, s);
      assert t[..|t| - 1] == seq(k - 1, _ => '0') + s;
    }
  }

  lemma PadZerosRoundTrip(n: nat, width: nat)
    requires width > 0 && n < Pow10(width)
    ensures var s := PadZeros(FormatNat(n), width); |s| == width && AllDigits(s) && ParseNat(s) == n
  {
    FormatNatLength(n, width);
    FormatNatRoundTrip(n);
    LeadingZeros(width - |FormatNat(n)|, FormatNat(n));
  }

  // strings.TrimRight with a one-character cut set.
  function TrimRightChar(s: string, c: char): string {
    if s != "" && s[|s| - 1] == c then TrimRightChar(s[..|s| - 1], c) else s
  }

  function SixDigits(k: nat): string {
    PadZeros(FormatNat(k), 6)
  }

  lemma SixDigitsRoundTrip(k: nat)
    requires k < MILLION
    ensures |SixDigits(k)| == 6 && AllDigits(SixDigits(k)) && ParseNat(SixDigits(k)) == k
  {
    assert Pow10(6) == MILLION;
    PadZerosRoundTrip(k, 6);
  }

  // The text "%.6f" prints.
  function FormatFixed6(d: Places): string {
    match d
    case Millionths(m) => FormatNat(m / MILLION) + "." + SixDigits(m % MILLION)
    case MinusZero => "-0.000000"
    case NotANumber => "NaN"
  }

  function TrimPlaces(d: Places): string {
    var s := TrimRightChar(TrimRightChar(FormatFixed6(d), '0'), '.');
    if s == "" || s == "-" then "0" else s
  }

  function TrimFloat(p: Probability): string {
    TrimPlaces(SixPlaces(p))
  }

  lemma {:induction false} TrimRightCharStops(a: string, b: string, c: char)
    requires a != "" && a[|a| - 1] != c
    ensures TrimRightChar(a + b, c) == a + TrimRightChar(b, c)
  {
    if b == "" {
      assert a + b == a;
    } else if b[|b| - 1] == c {
      assert (a + b)[..|a + b| - 1] == a + b[..|b| - 1];
      TrimRightCharStops(a, b[..|b| - 1], c);
    }
  }

  lemma {:induction false} TrimRightCharPad(b: string, c: char)
    ensures var t := TrimRightChar(b, c);
            |t| <= |b| && b == t + seq(|b| - |t|, _ => c) && (forall x :: x in t ==> x in b)
    ensures var t := TrimRightChar(b, c); t != "" ==> t[|t| - 1] != c
  {
    if b != "" && b[|b| - 1] == c {
      TrimRightCharPad(b[..|b| - 1], c);
    }
  }

  // What trimFloat leaves: the integer part, and the decimals up to the last non-zero one.
  lemma TrimMicrosShape(m: nat)
    ensures var whole := FormatNat(m / MILLION);
            var frac := TrimRightChar(SixDigits(m % MILLION), '0');
            TrimPlaces(Millionths(m)) == Dotted(whole, frac)
    ensures TrimPlaces(Millionths(m)) != ""
    ensures forall x :: x in TrimPlaces(Millionths(m)) ==> x == '.' || '0' <= x <= '9'
  {
    var whole := FormatNat(m / MILLION);
    var pad := SixDigits(m % MILLION);
    var frac := TrimRightChar(pad, '0');
    FormatNatRoundTrip(m / MILLION);
    SixDigitsRoundTrip(m % MILLION);
    TrimRightCharPad(pad, '0');
    assert FormatFixed6(Millionths(m)) == (whole + ".") + pad;
    TrimRightCharStops(whole + ".", pad, '0');
    if frac == "" {
      assert (whole + ".") + "" == whole + ".";
      assert '.' != whole[|whole| - 1];
      TrimTrailingDot(whole);
    } else {
      assert frac[|frac| - 1] in pad;
      KeepFraction(whole, frac);
    }
  }

  lemma TrimTrailingDot(whole: string)
    requires whole != "" && whole[|whole| - 1] != '.'
    ensures TrimRightChar(whole + ".", '.') == whole
  {
    TrimRightCharStops(whole, ".", '.');
    assert TrimRightChar(".", '.') == TrimRightChar("", '.') == "";
  }

  lemma KeepFraction(whole: string, frac: string)
    requires frac != "" && frac[|frac| - 1] != '.'
    ensures TrimRightChar(whole + "." + frac, '.') == whole + "." + frac
  {
    var s := whole + "." + frac;
    assert s[|s| - 1] == frac[|frac| - 1];
  }

  function Dotted(whole: string, frac: string): string {
    if frac == "" then whole else whole + "." + frac
  }

  lemma DottedInjective(a: string, x: string, b: string, y: string)
    requires '.' !in a && '.' !in b && Dotted(a, x) == Dotted(b, y)
    ensures a == b && x == y
  {
    assert x != "" ==> '.' in a + "." + x;
    assert y != "" ==> '.' in b + "." + y;
    if x != "" && y != "" {
      SplitAtFirst('.', a, x, b, y);
    }
  }

  lemma TrimMicrosInjective(m: nat, n: nat)
    requires TrimPlaces(Millionths(m)) == TrimPlaces(Millionths(n))
    ensures m == n
  {
    hide TrimPlaces, SixDigits, FormatNat, TrimRightChar, Dotted, ParseNat;
    TrimMicrosShape(m);
    TrimMicrosShape(n);
    FormatNatRoundTrip(m / MILLION);
    FormatNatRoundTrip(n / MILLION);
    var (p, q) := (SixDigits(m % MILLION), SixDigits(n % MILLION));
    DottedInjective(FormatNat(m / MILLION), TrimRightChar(p, '0'), FormatNat(n / MILLION), TrimRightChar(q, '0'));
    TrimRightCharPad(p, '0');
    TrimRightCharPad(q, '0');
    SixDigitsRoundTrip(m % MILLION);
    SixDigitsRoundTrip(n % MILLION);
    assert p == q;
  }

  // The two texts that are not decimals: trimming keeps the one zero after the sign.
  lemma TrimSpecial()
    ensures TrimPlaces(MinusZero) == "-0" && TrimPlaces(NotANumber) == "NaN"
  {
    var zeros := "000000";
    assert "-0.000000" == "-0." + zeros;
    assert forall k :: 0 <= k < |zeros| ==> zeros[k] == '0';
    TrimRightCharStops("-0.", zeros, '0');
    TrimAllZeros(zeros);
    assert "-0." + "" == "-0.";
    TrimTrailingDot("-0");
  }

  lemma {:induction false} TrimAllZeros(s: string)
    requires forall k :: 0 <= k < |s| ==> s[k] == '0'
    ensures TrimRightChar(s, '0') == ""
  {
    if s != "" {
      TrimAllZeros(s[..|s| - 1]);
    }
  }

  lemma TrimPlacesShape(d: Places)
    ensures TrimPlaces(d) != "" && '&' !in TrimPlaces(d)
    ensures d.Millionths? <==> '0' <= TrimPlaces(d)[0] <= '9'
  {
    if d.Millionths? {
      TrimMicrosShape(d.m);
      FormatNatRoundTrip(d.m / MILLION);
    } else {
      TrimSpecial();
    }
  }

  // Trimming loses nothing of what is printed.
  lemma TrimPlacesInjective(d: Places, e: Places)
    requires TrimPlaces(d) == TrimPlaces(e)
    ensures d == e
  {
    TrimPlacesShape(d);
    TrimPlacesShape(e);
    if d.Millionths? {
      TrimMicrosInjective(d.m, e.m);
    } else {
      TrimSpecial();
    }
  }

  // Two probabilities print alike exactly when they agree to six decimals.
  lemma TrimFloatInjective(p: Probability, q: Probability)
    ensures TrimFloat(p) == TrimFloat(q) <==> SixPlaces(p) == SixPlaces(q)
  {
    if TrimFloat(p) == TrimFloat(q) {
      TrimPlacesInjective(SixPlaces(p), SixPlaces(q));
    }
  }
}
