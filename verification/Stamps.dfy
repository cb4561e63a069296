// created_at as the table stores it: RFC 3339 text whose fraction of a second loses its trailing zeros
// (store.go). The table orders profiles by that text, which is not always the order in time.
module Stamps {
  import opened Text
  import opened Decimal

  const NANOS: nat := 1_000_000_000

  // Year, month, day, hour, minute and second in UTC, as the text writes them: padded to a width, then a mark.
  const WIDTHS: seq<nat> := [4, 2, 2, 2, 2, 2]
  const MARKS: seq<string> := ["-", "-", "T", ":", ":", ""]

  // A UTC moment by its calendar fields and the nanoseconds.
  datatype Instant = Instant(civil: seq<nat>, nanos: nat)

  ghost predicate Fit(civil: seq<nat>, widths: seq<nat>) {
    |civil| == |widths| && forall i :: 0 <= i < |civil| ==> widths[i] > 0 && civil[i] < Pow10(widths[i])
  }

  // Fields small enough for the text, years of four digits included.
  ghost predicate IsInstant(t: Instant) {
    Fit(t.civil, WIDTHS) && t.nanos < NANOS
  }

  predicate FieldsLeq(a: seq<nat>, b: seq<nat>)
    requires |a| == |b|
  {
    a == [] || a[0] < b[0] || (a[0] == b[0] && FieldsLeq(a[1..], b[1..]))
  }

  // The order in time: by the calendar fields, then by the nanoseconds.
  predicate TimeLeq(a: Instant, b: Instant)
    requires |a.civil| == |b.civil|
  {
    if a.civil == b.civil then a.nanos <= b.nanos else FieldsLeq(a.civil, b.civil)
  }

  function FieldsText(civil: seq<nat>, widths: seq<nat>, marks: seq<string>): string
    requires |civil| == |widths| == |marks|
  {
    if civil == [] then ""
    else PadZeros(FormatNat(civil[0]), widths[0]) + marks[0] + FieldsText(civil[1..], widths[1..], marks[1..])
  }

  function NineDigits(nanos: nat): string {
    PadZeros(FormatNat(nanos), 9)
  }

  // The digits after the point, without trailing zeros.
  function Fraction(nanos: nat): string {
    TrimRightChar(NineDigits(nanos), '0')
  }

  // The end of a time.RFC3339Nano text, from the point on.
  function Ending(fraction: string): string {
    (if fraction == "" then "" else "." + fraction) + "Z"
  }

  function StampText(t: Instant): string
    requires |t.civil| == |WIDTHS|
  {
    FieldsText(t.civil, WIDTHS, MARKS) + Ending(Fraction(t.nanos))
  }

  predicate ProperPrefix(a: string, b: string) {
    a < b
  }

  // Where two texts first differ.
  predicate DifferAt(a: string, b: string, k: nat) {
    k < |a| && k < |b| && a[..k] == b[..k] && a[k] != b[k]
  }

  lemma {:induction false} OrderAtDifference(a: string, b: string, k: nat)
    requires DifferAt(a, b, k)
    ensures LexLeq(a, b) <==> a[k] < b[k]
  {
    if k > 0 {
      assert a[..k][0] == a[0] && b[..k][0] == b[0];
      assert a[1..][..k - 1] == a[..k][1..] && b[1..][..k - 1] == b[..k][1..];
      OrderAtDifference(a[1..], b[1..], k - 1);
    }
  }

  // Two texts differ somewhere, or one begins with the other.
  lemma {:induction false} DifferOrPrefix(a: string, b: string) returns (k: nat)
    ensures a <= b || b <= a || DifferAt(a, b, k)
  {
    k := 0;
    if a != "" && b != "" && a[0] == b[0] {
      var j := DifferOrPrefix(a[1..], b[1..]);
      k := j + 1;
      assert a == [a[0]] + a[1..] && b == [b[0]] + b[1..];
      if DifferAt(a[1..], b[1..], j) {
        assert a[..k] == [a[0]] + a[1..][..j] && b[..k] == [b[0]] + b[1..][..j];
      }
    }
  }

  lemma {:induction false} SharedPrefix(p: string, a: string, b: string)
    ensures LexLeq(p + a, p + b) == LexLeq(a, b)
  {
    if p == "" {
      assert p + a == a && p + b == b;
    } else {
      assert (p + a)[1..] == p[1..] + a && (p + b)[1..] == p[1..] + b;
      SharedPrefix(p[1..], a, b);
    }
  }

  lemma OneCharacter(c: char, d: char)
    ensures LexLeq([c], [d]) <==> c <= d
  {
    assert LexLeq([c][1..], [d][1..]);
  }

  // Digits of one width are ordered like the numbers they denote.
  lemma {:induction false} DigitsOrder(a: string, b: string)
    requires AllDigits(a) && AllDigits(b) && |a| == |b|
    ensures LexLeq(a, b) <==> ParseNat(a) <= ParseNat(b)
    ensures a == b <==> ParseNat(a) == ParseNat(b)
  {
    hide LexLeq;
    if a == "" {
      LexTotal(a, b);
    } else {
      var (init, c) := (a[..|a| - 1], a[|a| - 1]);
      var (init', d) := (b[..|b| - 1], b[|b| - 1]);
      DigitsOrder(init, init');
      assert a == init + [c] && b == init' + [d];
      if init == init' {
        SharedPrefix(init, [c], [d]);
        OneCharacter(c, d);
      } else {
        var k := DifferOrPrefix(init, init');
        OrderAtDifference(init, init', k);
        OrderAtDifference(a, b, k);
      }
    }
  }

  lemma PaddedOrder(a: nat, b: nat, width: nat)
    requires width > 0 && a < Pow10(width) && b < Pow10(width)
    ensures var (x, y) := (PadZeros(FormatNat(a), width), PadZeros(FormatNat(b), width));
            |x| == |y| == width && AllDigits(x) && AllDigits(y) && (LexLeq(x, y) <==> a <= b) && (x == y <==> a == b)
  {
    PadZerosRoundTrip(a, width);
    PadZerosRoundTrip(b, width);
    DigitsOrder(PadZeros(FormatNat(a), width), PadZeros(FormatNat(b), width));
  }

  // Padded fields are ordered like the fields.
  lemma {:induction false} FieldsOrder(a: seq<nat>, b: seq<nat>, widths: seq<nat>, marks: seq<string>)
    requires Fit(a, widths) && Fit(b, widths) && |marks| == |widths|
    ensures var (x, y) := (FieldsText(a, widths, marks), FieldsText(b, widths, marks));
            |x| == |y| && (x == y <==> a == b) && (LexLeq(x, y) <==> FieldsLeq(a, b))
  {
    if a != [] {
      var (x, y) := (PadZeros(FormatNat(a[0]), widths[0]), PadZeros(FormatNat(b[0]), widths[0]));
      var (u, v) := (FieldsText(a[1..], widths[1..], marks[1..]), FieldsText(b[1..], widths[1..], marks[1..]));
      PaddedOrder(a[0], b[0], widths[0]);
      FieldsOrder(a[1..], b[1..], widths[1..], marks[1..]);
      assert a == [a[0]] + a[1..] && b == [b[0]] + b[1..];
      hide PadZeros, FormatNat, LexLeq, Pow10, Fit;
      FieldThenRest(x, y, marks[0], u, v);
    }
  }

  lemma FieldThenRest(x: string, y: string, mark: string, u: string, v: string)
    requires |x| == |y| && |u| == |v|
    ensures x + mark + u == y + mark + v <==> x == y && u == v
    ensures LexLeq(x + mark + u, y + mark + v) <==> if x == y then LexLeq(u, v) else LexLeq(x, y)
  {
    hide LexLeq;
    if x == y {
      SharedPrefix(x + mark, u, v);
      assert u == (x + mark + u)[|x + mark|..] && v == (y + mark + v)[|x + mark|..];
    } else {
      var k := DifferOrPrefix(x, y);
      OrderAtDifference(x, y, k);
      assert DifferAt(x + mark + u, y + mark + v, k);
      OrderAtDifference(x + mark + u, y + mark + v, k);
    }
  }

  lemma NanosOrder(a: nat, b: nat)
    requires a < NANOS && b < NANOS
    ensures var (x, y) := (NineDigits(a), NineDigits(b));
            |x| == |y| == 9 && AllDigits(x) && AllDigits(y) && (LexLeq(x, y) <==> a <= b) && (x == y <==> a == b)
  {
    assert Pow10(9) == NANOS by {
      assert Pow10(3) == 1000;
      assert Pow10(6) == 1000000;
    }
    PaddedOrder(a, b, 9);
  }

  // What trimming leaves of nine digits: they are the fraction and then only zeros.
  lemma FractionPads(nanos: nat)
    requires nanos < NANOS
    ensures var (x, p) := (Fraction(nanos), NineDigits(nanos));
            && |p| == 9 && x <= p && AllDigits(p) && AllDigits(x) && (x != "" ==> x[|x| - 1] != '0')
            && forall i :: |x| <= i < |p| ==> p[i] == '0'
  {
    NanosOrder(nanos, nanos);
    TrimRightCharPad(NineDigits(nanos), '0');
  }

  lemma DifferingEndings(x: string, y: string, k: nat)
    requires DifferAt(x, y, k)
    ensures LexLeq(Ending(x), Ending(y)) <==> x[k] < y[k]
  {
    hide LexLeq;
    SharedPrefix(".", x + "Z", y + "Z");
    assert Ending(x) == "." + (x + "Z") && Ending(y) == "." + (y + "Z");
    OrderAtDifference(x + "Z", y + "Z", k);
  }

  // Fractions that differ at some digit are ordered like their moments, and so are the texts.
  lemma DifferingFractions(a: nat, b: nat, k: nat)
    requires a < NANOS && b < NANOS && DifferAt(Fraction(a), Fraction(b), k)
    ensures LexLeq(Ending(Fraction(a)), Ending(Fraction(b))) <==> a <= b
  {
    hide NineDigits, Fraction, LexLeq, Ending, AllDigits;
    NanosOrder(a, b);
    FractionPads(a);
    FractionPads(b);
    DifferingEndings(Fraction(a), Fraction(b), k);
    assert NineDigits(a)[..k] == Fraction(a)[..k] && NineDigits(b)[..k] == Fraction(b)[..k];
    OrderAtDifference(NineDigits(a), NineDigits(b), k);
  }

  // The text with the longer fraction comes first: a digit, or the point, sorts before the letter Z.
  lemma LongerEnding(x: string, y: string)
    requires ProperPrefix(x, y) && AllDigits(y)
    ensures !LexLeq(Ending(x), Ending(y)) && LexLeq(Ending(y), Ending(x))
  {
    hide LexLeq;
    var k := if x == "" then 0 else |x| + 1;
    assert DifferAt(Ending(x), Ending(y), k);
    OrderAtDifference(Ending(x), Ending(y), k);
    OrderAtDifference(Ending(y), Ending(x), k);
  }

  // A fraction that goes on where another stops is later.
  lemma LongerFraction(a: nat, b: nat)
    requires a < NANOS && b < NANOS && ProperPrefix(Fraction(a), Fraction(b))
    ensures a < b
  {
    hide NineDigits, Fraction, LexLeq;
    var (x, y) := (Fraction(a), Fraction(b));
    NanosOrder(a, b);
    FractionPads(a);
    FractionPads(b);
    LaterDigits(NineDigits(a), NineDigits(b), |x|, |y| - 1);
  }

  // Only zeros on one side and a later digit on the other.
  lemma LaterDigits(p: string, q: string, from: nat, at: nat)
    requires AllDigits(p) && AllDigits(q) && from <= at < |p| == |q| && p[..from] == q[..from]
    requires (forall i :: from <= i < |p| ==> p[i] == '0') && q[at] != '0'
    ensures p != q && LexLeq(p, q)
  {
    var k := DifferOrPrefix(p, q);
    assert !(p <= q) && !(q <= p);
    assert forall i :: 0 <= i < from ==> p[i] == p[..from][i] && q[i] == q[..from][i];
    OrderAtDifference(p, q, k);
  }

  // Ordering by the stored text agrees with the order in time exactly when the moments are not in one second
  // with one fraction a proper prefix of the other's, such as .5 and .55, or a whole second and any fraction.
  lemma TextOrderIsTimeOrderIff(a: Instant, b: Instant)
    requires IsInstant(a) && IsInstant(b)
    ensures (LexLeq(StampText(a), StampText(b)) <==> TimeLeq(a, b)) <==>
            !(a.civil == b.civil && (ProperPrefix(Fraction(a.nanos), Fraction(b.nanos)) ||
                                     ProperPrefix(Fraction(b.nanos), Fraction(a.nanos))))
  {
    hide LexLeq, Fraction, Ending, FieldsText, FieldsLeq;
    var (x, y) := (Fraction(a.nanos), Fraction(b.nanos));
    var (p, q) := (FieldsText(a.civil, WIDTHS, MARKS), FieldsText(b.civil, WIDTHS, MARKS));
    FieldsOrder(a.civil, b.civil, WIDTHS, MARKS);
    if a.civil != b.civil {
      var k := DifferOrPrefix(p, q);
      OrderAtDifference(p, q, k);
      OrderAtDifference(StampText(a), StampText(b), k);
    } else {
      SharedPrefix(p, Ending(x), Ending(y));
      FractionsDecide(a.nanos, b.nanos);
    }
  }

  lemma FractionsDecide(a: nat, b: nat)
    requires a < NANOS && b < NANOS
    ensures var (x, y) := (Fraction(a), Fraction(b));
            (LexLeq(Ending(x), Ending(y)) <==> a <= b) <==> !(ProperPrefix(x, y) || ProperPrefix(y, x))
  {
    hide LexLeq, Fraction, Ending;
    var (x, y) := (Fraction(a), Fraction(b));
    if x == y {
      SameFraction(a, b);
      LexTotal(Ending(x), Ending(y));
    } else if x < y {
      LongerFraction(a, b);
      FractionPads(b);
      LongerEnding(x, y);
    } else if y < x {
      LongerFraction(b, a);
      FractionPads(a);
      LongerEnding(y, x);
    } else {
      var k := DifferOrPrefix(x, y);
      DifferingFractions(a, b, k);
    }
  }

  lemma NoFractionIffWhole(n: nat)
    requires n < NANOS
    ensures Fraction(n) == "" <==> n == 0
  {
    var zeros := NineDigits(0);
    assert zeros == "000000000" by {
      assert FormatNat(0) == "0";
    }
    TrimAllZeros(zeros);
    if Fraction(n) == "" {
      SameFraction(0, n);
    }
  }

  // So a whole second comes before every fraction of it in time, and after all of them in the table.
  lemma WholeSecondSortsLast(civil: seq<nat>, n: nat)
    requires IsInstant(Instant(civil, n)) && n > 0
    ensures var (whole, later) := (Instant(civil, 0), Instant(civil, n));
            TimeLeq(whole, later) && !TimeLeq(later, whole) && !LexLeq(StampText(whole), StampText(later))
  {
    hide LexLeq, Fraction, Ending, FieldsText;
    NoFractionIffWhole(0);
    NoFractionIffWhole(n);
    TextOrderIsTimeOrderIff(Instant(civil, 0), Instant(civil, n));
  }

  lemma SameFraction(a: nat, b: nat)
    requires a < NANOS && b < NANOS && Fraction(a) == Fraction(b)
    ensures a == b
  {
    NanosOrder(a, b);
    TrimRightCharPad(NineDigits(a), '0');
    TrimRightCharPad(NineDigits(b), '0');
  }
}
