// Strings as the backend uses them: white-space trimming, ASCII case folding, byte-wise ordering,
// joining, and the splitting lemmas that make rendered keys readable backwards.
module Text {

  // The white space that strings.TrimSpace removes.
  predicate IsSpace(c: char) {
    || '\U{09}' <= c <= '\U{0D}' || c == ' ' || c == '\U{85}' || c == '\U{A0}' || c == '\U{1680}'
    || '\U{2000}' <= c <= '\U{200A}' || c == '\U{2028}' || c == '\U{2029}' || c == '\U{202F}'
    || c == '\U{205F}' || c == '\U{3000}'
  }

  function TrimLeft(s: string): string {
    if s != "" && IsSpace(s[0]) then TrimLeft(s[1..]) else s
  }

  function TrimRight(s: string): string {
    if s != "" && IsSpace(s[|s| - 1]) then TrimRight(s[..|s| - 1]) else s
  }

  function TrimSpace(s: string): string {
    TrimRight(TrimLeft(s))
  }

  // A string that trimming leaves alone.
  predicate Trimmed(s: string) {
    s != "" ==> !IsSpace(s[0]) && !IsSpace(s[|s| - 1])
  }

  lemma {:induction false} TrimRightKeepsFirst(s: string)
    requires s != "" && !IsSpace(s[0])
    ensures TrimRight(s) != "" && TrimRight(s)[0] == s[0]
  {
    if IsSpace(s[|s| - 1]) {
      TrimRightKeepsFirst(s[..|s| - 1]);
    }
  }

  lemma {:induction false} TrimLeftFirst(s: string)
    ensures TrimLeft(s) != "" ==> !IsSpace(TrimLeft(s)[0])
  {
    if s != "" && IsSpace(s[0]) {
      TrimLeftFirst(s[1..]);
    }
  }

  lemma {:induction false} TrimRightLast(s: string)
    ensures var t := TrimRight(s); t != "" ==> !IsSpace(t[|t| - 1])
  {
    if s != "" && IsSpace(s[|s| - 1]) {
      TrimRightLast(s[..|s| - 1]);
    }
  }

  // Trimming always produces a trimmed string.
  lemma TrimSpaceTrims(s: string)
    ensures Trimmed(TrimSpace(s))
  {
    TrimLeftFirst(s);
    TrimRightLast(TrimLeft(s));
    if TrimLeft(s) != "" {
      TrimRightKeepsFirst(TrimLeft(s));
    }
  }

  predicate AllSpace(s: string) {
    forall i :: 0 <= i < |s| ==> IsSpace(s[i])
  }

  lemma {:induction false} TrimLeftPadding(left: string, s: string)
    requires AllSpace(left)
    ensures TrimLeft(left + s) == TrimLeft(s)
  {
    if left == "" {
      assert left + s == s;
    } else {
      assert (left + s)[1..] == left[1..] + s;
      TrimLeftPadding(left[1..], s);
    }
  }

  lemma {:induction false} TrimLeftBefore(s: string, right: string)
    requires AllSpace(right)
    ensures TrimLeft(s + right) == if TrimLeft(s) == "" then "" else TrimLeft(s) + right
  {
    if s == "" {
      TrimLeftPadding(right, "");
      assert s + right == right && right + "" == right;
    } else if IsSpace(s[0]) {
      assert (s + right)[1..] == s[1..] + right;
      TrimLeftBefore(s[1..], right);
    }
  }

  lemma {:induction false} TrimRightPadding(s: string, right: string)
    requires AllSpace(right)
    ensures TrimRight(s + right) == TrimRight(s)
  {
    if right == "" {
      assert s + right == s;
    } else {
      assert (s + right)[..|s + right| - 1] == s + right[..|right| - 1];
      TrimRightPadding(s, right[..|right| - 1]);
    }
  }

  // White space around a text makes no difference once it is trimmed.
  lemma TrimIgnoresPadding(left: string, s: string, right: string)
    requires AllSpace(left) && AllSpace(right)
    ensures TrimSpace(left + s + right) == TrimSpace(s)
  {
    assert left + s + right == left + (s + right);
    TrimLeftPadding(left, s + right);
    TrimLeftBefore(s, right);
    TrimRightPadding(TrimLeft(s), right);
  }

  function LowerChar(c: char): char {
    if 'A' <= c <= 'Z' then (c as int + 32) as char else c
  }

  function UpperChar(c: char): char {
    if 'a' <= c <= 'z' then (c as int - 32) as char else c
  }

  function ToLower(s: string): (t: string)
    ensures |t| == |s|
  {
    seq(|s|, i requires 0 <= i < |s| => LowerChar(s[i]))
  }

  function ToUpper(s: string): (t: string)
    ensures |t| == |s|
  {
    seq(|s|, i requires 0 <= i < |s| => UpperChar(s[i]))
  }

  // The same text up to the case of its letters.
  predicate SameUpToCase(s: string, t: string) {
    |s| == |t| && forall i :: 0 <= i < |s| ==>
      s[i] == t[i] || ('a' <= s[i] <= 'z' && s[i] as int == t[i] as int + 32)
      || ('a' <= t[i] <= 'z' && t[i] as int == s[i] as int + 32)
  }

  // Folding identifies exactly the texts that differ in case alone.
  lemma FoldedAlikeIff(s: string, t: string)
    ensures ToLower(s) == ToLower(t) <==> SameUpToCase(s, t)
    ensures ToUpper(s) == ToUpper(t) <==> SameUpToCase(s, t)
  {
    if SameUpToCase(s, t) {
      assert forall i :: 0 <= i < |s| ==> ToLower(s)[i] == ToLower(t)[i] && ToUpper(s)[i] == ToUpper(t)[i];
    } else if |s| == |t| {
      var i :| 0 <= i < |s| && !(s[i] == t[i] || ('a' <= s[i] <= 'z' && s[i] as int == t[i] as int + 32)
                                 || ('a' <= t[i] <= 'z' && t[i] as int == s[i] as int + 32));
      assert ToLower(s)[i] != ToLower(t)[i] && ToUpper(s)[i] != ToUpper(t)[i];
    }
  }

  // And leaves no letter in the other case.
  lemma FoldedCase(s: string)
    ensures SameUpToCase(s, ToLower(s)) && SameUpToCase(s, ToUpper(s))
    ensures forall c :: c in ToLower(s) ==> !('A' <= c <= 'Z')
    ensures forall c :: c in ToUpper(s) ==> !('a' <= c <= 'z')
  {
  }

  predicate IsAlpha(s: string) {
    forall i :: 0 <= i < |s| ==> 'a' <= s[i] <= 'z' || 'A' <= s[i] <= 'Z'
  }

  predicate IsUpperAlpha(s: string) {
    forall i :: 0 <= i < |s| ==> 'A' <= s[i] <= 'Z'
  }

  // The order sort.Strings and SQLite's TEXT comparison use.
  predicate LexLeq(a: string, b: string) {
    a == "" || (b != "" && (a[0] < b[0] || (a[0] == b[0] && LexLeq(a[1..], b[1..]))))
  }

  lemma {:induction false} LexTotal(a: string, b: string)
    ensures LexLeq(a, b) || LexLeq(b, a)
    ensures a == b ==> LexLeq(a, b)
  {
    if a != "" && b != "" && a[0] == b[0] {
      LexTotal(a[1..], b[1..]);
    }
  }

  lemma {:induction false} LexAntisymmetric(a: string, b: string)
    requires LexLeq(a, b) && LexLeq(b, a)
    ensures a == b
  {
    if a != "" {
      LexAntisymmetric(a[1..], b[1..]);
      assert a == [a[0]] + a[1..] && b == [b[0]] + b[1..];
    }
  }

  lemma {:induction false} LexTransitive(a: string, b: string, c: string)
    requires LexLeq(a, b) && LexLeq(b, c)
    ensures LexLeq(a, c)
  {
    if a != "" && a[0] == b[0] == c[0] {
      LexTransitive(a[1..], b[1..], c[1..]);
    }
  }

  // strings.Join with a one-character separator.
  function Join(xs: seq<string>, sep: char): string {
    if |xs| == 0 then ""
    else if |xs| == 1 then xs[0]
    else xs[0] + [sep] + Join(xs[1..], sep)
  }

  // The text before the first separator, and the text after it, can be read back.
  lemma SplitAtFirst(c: char, a1: string, b1: string, a2: string, b2: string)
    requires a1 + [c] + b1 == a2 + [c] + b2
    requires c !in a1 && c !in a2
    ensures a1 == a2 && b1 == b2
  {
    var s := a1 + [c] + b1;
    assert s == a2 + [c] + b2;
    assert forall i :: 0 <= i < |a1| ==> s[i] == a1[i] != c;
    assert forall i :: 0 <= i < |a2| ==> s[i] == a2[i] != c;
    assert s[|a1|] == c && s[|a2|] == c;
    assert a1 == s[..|a1|] && a2 == s[..|a2|];
    assert b1 == s[|a1| + 1..] && b2 == s[|a2| + 1..];
  }

  // The same for the last separator.
  lemma SplitAtLast(c: char, a1: string, b1: string, a2: string, b2: string)
    requires a1 + [c] + b1 == a2 + [c] + b2
    requires c !in b1 && c !in b2
    ensures a1 == a2 && b1 == b2
  {
    var s := a1 + [c] + b1;
    assert s == a2 + [c] + b2;
    assert forall i :: |a1| < i < |s| ==> s[i] == b1[i - |a1| - 1] != c;
    assert forall i :: |a2| < i < |s| ==> s[i] == b2[i - |a2| - 1] != c;
    assert s[|a1|] == c && s[|a2|] == c;
    assert a1 == s[..|a1|] && a2 == s[..|a2|];
    assert b1 == s[|a1| + 1..] && b2 == s[|a2| + 1..];
  }

  lemma JoinHasSeparator(xs: seq<string>, sep: char)
    requires |xs| > 1
    ensures sep in Join(xs, sep)
  {
    assert Join(xs, sep)[|xs[0]|] == sep;
  }

  // Joining is injective on non-empty lists whose members avoid the separator.
  lemma {:induction false} JoinInjective(xs: seq<string>, ys: seq<string>, sep: char)
    requires |xs| > 0 && |ys| > 0
    requires forall x :: x in xs ==> sep !in x
    requires forall y :: y in ys ==> sep !in y
    requires Join(xs, sep) == Join(ys, sep)
    ensures xs == ys
  {
    if |xs| > 1 {
      JoinHasSeparator(xs, sep);
    }
    if |ys| > 1 {
      JoinHasSeparator(ys, sep);
    }
    if |xs| > 1 && |ys| > 1 {
      SplitAtFirst(sep, xs[0], Join(xs[1..], sep), ys[0], Join(ys[1..], sep));
      JoinInjective(xs[1..], ys[1..], sep);
      assert xs == [xs[0]] + xs[1..] && ys == [ys[0]] + ys[1..];
    }
  }
}
