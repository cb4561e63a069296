// The natural-language query parser (search.go): longest-alias selection and the merging of age bounds.
// What the regular expressions find in the query text is an input.
module Search {
  import opened Wrappers
  import opened Text
  import opened Decimal
  import opened Profiles
  import opened Normalize
  import opened Query
  import opened Pagination

  // ----- sorting by length -----------------------------------------------------------------------

  // x placed after the last member at least as long; everything shorter moves behind it.
  function InsertByLen(s: seq<string>, x: string): seq<string> {
    if s == [] || |s[|s| - 1]| >= |x| then s + [x]
    else InsertByLen(s[..|s| - 1], x) + [s[|s| - 1]]
  }

  function SortedByLen(s: seq<string>): seq<string> {
    if s == [] then [] else InsertByLen(SortedByLen(s[..|s| - 1]), s[|s| - 1])
  }

  lemma {:induction false} InsertByLenLength(s: seq<string>, x: string)
    ensures |InsertByLen(s, x)| == |s| + 1
  {
    if s != [] && |s[|s| - 1]| < |x| {
      InsertByLenLength(s[..|s| - 1], x);
    }
  }

  lemma {:induction false} SortedByLenLength(s: seq<string>)
    ensures |SortedByLen(s)| == |s|
  {
    if s != [] {
      SortedByLenLength(s[..|s| - 1]);
      InsertByLenLength(SortedByLen(s[..|s| - 1]), s[|s| - 1]);
    }
  }

  // One swap of the inner loop: x moves one place down past a shorter neighbour,
  lemma SwapDown(s: seq<string>, x: string, j: nat, rest: seq<string>, xs: seq<string>)
    requires 0 < j <= |s| && xs == s[..j] + [x] + s[j..] + rest
    ensures xs[j := xs[j - 1]][j - 1 := xs[j]] == s[..j - 1] + [x] + s[j - 1..] + rest
  {
    assert s[j - 1..] == [s[j - 1]] + s[j..];
  }

  // which is where the insertion puts it, too.
  lemma InsertBelow(s: seq<string>, x: string, j: nat)
    requires 0 < j <= |s| && |x| > |s[j - 1]|
    requires InsertByLen(s, x) == InsertByLen(s[..j], x) + s[j..]
    ensures InsertByLen(s, x) == InsertByLen(s[..j - 1], x) + s[j - 1..]
  {
    assert s[..j][..j - 1] == s[..j - 1];
    assert s[j - 1..] == [s[j - 1]] + s[j..];
  }

  lemma StopHere(s: seq<string>, x: string, j: nat)
    requires j <= |s| && (j == 0 || |x| <= |s[j - 1]|)
    ensures InsertByLen(s[..j], x) == s[..j] + [x]
  {
  }

  // The inner loop: moves the member at i down past everything shorter.
  method MoveDown(xs: array<string>, i: nat, ghost s: seq<string>)
    requires i < xs.Length && xs[..i] == s
    modifies xs
    ensures xs[..] == InsertByLen(s, old(xs[i])) + old(xs[i + 1..])
  {
    ghost var (x, rest) := (xs[i], xs[i + 1..]);
    var j := i;
    assert s[..i] == s && s[i..] == [];
    while j > 0 && |xs[j]| > |xs[j - 1]|
      invariant 0 <= j <= i == |s|
      invariant xs[..] == s[..j] + [x] + s[j..] + rest
      invariant InsertByLen(s, x) == InsertByLen(s[..j], x) + s[j..]
    {
      SwapDown(s, x, j, rest, xs[..]);
      InsertBelow(s, x, j);
      xs[j], xs[j - 1] := xs[j - 1], xs[j];
      j := j - 1;
    }
    StopHere(s, x, j);
  }

  // In-place insertion sort, longest first.
  method SortByLenDesc(xs: array<string>)
    modifies xs
    ensures xs[..] == SortedByLen(old(xs[..]))
  {
    hide SortedByLen, InsertByLen;
    ghost var was := xs[..];
    var i := 1;
    SortedSingle(was);
    while i < xs.Length
      invariant 1 <= i && |was| == xs.Length
      invariant i <= xs.Length ==> xs[..i] == SortedByLen(was[..i]) && xs[i..] == was[i..]
      invariant i > xs.Length ==> xs[..] == was == SortedByLen(was)
    {
      ghost var s := xs[..i];
      MoveDown(xs, i, s);
      InsertByLenLength(s, was[i]);
      SortedNext(was, i);
      i := i + 1;
    }
    if i == xs.Length {
      assert was[..i] == was && xs[..i] == xs[..];
    }
  }

  lemma SortedNext(s: seq<string>, i: nat)
    requires i < |s|
    ensures SortedByLen(s[..i + 1]) == InsertByLen(SortedByLen(s[..i]), s[i])
  {
    assert s[..i + 1][..i] == s[..i];
  }

  lemma SortedSingle(s: seq<string>)
    ensures |s| <= 1 ==> SortedByLen(s) == s
    ensures |s| >= 1 ==> SortedByLen(s[..1]) == s[..1]
  {
    if |s| >= 1 {
      assert s[..1][..0] == [];
    }
    if |s| == 1 {
      assert s[..1] == s;
    }
  }

  ghost predicate LongestFirst(s: seq<string>) {
    forall i, j :: 0 <= i < j < |s| ==> |s[i]| >= |s[j]|
  }

  function OfLength(s: seq<string>, n: nat): seq<string> {
    if s == [] then []
    else OfLength(s[..|s| - 1], n) + if |s[|s| - 1]| == n then [s[|s| - 1]] else []
  }

  lemma {:induction false} OfLengthAppend(a: seq<string>, b: seq<string>, n: nat)
    ensures OfLength(a + b, n) == OfLength(a, n) + OfLength(b, n)
  {
    if b == [] {
      assert a + b == a;
    } else {
      assert (a + b)[..|a + b| - 1] == a + b[..|b| - 1];
      OfLengthAppend(a, b[..|b| - 1], n);
    }
  }

  lemma OfLengthCons(x: string, rest: seq<string>, n: nat)
    ensures OfLength([x] + rest, n) == (if |x| == n then [x] else []) + OfLength(rest, n)
  {
    OfLengthAppend([x], rest, n);
    assert [x][..0] == [];
  }

  lemma OfLengthSnoc(init: seq<string>, x: string, n: nat)
    ensures OfLength(init + [x], n) == OfLength(init, n) + if |x| == n then [x] else []
  {
    assert (init + [x])[..|init|] == init;
  }

  lemma {:induction false} InsertByLenSorts(s: seq<string>, x: string)
    requires LongestFirst(s)
    ensures LongestFirst(InsertByLen(s, x))
  {
    if s != [] && |s[|s| - 1]| < |x| {
      InsertByLenSorts(s[..|s| - 1], x);
      InsertByLenMembers(s[..|s| - 1], x);
      assert forall y :: y in s[..|s| - 1] ==> |y| >= |s[|s| - 1]|;
    }
  }

  // Inserting adds x and keeps the order within each length.
  lemma {:induction false} InsertByLenStable(s: seq<string>, x: string, n: nat)
    ensures multiset(InsertByLen(s, x)) == multiset(s) + multiset{x}
    ensures OfLength(InsertByLen(s, x), n) == OfLength(s, n) + if |x| == n then [x] else []
  {
    if s == [] || |s[|s| - 1]| >= |x| {
      OfLengthSnoc(s, x, n);
    } else {
      var (init, last) := (s[..|s| - 1], s[|s| - 1]);
      assert s == init + [last];
      InsertByLenStable(init, x, n);
      OfLengthSnoc(init, last, n);
      OfLengthSnoc(InsertByLen(init, x), last, n);
    }
  }

  lemma {:induction false} InsertByLenMembers(s: seq<string>, x: string)
    ensures forall y :: y in InsertByLen(s, x) <==> y in s || y == x
  {
    if s != [] && |s[|s| - 1]| < |x| {
      InsertByLenMembers(s[..|s| - 1], x);
      assert s == s[..|s| - 1] + [s[|s| - 1]];
    }
  }

  // The sort is a permutation, longest first, and stable: strings of equal length keep their order.
  lemma {:induction false} SortedByLenIsStableSort(s: seq<string>, n: nat)
    ensures LongestFirst(SortedByLen(s)) && multiset(SortedByLen(s)) == multiset(s)
    ensures OfLength(SortedByLen(s), n) == OfLength(s, n)
  {
    if s != [] {
      var (init, last) := (s[..|s| - 1], s[|s| - 1]);
      assert s == init + [last];
      SortedByLenIsStableSort(init, n);
      InsertByLenSorts(SortedByLen(init), last);
      InsertByLenStable(SortedByLen(init), last, n);
    }
  }

  // ----- choosing the longest match ---------------------------------------------------------------

  // What of a word or phrase stands in the query on word boundaries.
  type Occurs = string -> bool

  function FirstMatch(s: seq<string>, occurs: Occurs): Option<string> {
    if s == [] then None
    else if occurs(s[0]) then Some(s[0])
    else FirstMatch(s[1..], occurs)
  }

  // The scan that stops at the first match.
  method FindFirst(xs: array<string>, occurs: Occurs) returns (r: Option<string>)
    ensures r == FirstMatch(xs[..], occurs)
  {
    var i := 0;
    while i < xs.Length
      invariant 0 <= i <= xs.Length
      invariant FirstMatch(xs[..], occurs) == FirstMatch(xs[i..], occurs)
    {
      assert xs[i..][1..] == xs[i + 1..];
      if occurs(xs[i]) {
        return Some(xs[i]);
      }
      i := i + 1;
    }
    return None;
  }

  // Sort, then take the first match.
  function Choose(s: seq<string>, occurs: Occurs): Option<string> {
    FirstMatch(SortedByLen(s), occurs)
  }

  ghost predicate IsLongestMatch(s: seq<string>, occurs: Occurs, a: string) {
    a in s && occurs(a) && forall b :: b in s && occurs(b) ==> |b| <= |a|
  }

  lemma {:induction false} FirstMatchIsFirst(s: seq<string>, occurs: Occurs)
    ensures match FirstMatch(s, occurs)
            case None => forall b :: b in s ==> !occurs(b)
            case Some(a) => exists i :: 0 <= i < |s| && s[i] == a && occurs(a)
                                        && forall j :: 0 <= j < i ==> !occurs(s[j])
  {
    if s != [] {
      if occurs(s[0]) {
        assert s[0] == FirstMatch(s, occurs).value;
      } else {
        FirstMatchIsFirst(s[1..], occurs);
        assert s == [s[0]] + s[1..];
        match FirstMatch(s[1..], occurs)
        case None =>
        case Some(a) =>
          var i :| 0 <= i < |s[1..]| && s[1..][i] == a && forall j :: 0 <= j < i ==> !occurs(s[1..][j]);
          assert s[i + 1] == a;
          assert forall j :: 0 <= j < i + 1 ==> !occurs(s[j]) by {
            assert forall j :: 0 < j < i + 1 ==> s[j] == s[1..][j - 1];
          }
      }
    }
  }

  // The choice is a longest match, and there is one whenever anything matches.
  lemma ChoiceIsLongest(s: seq<string>, occurs: Occurs)
    ensures match Choose(s, occurs)
            case None => forall b :: b in s ==> !occurs(b)
            case Some(a) => IsLongestMatch(s, occurs, a)
  {
    hide SortedByLen, FirstMatch;
    var t := SortedByLen(s);
    SortedByLenIsStableSort(s, 0);
    FirstMatchIsFirst(t, occurs);
    assert forall b :: b in s <==> b in multiset(t);
    match FirstMatch(t, occurs)
    case None =>
    case Some(a) =>
      var i :| 0 <= i < |t| && t[i] == a && forall j :: 0 <= j < i ==> !occurs(t[j]);
      forall b | b in s && occurs(b)
        ensures |b| <= |a|
      {
        assert b in t;
        var j :| 0 <= j < |t| && t[j] == b;
        assert i <= j;
      }
  }

  // A longest match that comes first in the enumeration is the one chosen.
  lemma FirstLongestIsChosen(s: seq<string>, occurs: Occurs, a: string)
    requires s != [] && s[0] == a && IsLongestMatch(s, occurs, a)
    ensures Choose(s, occurs) == Some(a)
  {
    hide SortedByLen, FirstMatch, OfLength;
    ChoiceIsLongest(s, occurs);
    var u := SortedByLen(s);
    SortedByLenIsStableSort(s, |a|);
    FirstMatchIsFirst(u, occurs);
    assert a in multiset(s) && a in multiset(u);
    var c := FirstMatch(u, occurs).value;
    assert |c| == |a|;
    var k :| 0 <= k < |u| && u[k] == c && forall j :: 0 <= j < k ==> !occurs(u[j]);
    FirstOfLength(s, u, a, c, k, occurs);
  }

  // So any longest match can be the one chosen: it is when the enumeration happens to start with it.
  lemma AnyLongestCanBeChosen(s: seq<string>, occurs: Occurs, a: string) returns (t: seq<string>)
    requires IsLongestMatch(s, occurs, a)
    ensures multiset(t) == multiset(s) && Choose(t, occurs) == Some(a)
  {
    hide SortedByLen, FirstMatch;
    var i :| 0 <= i < |s| && s[i] == a;
    t := [a] + s[..i] + s[i + 1..];
    assert s == s[..i] + [a] + s[i + 1..];
    assert multiset(t) == multiset(s);
    assert forall b :: b in t <==> b in multiset(s);
    FirstLongestIsChosen(t, occurs, a);
  }

  lemma {:induction false} OfLengthMembers(s: seq<string>, n: nat)
    ensures forall x :: x in OfLength(s, n) <==> x in s && |x| == n
  {
    if s != [] {
      OfLengthMembers(s[..|s| - 1], n);
      assert s == s[..|s| - 1] + [s[|s| - 1]];
    }
  }

  lemma NoneBefore(s: seq<string>, n: nat, occurs: Occurs)
    requires forall j :: 0 <= j < |s| ==> !occurs(s[j])
    ensures forall x :: x in OfLength(s, n) ==> !occurs(x)
  {
    OfLengthMembers(s, n);
  }

  lemma FirstOfLength(t: seq<string>, u: seq<string>, a: string, c: string, i: nat, occurs: Occurs)
    requires t != [] && t[0] == a && occurs(a) && |c| == |a|
    requires OfLength(u, |a|) == OfLength(t, |a|)
    requires i < |u| && u[i] == c && forall j :: 0 <= j < i ==> !occurs(u[j])
    ensures c == a
  {
    hide OfLength;
    var n := |a|;
    var (before, after) := (OfLength(u[..i], n), OfLength(u[i + 1..], n));
    assert t == [a] + t[1..] && u == u[..i] + ([c] + u[i + 1..]);
    OfLengthCons(a, t[1..], n);
    OfLengthAppend(u[..i], [c] + u[i + 1..], n);
    OfLengthCons(c, u[i + 1..], n);
    assert before + ([c] + after) == [a] + OfLength(t[1..], n);
    NoneBefore(u[..i], n, occurs);
    FirstAfterNone(before, c, after, a, OfLength(t[1..], n), occurs);
  }

  lemma FirstAfterNone(before: seq<string>, c: string, after: seq<string>, a: string, rest: seq<string>, occurs: Occurs)
    requires before + ([c] + after) == [a] + rest && occurs(a) && forall x :: x in before ==> !occurs(x)
    ensures c == a
  {
    assert a == ([a] + rest)[0] == (before + ([c] + after))[0];
  }

  // The target of the choice is the same for every enumeration order exactly when all longest matches lead
  // to the same target.
  lemma OrderIndependentIff<T>(s: seq<string>, occurs: Occurs, target: string -> T)
    ensures (forall t :: multiset(t) == multiset(s) ==> Targeted(t, occurs, target) == Targeted(s, occurs, target)) <==>
            (forall a, b :: IsLongestMatch(s, occurs, a) && IsLongestMatch(s, occurs, b) ==> target(a) == target(b))
  {
    if forall a, b :: IsLongestMatch(s, occurs, a) && IsLongestMatch(s, occurs, b) ==> target(a) == target(b) {
      forall t | multiset(t) == multiset(s)
        ensures Targeted(t, occurs, target) == Targeted(s, occurs, target)
      {
        assert forall x :: x in t <==> x in multiset(s);
        ChoiceIsLongest(s, occurs);
        ChoiceIsLongest(t, occurs);
        match Choose(t, occurs)
        case None =>
        case Some(a) => assert IsLongestMatch(s, occurs, a);
      }
    } else {
      var a, b :| IsLongestMatch(s, occurs, a) && IsLongestMatch(s, occurs, b) && target(a) != target(b);
      var t := AnyLongestCanBeChosen(s, occurs, a);
      var u := AnyLongestCanBeChosen(s, occurs, b);
      assert Targeted(t, occurs, target) != Targeted(u, occurs, target);
    }
  }

  function Targeted<T>(s: seq<string>, occurs: Occurs, target: string -> T): Option<T> {
    match Choose(s, occurs)
    case None => None
    case Some(a) => Some(target(a))
  }

  // ----- age bounds ---------------------------------------------------------------------------------

  // What the regular expressions find in the lower-cased query; captured numbers come as their digits.
  datatype Found = Found(
    blank: bool, male: bool, female: bool, occurs: Occurs,
    between: Option<(string, string)>, dashed: Option<(string, string)>,
    above: Option<string>, below: Option<string>, exact: Option<string>, iso: Option<string>)

  datatype Ages = Ages(min: Option<int>, max: Option<int>, matched: bool)

  // strconv.Atoi with its error ignored.
  function LooseInt(s: string): int {
    match Atoi(s)
    case Value(n) => n
    case OutOfRange(n) => n
    case BadSyntax => 0
  }

  function Ordered(pair: (string, string)): Ages {
    var (lo, hi) := (LooseInt(pair.0), LooseInt(pair.1));
    if lo > hi then Ages(Some(hi), Some(lo), true) else Ages(Some(lo), Some(hi), true)
  }

  function Exactly(s: Option<string>): Option<int> {
    if s.Some? && Atoi(s.value).Value? then Some(Atoi(s.value).n) else None
  }

  function OrElse(a: Option<int>, b: Option<int>): Option<int> {
    if a.Some? then a else b
  }

  // The bounds a range gives, before the other phrases are looked at.
  function RangeOf(m: Found): Ages {
    if m.between.Some? then Ordered(m.between.value)
    else if m.dashed.Some? then Ordered(m.dashed.value)
    else Ages(None, None, false)
  }

  // Which bound each phrase sets: an explicit limit wins over a range, "young" and "old" only fill gaps, and
  // an exact age counts only when nothing else was said.
  function AgesOf(m: Found): Ages {
    var r := RangeOf(m);
    var (isYoung, isOld) := (m.occurs("young"), m.occurs("old"));
    var min := OrElse(OrElse(Exactly(m.above), r.min), if isYoung then Some(16) else if isOld then Some(60) else None);
    var max := OrElse(OrElse(Exactly(m.below), r.max), if isYoung then Some(24) else None);
    var exact := if min.None? && max.None? then Exactly(m.exact) else None;
    Ages(OrElse(min, exact), OrElse(max, exact), min.Some? || max.Some? || exact.Some? || isYoung)
  }

  method MergeAges(m: Found) returns (r: Ages)
    ensures r == AgesOf(m)
  {
    r := Ages(None, None, false);
    if m.between.Some? {
      var lo, hi := LooseInt(m.between.value.0), LooseInt(m.between.value.1);
      if lo > hi {
        lo, hi := hi, lo;
      }
      r := Ages(Some(lo), Some(hi), true);
    } else if m.dashed.Some? {
      var lo, hi := LooseInt(m.dashed.value.0), LooseInt(m.dashed.value.1);
      if lo > hi {
        lo, hi := hi, lo;
      }
      r := Ages(Some(lo), Some(hi), true);
    }
    if m.above.Some? && Atoi(m.above.value).Value? {
      r := r.(min := Some(Atoi(m.above.value).n), matched := true);
    }
    if m.below.Some? && Atoi(m.below.value).Value? {
      r := r.(max := Some(Atoi(m.below.value).n), matched := true);
    }
    if m.occurs("young") {
      if r.min.None? {
        r := r.(min := Some(16));
      }
      if r.max.None? {
        r := r.(max := Some(24));
      }
      r := r.(matched := true);
    }
    if m.occurs("old") && r.min.None? {
      r := r.(min := Some(60), matched := true);
    }
    if m.exact.Some? && r.min.None? && r.max.None? && Atoi(m.exact.value).Value? {
      r := Ages(Some(Atoi(m.exact.value).n), Some(Atoi(m.exact.value).n), true);
    }
  }

  // ----- the parser ---------------------------------------------------------------------------------

  datatype ParsedQuery = ParsedQuery(filter: ListFilter, matched: bool)

  const AGE_GROUP_ALIASES: map<string, string> := map[
    "child" := "child", "children" := "child", "kid" := "child", "kids" := "child",
    "teenager" := "teenager", "teenagers" := "teenager", "teen" := "teenager", "teens" := "teenager",
    "adult" := "adult", "adults" := "adult",
    "senior" := "senior", "seniors" := "senior", "elder" := "senior", "elders" := "senior", "elderly" := "senior"]

  const COUNTRY_ALIASES: map<string, string> := map[
    "usa" := "US", "u.s.a" := "US", "u.s.a." := "US", "u.s." := "US", "us" := "US", "america" := "US",
    "uk" := "GB", "u.k." := "GB", "britain" := "GB", "great britain" := "GB", "england" := "GB",
    "ivory coast" := "CI", "drc" := "CD", "congo kinshasa" := "CD", "congo brazzaville" := "CG",
    "sao tome" := "ST", "cape verde" := "CV", "swaziland" := "SZ"]

  function GenderOf(m: Found): string {
    if m.male && !m.female then "male" else if m.female && !m.male then "female" else ""
  }

  // The result, given the age group and country chosen.
  function Interpret(m: Found, group: Option<string>, country: string): ParsedQuery {
    var ages := AgesOf(m);
    if m.blank || (ages.min.Some? && ages.max.Some? && ages.min.value > ages.max.value)
    then ParsedQuery(NO_FILTER, false)
    else
      ParsedQuery(
        NO_FILTER.(gender := GenderOf(m), ageGroup := if group.Some? then group.value else "", countryId := country,
               minAge := ages.min, maxAge := ages.max),
        m.male || m.female || group.Some? || ages.matched || country != "")
  }

  // A table's longest matching keys lead to v; None when no key matches.
  ghost predicate ChosenFrom(table: map<string, string>, occurs: Occurs, v: Option<string>) {
    match v
    case None => forall k :: k in table ==> !occurs(k)
    case Some(x) => exists k :: k in table && table[k] == x && occurs(k)
                                && forall b :: b in table && occurs(b) ==> |b| <= |k|
  }

  function TargetIn(table: map<string, string>): string -> string {
    k => if k in table then table[k] else ""
  }

  // The keys of a map, each once, in some order.
  ghost predicate Enumerates(s: seq<string>, table: map<string, string>) {
    multiset(s) == multiset(table.Keys)
  }

  lemma EnumeratedKeys(s: seq<string>, table: map<string, string>)
    requires Enumerates(s, table)
    ensures forall k :: k in s <==> k in table
  {
    assert forall k :: k in s <==> k in multiset(s);
  }

  // Every order of the keys chooses a value that ChosenFrom admits,
  lemma EveryOrderChooses(s: seq<string>, table: map<string, string>, occurs: Occurs)
    requires Enumerates(s, table)
    ensures ChosenFrom(table, occurs, Targeted(s, occurs, TargetIn(table)))
  {
    hide Choose;
    EnumeratedKeys(s, table);
    ChoiceIsLongest(s, occurs);
  }

  // and every value it admits is chosen under some order.
  lemma SomeOrderChooses(s: seq<string>, table: map<string, string>, occurs: Occurs, v: Option<string>)
    returns (t: seq<string>)
    requires Enumerates(s, table) && ChosenFrom(table, occurs, v)
    ensures Enumerates(t, table) && Targeted(t, occurs, TargetIn(table)) == v
  {
    hide Choose;
    EnumeratedKeys(s, table);
    match v
    case None =>
      t := s;
      ChoiceIsLongest(s, occurs);
    case Some(x) =>
      var k :| k in table && table[k] == x && occurs(k) && forall b :: b in table && occurs(b) ==> |b| <= |k|;
      t := AnyLongestCanBeChosen(s, occurs, k);
  }

  // The lower-cased name of a country leads to one of the codes that bear it.
  ghost predicate ChosenByName(codeToName: map<string, string>, occurs: Occurs, v: Option<string>) {
    match v
    case None => forall c :: c in codeToName ==> !occurs(ToLower(codeToName[c]))
    case Some(x) => x in codeToName && occurs(ToLower(codeToName[x]))
                    && forall c :: c in codeToName && occurs(ToLower(codeToName[c])) ==>
                         |codeToName[c]| <= |codeToName[x]|
  }

  function IsoCode(m: Found, codeToName: map<string, string>): string {
    if m.iso.Some? && m.iso.value in codeToName then m.iso.value else ""
  }

  // The country code: the longest alias, else the longest country name, else a two-letter code.
  ghost predicate CountryChosen(m: Found, codeToName: map<string, string>, country: string) {
    if exists k :: k in COUNTRY_ALIASES && m.occurs(k) then ChosenFrom(COUNTRY_ALIASES, m.occurs, Some(country))
    else NamedCountry(m, codeToName, country)
  }

  ghost predicate NamedCountry(m: Found, codeToName: map<string, string>, country: string) {
    exists name :: ChosenByName(codeToName, m.occurs, name)
      && country == if name.Some? && name.value != "" then name.value else IsoCode(m, codeToName)
  }

  // keys(m): the keys in no particular order.
  method Keys(table: map<string, string>) returns (ks: array<string>)
    ensures fresh(ks) && Enumerates(ks[..], table)
  {
    var todo := table.Keys;
    var s: seq<string> := [];
    while todo != {}
      invariant todo <= table.Keys && multiset(s) + multiset(todo) == multiset(table.Keys)
    {
      var k :| k in todo;
      s := s + [k];
      todo := todo - {k};
    }
    ks := new string[|s|](i requires 0 <= i < |s| => s[i]);
    assert ks[..] == s;
  }

  // walk is the order in which the map happened to be enumerated.
  method Lookup(table: map<string, string>, occurs: Occurs) returns (v: Option<string>, ghost walk: seq<string>)
    ensures Enumerates(walk, table) && v == Targeted(walk, occurs, TargetIn(table))
    ensures ChosenFrom(table, occurs, v)
  {
    var ks := Keys(table);
    walk := ks[..];
    SortByLenDesc(ks);
    var first := FindFirst(ks, occurs);
    assert first == Choose(walk, occurs);
    hide Choose;
    EnumeratedKeys(walk, table);
    ChoiceIsLongest(walk, occurs);
    EveryOrderChooses(walk, table, occurs);
    if first.None? {
      return None, walk;
    }
    v := Some(table[first.value]);
  }

  // ----- country names ------------------------------------------------------------------------------

  function NameOf(codeToName: map<string, string>, code: string): string {
    if code in codeToName then ToLower(codeToName[code]) else ""
  }

  function NamesOf(codeToName: map<string, string>, walk: seq<string>): (names: seq<string>)
    ensures |names| == |walk|
  {
    seq(|walk|, i requires 0 <= i < |walk| => NameOf(codeToName, walk[i]))
  }

  // The code each lower-cased name leads to after a walk over the codes: a repeated name keeps the code met last.
  function CodesByName(codeToName: map<string, string>, walk: seq<string>): map<string, string> {
    if walk == [] then map[]
    else
      var (init, c) := (walk[..|walk| - 1], walk[|walk| - 1]);
      CodesByName(codeToName, init)[NameOf(codeToName, c) := c]
  }

  // What a walk over the codes chooses.
  function NameChoice(codeToName: map<string, string>, walk: seq<string>, occurs: Occurs): Option<string> {
    Targeted(NamesOf(codeToName, walk), occurs, TargetIn(CodesByName(codeToName, walk)))
  }

  lemma {:induction false} CodesByNameLead(codeToName: map<string, string>, walk: seq<string>)
    ensures forall n :: n in CodesByName(codeToName, walk) <==> n in NamesOf(codeToName, walk)
    ensures forall n :: n in CodesByName(codeToName, walk) ==>
              CodesByName(codeToName, walk)[n] in walk && NameOf(codeToName, CodesByName(codeToName, walk)[n]) == n
  {
    if walk != [] {
      var init := walk[..|walk| - 1];
      CodesByNameLead(codeToName, init);
      assert NamesOf(codeToName, walk) == NamesOf(codeToName, init) + [NameOf(codeToName, walk[|walk| - 1])];
    }
  }

  // Filling the two tables along a walk, then sorting the names and taking the first that occurs.
  method LookupName(codeToName: map<string, string>, occurs: Occurs)
    returns (v: Option<string>, ghost walk: seq<string>)
    ensures Enumerates(walk, codeToName) && v == NameChoice(codeToName, walk, occurs)
    ensures ChosenByName(codeToName, occurs, v)
  {
    hide Choose, ChosenByName, CodesByName, NamesOf, NameOf, NameChoice;
    StartOfWalk(codeToName);
    var todo := codeToName.Keys;
    var names: seq<string> := [];
    var lowerToCode: map<string, string> := map[];
    walk := [];
    while todo != {}
      invariant todo <= codeToName.Keys && multiset(walk) + multiset(todo) == multiset(codeToName.Keys)
      invariant names == NamesOf(codeToName, walk) && lowerToCode == CodesByName(codeToName, walk)
    {
      var c :| c in todo;
      todo := todo - {c};
      var ln := ToLower(codeToName[c]);
      names := names + [ln];
      lowerToCode := lowerToCode[ln := c];
      NextCode(codeToName, walk, c);
      walk := walk + [c];
    }
    var a := new string[|names|](i requires 0 <= i < |names| => names[i]);
    assert a[..] == names;
    SortByLenDesc(a);
    var first := FindFirst(a, occurs);
    EveryWalkChooses(codeToName, walk, occurs);
    assert first == Choose(names, occurs) by {
      ChoiceIs(names, occurs);
    }
    if first.None? {
      NameChoiceIs(codeToName, walk, occurs);
      return None, walk;
    }
    ChoiceIsLongest(names, occurs);
    CodesByNameLead(codeToName, walk);
    v := Some(lowerToCode[first.value]);
    NameChoiceIs(codeToName, walk, occurs);
  }

  lemma StartOfWalk(codeToName: map<string, string>)
    ensures NamesOf(codeToName, []) == [] && CodesByName(codeToName, []) == map[]
  {
  }

  lemma NextCode(codeToName: map<string, string>, walk: seq<string>, c: string)
    requires c in codeToName
    ensures NamesOf(codeToName, walk + [c]) == NamesOf(codeToName, walk) + [ToLower(codeToName[c])]
    ensures CodesByName(codeToName, walk + [c]) == CodesByName(codeToName, walk)[ToLower(codeToName[c]) := c]
  {
    hide ToLower;
    assert (walk + [c])[..|walk|] == walk;
  }

  lemma NameChoiceIs(codeToName: map<string, string>, walk: seq<string>, occurs: Occurs)
    ensures var first := Choose(NamesOf(codeToName, walk), occurs);
            var codes := CodesByName(codeToName, walk);
            NameChoice(codeToName, walk, occurs) ==
            if first.None? then None else Some(if first.value in codes then codes[first.value] else "")
  {
    hide Choose, CodesByName;
  }

  lemma ChoiceIs(s: seq<string>, occurs: Occurs)
    ensures Choose(s, occurs) == FirstMatch(SortedByLen(s), occurs)
  {
  }

  lemma WalkNames(codeToName: map<string, string>, walk: seq<string>)
    requires Enumerates(walk, codeToName)
    ensures forall c :: c in codeToName ==> ToLower(codeToName[c]) in NamesOf(codeToName, walk)
    ensures forall n :: n in NamesOf(codeToName, walk) ==> exists c :: c in codeToName && ToLower(codeToName[c]) == n
  {
    EnumeratedKeys(walk, codeToName);
    forall c | c in codeToName
      ensures ToLower(codeToName[c]) in NamesOf(codeToName, walk)
    {
      var i :| 0 <= i < |walk| && walk[i] == c;
      assert NamesOf(codeToName, walk)[i] == ToLower(codeToName[c]);
    }
    forall n | n in NamesOf(codeToName, walk)
      ensures exists c :: c in codeToName && ToLower(codeToName[c]) == n
    {
      var i :| 0 <= i < |walk| && NamesOf(codeToName, walk)[i] == n;
      assert walk[i] in codeToName;
    }
  }

  // Every walk chooses a code that ChosenByName admits,
  lemma EveryWalkChooses(codeToName: map<string, string>, walk: seq<string>, occurs: Occurs)
    requires Enumerates(walk, codeToName)
    ensures ChosenByName(codeToName, occurs, NameChoice(codeToName, walk, occurs))
  {
    hide Choose, CodesByName, ToLower;
    var names := NamesOf(codeToName, walk);
    EnumeratedKeys(walk, codeToName);
    WalkNames(codeToName, walk);
    CodesByNameLead(codeToName, walk);
    ChoiceIsLongest(names, occurs);
  }

  // The codes that bear a name, and the others.
  lemma {:induction false} SplitByName(codeToName: map<string, string>, s: seq<string>, name: string)
    returns (a: seq<string>, b: seq<string>)
    ensures multiset(a) + multiset(b) == multiset(s)
    ensures forall c :: c in a ==> NameOf(codeToName, c) == name
    ensures forall c :: c in b ==> NameOf(codeToName, c) != name
  {
    hide NameOf;
    if s == [] {
      a, b := [], [];
    } else {
      assert s == [s[0]] + s[1..];
      a, b := SplitByName(codeToName, s[1..], name);
      if NameOf(codeToName, s[0]) == name {
        a := [s[0]] + a;
      } else {
        b := [s[0]] + b;
      }
    }
  }

  lemma {:induction false} LastOfNameWins(codeToName: map<string, string>, a: seq<string>, x: string, b: seq<string>)
    requires forall c :: c in b ==> NameOf(codeToName, c) != NameOf(codeToName, x)
    ensures NameOf(codeToName, x) in CodesByName(codeToName, a + [x] + b)
    ensures CodesByName(codeToName, a + [x] + b)[NameOf(codeToName, x)] == x
  {
    var walk := a + [x] + b;
    if b == [] {
      assert walk == a + [x];
    } else {
      assert walk[..|walk| - 1] == a + [x] + b[..|b| - 1];
      LastOfNameWins(codeToName, a, x, b[..|b| - 1]);
    }
  }

  // and every code it admits is chosen by some walk: one that meets the codes of that name first, the code
  // itself last among them.
  lemma SomeWalkChooses(codeToName: map<string, string>, s: seq<string>, occurs: Occurs, v: Option<string>)
    returns (walk: seq<string>)
    requires Enumerates(s, codeToName) && ChosenByName(codeToName, occurs, v)
    ensures Enumerates(walk, codeToName) && NameChoice(codeToName, walk, occurs) == v
  {
    hide Choose, CodesByName, ToLower;
    WalkNames(codeToName, s);
    match v
    case None =>
      walk := s;
      ChoiceIsLongest(NamesOf(codeToName, s), occurs);
    case Some(x) =>
      walk := NamesakesFirst(codeToName, s, x);
      WalkNames(codeToName, walk);
      FirstLongestIsChosen(NamesOf(codeToName, walk), occurs, NameOf(codeToName, x));
  }

  lemma Regrouped(s: seq<string>, i: nat, a: seq<string>, b: seq<string>)
    requires i < |s| && multiset(a) + multiset(b) == multiset(s[..i] + s[i + 1..])
    ensures multiset(a + [s[i]] + b) == multiset(s)
  {
    var (x, before, after) := (s[i], s[..i], s[i + 1..]);
    assert s == before + [x] + after;
    assert multiset(before + after) == multiset(before) + multiset(after);
    assert multiset(before + [x] + after) == multiset(before) + multiset{x} + multiset(after);
    assert multiset(a + [x] + b) == (multiset(a) + multiset(b)) + multiset{x};
  }

  lemma NamesakesFirst(codeToName: map<string, string>, s: seq<string>, x: string) returns (walk: seq<string>)
    requires Enumerates(s, codeToName) && x in codeToName
    ensures Enumerates(walk, codeToName) && walk != []
    ensures NamesOf(codeToName, walk)[0] == NameOf(codeToName, x)
    ensures NameOf(codeToName, x) in CodesByName(codeToName, walk)
    ensures CodesByName(codeToName, walk)[NameOf(codeToName, x)] == x
  {
    hide CodesByName, NameOf;
    EnumeratedKeys(s, codeToName);
    var i :| 0 <= i < |s| && s[i] == x;
    assert s == s[..i] + [x] + s[i + 1..];
    var a, b := SplitByName(codeToName, s[..i] + s[i + 1..], NameOf(codeToName, x));
    walk := a + [x] + b;
    Regrouped(s, i, a, b);
    LastOfNameWins(codeToName, a, x, b);
    assert if a == [] then walk[0] == x else walk[0] == a[0];
  }

  // The country named is the same for every order of walking the table exactly when just one code bears a
  // longest name that occurs, or none does.
  lemma NameOrderIndependentIff(codeToName: map<string, string>, s: seq<string>, occurs: Occurs)
    requires Enumerates(s, codeToName)
    ensures (forall walk :: Enumerates(walk, codeToName) ==>
               NameChoice(codeToName, walk, occurs) == NameChoice(codeToName, s, occurs)) <==>
            (forall x, y ::
               ChosenByName(codeToName, occurs, Some(x)) && ChosenByName(codeToName, occurs, Some(y)) ==> x == y)
  {
    hide NameChoice, ToLower, Enumerates;
    if x, y :| ChosenByName(codeToName, occurs, Some(x)) && ChosenByName(codeToName, occurs, Some(y)) && x != y {
      var t := SomeWalkChooses(codeToName, s, occurs, Some(x));
      var u := SomeWalkChooses(codeToName, s, occurs, Some(y));
      assert NameChoice(codeToName, t, occurs) != NameChoice(codeToName, u, occurs);
    } else {
      EveryWalkChooses(codeToName, s, occurs);
      forall walk | Enumerates(walk, codeToName)
        ensures NameChoice(codeToName, walk, occurs) == NameChoice(codeToName, s, occurs)
      {
        EveryWalkChooses(codeToName, walk, occurs);
      }
    }
  }

  lemma CountryAliasesLead(k: string)
    requires k in COUNTRY_ALIASES
    ensures |COUNTRY_ALIASES[k]| == 2 && IsUpperAlpha(COUNTRY_ALIASES[k])
  {
  }

  method FindCountry(m: Found, codeToName: map<string, string>) returns (code: string)
    ensures CountryChosen(m, codeToName, code)
  {
    code := "";
    var alias, _ := Lookup(COUNTRY_ALIASES, m.occurs);
    if alias.Some? {
      code := alias.value;
      ghost var k :| k in COUNTRY_ALIASES && COUNTRY_ALIASES[k] == code;
      CountryAliasesLead(k);
    }
    if code == "" {
      var name, _ := LookupName(codeToName, m.occurs);
      code := if name.Some? then name.value else "";
      if code == "" {
        code := IsoCode(m, codeToName);
      }
      assert NamedCountry(m, codeToName, code);
    }
  }

  method ParseGender(m: Found) returns (f: ListFilter, matched: bool)
    ensures f == NO_FILTER.(gender := GenderOf(m)) && matched == (m.male || m.female)
  {
    f, matched := NO_FILTER, false;
    if m.male && !m.female {
      f := f.(gender := "male");
      matched := true;
    } else if m.female && !m.male {
      f := f.(gender := "female");
      matched := true;
    } else if m.male && m.female {
      matched := true;
    }
  }

  // The parser takes the longest alias and the longest country phrase, merges the age phrases, and gives up
  // when nothing matched or the bounds cross.
  method ParseNL(m: Found, codeToName: map<string, string>) returns (r: ParsedQuery)
    ensures exists group, country :: Parses(m, codeToName, group, country, r)
  {
    hide Parses, CountryChosen, ChosenFrom, AgesOf, AGE_GROUP_ALIASES, COUNTRY_ALIASES, Enumerates, Targeted,
      GenderOf;
    if m.blank {
      r := ParsedQuery(NO_FILTER, false);
      BlankParses(m, codeToName);
      return;
    }
    var f, matched := ParseGender(m);
    var group, _ := Lookup(AGE_GROUP_ALIASES, m.occurs);
    if group.Some? {
      f := f.(ageGroup := group.value);
      matched := true;
    }
    var ages := MergeAges(m);
    f := f.(minAge := ages.min, maxAge := ages.max);
    matched := matched || ages.matched;
    var code := FindCountry(m, codeToName);
    if code != "" {
      f := f.(countryId := code);
      matched := true;
    }
    if ages.min.Some? && ages.max.Some? && ages.min.value > ages.max.value {
      r := ParsedQuery(NO_FILTER, false);
    } else {
      r := ParsedQuery(f, matched);
    }
    ParsedAs(m, codeToName, group, code, r);
  }

  lemma BlankParses(m: Found, codeToName: map<string, string>)
    requires m.blank
    ensures Parses(m, codeToName, None, "", ParsedQuery(NO_FILTER, false))
  {
  }

  lemma ParsedAs(m: Found, codeToName: map<string, string>, group: Option<string>, country: string, r: ParsedQuery)
    requires ChosenFrom(AGE_GROUP_ALIASES, m.occurs, group) && CountryChosen(m, codeToName, country)
    requires r == Interpret(m, group, country)
    ensures Parses(m, codeToName, group, country, r)
  {
    hide CountryChosen, ChosenFrom, Interpret;
  }

  ghost predicate Parses(m: Found, codeToName: map<string, string>, group: Option<string>, country: string,
                         r: ParsedQuery)
  {
    && (m.blank || (ChosenFrom(AGE_GROUP_ALIASES, m.occurs, group) && CountryChosen(m, codeToName, country)))
    && r == Interpret(m, group, country)
  }

  // ----- what a search request hands on ---------------------------------------------------------------

  // The bounds of an interpreted query never cross.
  lemma BoundsNeverCross(m: Found, group: Option<string>, country: string)
    ensures !NoAgeFits(Interpret(m, group, country).filter)
  {
  }

  // The two ends of a range may be given in either order.
  lemma RangeOrderIgnored(m: Found, a: string, b: string, group: Option<string>, country: string)
    ensures Interpret(m.(between := Some((a, b))), group, country) ==
            Interpret(m.(between := Some((b, a))), group, country)
  {
    assert AgesOf(m.(between := Some((a, b)))) == AgesOf(m.(between := Some((b, a))));
  }

  // "young" with no other age phrase means the range 16-24, so the two phrasings share a cache entry.
  lemma YoungMeansRange(m: Found, n: Found, group: Option<string>, country: string, prefix: string)
    requires m.occurs("young") && m.between == m.dashed == None && m.above == m.below == None
    requires !n.occurs("young") && !n.occurs("old") && n.between == None && n.above == n.below == None
    requires n.dashed == Some(("16", "24"))
    requires m.blank == n.blank && m.male == n.male && m.female == n.female
    ensures Interpret(m, group, country) == Interpret(n, group, country)
    ensures Canonical(Interpret(m, group, country).filter, prefix) ==
            Canonical(Interpret(n, group, country).filter, prefix)
  {
    assert FormatNat(16) == "16" && FormatNat(24) == "24" by {
      assert FormatNat(1) == "1" && FormatNat(2) == "2";
    }
    AtoiFormatInt(16);
    AtoiFormatInt(24);
    assert Ordered(("16", "24")) == Ages(Some(16), Some(24), true);
    assert AgesOf(m) == Ages(Some(16), Some(24), true) == AgesOf(n);
  }

  // The country table built from the seed data is keyed by two-letter codes.
  ghost predicate SeedCodes(codeToName: map<string, string>) {
    forall c :: c in codeToName ==> |c| == 2 && IsUpperAlpha(c)
  }

  function SearchFilter(parsed: ParsedQuery, q: Params): ListFilter
    requires PagingAccepted(q)
  {
    parsed.filter.(page := PageArg(q), limit := LimitArg(q), sortBy := Arg(q, "sort_by"),
                   order := ToLower(Arg(q, "order")))
  }

  // A search is paged and sorted as a list request is, and selects by what its text was understood to ask for.
  lemma SearchSelects(parsed: ParsedQuery, q: Params, rows: seq<Profile>, p: Profile)
    requires PagingAccepted(q) && IsTable(rows)
    requires parsed.filter.minGenderProb == parsed.filter.minCountryProb == None
    ensures PagedAs(q, SearchFilter(parsed, q))
    ensures var f := parsed.filter;
            p in AllMatching(rows, SearchFilter(parsed, q)) <==>
            && p in rows
            && (f.gender != "" ==> SameUpToCase(p.gender, f.gender))
            && (f.countryId != "" ==> SameUpToCase(p.countryId, f.countryId))
            && (f.ageGroup != "" ==> SameUpToCase(p.ageGroup, f.ageGroup))
            && (f.minAge.Some? ==> f.minAge.value <= p.age) && (f.maxAge.Some? ==> p.age <= f.maxAge.value)
  {
    var f := parsed.filter;
    ArgsPage(q, SearchFilter(parsed, q));
    AllMatchingIsSortedSelection(rows, SearchFilter(parsed, q));
    FoldedAlikeIff(p.gender, f.gender);
    FoldedAlikeIff(p.countryId, f.countryId);
    FoldedAlikeIff(p.ageGroup, f.ageGroup);
    hide AllMatching, RowOrder, IsTable, SameUpToCase, ToLower, ToUpper, PagedAs, PagingAccepted, Arg;
  }

  // What ParseNL can return, over every order in which Go may walk its maps.
  ghost predicate ParseResult(m: Found, codeToName: map<string, string>, r: ParsedQuery) {
    exists group, country :: Parses(m, codeToName, group, country, r)
  }

  lemma GroupAliasesLead(k: string)
    requires k in AGE_GROUP_ALIASES
    ensures IsAgeGroup(AGE_GROUP_ALIASES[k])
  {
  }

  lemma ChosenCountryIsCode(m: Found, codeToName: map<string, string>, country: string)
    requires CountryChosen(m, codeToName, country) && SeedCodes(codeToName)
    ensures country == "" || (|country| == 2 && IsUpperAlpha(country))
  {
    hide COUNTRY_ALIASES;
    if exists k :: k in COUNTRY_ALIASES && m.occurs(k) {
      var k :| k in COUNTRY_ALIASES && COUNTRY_ALIASES[k] == country;
      CountryAliasesLead(k);
    }
  }

  lemma ChosenGroupIsValid(m: Found, group: Option<string>)
    requires ChosenFrom(AGE_GROUP_ALIASES, m.occurs, group)
    ensures group.Some? ==> IsAgeGroup(group.value)
  {
    hide AGE_GROUP_ALIASES;
    if group.Some? {
      var k :| k in AGE_GROUP_ALIASES && AGE_GROUP_ALIASES[k] == group.value;
      GroupAliasesLead(k);
    }
  }

  lemma InterpretedFields(m: Found, group: Option<string>, country: string)
    ensures var f := Interpret(m, group, country).filter;
            && (f.gender == "" || IsGender(f.gender))
            && (f.ageGroup == "" || (!m.blank && group == Some(f.ageGroup)))
            && (f.countryId == "" || (!m.blank && f.countryId == country))
            && f.minGenderProb == f.minCountryProb == None
  {
    hide AgesOf;
  }

  // The filter a search request hands to the cache and the store is as well-formed as a list request's.
  lemma SearchIsValidated(m: Found, codeToName: map<string, string>, r: ParsedQuery, q: Params)
    requires ParseResult(m, codeToName, r) && SeedCodes(codeToName)
    requires SortAccepted(q) && PagingAccepted(q)
    ensures Validated(SearchFilter(r, q)) && SixDecimals(SearchFilter(r, q))
  {
    hide Interpret, CountryChosen, ChosenFrom, Arg, Atoi;
    var group, country :| Parses(m, codeToName, group, country, r);
    AtoiInRange(Arg(q, "page"));
    AtoiInRange(Arg(q, "limit"));
    InterpretedFields(m, group, country);
    if !m.blank {
      ChosenCountryIsCode(m, codeToName, country);
      ChosenGroupIsValid(m, group);
    }
  }

  lemma EqualLengthsTie(table: map<string, string>, occurs: Occurs, a: string, b: string)
    requires a in table && b in table && |a| == |b|
    requires forall k :: k in table ==> (occurs(k) <==> k == a || k == b)
    ensures ChosenFrom(table, occurs, Some(table[a])) && ChosenFrom(table, occurs, Some(table[b]))
  {
    assert occurs(a) && occurs(b);
  }

  lemma KidsAndTeens()
    ensures "kids" in AGE_GROUP_ALIASES && AGE_GROUP_ALIASES["kids"] == "child"
    ensures "teen" in AGE_GROUP_ALIASES && AGE_GROUP_ALIASES["teen"] == "teenager"
  {
  }

  // The real alias table is not always unambiguous: with just "kids" and "teen" in the text, the age group
  // depends on the order in which Go happens to walk the map. Some order chooses each.
  lemma AliasTie(occurs: Occurs, s: seq<string>) returns (t: seq<string>, u: seq<string>)
    requires Enumerates(s, AGE_GROUP_ALIASES)
    requires forall k :: k in AGE_GROUP_ALIASES ==> (occurs(k) <==> k == "kids" || k == "teen")
    ensures Enumerates(t, AGE_GROUP_ALIASES) && Targeted(t, occurs, TargetIn(AGE_GROUP_ALIASES)) == Some("child")
    ensures Enumerates(u, AGE_GROUP_ALIASES) && Targeted(u, occurs, TargetIn(AGE_GROUP_ALIASES)) == Some("teenager")
  {
    hide AGE_GROUP_ALIASES, ChosenFrom, Enumerates, Targeted, TargetIn;
    KidsAndTeens();
    assert |"kids"| == |"teen"|;
    EqualLengthsTie(AGE_GROUP_ALIASES, occurs, "kids", "teen");
    t := SomeOrderChooses(s, AGE_GROUP_ALIASES, occurs, Some("child"));
    u := SomeOrderChooses(s, AGE_GROUP_ALIASES, occurs, Some("teenager"));
  }

  // ----- what the phrases mean -------------------------------------------------------------------------

  // The bounds of a text cross, and it is not interpreted at all.
  predicate Uninterpreted(m: Found) {
    m.blank || (AgesOf(m).min.Some? && AgesOf(m).max.Some? && AgesOf(m).min.value > AgesOf(m).max.value)
  }

  predicate GivesNumber(s: Option<string>) {
    s.Some? && Atoi(s.value).Value?
  }

  // The two ends of the range in the text, "between" before a dash.
  function RangeEnds(m: Found): Option<(string, string)> {
    if m.between.Some? then m.between else m.dashed
  }

  lemma MatchedIsInterpreted(m: Found, codeToName: map<string, string>, r: ParsedQuery)
    returns (group: Option<string>, country: string)
    requires ParseResult(m, codeToName, r) && r.matched
    ensures ChosenFrom(AGE_GROUP_ALIASES, m.occurs, group) && CountryChosen(m, codeToName, country)
    ensures !m.blank && r == Interpret(m, group, country)
    ensures r.filter.minAge == AgesOf(m).min && r.filter.maxAge == AgesOf(m).max
  {
    hide AgesOf, ChosenFrom, CountryChosen, AGE_GROUP_ALIASES;
    group, country :| Parses(m, codeToName, group, country, r);
  }

  // An explicit limit sets its own bound, whatever else the text says.
  lemma LimitsSetBounds(m: Found, codeToName: map<string, string>, r: ParsedQuery, n: int)
    requires ParseResult(m, codeToName, r) && r.matched
    ensures m.above.Some? && Atoi(m.above.value) == Value(n) ==> r.filter.minAge == Some(n)
    ensures m.below.Some? && Atoi(m.below.value) == Value(n) ==> r.filter.maxAge == Some(n)
  {
    var _, _ := MatchedIsInterpreted(m, codeToName, r);
    hide Interpret, ParseResult, Atoi;
  }

  // A range sets the bounds no explicit limit sets, the smaller number below.
  lemma RangeSetsBounds(m: Found, codeToName: map<string, string>, r: ParsedQuery, x: int, y: int)
    requires ParseResult(m, codeToName, r) && r.matched && RangeEnds(m).Some?
    requires Atoi(RangeEnds(m).value.0) == Value(x) && Atoi(RangeEnds(m).value.1) == Value(y)
    ensures !GivesNumber(m.above) ==> r.filter.minAge == Some(if x <= y then x else y)
    ensures !GivesNumber(m.below) ==> r.filter.maxAge == Some(if x <= y then y else x)
  {
    var _, _ := MatchedIsInterpreted(m, codeToName, r);
    hide Interpret, ParseResult, Atoi;
  }

  // "young" is 16 to 24 and "old" is from 60, where nothing above says otherwise; "young" comes first.
  lemma WordsFillGaps(m: Found, codeToName: map<string, string>, r: ParsedQuery)
    requires ParseResult(m, codeToName, r) && r.matched && RangeEnds(m).None?
    ensures m.occurs("young") && !GivesNumber(m.above) ==> r.filter.minAge == Some(16)
    ensures m.occurs("young") && !GivesNumber(m.below) ==> r.filter.maxAge == Some(24)
    ensures m.occurs("old") && !m.occurs("young") && !GivesNumber(m.above) ==> r.filter.minAge == Some(60)
    ensures !m.occurs("young") && !GivesNumber(m.below) && (m.occurs("old") || GivesNumber(m.above)) ==>
              r.filter.maxAge == None
  {
    var _, _ := MatchedIsInterpreted(m, codeToName, r);
    hide Interpret, ParseResult, Atoi;
  }

  // An exact age sets both bounds when nothing else was said about age; with nothing said at all there are none.
  lemma ExactAgeAlone(m: Found, codeToName: map<string, string>, r: ParsedQuery)
    requires ParseResult(m, codeToName, r) && r.matched && RangeEnds(m).None?
    requires !GivesNumber(m.above) && !GivesNumber(m.below) && !m.occurs("young") && !m.occurs("old")
    ensures GivesNumber(m.exact) ==> r.filter.minAge == r.filter.maxAge == Some(Atoi(m.exact.value).n)
    ensures !GivesNumber(m.exact) ==> r.filter.minAge == r.filter.maxAge == None
  {
    var _, _ := MatchedIsInterpreted(m, codeToName, r);
    hide Interpret, ParseResult, Atoi;
  }

  // A text that asks for one gender only gets it; naming both, or none, asks for neither.
  lemma GenderAsked(m: Found, codeToName: map<string, string>, r: ParsedQuery)
    requires ParseResult(m, codeToName, r) && r.matched
    ensures m.male && !m.female ==> r.filter.gender == "male"
    ensures m.female && !m.male ==> r.filter.gender == "female"
    ensures m.male == m.female ==> r.filter.gender == ""
  {
    var _, _ := MatchedIsInterpreted(m, codeToName, r);
    hide AgesOf, ParseResult;
  }

  // The age group is that of a longest alias in the text, and none without one; the country is the one chosen.
  lemma GroupAndCountryAsked(m: Found, codeToName: map<string, string>, r: ParsedQuery)
    requires ParseResult(m, codeToName, r) && r.matched
    ensures CountryChosen(m, codeToName, r.filter.countryId)
    ensures ChosenFrom(AGE_GROUP_ALIASES, m.occurs, if r.filter.ageGroup == "" then None else Some(r.filter.ageGroup))
    ensures r.filter.minGenderProb == r.filter.minCountryProb == None
  {
    hide AgesOf, ParseResult, CountryChosen, ChosenFrom, AGE_GROUP_ALIASES;
    var group, country := MatchedIsInterpreted(m, codeToName, r);
    ChosenGroupIsValid(m, group);
  }

  // A text is understood exactly when it is not blank, its bounds do not cross, and something in it was found.
  lemma MatchedIff(m: Found, codeToName: map<string, string>, r: ParsedQuery)
    requires ParseResult(m, codeToName, r)
    ensures r.matched <==>
            !Uninterpreted(m) &&
            (m.male || m.female || (exists k :: k in AGE_GROUP_ALIASES && m.occurs(k)) || RangeEnds(m).Some?
             || GivesNumber(m.above) || GivesNumber(m.below) || m.occurs("young") || m.occurs("old")
             || GivesNumber(m.exact)
             || exists c :: c != "" && CountryChosen(m, codeToName, c) && r.filter.countryId == c)
    ensures !r.matched && Uninterpreted(m) ==> r.filter == NO_FILTER
  {
    hide ChosenFrom, CountryChosen, AGE_GROUP_ALIASES, Atoi;
    var group, country :| Parses(m, codeToName, group, country, r);
    if !m.blank {
      GroupMatchesIff(m, group);
    }
    AgePhraseIff(m);
    hide AgesOf;
  }

  lemma GroupMatchesIff(m: Found, group: Option<string>)
    requires ChosenFrom(AGE_GROUP_ALIASES, m.occurs, group)
    ensures group.Some? <==> exists k :: k in AGE_GROUP_ALIASES && m.occurs(k)
  {
    hide AGE_GROUP_ALIASES;
  }

  lemma AgePhraseIff(m: Found)
    ensures AgesOf(m).matched <==>
            RangeEnds(m).Some? || GivesNumber(m.above) || GivesNumber(m.below) || m.occurs("young") || m.occurs("old")
            || GivesNumber(m.exact)
  {
    hide Atoi;
  }

  // A lower limit over the upper one leaves nothing to ask for.
  lemma CrossedLimits(m: Found, codeToName: map<string, string>, r: ParsedQuery, low: int, high: int)
    requires ParseResult(m, codeToName, r) && m.above.Some? && m.below.Some?
    requires Atoi(m.above.value) == Value(low) && Atoi(m.below.value) == Value(high) && low > high
    ensures r == ParsedQuery(NO_FILTER, false)
  {
    hide ChosenFrom, CountryChosen, AGE_GROUP_ALIASES, Atoi;
    var group, country :| Parses(m, codeToName, group, country, r);
  }

  // A country alias in the text decides the country: that of a longest one.
  lemma AliasDecidesCountry(m: Found, codeToName: map<string, string>, r: ParsedQuery, k: string)
    requires ParseResult(m, codeToName, r) && r.matched && k in COUNTRY_ALIASES && m.occurs(k)
    ensures exists j :: j in COUNTRY_ALIASES && m.occurs(j) && |j| >= |k| && r.filter.countryId == COUNTRY_ALIASES[j]
  {
    hide COUNTRY_ALIASES, AGE_GROUP_ALIASES, ParseResult, CountryChosen, ChosenFrom;
    GroupAndCountryAsked(m, codeToName, r);
    CountryByAlias(m, codeToName, r.filter.countryId, k);
    LongestLeads(COUNTRY_ALIASES, m.occurs, r.filter.countryId, k);
  }

  // Without an alias it is a country whose name stands in the text, none with a longer one; and without either, the
  // two-letter code, when it is a known one.
  lemma NameDecidesCountry(m: Found, codeToName: map<string, string>, r: ParsedQuery, c: string)
    requires ParseResult(m, codeToName, r) && r.matched && forall k :: k in COUNTRY_ALIASES ==> !m.occurs(k)
    requires c in codeToName && m.occurs(ToLower(codeToName[c])) && "" !in codeToName
    ensures var x := r.filter.countryId;
            x in codeToName && m.occurs(ToLower(codeToName[x])) && |codeToName[x]| >= |codeToName[c]|
  {
    hide COUNTRY_ALIASES, AGE_GROUP_ALIASES, ParseResult, ToLower;
    GroupAndCountryAsked(m, codeToName, r);
  }

  lemma CodeDecidesCountry(m: Found, codeToName: map<string, string>, r: ParsedQuery)
    requires ParseResult(m, codeToName, r) && r.matched && forall k :: k in COUNTRY_ALIASES ==> !m.occurs(k)
    requires forall c :: c in codeToName ==> !m.occurs(ToLower(codeToName[c]))
    ensures m.iso.Some? && m.iso.value in codeToName ==> r.filter.countryId == m.iso.value
    ensures m.iso.None? || m.iso.value !in codeToName ==> r.filter.countryId == ""
  {
    hide COUNTRY_ALIASES, AGE_GROUP_ALIASES, ParseResult, ToLower;
    GroupAndCountryAsked(m, codeToName, r);
  }

  lemma CountryByAlias(m: Found, codeToName: map<string, string>, country: string, k: string)
    requires CountryChosen(m, codeToName, country) && k in COUNTRY_ALIASES && m.occurs(k)
    ensures ChosenFrom(COUNTRY_ALIASES, m.occurs, Some(country))
  {
    hide COUNTRY_ALIASES, ChosenFrom, NamedCountry;
  }

  lemma LongestLeads(table: map<string, string>, occurs: Occurs, x: string, k: string)
    requires ChosenFrom(table, occurs, Some(x)) && k in table && occurs(k)
    ensures exists j :: j in table && occurs(j) && |j| >= |k| && x == table[j]
  {
  }

  // ----- links of search requests ----------------------------------------------------------------------

  // A search request is read through its q parameter, which links carry along unchanged.
  function SearchReader(parsed: string -> ParsedQuery): Reader {
    q => if TrimSpace(Get(q, "q")) != "" && parsed(Get(q, "q")).matched && PagingAccepted(q) && SortAccepted(q)
         then Some(SearchFilter(parsed(Get(q, "q")), q)) else None
  }

  lemma SearchReadsLinks(parsed: string -> ParsedQuery, found: string -> Found, codeToName: map<string, string>)
    requires SeedCodes(codeToName)
    requires forall text :: ParseResult(found(text), codeToName, parsed(text))
    ensures ReadsLinks(SearchReader(parsed))
  {
    var read := SearchReader(parsed);
    forall q | read(q).Some?
      ensures Validated(read(q).value)
    {
      SearchIsValidated(found(Get(q, "q")), codeToName, parsed(Get(q, "q")), q);
    }
    forall q, p | read(q).Some? && 1 <= p <= MAX_INT
      ensures read(LinkParams(q, p, read(q).value.limit)) == Some(read(q).value.(page := p))
    {
      SearchIsValidated(found(Get(q, "q")), codeToName, parsed(Get(q, "q")), q);
      SearchLinkReparses(parsed(Get(q, "q")), q, p);
    }
  }

  lemma SearchLinkReparses(r: ParsedQuery, query: Params, page: int)
    requires SortAccepted(query) && PagingAccepted(query) && 1 <= page <= MAX_INT
    requires Validated(SearchFilter(r, query))
    ensures var f := SearchFilter(r, query);
            var q := LinkParams(query, page, f.limit);
            && SortAccepted(q) && PagingAccepted(q) && Get(q, "q") == Get(query, "q")
            && SearchFilter(r, q) == f.(page := page)
  {
    hide LinkParams, Arg, Atoi, ToLower;
    var f := SearchFilter(r, query);
    PageArgsSet(query, page, f.limit);
    OtherArgsKept(query, page, f.limit, "sort_by");
    OtherArgsKept(query, page, f.limit, "order");
    OtherArgsKept(query, page, f.limit, "q");
  }

  // ----- links of tied texts ------------------------------------------------------------------------------

  // Every map can be enumerated,
  lemma {:induction false} SomeEnumeration(keys: set<string>) returns (s: seq<string>)
    ensures multiset(s) == multiset(keys)
  {
    s := [];
    if keys != {} {
      var k :| k in keys;
      var rest := SomeEnumeration(keys - {k});
      s := rest + [k];
      assert multiset(keys) == multiset(keys - {k}) + multiset{k};
    }
  }

  // so some age group and some country are chosen.
  lemma SomethingIsChosen(m: Found, codeToName: map<string, string>) returns (group: Option<string>, country: string)
    ensures ChosenFrom(AGE_GROUP_ALIASES, m.occurs, group) && CountryChosen(m, codeToName, country)
  {
    hide AGE_GROUP_ALIASES, COUNTRY_ALIASES, Targeted, NameChoice, ChosenFrom, ChosenByName;
    var s := SomeEnumeration(AGE_GROUP_ALIASES.Keys);
    EveryOrderChooses(s, AGE_GROUP_ALIASES, m.occurs);
    group := Targeted(s, m.occurs, TargetIn(AGE_GROUP_ALIASES));
    if exists k :: k in COUNTRY_ALIASES && m.occurs(k) {
      var t := SomeEnumeration(COUNTRY_ALIASES.Keys);
      EveryOrderChooses(t, COUNTRY_ALIASES, m.occurs);
      var v := Targeted(t, m.occurs, TargetIn(COUNTRY_ALIASES));
      SomeMatchIsChosen(COUNTRY_ALIASES, m.occurs, v);
      country := v.value;
    } else {
      var t := SomeEnumeration(codeToName.Keys);
      EveryWalkChooses(codeToName, t, m.occurs);
      var name := NameChoice(codeToName, t, m.occurs);
      country := if name.Some? && name.value != "" then name.value else IsoCode(m, codeToName);
    }
  }

  lemma SomeMatchIsChosen(table: map<string, string>, occurs: Occurs, v: Option<string>)
    requires ChosenFrom(table, occurs, v) && exists k :: k in table && occurs(k)
    ensures v.Some?
  {
  }

  // No tie leads to two age groups or two countries.
  ghost predicate Untied(m: Found, codeToName: map<string, string>) {
    && (forall g, h ::
          ChosenFrom(AGE_GROUP_ALIASES, m.occurs, g) && ChosenFrom(AGE_GROUP_ALIASES, m.occurs, h) ==> g == h)
    && (forall c, d :: CountryChosen(m, codeToName, c) && CountryChosen(m, codeToName, d) ==> c == d)
  }

  ghost predicate ParsesAgree(m: Found, codeToName: map<string, string>) {
    forall r, t :: ParseResult(m, codeToName, r) && ParseResult(m, codeToName, t) ==> r.filter == t.filter
  }

  lemma InterpretTells(m: Found, g: Option<string>, c: string, h: Option<string>, d: string)
    requires !Uninterpreted(m) && Interpret(m, g, c).filter == Interpret(m, h, d).filter
    ensures c == d && (g.Some? && h.Some? ==> g == h)
  {
    hide AgesOf;
  }

  lemma UninterpretedIsEmpty(m: Found, g: Option<string>, c: string)
    requires Uninterpreted(m)
    ensures Interpret(m, g, c).filter == NO_FILTER
  {
    hide AgesOf;
  }

  lemma BothSomeOrNone(table: map<string, string>, occurs: Occurs, g: Option<string>, h: Option<string>)
    requires ChosenFrom(table, occurs, g) && ChosenFrom(table, occurs, h)
    ensures g.Some? <==> h.Some?
  {
  }

  // A text has one parse, whatever the order of Go's maps, exactly when it is not interpreted at all or no tie of
  // longest matches leads to two age groups or two countries.
  lemma ParsesAgreeIff(m: Found, codeToName: map<string, string>)
    ensures ParsesAgree(m, codeToName) <==> Uninterpreted(m) || Untied(m, codeToName)
  {
    hide AGE_GROUP_ALIASES, ChosenFrom, CountryChosen, Interpret, Uninterpreted;
    if Uninterpreted(m) {
      forall g, c
        ensures Interpret(m, g, c).filter == NO_FILTER
      {
        UninterpretedIsEmpty(m, g, c);
      }
    } else if ParsesAgree(m, codeToName) {
      AgreeingIsUntied(m, codeToName);
    } else if Untied(m, codeToName) {
      UntiedAgree(m, codeToName);
    }
  }

  lemma UntiedAgree(m: Found, codeToName: map<string, string>)
    requires Untied(m, codeToName) && !Uninterpreted(m)
    ensures ParsesAgree(m, codeToName)
  {
    hide AGE_GROUP_ALIASES, ChosenFrom, CountryChosen, Interpret, AgesOf;
    forall r, t | ParseResult(m, codeToName, r) && ParseResult(m, codeToName, t)
      ensures r.filter == t.filter
    {
      var g, c :| Parses(m, codeToName, g, c, r);
      var h, d :| Parses(m, codeToName, h, d, t);
      assert g == h && c == d;
    }
  }

  lemma ParsedWith(m: Found, codeToName: map<string, string>, g: Option<string>, c: string)
    requires ChosenFrom(AGE_GROUP_ALIASES, m.occurs, g) && CountryChosen(m, codeToName, c)
    ensures ParseResult(m, codeToName, Interpret(m, g, c))
  {
    hide ChosenFrom, CountryChosen, Interpret, AGE_GROUP_ALIASES;
    ParsedAs(m, codeToName, g, c, Interpret(m, g, c));
  }

  lemma AgreeingIsUntied(m: Found, codeToName: map<string, string>)
    requires ParsesAgree(m, codeToName) && !Uninterpreted(m)
    ensures Untied(m, codeToName)
  {
    hide AGE_GROUP_ALIASES, ChosenFrom, CountryChosen, Interpret, Uninterpreted, ParseResult;
    var group, country := SomethingIsChosen(m, codeToName);
    forall g, h | ChosenFrom(AGE_GROUP_ALIASES, m.occurs, g) && ChosenFrom(AGE_GROUP_ALIASES, m.occurs, h)
      ensures g == h
    {
      ParsedWith(m, codeToName, g, country);
      ParsedWith(m, codeToName, h, country);
      InterpretTells(m, g, country, h, country);
      BothSomeOrNone(AGE_GROUP_ALIASES, m.occurs, g, h);
    }
    forall c, d | CountryChosen(m, codeToName, c) && CountryChosen(m, codeToName, d)
      ensures c == d
    {
      ParsedWith(m, codeToName, group, c);
      ParsedWith(m, codeToName, group, d);
      InterpretTells(m, group, c, group, d);
    }
  }

  // The filter of a parse leaves sorting and paging at their zero values.
  lemma ParseSetsNoPaging(m: Found, codeToName: map<string, string>, r: ParsedQuery)
    requires ParseResult(m, codeToName, r)
    ensures r.filter.sortBy == r.filter.order == "" && r.filter.page == r.filter.limit == 0
  {
    hide AgesOf, ChosenFrom, CountryChosen, AGE_GROUP_ALIASES;
  }

  // Each request parses its text anew. A link of a search means the same search at the link's page, whatever the two
  // parses, exactly when the text has one parse.
  lemma SearchLinksReadIff(m: Found, codeToName: map<string, string>, q: Params)
    requires SeedCodes(codeToName) && SortAccepted(q) && PagingAccepted(q)
    ensures (forall r, t, p :: ParseResult(m, codeToName, r) && ParseResult(m, codeToName, t) && 1 <= p <= MAX_INT ==>
               LinkReadsAs(r, t, q, p)) <==>
            ParsesAgree(m, codeToName)
  {
    hide ParseResult, SearchFilter, Arg, LinkParams, Atoi;
    forall r, t, p | ParseResult(m, codeToName, r) && ParseResult(m, codeToName, t) && 1 <= p <= MAX_INT
      ensures LinkReadsAs(r, t, q, p) <==> r.filter == t.filter
    {
      LinkReadsAsIff(m, codeToName, r, t, q, p);
    }
    if forall r, t, p :: ParseResult(m, codeToName, r) && ParseResult(m, codeToName, t) && 1 <= p <= MAX_INT ==>
         LinkReadsAs(r, t, q, p) {
      forall r, t | ParseResult(m, codeToName, r) && ParseResult(m, codeToName, t)
        ensures r.filter == t.filter
      {
        assert LinkReadsAs(r, t, q, 1);
      }
    }
  }

  // The link to page p of a request parsed as r is read, when parsed as t, as r's search at page p.
  predicate LinkReadsAs(r: ParsedQuery, t: ParsedQuery, q: Params, p: int)
    requires PagingAccepted(q)
  {
    var f := SearchFilter(r, q);
    var link := LinkParams(q, p, f.limit);
    PagingAccepted(link) && SearchFilter(t, link) == f.(page := p)
  }

  lemma LinkReadsAsIff(m: Found, codeToName: map<string, string>, r: ParsedQuery, t: ParsedQuery, q: Params, p: int)
    requires SeedCodes(codeToName) && SortAccepted(q) && PagingAccepted(q) && 1 <= p <= MAX_INT
    requires ParseResult(m, codeToName, r) && ParseResult(m, codeToName, t)
    ensures LinkReadsAs(r, t, q, p) <==> r.filter == t.filter
  {
    hide ParseResult, Arg, LinkParams, Atoi, Validated;
    SearchIsValidated(m, codeToName, r, q);
    SearchLinkReparses(r, q, p);
    ParseSetsNoPaging(m, codeToName, r);
    ParseSetsNoPaging(m, codeToName, t);
  }
}
