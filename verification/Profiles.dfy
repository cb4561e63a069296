// The profiles table and the queries over it (store.go): the WHERE clause, ORDER BY column then id,
// LIMIT and OFFSET, and the insert and delete statements under the table's two uniqueness constraints.
module Profiles {
  import opened Wrappers
  import opened Text
  import opened Ordering
  import opened Decimal

  // created_at is the stored text, because that is what the table orders by.
  datatype Profile = Profile(
    id: string, name: string, gender: string, genderProbability: Probability, age: int, ageGroup: string,
    countryId: string, countryName: string, countryProbability: Probability, createdAt: string)

  datatype ListFilter = ListFilter(
    gender: string, countryId: string, ageGroup: string, minAge: Option<int>, maxAge: Option<int>,
    minGenderProb: Option<Probability>, minCountryProb: Option<Probability>,
    sortBy: string, order: string, page: int, limit: int)

  // The filter that asks for nothing in particular: every field at its zero value.
  const NO_FILTER := ListFilter("", "", "", None, None, None, None, "", "", 0, 0)

  // ----- the table -----------------------------------------------------------------------------

  // NOT NULL on both probabilities: SQLite takes NaN for NULL.
  predicate Storable(p: Profile) {
    !p.genderProbability.NaN? && !p.countryProbability.NaN?
  }

  // What makes an INSERT OR IGNORE skip a profile.
  predicate Conflicts(rows: seq<Profile>, p: Profile) {
    !Storable(p) || exists i :: 0 <= i < |rows| && (rows[i].id == p.id || rows[i].name == p.name)
  }

  // PRIMARY KEY on id, UNIQUE on name, NOT NULL.
  ghost predicate IsTable(rows: seq<Profile>) {
    && (forall i, j :: 0 <= i < j < |rows| ==> rows[i].id != rows[j].id && rows[i].name != rows[j].name)
    && (forall i :: 0 <= i < |rows| ==> Storable(rows[i]))
  }

  function InsertIgnoreRow(rows: seq<Profile>, p: Profile): seq<Profile> {
    if Conflicts(rows, p) then rows else rows + [p]
  }

  // The reference import: one insert-or-ignore per row, in order.
  function InsertAll(rows: seq<Profile>, ps: seq<Profile>): seq<Profile> {
    if ps == [] then rows
    else InsertIgnoreRow(InsertAll(rows, ps[..|ps| - 1]), ps[|ps| - 1])
  }

  function WithoutId(rows: seq<Profile>, id: string): seq<Profile> {
    if rows == [] then []
    else (if rows[0].id == id then [] else [rows[0]]) + WithoutId(rows[1..], id)
  }

  lemma {:induction false} InsertAllKeepsTable(rows: seq<Profile>, ps: seq<Profile>)
    requires IsTable(rows)
    ensures IsTable(InsertAll(rows, ps)) && rows <= InsertAll(rows, ps)
    ensures |InsertAll(rows, ps)| <= |rows| + |ps|
  {
    if ps != [] {
      InsertAllKeepsTable(rows, ps[..|ps| - 1]);
    }
  }

  // Inserts only ever append, at most one row for each profile.
  lemma {:induction false} InsertAllExtends(rows: seq<Profile>, ps: seq<Profile>)
    ensures rows <= InsertAll(rows, ps) && |InsertAll(rows, ps)| <= |rows| + |ps|
  {
    if ps != [] {
      InsertAllExtends(rows, ps[..|ps| - 1]);
    }
  }

  // Inserting a list changes nothing exactly when every one of its profiles was already taken.
  lemma {:induction false} NothingAddedIff(rows: seq<Profile>, ps: seq<Profile>)
    ensures InsertAll(rows, ps) == rows <==> forall p :: p in ps ==> Conflicts(rows, p)
  {
    if ps != [] {
      var (init, p) := (ps[..|ps| - 1], ps[|ps| - 1]);
      assert ps == init + [p];
      NothingAddedIff(rows, init);
      InsertAllExtends(rows, init);
    }
  }

  // Splitting a list of inserts at any point makes no difference.
  lemma {:induction false} InsertAllAppend(rows: seq<Profile>, a: seq<Profile>, b: seq<Profile>)
    ensures InsertAll(rows, a + b) == InsertAll(InsertAll(rows, a), b)
  {
    if b == [] {
      assert a + b == a;
    } else {
      assert (a + b)[..|a + b| - 1] == a + b[..|b| - 1];
      InsertAllAppend(rows, a, b[..|b| - 1]);
    }
  }

  predicate NameIn(ps: seq<Profile>, name: string) {
    exists i :: 0 <= i < |ps| && ps[i].name == name
  }

  predicate IdIn(ps: seq<Profile>, id: string) {
    exists i :: 0 <= i < |ps| && ps[i].id == id
  }

  function StorableOnes(ps: seq<Profile>): seq<Profile> {
    if ps == [] then []
    else StorableOnes(ps[..|ps| - 1]) + if Storable(ps[|ps| - 1]) then [ps[|ps| - 1]] else []
  }

  // The storable profiles whose name is new to the table and first among the storable ones of the list, in list
  // order.
  function FirstOfEachName(rows: seq<Profile>, ps: seq<Profile>): seq<Profile> {
    if ps == [] then []
    else
      var (init, p) := (ps[..|ps| - 1], ps[|ps| - 1]);
      FirstOfEachName(rows, init)
      + if !Storable(p) || NameIn(rows, p.name) || NameIn(StorableOnes(init), p.name) then [] else [p]
  }

  ghost predicate FreshIds(rows: seq<Profile>, ps: seq<Profile>) {
    forall i :: 0 <= i < |ps| ==> !IdIn(rows, ps[i].id) && !IdIn(ps[..i], ps[i].id)
  }

  lemma {:induction false} InsertedIds(rows: seq<Profile>, ps: seq<Profile>)
    ensures forall d :: IdIn(InsertAll(rows, ps), d) ==> IdIn(rows, d) || IdIn(ps, d)
  {
    if ps != [] {
      hide InsertAll, FirstOfEachName, StorableOnes, NameIn, IdIn;
      var (init, p) := (ps[..|ps| - 1], ps[|ps| - 1]);
      assert ps == init + [p];
      InsertedIds(rows, init);
      OneMoreRow(rows, init, p);
      NamesOfAppend(init, p);
      NamesOfAppend(InsertAll(rows, init), p);
    }
  }

  // With fresh ids, only the name can stand in a storable profile's way.
  lemma ConflictIsName(rows: seq<Profile>, init: seq<Profile>, p: Profile)
    requires FreshIds(rows, init + [p])
    ensures var mid := InsertAll(rows, init); Conflicts(mid, p) <==> !Storable(p) || NameIn(mid, p.name)
  {
    InsertedIds(rows, init);
    hide InsertAll;
    var mid := InsertAll(rows, init);
    assert (init + [p])[..|init|] == init && (init + [p])[|init|] == p;
    assert !IdIn(mid, p.id);
    assert forall i :: 0 <= i < |mid| ==> mid[i].id != p.id;
  }

  lemma FreshInit(rows: seq<Profile>, init: seq<Profile>, p: Profile)
    requires FreshIds(rows, init + [p])
    ensures FreshIds(rows, init)
  {
    assert forall i :: 0 <= i < |init| ==> (init + [p])[i] == init[i] && (init + [p])[..i] == init[..i];
  }

  lemma {:induction false} InsertedNames(rows: seq<Profile>, ps: seq<Profile>)
    requires FreshIds(rows, ps)
    ensures forall n :: NameIn(InsertAll(rows, ps), n) <==> NameIn(rows, n) || NameIn(StorableOnes(ps), n)
  {
    if ps != [] {
      hide InsertAll, FirstOfEachName, StorableOnes, NameIn, IdIn, Conflicts, FreshIds, Storable;
      var (init, p) := (ps[..|ps| - 1], ps[|ps| - 1]);
      assert ps == init + [p];
      FreshInit(rows, init, p);
      InsertedNames(rows, init);
      OneMoreRow(rows, init, p);
      ConflictIsName(rows, init, p);
      NamesOfAppend(StorableOnes(init), p);
      NamesOfAppend(InsertAll(rows, init), p);
    }
  }

  lemma {:induction false} StorableNames(ps: seq<Profile>)
    ensures forall i :: 0 <= i < |ps| && Storable(ps[i]) ==> NameIn(StorableOnes(ps), ps[i].name)
  {
    if ps != [] {
      hide Storable, NameIn;
      var (init, p) := (ps[..|ps| - 1], ps[|ps| - 1]);
      StorableNames(init);
      NamesOfAppend(StorableOnes(init), p);
      assert StorableOnes(init) + [] == StorableOnes(init);
      assert forall i :: 0 <= i < |init| ==> init[i] == ps[i];
    }
  }

  // With fresh ids, exactly the first storable row of each new name is kept: stated on the input alone.
  lemma {:induction false} FirstRowOfEachNameWins(rows: seq<Profile>, ps: seq<Profile>)
    requires FreshIds(rows, ps)
    ensures InsertAll(rows, ps) == rows + FirstOfEachName(rows, ps)
    ensures forall n :: NameIn(InsertAll(rows, ps), n) <==> NameIn(rows, n) || NameIn(StorableOnes(ps), n)
  {
    InsertedNames(rows, ps);
    if ps != [] {
      hide InsertAll, FirstOfEachName, StorableOnes, NameIn, IdIn, Conflicts, FreshIds, Storable;
      var (init, p) := (ps[..|ps| - 1], ps[|ps| - 1]);
      assert ps == init + [p];
      FreshInit(rows, init, p);
      FirstRowOfEachNameWins(rows, init);
      OneMoreRow(rows, init, p);
      ConflictIsName(rows, init, p);
    }
  }

  // How many profiles of a list of inserts find their name taken when their turn comes.
  function NameRepeats(rows: seq<Profile>, ps: seq<Profile>): nat {
    if ps == [] then 0
    else
      var (init, p) := (ps[..|ps| - 1], ps[|ps| - 1]);
      NameRepeats(rows, init) + if NameIn(InsertAll(rows, init), p.name) then 1 else 0
  }

  // How many are turned away although their name is free.
  function Misfits(rows: seq<Profile>, ps: seq<Profile>): nat {
    if ps == [] then 0
    else
      var (init, p) := (ps[..|ps| - 1], ps[|ps| - 1]);
      Misfits(rows, init) + if !Storable(p) && !NameIn(InsertAll(rows, init), p.name) then 1 else 0
  }

  // With fresh ids, every insert that is skipped is one or the other.
  lemma {:induction false} SkippedSplit(rows: seq<Profile>, ps: seq<Profile>)
    requires FreshIds(rows, ps)
    ensures |rows| + |ps| == |InsertAll(rows, ps)| + NameRepeats(rows, ps) + Misfits(rows, ps)
  {
    if ps != [] {
      hide InsertAll, FirstOfEachName, StorableOnes, NameIn, Conflicts, FreshIds, Storable;
      var (init, p) := (ps[..|ps| - 1], ps[|ps| - 1]);
      assert ps == init + [p];
      FreshInit(rows, init, p);
      SkippedSplit(rows, init);
      OneMoreRow(rows, init, p);
      ConflictIsName(rows, init, p);
    } else {
      assert InsertAll(rows, ps) == rows;
    }
  }

  lemma {:induction false} NoMisfitsIff(rows: seq<Profile>, ps: seq<Profile>)
    ensures Misfits(rows, ps) == 0 <==>
            forall i :: 0 <= i < |ps| ==> Storable(ps[i]) || NameIn(InsertAll(rows, ps[..i]), ps[i].name)
  {
    if ps != [] {
      hide InsertAll, NameIn, Storable;
      var init := ps[..|ps| - 1];
      NoMisfitsIff(rows, init);
      assert forall i :: 0 <= i < |init| ==> init[i] == ps[i] && init[..i] == ps[..i];
    }
  }

  lemma OneMoreRow(rows: seq<Profile>, init: seq<Profile>, p: Profile)
    ensures var (ps, mid) := (init + [p], InsertAll(rows, init));
            && InsertAll(rows, ps) == (if Conflicts(mid, p) then mid else mid + [p])
            && StorableOnes(ps) == (if Storable(p) then StorableOnes(init) + [p] else StorableOnes(init))
            && FirstOfEachName(rows, ps) ==
               (if !Storable(p) || NameIn(rows, p.name) || NameIn(StorableOnes(init), p.name)
                then FirstOfEachName(rows, init)
                else FirstOfEachName(rows, init) + [p])
  {
    assert (init + [p])[..|init|] == init;
  }

  lemma NamesOfAppend(ps: seq<Profile>, p: Profile)
    ensures forall n :: NameIn(ps + [p], n) <==> NameIn(ps, n) || n == p.name
    ensures forall d :: IdIn(ps + [p], d) <==> IdIn(ps, d) || d == p.id
  {
    var all := ps + [p];
    assert all[|ps|] == p;
    assert forall i :: 0 <= i < |ps| ==> all[i] == ps[i];
  }

  lemma {:induction false} WithoutIdKeepsTable(rows: seq<Profile>, id: string)
    requires IsTable(rows)
    ensures IsTable(WithoutId(rows, id))
    ensures forall p :: p in WithoutId(rows, id) <==> p in rows && p.id != id
  {
    if rows != [] {
      var (first, tail, rest) := (rows[0], rows[1..], WithoutId(rows[1..], id));
      TableTail(rows);
      WithoutIdKeepsTable(tail, id);
      hide IsTable;
      assert forall p :: p in rest ==> p in tail;
      if first.id != id {
        TableCons(first, rest);
      }
      assert [] + rest == rest && WithoutId(rows, id) == if first.id == id then rest else [first] + rest;
    }
  }

  lemma TableTail(rows: seq<Profile>)
    requires IsTable(rows) && rows != []
    ensures IsTable(rows[1..])
    ensures Storable(rows[0]) && forall p :: p in rows[1..] ==> p.id != rows[0].id && p.name != rows[0].name
    ensures forall p :: p in rows <==> p == rows[0] || p in rows[1..]
  {
    assert rows == [rows[0]] + rows[1..];
  }

  lemma TableCons(first: Profile, rest: seq<Profile>)
    requires IsTable(rest) && Storable(first) && forall p :: p in rest ==> p.id != first.id && p.name != first.name
    ensures IsTable([first] + rest)
  {
    assert forall i :: 0 <= i < |rest| ==> rest[i] in rest;
  }

  // ----- selection -----------------------------------------------------------------------------

  // A stored probability against a threshold, as SQL compares them; nothing compares with NULL, and so with NaN.
  predicate Reaches(p: Probability, threshold: Probability) {
    !p.NaN? && !threshold.NaN? && Magnitude(p) >= Magnitude(threshold)
  }

  function Magnitude(p: Probability): real {
    if p.Number? then p.v else 0.0
  }

  // On numbers this is the order of numbers, with the signed zero as zero.
  lemma ReachesIff(x: real, y: real)
    requires 0.0 <= x <= 1.0 && 0.0 <= y <= 1.0
    ensures Reaches(Number(x), Number(y)) <==> x >= y
    ensures Reaches(Number(x), NegativeZero) && (Reaches(NegativeZero, Number(y)) <==> y == 0.0)
    ensures !Reaches(Number(x), NaN) && !Reaches(NaN, Number(y)) && !Reaches(NaN, NaN)
  {
  }

  // What a filter means for one profile.
  predicate Matches(f: ListFilter, p: Profile) {
    && (f.gender != "" ==> ToLower(p.gender) == ToLower(f.gender))
    && (f.countryId != "" ==> ToUpper(p.countryId) == ToUpper(f.countryId))
    && (f.ageGroup != "" ==> ToLower(p.ageGroup) == ToLower(f.ageGroup))
    && (f.minAge.Some? ==> p.age >= f.minAge.value)
    && (f.maxAge.Some? ==> p.age <= f.maxAge.value)
    && (f.minGenderProb.Some? ==> Reaches(p.genderProbability, f.minGenderProb.value))
    && (f.minCountryProb.Some? ==> Reaches(p.countryProbability, f.minCountryProb.value))
  }

  // One SQL condition with its bound argument.
  datatype Clause =
    | LowerGenderIs(text: string)
    | UpperCountryIs(text: string)
    | LowerAgeGroupIs(text: string)
    | AgeAtLeast(age: int)
    | AgeAtMost(age: int)
    | GenderProbAtLeast(bound: Probability)
    | CountryProbAtLeast(bound: Probability)
  {
    predicate Holds(p: Profile) {
      match this
      case LowerGenderIs(v) => ToLower(p.gender) == v
      case UpperCountryIs(v) => ToUpper(p.countryId) == v
      case LowerAgeGroupIs(v) => ToLower(p.ageGroup) == v
      case AgeAtLeast(n) => p.age >= n
      case AgeAtMost(n) => p.age <= n
      case GenderProbAtLeast(b) => Reaches(p.genderProbability, b)
      case CountryProbAtLeast(b) => Reaches(p.countryProbability, b)
    }
  }

  predicate AllHold(clauses: seq<Clause>, p: Profile) {
    forall i :: 0 <= i < |clauses| ==> clauses[i].Holds(p)
  }

  lemma AllHoldAppend(clauses: seq<Clause>, c: Clause)
    ensures forall p :: AllHold(clauses + [c], p) <==> AllHold(clauses, p) && c.Holds(p)
  {
    forall p
      ensures AllHold(clauses + [c], p) <==> AllHold(clauses, p) && c.Holds(p)
    {
      assert (clauses + [c])[|clauses|] == c;
      assert forall i :: 0 <= i < |clauses| ==> (clauses + [c])[i] == clauses[i];
    }
  }

  lemma NoClauses()
    ensures forall p :: AllHold([], p)
  {
  }

  // Appends one clause per filter field that is set; their conjunction means what the filter means.
  method BuildWhere(f: ListFilter) returns (clauses: seq<Clause>)
    ensures forall p :: AllHold(clauses, p) <==> Matches(f, p)
  {
    hide AllHold, ToLower, ToUpper;
    clauses := [];
    NoClauses();
    if f.gender != "" {
      AllHoldAppend(clauses, LowerGenderIs(ToLower(f.gender)));
      clauses := clauses + [LowerGenderIs(ToLower(f.gender))];
    }
    if f.countryId != "" {
      AllHoldAppend(clauses, UpperCountryIs(ToUpper(f.countryId)));
      clauses := clauses + [UpperCountryIs(ToUpper(f.countryId))];
    }
    if f.ageGroup != "" {
      AllHoldAppend(clauses, LowerAgeGroupIs(ToLower(f.ageGroup)));
      clauses := clauses + [LowerAgeGroupIs(ToLower(f.ageGroup))];
    }
    if f.minAge.Some? {
      AllHoldAppend(clauses, AgeAtLeast(f.minAge.value));
      clauses := clauses + [AgeAtLeast(f.minAge.value)];
    }
    if f.maxAge.Some? {
      AllHoldAppend(clauses, AgeAtMost(f.maxAge.value));
      clauses := clauses + [AgeAtMost(f.maxAge.value)];
    }
    if f.minGenderProb.Some? {
      AllHoldAppend(clauses, GenderProbAtLeast(f.minGenderProb.value));
      clauses := clauses + [GenderProbAtLeast(f.minGenderProb.value)];
    }
    if f.minCountryProb.Some? {
      AllHoldAppend(clauses, CountryProbAtLeast(f.minCountryProb.value));
      clauses := clauses + [CountryProbAtLeast(f.minCountryProb.value)];
    }
  }

  // The rows of a scan that satisfy a WHERE clause.
  function Scan(rows: seq<Profile>, clauses: seq<Clause>): seq<Profile> {
    if rows == [] then []
    else (if AllHold(clauses, rows[0]) then [rows[0]] else []) + Scan(rows[1..], clauses)
  }

  function Matching(rows: seq<Profile>, f: ListFilter): seq<Profile> {
    if rows == [] then []
    else (if Matches(f, rows[0]) then [rows[0]] else []) + Matching(rows[1..], f)
  }

  lemma {:induction false} ScanIsMatching(rows: seq<Profile>, clauses: seq<Clause>, f: ListFilter)
    requires forall p :: AllHold(clauses, p) <==> Matches(f, p)
    ensures Scan(rows, clauses) == Matching(rows, f)
  {
    if rows != [] {
      ScanIsMatching(rows[1..], clauses, f);
    }
  }

  lemma {:induction false} MatchingIsFilter(rows: seq<Profile>, f: ListFilter)
    ensures forall p :: multiset(Matching(rows, f))[p] == if Matches(f, p) then multiset(rows)[p] else 0
    ensures forall p :: p in Matching(rows, f) <==> p in rows && Matches(f, p)
  {
    if rows != [] {
      MatchingIsFilter(rows[1..], f);
      assert rows == [rows[0]] + rows[1..];
    }
    forall p
      ensures p in Matching(rows, f) <==> p in rows && Matches(f, p)
    {
      assert p in Matching(rows, f) <==> multiset(Matching(rows, f))[p] > 0;
      assert p in rows <==> multiset(rows)[p] > 0;
    }
  }

  // ----- order ---------------------------------------------------------------------------------

  datatype Column = Age | CreatedAt | GenderProbability

  function SortColumn(sortBy: string): Column {
    if sortBy == "age" then Age
    else if sortBy == "gender_probability" then GenderProbability
    else CreatedAt
  }

  predicate Descending(order: string) {
    ToLower(order) == "desc"
  }

  predicate ColumnLeq(c: Column, p: Profile, q: Profile) {
    match c
    case Age => p.age <= q.age
    case CreatedAt => LexLeq(p.createdAt, q.createdAt)
    case GenderProbability => Magnitude(p.genderProbability) <= Magnitude(q.genderProbability)
  }

  // ORDER BY column direction, id ASC
  predicate RowLeq(c: Column, desc: bool, p: Profile, q: Profile) {
    var (below, above) := if desc then (ColumnLeq(c, q, p), ColumnLeq(c, p, q))
                          else (ColumnLeq(c, p, q), ColumnLeq(c, q, p));
    below && (above ==> LexLeq(p.id, q.id))
  }

  function RowOrder(c: Column, desc: bool): (Profile, Profile) -> bool {
    (p, q) => RowLeq(c, desc, p, q)
  }

  lemma ColumnTotal(c: Column, p: Profile, q: Profile)
    ensures ColumnLeq(c, p, q) || ColumnLeq(c, q, p)
  {
    LexTotal(p.createdAt, q.createdAt);
  }

  lemma ColumnTransitive(c: Column, p: Profile, q: Profile, r: Profile)
    requires ColumnLeq(c, p, q) && ColumnLeq(c, q, r)
    ensures ColumnLeq(c, p, r)
  {
    if c.CreatedAt? {
      LexTransitive(p.createdAt, q.createdAt, r.createdAt);
    }
  }

  lemma RowTransitive(c: Column, desc: bool, p: Profile, q: Profile, r: Profile)
    requires RowLeq(c, desc, p, q) && RowLeq(c, desc, q, r)
    ensures RowLeq(c, desc, p, r)
  {
    var (a, z) := if desc then (r, p) else (p, r);
    ColumnTransitive(c, a, q, z);
    if ColumnLeq(c, z, a) {
      ColumnTransitive(c, q, z, a);
      ColumnTransitive(c, z, a, q);
      LexTransitive(p.id, q.id, r.id);
    }
  }

  // (column, id) is a total order on any table, because ids are unique.
  lemma RowOrderIsTotal(c: Column, desc: bool, rows: seq<Profile>)
    requires IsTable(rows)
    ensures TotalPreorder(RowOrder(c, desc)) && AntisymmetricOn(RowOrder(c, desc), rows)
  {
    var leq := RowOrder(c, desc);
    forall p, q
      ensures leq(p, q) || leq(q, p)
    {
      ColumnTotal(c, p, q);
      LexTotal(p.id, q.id);
    }
    forall p, q, r | leq(p, q) && leq(q, r)
      ensures leq(p, r)
    {
      RowTransitive(c, desc, p, q, r);
    }
    forall p, q | p in rows && q in rows && leq(p, q) && leq(q, p)
      ensures p == q
    {
      LexAntisymmetric(p.id, q.id);
    }
  }

  // Everything a filter selects, in the order it asks for: the result of ListAll.
  function AllMatching(rows: seq<Profile>, f: ListFilter): seq<Profile> {
    SortBy(Matching(rows, f), RowOrder(SortColumn(f.sortBy), Descending(f.order)))
  }

  // ListAll holds every matching profile exactly as often as the table does, in order, and no other.
  lemma AllMatchingIsSortedSelection(rows: seq<Profile>, f: ListFilter)
    requires IsTable(rows)
    ensures Sorted(AllMatching(rows, f), RowOrder(SortColumn(f.sortBy), Descending(f.order)))
    ensures forall p :: p in AllMatching(rows, f) <==> p in rows && Matches(f, p)
    ensures forall i, j :: 0 <= i < j < |AllMatching(rows, f)| ==> AllMatching(rows, f)[i] != AllMatching(rows, f)[j]
  {
    var leq := RowOrder(SortColumn(f.sortBy), Descending(f.order));
    RowOrderIsTotal(SortColumn(f.sortBy), Descending(f.order), rows);
    SortSorts(Matching(rows, f), leq);
    SortPermutes(Matching(rows, f), leq);
    MatchingIsFilter(rows, f);
    forall p
      ensures multiset(AllMatching(rows, f))[p] <= 1
    {
      TableHasNoDuplicates(rows, p);
    }
    NoRepeats(AllMatching(rows, f));
  }

  lemma InOrder(rows: seq<Profile>, f: ListFilter, i: nat, j: nat)
    requires IsTable(rows) && i < j < |AllMatching(rows, f)|
    ensures RowLeq(SortColumn(f.sortBy), Descending(f.order), AllMatching(rows, f)[i], AllMatching(rows, f)[j])
  {
    AllMatchingIsSortedSelection(rows, f);
  }

  // Which way the answers go, on the fields themselves. By age: upwards unless "desc" is asked for, and rows of one
  // age by id, upwards in both directions.
  lemma ListedByAge(rows: seq<Profile>, f: ListFilter, i: nat, j: nat)
    requires IsTable(rows) && i < j < |AllMatching(rows, f)| && f.sortBy == "age"
    ensures var (p, q) := (AllMatching(rows, f)[i], AllMatching(rows, f)[j]);
            && (SameUpToCase(f.order, "desc") ==> p.age >= q.age)
            && (!SameUpToCase(f.order, "desc") ==> p.age <= q.age)
            && (p.age == q.age ==> LexLeq(p.id, q.id))
  {
    hide AllMatching;
    InOrder(rows, f, i, j);
    FoldedAlikeIff(f.order, "desc");
    assert ToLower("desc") == "desc";
  }

  // By the gender's probability, likewise.
  lemma ListedByProbability(rows: seq<Profile>, f: ListFilter, i: nat, j: nat)
    requires IsTable(rows) && i < j < |AllMatching(rows, f)| && f.sortBy == "gender_probability"
    ensures var (p, q) := (AllMatching(rows, f)[i], AllMatching(rows, f)[j]);
            var (x, y) := (Magnitude(p.genderProbability), Magnitude(q.genderProbability));
            && (SameUpToCase(f.order, "desc") ==> x >= y) && (!SameUpToCase(f.order, "desc") ==> x <= y)
            && (x == y ==> LexLeq(p.id, q.id))
  {
    hide AllMatching;
    InOrder(rows, f, i, j);
    FoldedAlikeIff(f.order, "desc");
    assert ToLower("desc") == "desc";
  }

  // And by the creation text when that, or no known column, is asked for.
  lemma ListedByCreation(rows: seq<Profile>, f: ListFilter, i: nat, j: nat)
    requires IsTable(rows) && i < j < |AllMatching(rows, f)| && f.sortBy != "age" && f.sortBy != "gender_probability"
    ensures var (p, q) := (AllMatching(rows, f)[i], AllMatching(rows, f)[j]);
            && (SameUpToCase(f.order, "desc") ==> LexLeq(q.createdAt, p.createdAt))
            && (!SameUpToCase(f.order, "desc") ==> LexLeq(p.createdAt, q.createdAt))
            && (p.createdAt == q.createdAt ==> LexLeq(p.id, q.id))
  {
    hide AllMatching;
    InOrder(rows, f, i, j);
    FoldedAlikeIff(f.order, "desc");
    assert ToLower("desc") == "desc";
    LexTotal(AllMatching(rows, f)[i].createdAt, AllMatching(rows, f)[j].createdAt);
  }

  // How many there are, without counting twice: the rows of the table that match.
  lemma TotalIsMatches(rows: seq<Profile>, f: ListFilter)
    requires IsTable(rows)
    ensures |AllMatching(rows, f)| == |set p | p in rows && Matches(f, p)|
  {
    AllMatchingIsSortedSelection(rows, f);
    hide Matches, AllMatching, RowOrder, Sorted;
    var all := AllMatching(rows, f);
    assert (set p | p in rows && Matches(f, p)) == set p | p in all;
    DistinctSize(all);
  }

  lemma {:induction false} DistinctSize(s: seq<Profile>)
    requires forall i, j :: 0 <= i < j < |s| ==> s[i] != s[j]
    ensures |set p | p in s| == |s|
  {
    if s != [] {
      var (init, last) := (s[..|s| - 1], s[|s| - 1]);
      DistinctSize(init);
      assert s == init + [last];
      assert (set p | p in s) == (set p | p in init) + {last} && last !in init;
    }
  }

  lemma {:induction false} TableHasNoDuplicates(rows: seq<Profile>, p: Profile)
    requires IsTable(rows)
    ensures multiset(rows)[p] <= 1
  {
    if rows != [] {
      assert rows == [rows[0]] + rows[1..];
      TableHasNoDuplicates(rows[1..], p);
      assert rows[0] !in rows[1..];
    }
  }

  lemma NoRepeats<T(!new)>(s: seq<T>)
    requires forall x :: multiset(s)[x] <= 1
    ensures forall i, j :: 0 <= i < j < |s| ==> s[i] != s[j]
  {
    forall i, j | 0 <= i < j < |s|
      ensures s[i] != s[j]
    {
      var (a, b) := (s[..j], s[j..]);
      assert s == a + b;
      assert a[i] in multiset(a) && b[0] in multiset(b);
      assert multiset(s)[s[i]] == multiset(a)[s[i]] + multiset(b)[s[i]];
    }
  }

  // The answer depends on which rows the table holds, not on how it stores them.
  lemma AnswerIgnoresStorageOrder(a: seq<Profile>, b: seq<Profile>, f: ListFilter)
    requires IsTable(a) && multiset(a) == multiset(b)
    ensures AllMatching(a, f) == AllMatching(b, f)
  {
    var leq := RowOrder(SortColumn(f.sortBy), Descending(f.order));
    MatchingIsFilter(a, f);
    MatchingIsFilter(b, f);
    RowOrderIsTotal(SortColumn(f.sortBy), Descending(f.order), a);
    assert multiset(Matching(a, f)) == multiset(Matching(b, f));
    SortForgetsOrder(Matching(a, f), Matching(b, f), leq);
  }

  // ----- paging --------------------------------------------------------------------------------

  // Two's-complement wrap of a 64-bit Go int.
  function Wrap64(x: int): int {
    (x + 0x8000_0000_0000_0000) % 0x1_0000_0000_0000_0000 - 0x8000_0000_0000_0000
  }

  function PageNumber(f: ListFilter): (p: int)
    ensures p >= 1
  {
    if f.page < 1 then 1 else f.page
  }

  function PageSize(f: ListFilter): (n: int)
    ensures n >= 1
  {
    if f.limit < 1 then 10 else f.limit
  }

  // SQLite's LIMIT and OFFSET: a negative offset counts as zero, a negative limit as no limit.
  function LimitOffset(s: seq<Profile>, limit: int, offset: int): seq<Profile> {
    var start := if offset < 0 then 0 else if offset > |s| then |s| else offset;
    var end := if limit < 0 || start + limit > |s| then |s| else start + limit;
    s[start..end]
  }

  // How many rows come before a filter's page, before the machine int wraps it.
  function ExactOffset(f: ListFilter): (n: int)
    ensures n >= 0
  {
    (PageNumber(f) - 1) * PageSize(f)
  }

  // One page of a filter's answer.
  function PageData(rows: seq<Profile>, f: ListFilter): seq<Profile> {
    LimitOffset(AllMatching(rows, f), PageSize(f), Wrap64(ExactOffset(f)))
  }

  // Page number p of a list cut into runs of n.
  function Cut(s: seq<Profile>, p: int, n: int): seq<Profile>
    requires p >= 1 && n >= 1
  {
    LimitOffset(s, n, (p - 1) * n)
  }

  predicate OffsetFits(f: ListFilter) {
    ExactOffset(f) <= MAX_INT
  }

  // A page is the slice its number promises exactly when the offset fits in 64 bits, or the wrapped
  // offset happens to fall past the end as well.
  lemma PageIsCutIff(rows: seq<Profile>, f: ListFilter)
    requires |AllMatching(rows, f)| <= MAX_INT
    ensures PageData(rows, f) == Cut(AllMatching(rows, f), PageNumber(f), PageSize(f)) <==>
            OffsetFits(f) || Wrap64(ExactOffset(f)) >= |AllMatching(rows, f)| || AllMatching(rows, f) == []
  {
    WrappedCutIff(AllMatching(rows, f), PageSize(f), ExactOffset(f));
  }

  lemma WrappedCutIff(s: seq<Profile>, limit: int, exact: int)
    requires limit >= 1 && exact >= 0 && |s| <= MAX_INT
    ensures LimitOffset(s, limit, Wrap64(exact)) == LimitOffset(s, limit, exact) <==>
            exact <= MAX_INT || Wrap64(exact) >= |s| || s == []
  {
    if exact <= MAX_INT {
      assert Wrap64(exact) == exact;
    } else {
      assert LimitOffset(s, limit, exact) == [];
      var w := Wrap64(exact);
      var start := if w < 0 then 0 else w;
      assert start < |s| ==> LimitOffset(s, limit, w)[0] == s[start];
    }
  }

  // The case that fails: the last representable page, two per page, wraps to offset -4 and shows page one.
  lemma HugePageShowsPageOne(p: Profile)
    ensures var f := ListFilter("", "", "", None, None, None, None, "", "", MAX_INT, 2);
            PageData([p], f) == [p] && Cut(AllMatching([p], f), f.page, f.limit) == []
  {
    var f := ListFilter("", "", "", None, None, None, None, "", "", MAX_INT, 2);
    assert Matching([p], f) == [p] by {
      assert Matching([p][1..], f) == [];
    }
    assert SortBy([p][1..], RowOrder(CreatedAt, false)) == [];
    assert AllMatching([p], f) == [p];
  }

  function TotalPages(total: nat, limit: nat): nat {
    if limit > 0 then (total + limit - 1) / limit else 0
  }

  function ConcatPages(s: seq<Profile>, n: int, count: nat): seq<Profile>
    requires n >= 1
  {
    if count == 0 then [] else ConcatPages(s, n, count - 1) + Cut(s, count, n)
  }

  lemma {:induction false} ConcatIsPrefix(s: seq<Profile>, n: int, count: nat)
    requires n >= 1
    ensures ConcatPages(s, n, count) == if count * n <= |s| then s[..count * n] else s
  {
    if count > 0 {
      ConcatIsPrefix(s, n, count - 1);
      MulStep(count, n);
      NextCut(s, (count - 1) * n, n);
    }
  }

  lemma NextCut(s: seq<Profile>, start: int, n: int)
    requires start >= 0 && n >= 1
    ensures start <= |s| ==> s[..start] + LimitOffset(s, n, start) == if start + n <= |s| then s[..start + n] else s
    ensures start > |s| ==> s + LimitOffset(s, n, start) == s
  {
  }

  // Every page but the last is full, the last is not empty, and every later page is.
  lemma PageLength(s: seq<Profile>, n: int, p: int)
    requires n >= 1 && p >= 1
    ensures p < TotalPages(|s|, n) ==> |Cut(s, p, n)| == n
    ensures p == TotalPages(|s|, n) ==> 1 <= |Cut(s, p, n)| <= n
    ensures p > TotalPages(|s|, n) ==> Cut(s, p, n) == []
  {
    var t := TotalPages(|s|, n);
    DivisionBounds(|s|, n, t);
    MulStep(p, n);
    CutAt(s, (p - 1) * n, n);
    if p < t {
      MulMonotone(p, t - 1, n);
    } else if p > t {
      MulMonotone(t, p - 1, n);
    }
  }

  // Pages 1 to total_pages together are the whole answer, each row once.
  lemma PagesPartition(s: seq<Profile>, n: int)
    requires n >= 1
    ensures ConcatPages(s, n, TotalPages(|s|, n)) == s
  {
    var t := TotalPages(|s|, n);
    DivisionBounds(|s|, n, t);
    ConcatIsPrefix(s, n, t);
    if t * n == |s| {
      assert s[..t * n] == s;
    }
  }

  lemma MulStep(p: int, n: int)
    ensures p * n == (p - 1) * n + n
    ensures p >= 1 && n >= 0 ==> (p - 1) * n >= 0
  {
  }

  lemma CutAt(s: seq<Profile>, start: int, n: int)
    requires start >= 0 && n >= 1
    ensures start + n <= |s| ==> |LimitOffset(s, n, start)| == n
    ensures start >= |s| ==> LimitOffset(s, n, start) == []
    ensures start < |s| ==> 1 <= |LimitOffset(s, n, start)| <= n
  {
  }

  lemma DivisionBounds(total: nat, n: int, t: int)
    requires n >= 1 && t == (total + n - 1) / n
    ensures (t - 1) * n < total || (t == 0 && total == 0)
    ensures total <= t * n
    ensures t >= 1 ==> t * n == (t - 1) * n + n
  {
    assert total + n - 1 == t * n + (total + n - 1) % n;
    assert t * n == (t - 1) * n + n;
  }

  lemma MulMonotone(a: int, b: int, n: int)
    requires a <= b && n >= 0
    ensures a * n <= b * n
  {
    assert b * n - a * n == (b - a) * n;
  }

  // ----- the store -----------------------------------------------------------------------------

  class Store {
    var rows: seq<Profile>

    ghost predicate Valid()
      reads this
    {
      IsTable(rows)
    }

    constructor ()
      ensures Valid() && rows == []
    {
      rows := [];
    }

    // INSERT: refused when the id or the name is taken, or a value is missing.
    method Insert(p: Profile) returns (ok: bool)
      requires Valid()
      modifies this
      ensures Valid()
      ensures ok <==> !Conflicts(old(rows), p)
      ensures rows == if ok then old(rows) + [p] else old(rows)
    {
      ok := !Conflicts(rows, p);
      if ok {
        rows := rows + [p];
      }
    }

    // One transaction. fault is the statement the database fails at (the commit when it is the number of
    // profiles); a failed transaction leaves nothing behind.
    method BulkInsertIgnore(profiles: seq<Profile>, fault: Option<nat>)
      returns (inserted: nat, dup: nat, ok: bool)
      requires Valid()
      modifies this
      ensures Valid()
      ensures ok <==> profiles == [] || fault.None? || fault.value > |profiles|
      ensures rows == if ok then InsertAll(old(rows), profiles) else old(rows)
      ensures ok ==> inserted == |rows| - |old(rows)| && inserted + dup == |profiles|
      ensures !ok ==> inserted == 0 && dup == 0
    {
      inserted, dup, ok := 0, 0, true;
      if |profiles| == 0 {
        return;
      }
      var tx := rows;
      var i := 0;
      while i < |profiles|
        invariant 0 <= i <= |profiles|
        invariant tx == InsertAll(rows, profiles[..i]) && rows == old(rows)
        invariant rows <= tx && inserted == |tx| - |rows| <= i
        invariant ok && dup == 0 && (fault.Some? ==> fault.value >= i)
      {
        if fault == Some(i) {
          return 0, 0, false;
        }
        assert profiles[..i + 1][..i] == profiles[..i];
        if !Conflicts(tx, profiles[i]) {
          tx := tx + [profiles[i]];
          inserted := inserted + 1;
        }
        i := i + 1;
      }
      if fault == Some(i) {
        return 0, 0, false;
      }
      assert profiles[..i] == profiles;
      InsertAllKeepsTable(rows, profiles);
      rows := tx;
      dup := |profiles| - inserted;
    }

    method Delete(id: string) returns (ok: bool)
      requires Valid()
      modifies this
      ensures Valid()
      ensures ok <==> IdIn(old(rows), id)
      ensures rows == WithoutId(old(rows), id)
      ensures !ok ==> rows == old(rows)
    {
      ok := exists i :: 0 <= i < |rows| && rows[i].id == id;
      WithoutIdKeepsTable(rows, id);
      if !ok {
        WithoutAbsentId(rows, id);
      }
      rows := WithoutId(rows, id);
    }

    // The page a filter asks for, and how many rows match in all.
    method List(f: ListFilter) returns (data: seq<Profile>, total: nat)
      ensures data == PageData(rows, f)
      ensures total == |AllMatching(rows, f)|
    {
      var clauses := BuildWhere(f);
      ScanIsMatching(rows, clauses, f);
      var hits := Scan(rows, clauses);
      total := |hits|;
      SortPermutes(hits, RowOrder(SortColumn(f.sortBy), Descending(f.order)));
      var sorted := SortBy(hits, RowOrder(SortColumn(f.sortBy), Descending(f.order)));
      var page, limit := f.page, f.limit;
      if page < 1 {
        page := 1;
      }
      if limit < 1 {
        limit := 10;
      }
      var offset := (page - 1) * limit;
      assert offset == ExactOffset(f);
      offset := Wrap64(offset);
      data := LimitOffset(sorted, limit, offset);
    }

    method ListAll(f: ListFilter) returns (data: seq<Profile>, total: nat)
      ensures data == AllMatching(rows, f) && total == |data|
    {
      var clauses := BuildWhere(f);
      ScanIsMatching(rows, clauses, f);
      data := SortBy(Scan(rows, clauses), RowOrder(SortColumn(f.sortBy), Descending(f.order)));
      total := |data|;
    }
  }

  lemma {:induction false} WithoutAbsentId(rows: seq<Profile>, id: string)
    requires !IdIn(rows, id)
    ensures WithoutId(rows, id) == rows
  {
    if rows != [] {
      assert rows[0].id != id;
      assert forall i :: 0 <= i < |rows[1..]| ==> rows[1..][i] == rows[i + 1];
      WithoutAbsentId(rows[1..], id);
    }
  }
}
