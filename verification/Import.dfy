// CSV import (bulk_import.go): the header index, the cascade of row checks, and the chunked loop, proved
// against inserting the valid rows one at a time.
module Import {
  import opened Wrappers
  import opened Text
  import opened Decimal
  import opened Profiles
  import opened Query

  const CHUNK: Size := 500
  const MAX_ROWS: nat := 500_000

  datatype Reason =
    | MissingFields | InvalidGender | InvalidAge | InvalidCountryId | InvalidProbability | Internal
    | MalformedRow | DuplicateName

  // What the CSV reader yields for one line; a readable one comes with the id and the clock reading its
  // profile would get (no id when generating one fails).
  datatype Record = Malformed | Row(fields: seq<string>, id: Option<string>, now: string)

  // ----- the header ----------------------------------------------------------------------------

  type Index = map<string, nat>

  function ColumnKey(h: string): string {
    ToLower(TrimSpace(h))
  }

  // Where each column is; when a name is repeated the last position wins.
  function HeaderIndex(header: seq<string>): Index {
    if header == [] then map[]
    else HeaderIndex(header[..|header| - 1])[ColumnKey(header[|header| - 1]) := |header| - 1]
  }

  // A column is indexed exactly when the header names it, up to case and white space.
  lemma {:induction false} IndexedColumnsExist(header: seq<string>, key: string)
    ensures key in HeaderIndex(header) <==> exists i :: 0 <= i < |header| && ColumnKey(header[i]) == key
  {
    if header != [] {
      var init := header[..|header| - 1];
      IndexedColumnsExist(init, key);
      assert forall i :: 0 <= i < |init| ==> init[i] == header[i];
    }
  }

  const REQUIRED: set<string> := {"name", "gender", "age", "country_id"}

  method BuildHeaderIndex(header: seq<string>) returns (r: Result<Index, string>)
    ensures r.Ok? <==> REQUIRED <= HeaderIndex(header).Keys
    ensures r.Ok? ==> r.value == HeaderIndex(header)
    ensures r.Err? ==> r.error in REQUIRED - HeaderIndex(header).Keys
  {
    var idx: Index := map[];
    for i := 0 to |header|
      invariant idx == HeaderIndex(header[..i])
    {
      assert header[..i + 1][..i] == header[..i];
      idx := idx[ColumnKey(header[i]) := i];
    }
    assert header[..|header|] == header;
    var todo := REQUIRED;
    while todo != {}
      invariant todo <= REQUIRED && REQUIRED - todo <= idx.Keys
    {
      var col :| col in todo;
      if col !in idx {
        return Err(col);
      }
      todo := todo - {col};
    }
    return Ok(idx);
  }

  // ----- one row -------------------------------------------------------------------------------

  datatype Context = Context(idx: Index, codeToName: map<string, string>, parse: FloatParser)

  function Field(fields: seq<string>, idx: Index, col: string): string {
    if col in idx && idx[col] < |fields| then TrimSpace(fields[idx[col]]) else ""
  }

  function ClassifyAge(age: int): string {
    if age <= 12 then "child"
    else if age <= 19 then "teenager"
    else if age <= 59 then "adult"
    else "senior"
  }

  function OptionalProb(parse: FloatParser, v: string): Option<Probability> {
    if v == "" then Some(Number(1.0)) else ParseProb(parse, v)
  }

  function CountryName(codeToName: map<string, string>, code: string): string {
    if code in codeToName && codeToName[code] != "" then codeToName[code] else code
  }

  predicate ValidAge(s: string) {
    Atoi(s).Value? && 0 <= Atoi(s).n <= 150
  }

  // The checks on the cells of one row, in order; the first that fails names the reason.
  function CheckCells(name: string, gender: string, age: string, country: string, gp: Option<Probability>,
                      cp: Option<Probability>, codeToName: map<string, string>, id: Option<string>, now: string)
    : Result<Profile, Reason>
  {
    if name == "" then Err(MissingFields)
    else if !IsGender(ToLower(gender)) then Err(InvalidGender)
    else if age == "" then Err(MissingFields)
    else if !ValidAge(age) then Err(InvalidAge)
    else if |country| != 2 || !IsAlpha(ToUpper(country)) then Err(InvalidCountryId)
    else if gp.None? || cp.None? then Err(InvalidProbability)
    else if id.None? then Err(Internal)
    else
      var n := Atoi(age).n;
      Ok(Profile(id.value, name, ToLower(gender), gp.value, n, ClassifyAge(n), ToUpper(country),
                 CountryName(codeToName, ToUpper(country)), cp.value, now))
  }

  function ParseRow(ctx: Context, fields: seq<string>, id: Option<string>, now: string): Result<Profile, Reason> {
    CheckCells(
      Field(fields, ctx.idx, "name"), Field(fields, ctx.idx, "gender"), Field(fields, ctx.idx, "age"),
      Field(fields, ctx.idx, "country_id"),
      OptionalProb(ctx.parse, Field(fields, ctx.idx, "gender_probability")),
      OptionalProb(ctx.parse, Field(fields, ctx.idx, "country_probability")),
      ctx.codeToName, id, now)
  }

  function Verdict(ctx: Context, rec: Record): Result<Profile, Reason> {
    if rec.Malformed? then Err(MalformedRow) else ParseRow(ctx, rec.fields, rec.id, rec.now)
  }

  // A profile as an import or the profile endpoint produces it.
  predicate ImportValid(p: Profile) {
    && p.name != "" && Trimmed(p.name) && IsGender(p.gender) && 0 <= p.age <= 150
    && p.ageGroup == ClassifyAge(p.age) && |p.countryId| == 2 && IsUpperAlpha(p.countryId)
  }

  // The ages of each age group, None when it has no upper end.
  function AgesOfGroup(group: string): (int, Option<int>) {
    match group
    case "child" => (0, Some(12))
    case "teenager" => (13, Some(19))
    case "adult" => (20, Some(59))
    case _ => (60, None)
  }

  // On imported profiles, asking for an age group is asking for its ages: the two filters select the same rows.
  lemma AgeGroupIsRange(rows: seq<Profile>, group: string, f: ListFilter, p: Profile)
    requires IsTable(rows) && (forall q :: q in rows ==> ImportValid(q))
    requires IsAgeGroup(group) && f.ageGroup == "" && f.minAge == f.maxAge == None
    ensures var (low, high) := AgesOfGroup(group);
            p in AllMatching(rows, f.(ageGroup := group)) <==>
            p in AllMatching(rows, f.(minAge := Some(low), maxAge := high))
  {
    var (low, high) := AgesOfGroup(group);
    AllMatchingIsSortedSelection(rows, f.(ageGroup := group));
    AllMatchingIsSortedSelection(rows, f.(minAge := Some(low), maxAge := high));
    if p in rows {
      GroupsFold(group, p.ageGroup);
    }
    hide AllMatching, ToLower, ToUpper, Reaches, IsTable, RowOrder;
  }

  lemma GroupsFold(g: string, h: string)
    requires IsAgeGroup(g) && IsAgeGroup(h)
    ensures ToLower(g) == ToLower(h) <==> g == h
  {
    assert ToLower("child") == "child" && ToLower("teenager") == "teenager";
    assert ToLower("adult") == "adult" && ToLower("senior") == "senior";
  }

  lemma AlphaUpper(s: string)
    requires IsAlpha(ToUpper(s))
    ensures IsUpperAlpha(ToUpper(s))
  {
    forall i | 0 <= i < |s|
      ensures 'A' <= ToUpper(s)[i] <= 'Z'
    {
      assert ToUpper(s)[i] == UpperChar(s[i]);
    }
  }

  // Every row that passes the checks is a well-formed profile.
  lemma ParsedRowsAreValid(ctx: Context, rec: Record)
    ensures Verdict(ctx, rec).Ok? ==> ImportValid(Verdict(ctx, rec).value)
  {
    if rec.Row? && Verdict(ctx, rec).Ok? {
      if "name" in ctx.idx && ctx.idx["name"] < |rec.fields| {
        TrimSpaceTrims(rec.fields[ctx.idx["name"]]);
      }
      AlphaUpper(Field(rec.fields, ctx.idx, "country_id"));
    }
  }

  // ----- which rows pass, and what becomes of them -------------------------------------------------

  predicate GenderCell(s: string) {
    SameUpToCase(s, "male") || SameUpToCase(s, "female")
  }

  predicate AgeCell(s: string) {
    exists n :: 0 <= n <= 150 && Atoi(s) == Value(n)
  }

  predicate CountryCell(s: string) {
    |s| == 2 && IsAlpha(s)
  }

  predicate ProbCell(parse: FloatParser, s: string) {
    s == "" || (parse(s).Some? && (parse(s).value.Number? ==> 0.0 <= parse(s).value.v <= 1.0))
  }

  lemma GenderFolds(s: string)
    ensures IsGender(ToLower(s)) <==> GenderCell(s)
  {
    FoldedAlikeIff(s, "male");
    FoldedAlikeIff(s, "female");
    assert ToLower("male") == "male" && ToLower("female") == "female";
  }

  lemma CountryFolds(s: string)
    ensures IsAlpha(ToUpper(s)) <==> IsAlpha(s)
  {
    FoldedCase(s);
    forall i | 0 <= i < |s|
      ensures 'a' <= ToUpper(s)[i] <= 'z' || 'A' <= ToUpper(s)[i] <= 'Z' <==> 'a' <= s[i] <= 'z' || 'A' <= s[i] <= 'Z'
    {
    }
  }

  // The exact reason a row is turned away for: that of the first cell at fault, in the order name, gender, age,
  // country, probabilities.
  lemma ReasonIff(name: string, gender: string, age: string, country: string, gp: Option<Probability>,
                  cp: Option<Probability>, codeToName: map<string, string>, id: Option<string>, now: string)
    ensures var r := CheckCells(name, gender, age, country, gp, cp, codeToName, id, now);
            var (g, a, c, p) := (GenderCell(gender), AgeCell(age), CountryCell(country), gp.Some? && cp.Some?);
            && (r.Ok? <==> name != "" && g && a && c && p && id.Some?)
            && (r == Err(MissingFields) <==> name == "" || (g && age == ""))
            && (r == Err(InvalidGender) <==> name != "" && !g)
            && (r == Err(InvalidAge) <==> name != "" && g && age != "" && !a)
            && (r == Err(InvalidCountryId) <==> name != "" && g && a && !c)
            && (r == Err(InvalidProbability) <==> name != "" && g && a && c && !p)
            && (r == Err(Internal) <==> name != "" && g && a && c && p && id.None?)
            && r != Err(MalformedRow) && r != Err(DuplicateName)
  {
    GenderFolds(gender);
    CountryFolds(country);
    assert ValidAge(age) <==> AgeCell(age);
    hide ToLower, ToUpper, IsAlpha, SameUpToCase;
    assert Atoi("") == BadSyntax;
  }

  // What an accepted row becomes, cell by cell.
  predicate MadeFrom(p: Profile, ctx: Context, fields: seq<string>, id: Option<string>, now: string) {
    && id == Some(p.id) && p.createdAt == now && p.name == Field(fields, ctx.idx, "name")
    && (p.gender == "male" || p.gender == "female") && SameUpToCase(p.gender, Field(fields, ctx.idx, "gender"))
    && Atoi(Field(fields, ctx.idx, "age")) == Value(p.age)
    && SameUpToCase(p.countryId, Field(fields, ctx.idx, "country_id")) && IsUpperAlpha(p.countryId)
    && IsProb(p.genderProbability, ctx.parse, Field(fields, ctx.idx, "gender_probability"))
    && IsProb(p.countryProbability, ctx.parse, Field(fields, ctx.idx, "country_probability"))
    && (p.countryId in ctx.codeToName && ctx.codeToName[p.countryId] != "" ==>
          p.countryName == ctx.codeToName[p.countryId])
    && (p.countryId !in ctx.codeToName || ctx.codeToName[p.countryId] == "" ==> p.countryName == p.countryId)
    && (p.ageGroup == "child" <==> p.age <= 12) && (p.ageGroup == "teenager" <==> 13 <= p.age <= 19)
    && (p.ageGroup == "adult" <==> 20 <= p.age <= 59) && (p.ageGroup == "senior" <==> 60 <= p.age)
  }

  // A probability is 1 when its cell is empty or missing, and what the cell says otherwise.
  predicate IsProb(p: Probability, parse: FloatParser, cell: string) {
    if cell == "" then p == Number(1.0) else parse(cell) == Some(p)
  }

  // Exactly which rows pass, and what they become.
  lemma RowPassesIff(ctx: Context, fields: seq<string>, id: Option<string>, now: string)
    ensures var r := ParseRow(ctx, fields, id, now);
            && (r.Ok? <==>
                && Field(fields, ctx.idx, "name") != "" && GenderCell(Field(fields, ctx.idx, "gender"))
                && AgeCell(Field(fields, ctx.idx, "age")) && CountryCell(Field(fields, ctx.idx, "country_id"))
                && ProbCell(ctx.parse, Field(fields, ctx.idx, "gender_probability"))
                && ProbCell(ctx.parse, Field(fields, ctx.idx, "country_probability")) && id.Some?)
            && (r.Ok? ==> MadeFrom(r.value, ctx, fields, id, now))
  {
    var (gender, country) := (Field(fields, ctx.idx, "gender"), Field(fields, ctx.idx, "country_id"));
    ReasonIff(Field(fields, ctx.idx, "name"), gender, Field(fields, ctx.idx, "age"), country,
              OptionalProb(ctx.parse, Field(fields, ctx.idx, "gender_probability")),
              OptionalProb(ctx.parse, Field(fields, ctx.idx, "country_probability")), ctx.codeToName, id, now);
    FoldedCase(gender);
    FoldedCase(country);
    SameCaseSymmetric(gender, ToLower(gender));
    SameCaseSymmetric(country, ToUpper(country));
    CountryFolds(country);
    if IsAlpha(ToUpper(country)) {
      AlphaUpper(country);
    }
    hide Field, ToLower, ToUpper, SameUpToCase, Atoi, IsAlpha, IsUpperAlpha;
  }

  lemma SameCaseSymmetric(s: string, t: string)
    requires SameUpToCase(s, t)
    ensures SameUpToCase(t, s)
  {
  }

  // The case of the gender and the country, and white space around any cell, make no difference.
  lemma VerdictIgnoresCase(ctx: Context, a: seq<string>, b: seq<string>, id: Option<string>, now: string)
    requires forall col :: col != "gender" && col != "country_id" ==> Field(a, ctx.idx, col) == Field(b, ctx.idx, col)
    requires SameUpToCase(Field(a, ctx.idx, "gender"), Field(b, ctx.idx, "gender"))
    requires SameUpToCase(Field(a, ctx.idx, "country_id"), Field(b, ctx.idx, "country_id"))
    ensures ParseRow(ctx, a, id, now) == ParseRow(ctx, b, id, now)
  {
    FoldedAlikeIff(Field(a, ctx.idx, "gender"), Field(b, ctx.idx, "gender"));
    FoldedAlikeIff(Field(a, ctx.idx, "country_id"), Field(b, ctx.idx, "country_id"));
    hide Field, ToLower, ToUpper, Atoi, IsAlpha;
  }

  lemma VerdictIgnoresSpace(ctx: Context, a: seq<string>, b: seq<string>, id: Option<string>, now: string)
    requires |a| == |b| && forall i :: 0 <= i < |a| ==> PaddedWith(a[i], b[i])
    ensures ParseRow(ctx, a, id, now) == ParseRow(ctx, b, id, now)
  {
    forall col
      ensures Field(a, ctx.idx, col) == Field(b, ctx.idx, col)
    {
      if col in ctx.idx && ctx.idx[col] < |a| {
        var i := ctx.idx[col];
        var left, right :| AllSpace(left) && AllSpace(right) && b[i] == left + a[i] + right;
        TrimIgnoresPadding(left, a[i], right);
      }
    }
    hide Field, CheckCells;
  }

  // t is s with white space around it.
  ghost predicate PaddedWith(s: string, t: string) {
    exists left, right :: AllSpace(left) && AllSpace(right) && t == left + s + right
  }

  // Different columns stand at different places.
  lemma {:induction false} ColumnsApart(header: seq<string>, a: string, b: string)
    requires a in HeaderIndex(header) && b in HeaderIndex(header) && a != b
    ensures HeaderIndex(header)[a] != HeaderIndex(header)[b]
    ensures HeaderIndex(header)[a] < |header| && HeaderIndex(header)[b] < |header|
  {
    var (init, last) := (header[..|header| - 1], ColumnKey(header[|header| - 1]));
    if a != last && b != last {
      ColumnsApart(init, a, b);
    } else {
      ColumnInside(init, if a == last then b else a);
    }
  }

  lemma {:induction false} ColumnInside(header: seq<string>, a: string)
    requires a in HeaderIndex(header)
    ensures HeaderIndex(header)[a] < |header|
  {
    var init := header[..|header| - 1];
    if a != ColumnKey(header[|header| - 1]) {
      ColumnInside(init, a);
    }
  }

  lemma FieldAfterSpoiling(header: seq<string>, fields: seq<string>, col: string, cell: string, other: string)
    requires col in HeaderIndex(header) && HeaderIndex(header)[col] < |fields|
    ensures var (idx, spoiled) := (HeaderIndex(header), fields[HeaderIndex(header)[col] := cell]);
            Field(spoiled, idx, other) == if other == col then TrimSpace(cell) else Field(fields, idx, other)
  {
    hide HeaderIndex, TrimSpace;
    if other in HeaderIndex(header) && other != col {
      ColumnsApart(header, other, col);
    }
  }

  // Spoiling one cell of an accepted row has it turned away for that cell's own reason.
  lemma SpoiledCell(ctx: Context, header: seq<string>, fields: seq<string>, id: Option<string>, now: string,
                    col: string, cell: string)
    requires ctx.idx == HeaderIndex(header) && ParseRow(ctx, fields, id, now).Ok?
    requires col in ctx.idx && ctx.idx[col] < |fields|
    ensures var (r, t) := (ParseRow(ctx, fields[ctx.idx[col] := cell], id, now), TrimSpace(cell));
            && (col == "name" && t == "" ==> r == Err(MissingFields))
            && (col == "gender" && !GenderCell(t) ==> r == Err(InvalidGender))
            && (col == "age" && t == "" ==> r == Err(MissingFields))
            && (col == "age" && t != "" && !AgeCell(t) ==> r == Err(InvalidAge))
            && (col == "country_id" && !CountryCell(t) ==> r == Err(InvalidCountryId))
            && (col == "gender_probability" && !ProbCell(ctx.parse, t) ==> r == Err(InvalidProbability))
            && (col == "country_probability" && !ProbCell(ctx.parse, t) ==> r == Err(InvalidProbability))
            && (col !in KNOWN ==> r == ParseRow(ctx, fields, id, now))
  {
    var spoiled := fields[ctx.idx[col] := cell];
    forall other
      ensures Field(spoiled, ctx.idx, other) ==
              if other == col then TrimSpace(cell) else Field(fields, ctx.idx, other)
    {
      FieldAfterSpoiling(header, fields, col, cell, other);
    }
    ReasonOfRow(ctx, fields, id, now);
    ReasonOfRow(ctx, spoiled, id, now);
    hide Field, TrimSpace, CheckCells, GenderCell, AgeCell, CountryCell, OptionalProb, HeaderIndex;
    OptionalProbIff(ctx.parse, TrimSpace(cell));
  }

  // The columns an import reads.
  const KNOWN: set<string> := {"name", "gender", "age", "country_id", "gender_probability", "country_probability"}

  lemma OptionalProbIff(parse: FloatParser, s: string)
    ensures OptionalProb(parse, s).Some? <==> ProbCell(parse, s)
  {
  }

  lemma ReasonOfRow(ctx: Context, fields: seq<string>, id: Option<string>, now: string)
    ensures var (name, gender) := (Field(fields, ctx.idx, "name"), Field(fields, ctx.idx, "gender"));
            var (age, country) := (Field(fields, ctx.idx, "age"), Field(fields, ctx.idx, "country_id"));
            var (g, a, c) := (GenderCell(gender), AgeCell(age), CountryCell(country));
            var p := OptionalProb(ctx.parse, Field(fields, ctx.idx, "gender_probability")).Some? &&
                     OptionalProb(ctx.parse, Field(fields, ctx.idx, "country_probability")).Some?;
            var r := ParseRow(ctx, fields, id, now);
            && (r.Ok? ==> name != "" && g && a && c && p && id.Some?)
            && (name == "" || (g && age == "") ==> r == Err(MissingFields))
            && (name != "" && !g ==> r == Err(InvalidGender))
            && (name != "" && g && age != "" && !a ==> r == Err(InvalidAge))
            && (name != "" && g && a && !c ==> r == Err(InvalidCountryId))
            && (name != "" && g && a && c && !p ==> r == Err(InvalidProbability))
  {
    ReasonIff(Field(fields, ctx.idx, "name"), Field(fields, ctx.idx, "gender"), Field(fields, ctx.idx, "age"),
              Field(fields, ctx.idx, "country_id"),
              OptionalProb(ctx.parse, Field(fields, ctx.idx, "gender_probability")),
              OptionalProb(ctx.parse, Field(fields, ctx.idx, "country_probability")), ctx.codeToName, id, now);
    hide Field, CheckCells, GenderCell, AgeCell, CountryCell, OptionalProb;
  }

  // ----- the loop's judgement ------------------------------------------------------------------------

  // How a row is judged: the loop below is the same for every judgement.
  type Validator = Record -> Result<Profile, Reason>

  ghost predicate Sound(check: Validator) {
    check(Malformed) == Err(MalformedRow)
  }

  function RowChecks(ctx: Context): Validator {
    rec => Verdict(ctx, rec)
  }

  lemma RowChecksSound(ctx: Context)
    ensures Sound(RowChecks(ctx))
  {
  }

  // ----- the reference: row by row ---------------------------------------------------------------

  // The profiles of the rows that pass, in file order.
  function ValidRows(check: Validator, recs: seq<Record>): seq<Profile> {
    if recs == [] then []
    else
      var v := check(recs[|recs| - 1]);
      ValidRows(check, recs[..|recs| - 1]) + if v.Ok? then [v.value] else []
  }

  // How many rows are rejected for a reason.
  function Rejected(check: Validator, recs: seq<Record>, why: Reason): nat {
    if recs == [] then 0
    else
      Rejected(check, recs[..|recs| - 1], why)
      + if check(recs[|recs| - 1]) == Err(why) then 1 else 0
  }

  predicate OverLimit(recs: seq<Record>, i: nat)
    requires i < |recs|
  {
    i >= MAX_ROWS && recs[i].Row?
  }

  // How many records are read: all of them, or those before the first readable one past the row limit.
  function ReadUpTo(recs: seq<Record>, i: nat): (n: nat)
    requires i <= |recs|
    ensures i <= n <= |recs|
    ensures n < |recs| ==> OverLimit(recs, n)
    ensures forall j :: i <= j < n ==> !OverLimit(recs, j)
    decreases |recs| - i
  {
    if i == |recs| || OverLimit(recs, i) then i else ReadUpTo(recs, i + 1)
  }

  datatype Summary = Summary(totalRows: nat, inserted: nat, skipped: nat, reasons: map<Reason, nat>)

  datatype Outcome = Completed(summary: Summary) | TooManyRows | FlushFailed

  const REASONS: set<Reason> := {
    MissingFields, InvalidGender, InvalidAge, InvalidCountryId, InvalidProbability, Internal, MalformedRow,
    DuplicateName}

  lemma EveryReason(why: Reason)
    ensures why in REASONS
  {
    match why
    case MissingFields =>
    case InvalidGender =>
    case InvalidAge =>
    case InvalidCountryId =>
    case InvalidProbability =>
    case Internal =>
    case MalformedRow =>
    case DuplicateName =>
  }

  function Tally(check: Validator, recs: seq<Record>, dups: nat, why: Reason): nat {
    Rejected(check, recs, why) + if why == DuplicateName then dups else 0
  }

  function SummaryOf(check: Validator, recs: seq<Record>, inserted: nat): Summary
    requires inserted <= |ValidRows(check, recs)| <= |recs|
  {
    var dups := |ValidRows(check, recs)| - inserted;
    Summary(|recs|, inserted, |recs| - inserted,
            map why | why in REASONS && Tally(check, recs, dups, why) > 0 :: Tally(check, recs, dups, why))
  }

  type Size = n: nat | n > 0 witness 1

  // How an import flushes: the size of a full chunk (CHUNK in the server), and which statement of the k-th flush fails,
  // if any.
  datatype Flushing = Flushing(size: Size, fault: nat -> Option<nat>)

  predicate Fails(flushing: Flushing, k: nat, size: nat) {
    flushing.fault(k).Some? && flushing.fault(k).value <= size
  }

  // The first full chunk from k on whose flush fails, or full when none does.
  function FirstFailure(flushing: Flushing, k: nat, full: nat): (n: nat)
    requires k <= full
    ensures k <= n <= full
    ensures n < full ==> Fails(flushing, n, flushing.size)
    ensures forall j :: k <= j < n ==> !Fails(flushing, j, flushing.size)
    decreases full - k
  {
    if k == full || Fails(flushing, k, flushing.size) then k else FirstFailure(flushing, k + 1, full)
  }

  datatype ImportResult = ImportResult(rows: seq<Profile>, outcome: Outcome)

  // How many rows k full chunks hold, and what n rows make: full chunks, and a rest.
  function Stored(size: Size, k: nat): nat {
    size * k
  }

  function FullChunks(n: nat, size: Size): nat {
    n / size
  }

  function Rest(n: nat, size: Size): (r: nat)
    ensures r < size
  {
    n % size
  }

  // The first k chunks of the valid rows.
  function FirstChunks(v: seq<Profile>, size: Size, k: nat): seq<Profile> {
    if Stored(size, k) <= |v| then v[..Stored(size, k)] else v
  }

  // The effect of an import: the valid rows inserted one by one, up to the last whole chunk on an early exit.
  function ImportOf(rows: seq<Profile>, check: Validator, recs: seq<Record>, flushing: Flushing): ImportResult {
    var n := ReadUpTo(recs, 0);
    var v := ValidRows(check, recs[..n]);
    var (full, rest) := (FullChunks(|v|, flushing.size), Rest(|v|, flushing.size));
    var k := FirstFailure(flushing, 0, full);
    if k < full then ImportResult(InsertAll(rows, FirstChunks(v, flushing.size, k)), FlushFailed)
    else if n < |recs| then ImportResult(InsertAll(rows, FirstChunks(v, flushing.size, full)), TooManyRows)
    else if rest > 0 && Fails(flushing, full, rest) then
      ImportResult(InsertAll(rows, FirstChunks(v, flushing.size, full)), FlushFailed)
    else
      var after := InsertAll(rows, v);
      ImportResult(after, Completed(SummaryFor(check, recs, |after| - |rows|)))
  }

  lemma ChunksAndRest(n: nat, size: Size)
    ensures n == Stored(size, FullChunks(n, size)) + Rest(n, size)
  {
  }

  lemma OneMoreChunk(size: Size, k: nat)
    ensures Stored(size, k + 1) == Stored(size, k) + size
    ensures Stored(size, 0) == 0
  {
  }

  lemma {:induction false} MoreChunks(size: Size, j: nat, k: nat)
    requires j <= k
    ensures Stored(size, j) <= Stored(size, k)
  {
    if j < k {
      hide Stored;
      MoreChunks(size, j, k - 1);
      OneMoreChunk(size, k - 1);
    }
  }

  // k chunks and one more fit into n rows exactly when k is below the number of full chunks.
  lemma ChunkFits(n: nat, size: Size, k: nat)
    ensures k <= FullChunks(n, size) ==> Stored(size, k) <= n
    ensures k < FullChunks(n, size) <==> Stored(size, k) + size <= n
  {
    hide Stored, FullChunks, Rest;
    var full := FullChunks(n, size);
    ChunksAndRest(n, size);
    OneMoreChunk(size, k);
    if k < full {
      MoreChunks(size, k + 1, full);
    } else {
      MoreChunks(size, full, k);
    }
  }

  lemma WholeChunks(n: nat, size: Size, k: nat, rest: nat)
    requires n == Stored(size, k) + rest && rest < size
    ensures FullChunks(n, size) == k && Rest(n, size) == rest
  {
    hide Stored, FullChunks, Rest;
    ChunksAndRest(n, size);
    ChunkFits(n, size, k);
    OneMoreChunk(size, FullChunks(n, size));
    if FullChunks(n, size) < k {
      MoreChunks(size, FullChunks(n, size) + 1, k);
    }
  }

  // SummaryOf where the count of inserted rows makes sense.
  function SummaryFor(check: Validator, recs: seq<Record>, inserted: int): Summary {
    if 0 <= inserted <= |ValidRows(check, recs)| <= |recs| then SummaryOf(check, recs, inserted)
    else Summary(0, 0, 0, map[])
  }

  lemma {:induction false} ValidRowsFit(check: Validator, recs: seq<Record>)
    ensures |ValidRows(check, recs)| <= |recs|
  {
    if recs != [] {
      ValidRowsFit(check, recs[..|recs| - 1]);
    }
  }

  // ----- the chunked loop ------------------------------------------------------------------------

  function Count(m: map<Reason, nat>, why: Reason): nat {
    if why in m then m[why] else 0
  }

  function AddCount(m: map<Reason, nat>, why: Reason, k: nat): map<Reason, nat> {
    m[why := Count(m, why) + k]
  }

  // The counters agree with the records read and the duplicates met so far, and only causes seen appear.
  ghost predicate Tallied(s: Summary, check: Validator, recs: seq<Record>, dups: nat) {
    && s.totalRows == |recs|
    && (forall why :: Count(s.reasons, why) == Tally(check, recs, dups, why))
    && (forall why :: why in s.reasons ==> s.reasons[why] > 0)
  }

  method FlushChunk(store: Store, chunk: seq<Profile>, s: Summary, fault: Option<nat>)
    returns (r: Summary, ok: bool)
    requires store.Valid()
    modifies store
    ensures store.Valid()
    ensures ok <==> chunk == [] || fault.None? || fault.value > |chunk|
    ensures store.rows == if ok then InsertAll(old(store.rows), chunk) else old(store.rows)
    ensures !ok ==> r == s
    ensures ok ==>
      var added := |store.rows| - |old(store.rows)|;
      0 <= added <= |chunk| && r.totalRows == s.totalRows && r.inserted == s.inserted + added &&
      r.skipped == s.skipped + (|chunk| - added) &&
      r.reasons == if added < |chunk| then AddCount(s.reasons, DuplicateName, |chunk| - added) else s.reasons
  {
    hide InsertAll, IsTable;
    r := s;
    var inserted, dup;
    InsertAllExtends(store.rows, chunk);
    inserted, dup, ok := store.BulkInsertIgnore(chunk, fault);
    if !ok {
      return;
    }
    r := r.(inserted := r.inserted + inserted);
    if dup > 0 {
      r := r.(skipped := r.skipped + dup, reasons := AddCount(r.reasons, DuplicateName, dup));
    }
  }

  lemma NextRecord(check: Validator, recs: seq<Record>, i: nat)
    requires i < |recs|
    ensures var v := check(recs[i]);
            ValidRows(check, recs[..i + 1]) == ValidRows(check, recs[..i]) + if v.Ok? then [v.value] else []
    ensures forall why :: Rejected(check, recs[..i + 1], why) ==
                          Rejected(check, recs[..i], why) + if check(recs[i]) == Err(why) then 1 else 0
  {
    assert recs[..i + 1][..i] == recs[..i];
  }

  lemma {:induction false} ValidRowsPrefix(check: Validator, recs: seq<Record>, a: nat, b: nat)
    requires a <= b <= |recs|
    ensures ValidRows(check, recs[..a]) <= ValidRows(check, recs[..b])
    decreases b
  {
    if a < b {
      ValidRowsPrefix(check, recs, a, b - 1);
      NextRecord(check, recs, b - 1);
    }
  }

  // The state of the loop after i records and k flushes: done is stored, chunk is buffered.
  ghost predicate Buffered(check: Validator, recs: seq<Record>, flushing: Flushing, i: nat, k: nat, done: seq<Profile>,
                           chunk: seq<Profile>)
  {
    && i <= |recs| && (forall j :: 0 <= j < i ==> !OverLimit(recs, j))
    && ValidRows(check, recs[..i]) == done + chunk && |done| == Stored(flushing.size, k)
    && (forall j :: 0 <= j < k ==> !Fails(flushing, j, flushing.size))
  }

  lemma ExitOnFlush(rows: seq<Profile>, check: Validator, recs: seq<Record>, flushing: Flushing, i: nat, k: nat,
                    done: seq<Profile>, chunk: seq<Profile>)
    requires Buffered(check, recs, flushing, i, k, done, chunk)
    requires |chunk| == flushing.size && Fails(flushing, k, flushing.size)
    ensures ImportOf(rows, check, recs, flushing) == ImportResult(InsertAll(rows, done), FlushFailed)
  {
    var n := ReadUpTo(recs, 0);
    assert i <= n;
    var v := ValidRows(check, recs[..n]);
    ValidRowsPrefix(check, recs, i, n);
    assert done + chunk <= v;
    ChunkFits(|v|, flushing.size, k);
    assert FirstFailure(flushing, 0, FullChunks(|v|, flushing.size)) == k;
    assert FirstChunks(v, flushing.size, k) == done;
  }

  lemma ExitOnLimit(rows: seq<Profile>, check: Validator, recs: seq<Record>, flushing: Flushing, i: nat, k: nat,
                    done: seq<Profile>, chunk: seq<Profile>)
    requires Buffered(check, recs, flushing, i, k, done, chunk)
    requires |chunk| < flushing.size && i < |recs| && OverLimit(recs, i)
    ensures ImportOf(rows, check, recs, flushing) == ImportResult(InsertAll(rows, done), TooManyRows)
  {
    assert ReadUpTo(recs, 0) == i;
    var v := ValidRows(check, recs[..i]);
    WholeChunks(|v|, flushing.size, k, |chunk|);
    assert FirstFailure(flushing, 0, k) == k;
    assert FirstChunks(v, flushing.size, k) == done;
  }

  lemma ExitAtEnd(rows: seq<Profile>, check: Validator, recs: seq<Record>, flushing: Flushing, k: nat,
                  done: seq<Profile>, chunk: seq<Profile>)
    requires Buffered(check, recs, flushing, |recs|, k, done, chunk) && |chunk| < flushing.size
    ensures chunk != [] && Fails(flushing, k, |chunk|) ==>
              ImportOf(rows, check, recs, flushing) == ImportResult(InsertAll(rows, done), FlushFailed)
    ensures chunk == [] || !Fails(flushing, k, |chunk|) ==>
              var after := InsertAll(rows, done + chunk);
              ImportOf(rows, check, recs, flushing) ==
              ImportResult(after, Completed(SummaryFor(check, recs, |after| - |rows|)))
  {
    assert ReadUpTo(recs, 0) == |recs|;
    assert recs[..|recs|] == recs;
    var v := ValidRows(check, recs);
    WholeChunks(|v|, flushing.size, k, |chunk|);
    assert FirstFailure(flushing, 0, k) == k;
    assert FirstChunks(v, flushing.size, k) == done;
  }

  // Reasons and counters determine the summary.
  lemma TalliedIsSummary(s: Summary, check: Validator, recs: seq<Record>, inserted: nat)
    requires inserted <= |ValidRows(check, recs)| && s.inserted == inserted
    requires Tallied(s, check, recs, |ValidRows(check, recs)| - inserted)
    requires s.skipped == |recs| - inserted
    ensures s == SummaryFor(check, recs, inserted)
  {
    ValidRowsFit(check, recs);
    var t := SummaryOf(check, recs, inserted);
    forall why
      ensures why in s.reasons <==> why in t.reasons
      ensures why in s.reasons ==> s.reasons[why] == t.reasons[why]
    {
      assert Count(s.reasons, why) == Tally(check, recs, |ValidRows(check, recs)| - inserted, why);
      EveryReason(why);
    }
    assert s.reasons == t.reasons;
  }

  // The summary after one more record.
  function CountRecord(s: Summary, v: Result<Profile, Reason>): Summary {
    match v
    case Ok(_) => s.(totalRows := s.totalRows + 1)
    case Err(why) =>
      s.(totalRows := s.totalRows + 1, skipped := s.skipped + 1, reasons := AddCount(s.reasons, why, 1))
  }

  function Passed(v: Result<Profile, Reason>): seq<Profile> {
    if v.Ok? then [v.value] else []
  }

  lemma CountStep(s: Summary, check: Validator, recs: seq<Record>, i: nat, dups: nat)
    requires i < |recs| && Tallied(s, check, recs[..i], dups)
    ensures Tallied(CountRecord(s, check(recs[i])), check, recs[..i + 1], dups)
  {
    NextRecord(check, recs, i);
    forall why
      ensures Count(CountRecord(s, check(recs[i])).reasons, why) == Tally(check, recs[..i + 1], dups, why)
    {
      assert Count(s.reasons, why) == Tally(check, recs[..i], dups, why);
    }
  }

  lemma FlushStep(s: Summary, t: Summary, check: Validator, recs: seq<Record>, dups: nat, more: nat)
    requires Tallied(s, check, recs, dups) && t.totalRows == s.totalRows
    requires t.reasons == if more > 0 then AddCount(s.reasons, DuplicateName, more) else s.reasons
    ensures Tallied(t, check, recs, dups + more)
  {
    forall why
      ensures Count(t.reasons, why) == Tally(check, recs, dups + more, why)
    {
      assert Count(s.reasons, why) == Tally(check, recs, dups, why);
    }
  }

  // The loop invariant: after i records, with the counters s, the rows done stored and the rest buffered.
  ghost predicate Running(start: seq<Profile>, rows: seq<Profile>, check: Validator, recs: seq<Record>,
                          i: nat, done: seq<Profile>, chunk: seq<Profile>, s: Summary)
    requires i <= |recs|
  {
    && rows == InsertAll(start, done)
    && s.inserted == |rows| - |start| <= |done|
    && Tallied(s, check, recs[..i], |done| - s.inserted)
    && s.skipped == (i - |done| - |chunk|) + (|done| - s.inserted)
  }

  lemma TakeStep(start: seq<Profile>, rows: seq<Profile>, check: Validator, recs: seq<Record>, flushing: Flushing,
                 i: nat, k: nat, done: seq<Profile>, chunk: seq<Profile>, s: Summary)
    requires i < |recs| && !OverLimit(recs, i) && Buffered(check, recs, flushing, i, k, done, chunk)
    requires Running(start, rows, check, recs, i, done, chunk, s)
    ensures var v := check(recs[i]);
            && Buffered(check, recs, flushing, i + 1, k, done, chunk + Passed(v))
            && Running(start, rows, check, recs, i + 1, done, chunk + Passed(v), CountRecord(s, v))
  {
    NextRecord(check, recs, i);
    CountStep(s, check, recs, i, |done| - s.inserted);
    assert done + (chunk + Passed(check(recs[i]))) == (done + chunk) + Passed(check(recs[i]));
  }

  lemma BufferedNext(check: Validator, recs: seq<Record>, flushing: Flushing, i: nat, k: nat, done: seq<Profile>,
                     chunk: seq<Profile>)
    requires Buffered(check, recs, flushing, i, k, done, chunk) && !Fails(flushing, k, |chunk|)
    ensures |chunk| == flushing.size ==> Buffered(check, recs, flushing, i, k + 1, done + chunk, [])
  {
    hide Stored, Fails, ValidRows;
    OneMoreChunk(flushing.size, k);
    assert (done + chunk) + [] == done + chunk;
  }

  lemma FlushedStep(start: seq<Profile>, rows: seq<Profile>, check: Validator, recs: seq<Record>, flushing: Flushing,
                    i: nat, k: nat, done: seq<Profile>, chunk: seq<Profile>, s: Summary, t: Summary)
    requires Buffered(check, recs, flushing, i, k, done, chunk) && !Fails(flushing, k, |chunk|)
    requires i <= |recs| && Running(start, rows, check, recs, i, done, chunk, s)
    requires var added := |InsertAll(rows, chunk)| - |rows|;
             0 <= added <= |chunk| && t.totalRows == s.totalRows && t.inserted == s.inserted + added &&
             t.skipped == s.skipped + (|chunk| - added) &&
             t.reasons == if added < |chunk| then AddCount(s.reasons, DuplicateName, |chunk| - added) else s.reasons
    ensures Running(start, InsertAll(rows, chunk), check, recs, i, done + chunk, [], t)
    ensures |chunk| == flushing.size ==> Buffered(check, recs, flushing, i, k + 1, done + chunk, [])
  {
    BufferedNext(check, recs, flushing, i, k, done, chunk);
    hide Stored, Fails, Buffered, InsertAll, ValidRows;
    InsertAllAppend(start, done, chunk);
    FlushStep(s, t, check, recs[..i], |done| - s.inserted, |chunk| - (t.inserted - s.inserted));
  }

  // Reads one record: counts it, refuses it past the row limit, and buffers its profile if it is valid.
  method TakeRecord(check: Validator, rec: Record, s: Summary, chunk: seq<Profile>)
    returns (t: Summary, buffered: seq<Profile>, stop: bool)
    requires Sound(check)
    ensures stop <==> rec.Row? && s.totalRows >= MAX_ROWS
    ensures !stop ==> t == CountRecord(s, check(rec)) && buffered == chunk + Passed(check(rec))
  {
    t, buffered, stop := s.(totalRows := s.totalRows + 1), chunk, false;
    if rec.Malformed? {
      t := t.(skipped := t.skipped + 1, reasons := AddCount(t.reasons, MalformedRow, 1));
      return;
    }
    if t.totalRows > MAX_ROWS {
      stop := true;
      return;
    }
    var v := check(rec);
    if v.Err? {
      t := t.(skipped := t.skipped + 1, reasons := AddCount(t.reasons, v.error, 1));
      return;
    }
    buffered := chunk + [v.value];
  }

  lemma StartState(rows: seq<Profile>, check: Validator, recs: seq<Record>, flushing: Flushing)
    ensures Buffered(check, recs, flushing, 0, 0, [], [])
    ensures Running(rows, rows, check, recs, 0, [], [], Summary(0, 0, 0, map[]))
  {
  }

  // How the loop can end: where it stopped, what was stored by then, and what was still buffered.
  ghost predicate Ended(start: seq<Profile>, rows: seq<Profile>, check: Validator, recs: seq<Record>,
                        flushing: Flushing, i: nat, k: nat, done: seq<Profile>, chunk: seq<Profile>, outcome: Outcome)
  {
    && Buffered(check, recs, flushing, i, k, done, chunk)
    && match outcome
       case FlushFailed =>
         rows == InsertAll(start, done) && Fails(flushing, k, |chunk|) &&
         (|chunk| == flushing.size || (i == |recs| && 0 < |chunk| < flushing.size))
       case TooManyRows => rows == InsertAll(start, done) && |chunk| < flushing.size && i < |recs| && OverLimit(recs, i)
       case Completed(s) =>
         i == |recs| && |chunk| < flushing.size && (chunk == [] || !Fails(flushing, k, |chunk|)) &&
         Running(start, rows, check, recs, i, done + chunk, [], s)
  }

  lemma EndedIsImportOf(start: seq<Profile>, rows: seq<Profile>, check: Validator, recs: seq<Record>,
                        flushing: Flushing, i: nat, k: nat, done: seq<Profile>, chunk: seq<Profile>, outcome: Outcome)
    requires Ended(start, rows, check, recs, flushing, i, k, done, chunk, outcome)
    ensures ImportResult(rows, outcome) == ImportOf(start, check, recs, flushing)
  {
    hide ImportOf, InsertAll, ValidRows, Tally, Count, SummaryFor, Fails;
    match outcome
    case FlushFailed =>
      if |chunk| == flushing.size {
        ExitOnFlush(start, check, recs, flushing, i, k, done, chunk);
      } else {
        ExitAtEnd(start, check, recs, flushing, k, done, chunk);
      }
    case TooManyRows => ExitOnLimit(start, check, recs, flushing, i, k, done, chunk);
    case Completed(s) =>
      ExitAtEnd(start, check, recs, flushing, k, done, chunk);
      assert recs[..i] == recs;
      TalliedIsSummary(s, check, recs, s.inserted);
  }

  // The streaming loop: validate, buffer, flush every full chunk, flush the rest at the end.
  method StreamRecords(store: Store, check: Validator, recs: seq<Record>, flushing: Flushing)
    returns (outcome: Outcome, ghost i: nat, ghost k: nat, ghost done: seq<Profile>, ghost chunk: seq<Profile>)
    requires store.Valid() && Sound(check)
    modifies store
    ensures store.Valid()
    ensures Ended(old(store.rows), store.rows, check, recs, flushing, i, k, done, chunk, outcome)
  {
    hide InsertAll, Rejected, ValidRows, Tallied, Buffered, AddCount;
    var s := Summary(0, 0, 0, map[]);
    var buffer: seq<Profile> := [];
    var pos, flushes := 0, 0;
    done := [];
    StartState(store.rows, check, recs, flushing);
    while pos < |recs|
      invariant store.Valid() && pos <= |recs| && |buffer| < flushing.size
      invariant Buffered(check, recs, flushing, pos, flushes, done, buffer)
      invariant s.totalRows == pos && Running(old(store.rows), store.rows, check, recs, pos, done, buffer, s)
    {
      ghost var (buffer0, s0) := (buffer, s);
      var stop;
      s, buffer, stop := TakeRecord(check, recs[pos], s, buffer);
      if stop {
        return TooManyRows, pos, flushes, done, buffer0;
      }
      TakeStep(old(store.rows), store.rows, check, recs, flushing, pos, flushes, done, buffer0, s0);
      pos := pos + 1;
      if |buffer| >= flushing.size {
        ghost var rows := store.rows;
        var t, ok := FlushChunk(store, buffer, s, flushing.fault(flushes));
        if !ok {
          return FlushFailed, pos, flushes, done, buffer;
        }
        FlushedStep(old(store.rows), rows, check, recs, flushing, pos, flushes, done, buffer, s, t);
        s, flushes, done, buffer := t, flushes + 1, done + buffer, [];
      }
    }
    i, k, chunk := pos, flushes, buffer;
    if |buffer| > 0 {
      ghost var rows := store.rows;
      var t, ok := FlushChunk(store, buffer, s, flushing.fault(flushes));
      if !ok {
        return FlushFailed, pos, flushes, done, buffer;
      }
      FlushedStep(old(store.rows), rows, check, recs, flushing, pos, flushes, done, buffer, s, t);
      s := t;
    } else {
      assert done + buffer == done;
    }
    outcome := Completed(s);
  }

  // The import as a whole: the same effect as the row-by-row reference, up to the last whole chunk.
  method ImportRecords(store: Store, check: Validator, recs: seq<Record>, flushing: Flushing) returns (outcome: Outcome)
    requires store.Valid() && Sound(check)
    modifies store
    ensures store.Valid()
    ensures ImportResult(store.rows, outcome) == ImportOf(old(store.rows), check, recs, flushing)
  {
    ghost var i, k, done, chunk;
    outcome, i, k, done, chunk := StreamRecords(store, check, recs, flushing);
    EndedIsImportOf(old(store.rows), store.rows, check, recs, flushing, i, k, done, chunk, outcome);
  }

  // ----- what an import guarantees -----------------------------------------------------------------

  // A completed import leaves the store that one insert per valid row would leave, whatever the chunking;
  // with fresh ids that is the old rows followed by the first row of each new name.
  lemma CompletedIsRowByRow(rows: seq<Profile>, check: Validator, recs: seq<Record>, flushing: Flushing)
    requires ImportOf(rows, check, recs, flushing).outcome.Completed?
    ensures ImportOf(rows, check, recs, flushing).rows == InsertAll(rows, ValidRows(check, recs))
    ensures FreshIds(rows, ValidRows(check, recs)) ==>
              ImportOf(rows, check, recs, flushing).rows == rows + FirstOfEachName(rows, ValidRows(check, recs))
  {
    CompletedOutcome(rows, check, recs, flushing);
    if FreshIds(rows, ValidRows(check, recs)) {
      FirstRowOfEachNameWins(rows, ValidRows(check, recs));
    }
  }

  function SumReasons(m: map<Reason, nat>): nat {
    Count(m, MissingFields) + Count(m, InvalidGender) + Count(m, InvalidAge) + Count(m, InvalidCountryId)
    + Count(m, InvalidProbability) + Count(m, Internal) + Count(m, MalformedRow) + Count(m, DuplicateName)
  }

  function SumRejected(check: Validator, recs: seq<Record>): nat {
    Rejected(check, recs, MissingFields) + Rejected(check, recs, InvalidGender) + Rejected(check, recs, InvalidAge)
    + Rejected(check, recs, InvalidCountryId) + Rejected(check, recs, InvalidProbability)
    + Rejected(check, recs, Internal) + Rejected(check, recs, MalformedRow) + Rejected(check, recs, DuplicateName)
  }

  lemma OneReasonEach(check: Validator, recs: seq<Record>)
    requires recs != []
    ensures SumRejected(check, recs) ==
            SumRejected(check, recs[..|recs| - 1]) + if check(recs[|recs| - 1]).Ok? then 0 else 1
  {
    match check(recs[|recs| - 1])
    case Ok(_) =>
    case Err(why) =>
      match why
      case MissingFields =>
      case InvalidGender =>
      case InvalidAge =>
      case InvalidCountryId =>
      case InvalidProbability =>
      case Internal =>
      case MalformedRow =>
      case DuplicateName =>
  }

  // Every record is either valid or rejected for exactly one reason.
  lemma {:induction false} RecordsPartition(check: Validator, recs: seq<Record>)
    ensures |ValidRows(check, recs)| + SumRejected(check, recs) == |recs|
  {
    if recs != [] {
      RecordsPartition(check, recs[..|recs| - 1]);
      OneReasonEach(check, recs);
    }
  }

  lemma {:induction false} FewValidRows(check: Validator, recs: seq<Record>)
    requires Sound(check) && forall j :: 0 <= j < |recs| ==> !OverLimit(recs, j)
    ensures |ValidRows(check, recs)| <= MAX_ROWS
  {
    if |recs| <= MAX_ROWS {
      ValidRowsFit(check, recs);
    } else {
      var init := recs[..|recs| - 1];
      assert !OverLimit(recs, |recs| - 1);
      assert forall j :: 0 <= j < |init| ==> OverLimit(init, j) == OverLimit(recs, j);
      FewValidRows(check, init);
    }
  }

  lemma SummaryAddsUp(check: Validator, recs: seq<Record>, inserted: nat)
    requires inserted <= |ValidRows(check, recs)|
    ensures var s := SummaryFor(check, recs, inserted);
            && s.totalRows == |recs| == s.inserted + s.skipped && s.inserted == inserted
            && s.skipped == SumReasons(s.reasons)
            && (forall why :: Count(s.reasons, why) == Tally(check, recs, |ValidRows(check, recs)| - inserted, why))
            && (forall why :: why in s.reasons ==> s.reasons[why] > 0)
  {
    hide ValidRows, Rejected;
    ValidRowsFit(check, recs);
    RecordsPartition(check, recs);
    var s := SummaryOf(check, recs, inserted);
    forall why
      ensures Count(s.reasons, why) == Tally(check, recs, |ValidRows(check, recs)| - inserted, why)
    {
      EveryReason(why);
    }
  }

  // On completion the counters add up: every record is counted once, as inserted or skipped for one reason;
  // inserted is the number of new rows, within the row limit; and only causes that occurred appear.
  lemma CompletedCounts(rows: seq<Profile>, check: Validator, recs: seq<Record>, flushing: Flushing)
    requires IsTable(rows) && Sound(check) && ImportOf(rows, check, recs, flushing).outcome.Completed?
    ensures var s := ImportOf(rows, check, recs, flushing).outcome.summary;
            && s.totalRows == |recs| == s.inserted + s.skipped
            && s.inserted == |ImportOf(rows, check, recs, flushing).rows| - |rows| <= MAX_ROWS
            && s.skipped == SumReasons(s.reasons)
            && (forall why :: Count(s.reasons, why) == Tally(check, recs, |ValidRows(check, recs)| - s.inserted, why))
            && (forall why :: why in s.reasons ==> s.reasons[why] > 0)
  {
    hide ImportOf, SummaryFor, InsertAll, ValidRows;
    var v := ValidRows(check, recs);
    CompletedOutcome(rows, check, recs, flushing);
    InsertAllKeepsTable(rows, v);
    FewValidRows(check, recs);
    SummaryAddsUp(check, recs, |InsertAll(rows, v)| - |rows|);
  }

  lemma CompletedOutcome(rows: seq<Profile>, check: Validator, recs: seq<Record>, flushing: Flushing)
    requires ImportOf(rows, check, recs, flushing).outcome.Completed?
    ensures var after := InsertAll(rows, ValidRows(check, recs));
            ImportOf(rows, check, recs, flushing) ==
            ImportResult(after, Completed(SummaryFor(check, recs, |after| - |rows|)))
    ensures forall j :: 0 <= j < |recs| ==> !OverLimit(recs, j)
  {
    hide InsertAll, ValidRows, SummaryFor, FirstFailure, FirstChunks, FullChunks, Rest, Fails;
    assert recs[..|recs|] == recs;
  }

  // Without faults an import completes exactly when no readable record lies past the row limit.
  lemma FaultlessCompletesIff(rows: seq<Profile>, check: Validator, recs: seq<Record>, flushing: Flushing)
    requires forall k :: flushing.fault(k) == None
    ensures ImportOf(rows, check, recs, flushing).outcome.Completed? <==>
            forall j :: 0 <= j < |recs| ==> !OverLimit(recs, j)
  {
    hide InsertAll, ValidRows, SummaryFor, FirstChunks, FullChunks, Rest, OverLimit;
    assert ReadUpTo(recs, 0) < |recs| ==> OverLimit(recs, ReadUpTo(recs, 0));
  }

  // An upload without storage failures goes through up to 500,000 readable rows, and not beyond.
  lemma RowLimitExact(rows: seq<Profile>, check: Validator, recs: seq<Record>, flushing: Flushing)
    requires (forall k :: flushing.fault(k) == None) && forall j :: 0 <= j < |recs| ==> recs[j].Row?
    ensures ImportOf(rows, check, recs, flushing).outcome.Completed? <==> |recs| <= 500_000
  {
    hide ImportOf;
    FaultlessCompletesIff(rows, check, recs, flushing);
    if |recs| > 500_000 {
      assert OverLimit(recs, 500_000);
    }
  }

  // And what a completed import does, table, counts and reasons, does not depend on the chunk size.
  lemma ChunkSizeIrrelevant(rows: seq<Profile>, check: Validator, recs: seq<Record>, a: Flushing, b: Flushing)
    requires ImportOf(rows, check, recs, a).outcome.Completed? && ImportOf(rows, check, recs, b).outcome.Completed?
    ensures ImportOf(rows, check, recs, a) == ImportOf(rows, check, recs, b)
  {
    hide ImportOf;
    CompletedOutcome(rows, check, recs, a);
    CompletedOutcome(rows, check, recs, b);
  }

  lemma InsertedCount(rows: seq<Profile>, check: Validator, recs: seq<Record>, flushing: Flushing)
    requires ImportOf(rows, check, recs, flushing).outcome.Completed?
    ensures var r := ImportOf(rows, check, recs, flushing); r.outcome.summary.inserted == |r.rows| - |rows|
  {
    hide ImportOf, InsertAll, ValidRows;
    CompletedOutcome(rows, check, recs, flushing);
    InsertAllExtends(rows, ValidRows(check, recs));
    ValidRowsFit(check, recs);
  }

  lemma ImportKeepsTable(rows: seq<Profile>, check: Validator, recs: seq<Record>, flushing: Flushing)
    requires IsTable(rows)
    ensures IsTable(ImportOf(rows, check, recs, flushing).rows) && rows <= ImportOf(rows, check, recs, flushing).rows
  {
    hide InsertAll, FirstChunks, FullChunks, Rest, Fails;
    var v := ValidRows(check, recs[..ReadUpTo(recs, 0)]);
    var full := FullChunks(|v|, flushing.size);
    InsertAllKeepsTable(rows, FirstChunks(v, flushing.size, FirstFailure(flushing, 0, full)));
    InsertAllKeepsTable(rows, FirstChunks(v, flushing.size, full));
    InsertAllKeepsTable(rows, v);
    assert recs[..|recs|] == recs;
  }

  // However an import ends, it only appends.
  lemma ImportAppends(rows: seq<Profile>, check: Validator, recs: seq<Record>, flushing: Flushing)
    ensures rows <= ImportOf(rows, check, recs, flushing).rows
  {
    hide InsertAll, FirstChunks, FullChunks, Rest, Fails;
    var v := ValidRows(check, recs[..ReadUpTo(recs, 0)]);
    var full := FullChunks(|v|, flushing.size);
    InsertAllExtends(rows, FirstChunks(v, flushing.size, FirstFailure(flushing, 0, full)));
    InsertAllExtends(rows, FirstChunks(v, flushing.size, full));
    InsertAllExtends(rows, v);
  }

  // The cells of the two probabilities read as no number.
  predicate ReadsNaN(ctx: Context, rec: Record) {
    rec.Row? &&
    (OptionalProb(ctx.parse, Field(rec.fields, ctx.idx, "gender_probability")) == Some(NaN) ||
     OptionalProb(ctx.parse, Field(rec.fields, ctx.idx, "country_probability")) == Some(NaN))
  }

  // Which rows pass the checks and still cannot be stored.
  lemma UnstorableIffNaN(ctx: Context, rec: Record)
    requires Verdict(ctx, rec).Ok?
    ensures Storable(Verdict(ctx, rec).value) <==> !ReadsNaN(ctx, rec)
  {
    hide Field, OptionalProb, ToLower, ToUpper, Atoi, TrimSpace;
  }

  // Such a row is skipped and reported as a duplicate name, whatever the table holds.
  lemma NotANumberCountsAsDuplicate(rows: seq<Profile>, ctx: Context, rec: Record, flushing: Flushing)
    requires Verdict(ctx, rec).Ok? && ReadsNaN(ctx, rec) && flushing.fault(0) == None
    ensures ImportOf(rows, RowChecks(ctx), [rec], flushing) ==
            ImportResult(rows, Completed(Summary(1, 0, 1, map[DuplicateName := 1])))
  {
    UnstorableIffNaN(ctx, rec);
    hide Verdict, ReadsNaN;
    UnstorableCountsAsDuplicate(rows, RowChecks(ctx), rec, flushing);
  }

  lemma UnstorableCountsAsDuplicate(rows: seq<Profile>, check: Validator, rec: Record, flushing: Flushing)
    requires check(rec).Ok? && !Storable(check(rec).value) && flushing.fault(0) == None
    ensures ImportOf(rows, check, [rec], flushing) ==
            ImportResult(rows, Completed(Summary(1, 0, 1, map[DuplicateName := 1])))
  {
    OneRecord(check, rec);
    hide InsertAll, ValidRows, Rejected, Conflicts, SummaryFor, FullChunks, Rest, FirstChunks;
    var v := ValidRows(check, [rec]);
    NothingAddedIff(rows, v);
    assert [rec][..1] == [rec];
    OneRowFlushes(flushing);
    SummaryAddsUp(check, [rec], 0);
    assert SummaryFor(check, [rec], 0).reasons == map[DuplicateName := 1];
  }

  lemma OneRowFlushes(flushing: Flushing)
    requires flushing.fault(0) == None
    ensures FirstFailure(flushing, 0, FullChunks(1, flushing.size)) == FullChunks(1, flushing.size)
    ensures Rest(1, flushing.size) == 0 || !Fails(flushing, FullChunks(1, flushing.size), Rest(1, flushing.size))
  {
    hide FullChunks, Rest;
    OneMoreChunk(flushing.size, 0);
    if flushing.size == 1 {
      WholeChunks(1, flushing.size, 1, 0);
    } else {
      WholeChunks(1, flushing.size, 0, 1);
    }
  }

  // No check rejects a row as a duplicate.
  lemma {:induction false} NotRejectedAsDuplicate(ctx: Context, recs: seq<Record>)
    ensures Rejected(RowChecks(ctx), recs, DuplicateName) == 0
  {
    if recs != [] {
      NotRejectedAsDuplicate(ctx, recs[..|recs| - 1]);
    }
  }

  // What a completed import reports as duplicate names, with fresh ids: the rows whose name was taken when their
  // turn came, and those that could not be stored. So the report is right exactly when no row that cannot be stored
  // came with a name still free.
  lemma DuplicatesReported(rows: seq<Profile>, ctx: Context, recs: seq<Record>, flushing: Flushing)
    requires ImportOf(rows, RowChecks(ctx), recs, flushing).outcome.Completed?
    requires IsTable(rows) && FreshIds(rows, ValidRows(RowChecks(ctx), recs))
    ensures var v := ValidRows(RowChecks(ctx), recs);
            var r := ImportOf(rows, RowChecks(ctx), recs, flushing);
            var reported := Count(r.outcome.summary.reasons, DuplicateName);
            && reported == NameRepeats(rows, v) + Misfits(rows, v)
            && (reported == NameRepeats(rows, v) <==>
                forall i :: 0 <= i < |v| ==> Storable(v[i]) || NameIn(InsertAll(rows, v[..i]), v[i].name))
  {
    hide ImportOf, InsertAll, ValidRows, RowChecks, NameRepeats, Misfits, Storable, NameIn, FreshIds;
    var (check, v) := (RowChecks(ctx), ValidRows(RowChecks(ctx), recs));
    RowChecksSound(ctx);
    CompletedOutcome(rows, check, recs, flushing);
    CompletedCounts(rows, check, recs, flushing);
    NotRejectedAsDuplicate(ctx, recs);
    SkippedSplit(rows, v);
    NoMisfitsIff(rows, v);
  }

  lemma OneRecord(check: Validator, rec: Record)
    requires check(rec).Ok?
    ensures ValidRows(check, [rec]) == [check(rec).value] && ReadUpTo([rec], 0) == 1
    ensures forall why :: Rejected(check, [rec], why) == 0
  {
    var recs := [rec];
    assert recs[..|recs| - 1] == [];
    assert ValidRows(check, []) == [] && !OverLimit(recs, 0);
  }

  // The same line read again: its profile gets another id and another time.
  predicate SameLine(a: Record, b: Record) {
    if a.Malformed? then b.Malformed? else b.Row? && b.fields == a.fields && (b.id.Some? <==> a.id.Some?)
  }

  predicate SameCells(p: Profile, q: Profile) {
    p.name == q.name && (Storable(p) <==> Storable(q))
  }

  lemma SameLineSameCells(ctx: Context, a: Record, b: Record)
    requires SameLine(a, b)
    ensures Verdict(ctx, a).Ok? <==> Verdict(ctx, b).Ok?
    ensures Verdict(ctx, a).Ok? ==> SameCells(Verdict(ctx, a).value, Verdict(ctx, b).value)
  {
    hide Field, OptionalProb, ToLower, ToUpper, Atoi, TrimSpace;
  }

  lemma {:induction false} SameLinesSameCells(ctx: Context, recs: seq<Record>, again: seq<Record>)
    requires |recs| == |again| && forall i :: 0 <= i < |recs| ==> SameLine(recs[i], again[i])
    ensures var (v, w) := (ValidRows(RowChecks(ctx), recs), ValidRows(RowChecks(ctx), again));
            |v| == |w| && forall i :: 0 <= i < |v| ==> SameCells(v[i], w[i])
  {
    if recs != [] {
      hide Verdict, SameCells, SameLine;
      SameLinesSameCells(ctx, recs[..|recs| - 1], again[..|again| - 1]);
      SameLineSameCells(ctx, recs[|recs| - 1], again[|again| - 1]);
    }
  }

  // Importing the lines of a completed import again adds nothing, whatever the table held before.
  lemma ReimportAddsNothing(rows: seq<Profile>, ctx: Context, recs: seq<Record>, again: seq<Record>,
                            flushing: Flushing, later: Flushing)
    requires ImportOf(rows, RowChecks(ctx), recs, flushing).outcome.Completed?
    requires var first := ImportOf(rows, RowChecks(ctx), recs, flushing).rows;
             ImportOf(first, RowChecks(ctx), again, later).outcome.Completed?
    requires FreshIds(rows, ValidRows(RowChecks(ctx), recs))
    requires |recs| == |again| && forall i :: 0 <= i < |recs| ==> SameLine(recs[i], again[i])
    ensures var first := ImportOf(rows, RowChecks(ctx), recs, flushing);
            var second := ImportOf(first.rows, RowChecks(ctx), again, later);
            second.rows == first.rows && second.outcome.summary.inserted == 0
  {
    hide ImportOf, InsertAll, ValidRows, RowChecks, SameLine;
    var (v, w) := (ValidRows(RowChecks(ctx), recs), ValidRows(RowChecks(ctx), again));
    var after := InsertAll(rows, v);
    CompletedOutcome(rows, RowChecks(ctx), recs, flushing);
    CompletedOutcome(after, RowChecks(ctx), again, later);
    SameLinesSameCells(ctx, recs, again);
    SameNamesAddNothing(rows, v, w);
  }

  lemma SameNamesAddNothing(rows: seq<Profile>, v: seq<Profile>, w: seq<Profile>)
    requires FreshIds(rows, v) && |v| == |w| && forall i :: 0 <= i < |v| ==> SameCells(v[i], w[i])
    ensures InsertAll(InsertAll(rows, v), w) == InsertAll(rows, v)
  {
    hide InsertAll, Storable, FreshIds;
    var after := InsertAll(rows, v);
    InsertedNames(rows, v);
    StorableNames(v);
    forall p | p in w
      ensures Conflicts(after, p)
    {
      var i :| 0 <= i < |w| && w[i] == p;
      assert SameCells(v[i], p);
      assert Storable(p) ==> NameIn(after, p.name);
    }
    NothingAddedIff(after, w);
  }

  // A completed import that inserted nothing left the table as it was.
  lemma NothingInserted(rows: seq<Profile>, check: Validator, recs: seq<Record>, flushing: Flushing)
    requires var r := ImportOf(rows, check, recs, flushing); r.outcome.Completed? && r.outcome.summary.inserted == 0
    ensures ImportOf(rows, check, recs, flushing).rows == rows
  {
    hide ImportOf, InsertAll, ValidRows;
    CompletedOutcome(rows, check, recs, flushing);
    InsertAllExtends(rows, ValidRows(check, recs));
    ValidRowsFit(check, recs);
  }

  // An upload within the row limit with more than one chunk of valid rows, whose second flush fails: exactly
  // the first chunk is stored.
  lemma SecondFlushFails(rows: seq<Profile>, check: Validator, recs: seq<Record>, flushing: Flushing)
    requires |recs| <= MAX_ROWS && |ValidRows(check, recs)| > flushing.size
    requires flushing.fault(0) == None && flushing.fault(1) == Some(0)
    ensures ImportOf(rows, check, recs, flushing) ==
            ImportResult(InsertAll(rows, ValidRows(check, recs)[..flushing.size]), FlushFailed)
  {
    hide InsertAll, ValidRows, Stored, FullChunks, Rest;
    assert recs[..|recs|] == recs;
    var v := ValidRows(check, recs);
    OneMoreChunk(flushing.size, 0);
    ChunksAndRest(|v|, flushing.size);
    ChunkFits(|v|, flushing.size, 0);
    ChunkFits(|v|, flushing.size, 1);
    FailureAtOne(flushing, FullChunks(|v|, flushing.size));
  }

  lemma FailureAtOne(flushing: Flushing, full: nat)
    requires full >= 1 && flushing.fault(0) == None && flushing.fault(1) == Some(0)
    ensures FirstFailure(flushing, 0, full) == 1
  {
    assert FirstFailure(flushing, 0, full) == FirstFailure(flushing, 1, full);
  }

  // An early exit leaves exactly the first 500*k valid rows inserted, for some k; the buffered rest is lost. At
  // the row limit k counts all the full chunks, and after a failed flush it is the number of that flush. The
  // table is as before exactly when every one of those rows was already taken.
  lemma EarlyExitKeepsWholeChunks(rows: seq<Profile>, check: Validator, recs: seq<Record>, flushing: Flushing)
    returns (k: nat)
    requires !ImportOf(rows, check, recs, flushing).outcome.Completed?
    ensures var (v, r) := (ValidRows(check, recs[..ReadUpTo(recs, 0)]), ImportOf(rows, check, recs, flushing));
            && Stored(flushing.size, k) <= |v| && r.rows == InsertAll(rows, FirstChunks(v, flushing.size, k))
            && (forall j :: 0 <= j < k ==> !Fails(flushing, j, flushing.size))
            && (r.outcome == TooManyRows ==> k == FullChunks(|v|, flushing.size))
            && (r.outcome == FlushFailed ==>
                  Stored(flushing.size, k) < |v| &&
                  Fails(flushing, k, Min(flushing.size, |v| - Stored(flushing.size, k))))
            && (r.rows == rows <==> forall p :: p in FirstChunks(v, flushing.size, k) ==> Conflicts(rows, p))
  {
    hide InsertAll, ValidRows, Fails, Stored, FullChunks, Rest;
    var v := ValidRows(check, recs[..ReadUpTo(recs, 0)]);
    ChunksAndRest(|v|, flushing.size);
    k := FirstFailure(flushing, 0, FullChunks(|v|, flushing.size));
    ChunkFits(|v|, flushing.size, k);
    NothingAddedIff(rows, FirstChunks(v, flushing.size, k));
  }

  function Min(a: int, b: int): int {
    if a < b then a else b
  }

  // An upload refused at the row limit has written nothing exactly when every valid row of its full chunks was
  // already taken.
  lemma RowLimitWritesNothingIff(rows: seq<Profile>, check: Validator, recs: seq<Record>, flushing: Flushing)
    requires ImportOf(rows, check, recs, flushing).outcome == TooManyRows
    ensures var v := ValidRows(check, recs[..ReadUpTo(recs, 0)]);
            ImportOf(rows, check, recs, flushing).rows == rows <==>
            forall p :: p in FirstChunks(v, flushing.size, FullChunks(|v|, flushing.size)) ==> Conflicts(rows, p)
  {
    var k := EarlyExitKeepsWholeChunks(rows, check, recs, flushing);
  }

  // Such uploads do write: with a readable record past the limit, at least one full chunk of valid rows before
  // the first such record, and its first row new to the table, the refusal comes after that row was committed.
  lemma RowLimitAfterWriting(rows: seq<Profile>, check: Validator, recs: seq<Record>, flushing: Flushing, i: nat)
    requires i < |recs| && OverLimit(recs, i) && forall k :: flushing.fault(k) == None
    requires var v := ValidRows(check, recs[..ReadUpTo(recs, 0)]);
             |v| >= flushing.size && !Conflicts(rows, v[0])
    ensures var r := ImportOf(rows, check, recs, flushing);
            var v := ValidRows(check, recs[..ReadUpTo(recs, 0)]);
            r.outcome == TooManyRows && rows + [v[0]] <= r.rows
  {
    var v := ValidRows(check, recs[..ReadUpTo(recs, 0)]);
    hide InsertAll, ValidRows, Conflicts;
    var k := EarlyExitKeepsWholeChunks(rows, check, recs, flushing);
    FirstNewRowStays(rows, FirstChunks(v, flushing.size, k));
  }

  lemma {:induction false} FirstNewRowStays(rows: seq<Profile>, ps: seq<Profile>)
    requires ps != [] && !Conflicts(rows, ps[0])
    ensures rows + [ps[0]] <= InsertAll(rows, ps)
  {
    if |ps| == 1 {
      assert InsertAll(rows, ps[..0]) == rows;
    } else {
      FirstNewRowStays(rows, ps[..|ps| - 1]);
    }
  }
}
