// CSV export (export.go) and its round trip through the import: exporting a whole store and importing the
// rows into an empty one reproduces every profile, in any order of columns.
module Export {
  import opened Wrappers
  import opened Text
  import opened Decimal
  import opened Profiles
  import opened Query
  import opened Import
  import Ordering

  // strconv.FormatFloat(p, 'f', -1, 64), and the created_at text in RFC 3339 seconds.
  datatype Printers = Printers(formatFloat: Float -> string, stamp: string -> string)

  const HEADER: seq<string> := [
    "id", "name", "gender", "gender_probability", "age", "age_group", "country_id", "country_name",
    "country_probability", "created_at"]

  function ExportRow(p: Profile, pr: Printers): (cells: seq<string>)
    ensures |cells| == |HEADER|
  {
    [p.id, p.name, p.gender, pr.formatFloat(p.genderProbability), FormatInt(p.age), p.ageGroup, p.countryId,
     p.countryName, pr.formatFloat(p.countryProbability), pr.stamp(p.createdAt)]
  }

  function ExportRows(ps: seq<Profile>, pr: Printers): (rows: seq<seq<string>>)
    ensures |rows| == |ps|
  {
    seq(|ps|, i requires 0 <= i < |ps| => ExportRow(ps[i], pr))
  }

  // Which column each value goes to, by the header's own names.
  lemma CellsUnderHeader(p: Profile, pr: Printers, k: nat)
    requires k < |HEADER|
    ensures var cell := ExportRow(p, pr)[k];
            && (HEADER[k] == "id" ==> cell == p.id) && (HEADER[k] == "name" ==> cell == p.name)
            && (HEADER[k] == "gender" ==> cell == p.gender) && (HEADER[k] == "age" ==> cell == FormatInt(p.age))
            && (HEADER[k] == "gender_probability" ==> cell == pr.formatFloat(p.genderProbability))
            && (HEADER[k] == "age_group" ==> cell == p.ageGroup) && (HEADER[k] == "country_id" ==> cell == p.countryId)
            && (HEADER[k] == "country_name" ==> cell == p.countryName)
            && (HEADER[k] == "country_probability" ==> cell == pr.formatFloat(p.countryProbability))
            && (HEADER[k] == "created_at" ==> cell == pr.stamp(p.createdAt))
  {
  }

  // And the header has each of them once.
  lemma HeaderIsComplete()
    ensures multiset(HEADER) ==
            multiset{"id", "name", "gender", "gender_probability", "age", "age_group", "country_id", "country_name",
                     "country_probability", "created_at"}
  {
  }

  // The lines an export request writes: the header, then one row per matching profile in the order asked for.
  method ExportProfiles(store: Store, query: Params, parse: FloatParser, pr: Printers)
    returns (r: Option<seq<seq<string>>>)
    ensures var format := Get(query, "format");
            r == if (format != "" && format != "csv") || !Accepted(query, parse) then None
                 else Some([HEADER] + ExportRows(AllMatching(store.rows, FilterOf(query, parse)), pr))
  {
    hide Accepted, FilterOf, AllMatching, ExportRow;
    var format := Get(query, "format");
    if format == "" {
      format := "csv";
    }
    if format != "csv" {
      return None;
    }
    var f := ParseListQuery(query, parse);
    if f.Err? {
      return None;
    }
    var profiles, _ := store.ListAll(f.value);
    var lines := [HEADER];
    for i := 0 to |profiles|
      invariant lines == [HEADER] + ExportRows(profiles[..i], pr)
    {
      assert profiles[..i + 1] == profiles[..i] + [profiles[i]];
      lines := lines + [ExportRow(profiles[i], pr)];
    }
    assert profiles[..|profiles|] == profiles;
    return Some(lines);
  }

  // ----- columns in any order --------------------------------------------------------------------------

  // Where a column name last stands is where the index says it is.
  lemma {:induction false} LastPositionWins(header: seq<string>, i: nat)
    requires i < |header|
    requires forall j :: i < j < |header| ==> ColumnKey(header[j]) != ColumnKey(header[i])
    ensures ColumnKey(header[i]) in HeaderIndex(header) && HeaderIndex(header)[ColumnKey(header[i])] == i
  {
    if i < |header| - 1 {
      LastPositionWins(header[..|header| - 1], i);
    }
  }

  ghost predicate DistinctColumns(header: seq<string>) {
    forall i, j :: 0 <= i < j < |header| ==> ColumnKey(header[i]) != ColumnKey(header[j])
  }

  // order[j] is the old position of the column now at j.
  ghost predicate Permutes(order: seq<nat>, n: nat) {
    && |order| == n && (forall j :: 0 <= j < n ==> order[j] < n)
    && (forall i: nat :: i < n ==> i in order)
    && (forall j, k :: 0 <= j < k < n ==> order[j] != order[k])
  }

  function Reorder(cells: seq<string>, order: seq<nat>): seq<string>
    requires forall j :: 0 <= j < |order| ==> order[j] < |cells|
  {
    seq(|order|, j requires 0 <= j < |order| => cells[order[j]])
  }

  lemma SameFieldAfterReorder(header: seq<string>, cells: seq<string>, order: seq<nat>, col: string)
    requires DistinctColumns(header) && |cells| == |header| && Permutes(order, |header|)
    ensures Field(Reorder(cells, order), HeaderIndex(Reorder(header, order)), col) ==
            Field(cells, HeaderIndex(header), col)
  {
    hide ColumnKey, TrimSpace, HeaderIndex;
    var (h, c) := (Reorder(header, order), Reorder(cells, order));
    IndexedColumnsExist(header, col);
    IndexedColumnsExist(h, col);
    assert forall j :: 0 <= j < |h| ==> h[j] == header[order[j]];
    if col in HeaderIndex(header) {
      var i :| 0 <= i < |header| && ColumnKey(header[i]) == col;
      assert i in order;
      var j :| 0 <= j < |order| && order[j] == i;
      LastPositionWins(header, i);
      assert h[j] == header[i] && c[j] == cells[i];
      forall k | j < k < |h|
        ensures ColumnKey(h[k]) != ColumnKey(h[j])
      {
        assert order[k] != order[j];
      }
      LastPositionWins(h, j);
    }
  }

  function ReorderRecord(rec: Record, order: seq<nat>): Record
    requires rec.Row? ==> forall j :: 0 <= j < |order| ==> order[j] < |rec.fields|
  {
    if rec.Malformed? then rec else rec.(fields := Reorder(rec.fields, order))
  }

  // Permuting the header and every row alike changes no row's verdict.
  lemma SameVerdictAfterReorder(ctx: Context, header: seq<string>, rec: Record, order: seq<nat>)
    requires DistinctColumns(header) && Permutes(order, |header|)
    requires rec.Row? ==> |rec.fields| == |header|
    ensures Verdict(ctx.(idx := HeaderIndex(Reorder(header, order))), ReorderRecord(rec, order)) ==
            Verdict(ctx.(idx := HeaderIndex(header)), rec)
  {
    if rec.Row? {
      hide Field, CheckCells, HeaderIndex;
      SameFieldAfterReorder(header, rec.fields, order, "name");
      SameFieldAfterReorder(header, rec.fields, order, "gender");
      SameFieldAfterReorder(header, rec.fields, order, "age");
      SameFieldAfterReorder(header, rec.fields, order, "country_id");
      SameFieldAfterReorder(header, rec.fields, order, "gender_probability");
      SameFieldAfterReorder(header, rec.fields, order, "country_probability");
    }
  }

  // Uploads judged alike row for row have the same effect.
  ghost predicate JudgedAlike(a: Validator, xs: seq<Record>, b: Validator, ys: seq<Record>) {
    |xs| == |ys| && forall i :: 0 <= i < |xs| ==> a(xs[i]) == b(ys[i]) && (xs[i].Row? <==> ys[i].Row?)
  }

  lemma {:induction false} AlikeRows(a: Validator, xs: seq<Record>, b: Validator, ys: seq<Record>)
    requires JudgedAlike(a, xs, b, ys)
    ensures ValidRows(a, xs) == ValidRows(b, ys)
    ensures forall why :: Rejected(a, xs, why) == Rejected(b, ys, why)
  {
    if xs != [] {
      AlikeRows(a, xs[..|xs| - 1], b, ys[..|ys| - 1]);
    }
  }

  lemma {:induction false} AlikeReadUpTo(a: Validator, xs: seq<Record>, b: Validator, ys: seq<Record>, i: nat)
    requires JudgedAlike(a, xs, b, ys) && i <= |xs|
    ensures ReadUpTo(xs, i) == ReadUpTo(ys, i)
    decreases |xs| - i
  {
    if i < |xs| {
      AlikeReadUpTo(a, xs, b, ys, i + 1);
    }
  }

  lemma AlikeImports(rows: seq<Profile>, a: Validator, xs: seq<Record>, b: Validator, ys: seq<Record>,
                     flushing: Flushing)
    requires JudgedAlike(a, xs, b, ys)
    ensures ImportOf(rows, a, xs, flushing) == ImportOf(rows, b, ys, flushing)
  {
    hide InsertAll;
    AlikeReadUpTo(a, xs, b, ys, 0);
    var n := ReadUpTo(xs, 0);
    AlikeRows(a, xs[..n], b, ys[..n]);
    AlikeRows(a, xs, b, ys);
    AlikeSummaries(a, xs, b, ys, |InsertAll(rows, ValidRows(a, xs[..n]))| - |rows|);
  }

  lemma AlikeSummaries(a: Validator, xs: seq<Record>, b: Validator, ys: seq<Record>, inserted: int)
    requires |xs| == |ys| && ValidRows(a, xs) == ValidRows(b, ys)
    requires forall why :: Rejected(a, xs, why) == Rejected(b, ys, why)
    ensures SummaryFor(a, xs, inserted) == SummaryFor(b, ys, inserted)
  {
    hide ValidRows, Rejected;
  }

  function Moved(recs: seq<Record>, order: seq<nat>): (moved: seq<Record>)
    requires forall i :: 0 <= i < |recs| && recs[i].Row? ==>
               forall j :: 0 <= j < |order| ==> order[j] < |recs[i].fields|
    ensures |moved| == |recs|
  {
    seq(|recs|, i requires 0 <= i < |recs| => ReorderRecord(recs[i], order))
  }

  // The import's result does not depend on the order of the columns.
  lemma ColumnOrderIrrelevant(rows: seq<Profile>, ctx: Context, header: seq<string>, recs: seq<Record>,
                              order: seq<nat>, flushing: Flushing)
    requires DistinctColumns(header) && Permutes(order, |header|)
    requires forall i :: 0 <= i < |recs| ==> recs[i].Row? ==> |recs[i].fields| == |header|
    ensures ImportOf(rows, RowChecks(ctx.(idx := HeaderIndex(Reorder(header, order)))), Moved(recs, order), flushing) ==
            ImportOf(rows, RowChecks(ctx.(idx := HeaderIndex(header))), recs, flushing)
  {
    hide ImportOf, HeaderIndex, Verdict, Reorder, DistinctColumns;
    var moved := Moved(recs, order);
    var a := RowChecks(ctx.(idx := HeaderIndex(Reorder(header, order))));
    var b := RowChecks(ctx.(idx := HeaderIndex(header)));
    forall i | 0 <= i < |recs|
      ensures a(moved[i]) == b(recs[i])
    {
      SameVerdictAfterReorder(ctx, header, recs[i], order);
    }
    AlikeImports(rows, a, moved, b, recs, flushing);
  }

  // ----- the round trip ----------------------------------------------------------------------------------

  // The columns of the export header the import reads, and where they are.
  lemma ExportHeader()
    ensures REQUIRED <= HeaderIndex(HEADER).Keys && DistinctColumns(HEADER)
    ensures var idx := HeaderIndex(HEADER);
            && "name" in idx && idx["name"] == 1 && "gender" in idx && idx["gender"] == 2
            && "gender_probability" in idx && idx["gender_probability"] == 3 && "age" in idx && idx["age"] == 4
            && "country_id" in idx && idx["country_id"] == 6
            && "country_probability" in idx && idx["country_probability"] == 8
  {
    hide HeaderIndex, ColumnKey;
    PlainColumns();
    forall i, j | 0 <= i < j < |HEADER|
      ensures ColumnKey(HEADER[i]) != ColumnKey(HEADER[j])
    {
      var (a, b) := (HEADER[i], HEADER[j]);
      assert |a| != |b| || a[0] != b[0] || a[|a| - 1] != b[|b| - 1];
    }
    LastPositionWins(HEADER, 1);
    LastPositionWins(HEADER, 2);
    LastPositionWins(HEADER, 3);
    LastPositionWins(HEADER, 4);
    LastPositionWins(HEADER, 6);
    LastPositionWins(HEADER, 8);
  }

  lemma PlainColumns()
    ensures forall i :: 0 <= i < |HEADER| ==> ColumnKey(HEADER[i]) == HEADER[i]
  {
    forall i | 0 <= i < |HEADER|
      ensures ColumnKey(HEADER[i]) == HEADER[i]
    {
      assert PlainWord(HEADER[i]);
      TrimOfTrimmed(HEADER[i]);
      PlainWordStable(HEADER[i]);
    }
  }

  // Printing a probability and parsing it gives it back, as strconv promises for the shortest form.
  ghost predicate FloatRoundTrip(parse: FloatParser, pr: Printers, p: Probability) {
    var text := pr.formatFloat(p);
    text != "" && Trimmed(text) && parse(text) == Some(p)
  }

  ghost predicate Exportable(parse: FloatParser, pr: Printers, p: Profile) {
    ImportValid(p) && FloatRoundTrip(parse, pr, p.genderProbability) && FloatRoundTrip(parse, pr, p.countryProbability)
  }

  // What an import can reproduce of a profile.
  predicate SameData(p: Profile, q: Profile) {
    && p.name == q.name && p.gender == q.gender && p.age == q.age && p.ageGroup == q.ageGroup
    && p.countryId == q.countryId
    && p.genderProbability == q.genderProbability && p.countryProbability == q.countryProbability
  }

  lemma ExportedRowParses(ctx: Context, pr: Printers, p: Profile, id: string, now: string)
    requires Exportable(ctx.parse, pr, p) && ctx.idx == HeaderIndex(HEADER)
    ensures var v := Verdict(ctx, Row(ExportRow(p, pr), Some(id), now));
            v.Ok? && SameData(v.value, p) && v.value.id == id
  {
    hide HeaderIndex, TrimSpace, ToLower, ToUpper, Atoi, ClassifyAge;
    ExportHeader();
    var cells := ExportRow(p, pr);
    AtoiFormatInt(p.age);
    TrimOfTrimmed(p.name);
    TrimOfTrimmed(FormatInt(p.age));
    TrimOfTrimmed(pr.formatFloat(p.genderProbability));
    TrimOfTrimmed(pr.formatFloat(p.countryProbability));
    GenderIsPlain(p.gender);
    UpperStable(p.countryId);
    assert Field(cells, ctx.idx, "name") == p.name;
    assert Field(cells, ctx.idx, "age") == FormatInt(p.age);
  }

  // Take an exported row and write NaN for its gender probability: the import accepts it, does not store it, and
  // reports it as a duplicate name, even into an empty table.
  lemma UploadedNaNIsReportedDuplicate(rows: seq<Profile>, ctx: Context, pr: Printers, p: Profile, id: string,
                                       now: string, flushing: Flushing)
    requires Exportable(ctx.parse, pr, p) && Storable(p)
    requires ctx.parse("NaN") == Some(NaN) && ctx.idx == HeaderIndex(HEADER) && flushing.fault(0) == None
    ensures ImportOf(rows, RowChecks(ctx), [Row(ExportRow(p, pr)[3 := "NaN"], Some(id), now)], flushing) ==
            ImportResult(rows, Completed(Summary(1, 0, 1, map[DuplicateName := 1])))
  {
    var q := p.(genderProbability := NaN);
    var printers := PrintsNaN(pr);
    hide ImportOf, HeaderIndex, ExportRow, Verdict, Exportable, PrintsNaN, HEADER, SameData;
    NaNWritten(ctx.parse, pr, p);
    ExportedRowParses(ctx, printers, q, id, now);
    SameDataSameStorable(q, Verdict(ctx, Row(ExportRow(q, printers), Some(id), now)));
    UnstorableCountsAsDuplicate(rows, RowChecks(ctx), Row(ExportRow(q, printers), Some(id), now), flushing);
  }

  lemma SameDataSameStorable(p: Profile, v: Result<Profile, Reason>)
    requires v.Ok? && SameData(v.value, p)
    ensures Storable(v.value) <==> Storable(p)
  {
  }

  function PrintsNaN(pr: Printers): Printers {
    pr.(formatFloat := (x: Float) => if x.NaN? then "NaN" else pr.formatFloat(x))
  }

  lemma NaNWritten(parse: FloatParser, pr: Printers, p: Profile)
    requires Exportable(parse, pr, p) && Storable(p) && parse("NaN") == Some(NaN)
    ensures var q := p.(genderProbability := NaN);
            Exportable(parse, PrintsNaN(pr), q) && ExportRow(q, PrintsNaN(pr)) == ExportRow(p, pr)[3 := "NaN"]
  {
    hide FormatInt, TrimSpace;
  }

  lemma GenderIsPlain(s: string)
    requires IsGender(s)
    ensures TrimSpace(s) == s && ToLower(s) == s
  {
    assert PlainWord(s);
    PlainWordStable(s);
  }

  // The upload made of a store's export, with the ids and clock readings the import will draw.
  function Upload(ps: seq<Profile>, pr: Printers, ids: seq<string>, nows: seq<string>): (recs: seq<Record>)
    requires |ids| == |nows| == |ps|
    ensures |recs| == |ps|
  {
    seq(|ps|, i requires 0 <= i < |ps| => Row(ExportRow(ps[i], pr), Some(ids[i]), nows[i]))
  }

  lemma {:induction false} AllRowsValid(check: Validator, recs: seq<Record>)
    requires forall i :: 0 <= i < |recs| ==> check(recs[i]).Ok?
    ensures |ValidRows(check, recs)| == |recs|
    ensures forall i :: 0 <= i < |recs| ==> ValidRows(check, recs)[i] == check(recs[i]).value
    ensures forall why :: Rejected(check, recs, why) == 0
  {
    if recs != [] {
      AllRowsValid(check, recs[..|recs| - 1]);
    }
  }

  lemma {:induction false} DistinctAllInserted(v: seq<Profile>)
    requires IsTable(v)
    ensures InsertAll([], v) == v
  {
    if v != [] {
      hide InsertAll, FirstOfEachName, StorableOnes, Storable;
      var (init, p) := (v[..|v| - 1], v[|v| - 1]);
      assert v == init + [p];
      DistinctAllInserted(init);
      OneMoreRow([], init, p);
    }
  }

  // A filter that asks for everything selects the whole table.
  lemma {:induction false} NoFilterSelectsAll(rows: seq<Profile>, f: ListFilter)
    requires f.gender == f.countryId == f.ageGroup == "" && f.minAge == f.maxAge == None
    requires f.minGenderProb == f.minCountryProb == None
    ensures Matching(rows, f) == rows
  {
    if rows != [] {
      NoFilterSelectsAll(rows[1..], f);
    }
  }

  // Exporting a whole store of at most 500,000 import-valid profiles and importing the result into an empty
  // store inserts every row, skips none, and reproduces every profile's data in export order.
  lemma RoundTrip(rows: seq<Profile>, f: ListFilter, ctx: Context, pr: Printers, ids: seq<string>, nows: seq<string>,
                  flushing: Flushing)
    requires IsTable(rows) && |rows| <= MAX_ROWS
    requires f.gender == f.countryId == f.ageGroup == "" && f.minAge == f.maxAge == None
    requires f.minGenderProb == f.minCountryProb == None
    requires forall i :: 0 <= i < |rows| ==> Exportable(ctx.parse, pr, rows[i])
    requires |ids| == |nows| == |rows| && (forall i, j :: 0 <= i < j < |ids| ==> ids[i] != ids[j])
    requires ctx.idx == HeaderIndex(HEADER) && forall k :: flushing.fault(k) == None
    ensures var ps := AllMatching(rows, f);
            && |ps| == |rows| && (forall p :: p in ps <==> p in rows)
            && var r := ImportOf([], RowChecks(ctx), Upload(ps, pr, ids, nows), flushing);
               && r.outcome == Completed(Summary(|rows|, |rows|, 0, map[]))
               && |r.rows| == |rows| && forall i :: 0 <= i < |rows| ==> SameData(r.rows[i], ps[i])
  {
    hide AllMatching, HeaderIndex, ExportRow, Exportable, Verdict;
    WholeStore(rows, f);
    var ps := AllMatching(rows, f);
    var recs := Upload(ps, pr, ids, nows);
    var check := RowChecks(ctx);
    forall i | 0 <= i < |recs|
      ensures check(recs[i]).Ok? && SameData(check(recs[i]).value, ps[i]) && check(recs[i]).value.id == ids[i]
      ensures Storable(check(recs[i]).value)
    {
      assert ps[i] in rows;
      ExportedRowParses(ctx, pr, ps[i], ids[i], nows[i]);
    }
    ImportAllValid(check, recs, flushing);
  }

  // The same when someone moves the exported file's columns around before importing it.
  lemma RoundTripInAnyColumnOrder(rows: seq<Profile>, f: ListFilter, ctx: Context, pr: Printers, ids: seq<string>,
                                  nows: seq<string>, flushing: Flushing, order: seq<nat>)
    requires IsTable(rows) && |rows| <= MAX_ROWS && Permutes(order, |HEADER|)
    requires f.gender == f.countryId == f.ageGroup == "" && f.minAge == f.maxAge == None
    requires f.minGenderProb == f.minCountryProb == None
    requires forall i :: 0 <= i < |rows| ==> Exportable(ctx.parse, pr, rows[i])
    requires |ids| == |nows| == |rows| && (forall i, j :: 0 <= i < j < |ids| ==> ids[i] != ids[j])
    requires ctx.idx == HeaderIndex(Reorder(HEADER, order)) && forall k :: flushing.fault(k) == None
    ensures var ps := AllMatching(rows, f);
            && |ps| == |rows| && (forall p :: p in ps <==> p in rows)
            && var r := ImportOf([], RowChecks(ctx), Moved(Upload(ps, pr, ids, nows), order), flushing);
               && r.outcome == Completed(Summary(|rows|, |rows|, 0, map[]))
               && |r.rows| == |rows| && forall i :: 0 <= i < |rows| ==> SameData(r.rows[i], ps[i])
  {
    hide AllMatching, HeaderIndex, ExportRow, Exportable, Verdict, ImportOf, DistinctColumns, Permutes,
      RowChecks, SameData;
    var plain := ctx.(idx := HeaderIndex(HEADER));
    RoundTrip(rows, f, plain, pr, ids, nows, flushing);
    ExportHeader();
    var recs := Upload(AllMatching(rows, f), pr, ids, nows);
    ColumnOrderIrrelevant([], plain, HEADER, recs, order, flushing);
    assert plain.(idx := ctx.idx) == ctx;
  }

  lemma WholeStore(rows: seq<Profile>, f: ListFilter)
    requires IsTable(rows)
    requires f.gender == f.countryId == f.ageGroup == "" && f.minAge == f.maxAge == None
    requires f.minGenderProb == f.minCountryProb == None
    ensures IsTable(AllMatching(rows, f)) && |AllMatching(rows, f)| == |rows|
    ensures forall p :: p in AllMatching(rows, f) <==> p in rows
  {
    hide Matches, Storable, IsTable, Ordering.Sorted, Ordering.SortBy;
    NoFilterSelectsAll(rows, f);
    AllMatchingIsSortedSelection(rows, f);
    MatchingIsFilter(rows, f);
    Ordering.SortPermutes(rows, RowOrder(SortColumn(f.sortBy), Descending(f.order)));
    hide AllMatching;
    RowsOfTable(rows, AllMatching(rows, f));
  }

  // Some rows of a table, each once, are a table.
  lemma RowsOfTable(rows: seq<Profile>, ps: seq<Profile>)
    requires IsTable(rows) && (forall p :: p in ps ==> p in rows)
    requires forall i, j :: 0 <= i < j < |ps| ==> ps[i] != ps[j]
    ensures IsTable(ps)
  {
    hide Storable;
    forall i | 0 <= i < |ps|
      ensures Storable(ps[i])
    {
      assert ps[i] in rows;
    }
    forall i, j | 0 <= i < j < |ps|
      ensures ps[i].id != ps[j].id && ps[i].name != ps[j].name
    {
      assert ps[i] in rows && ps[j] in rows;
    }
  }

  // An upload of valid rows with distinct names and ids, and no fault, goes in completely.
  lemma ImportAllValid(check: Validator, recs: seq<Record>, flushing: Flushing)
    requires |recs| <= MAX_ROWS && forall k :: flushing.fault(k) == None
    requires forall i :: 0 <= i < |recs| ==> check(recs[i]).Ok? && Storable(check(recs[i]).value)
    requires forall i, j :: 0 <= i < j < |recs| ==>
      check(recs[i]).value.id != check(recs[j]).value.id && check(recs[i]).value.name != check(recs[j]).value.name
    ensures var r := ImportOf([], check, recs, flushing);
            && r.outcome == Completed(Summary(|recs|, |recs|, 0, map[]))
            && |r.rows| == |recs| && forall i :: 0 <= i < |recs| ==> r.rows[i] == check(recs[i]).value
  {
    AllRowsValid(check, recs);
    var v := ValidRows(check, recs);
    hide ValidRows, Rejected, InsertAll;
    assert IsTable(v);
    DistinctAllInserted(v);
    assert recs[..|recs|] == recs;
    assert ReadUpTo(recs, 0) == |recs|;
    var s := SummaryOf(check, recs, |recs|);
    assert forall why :: Tally(check, recs, 0, why) == 0;
    assert s.reasons == map[];
  }
}
