// Canonical filter strings and cache keys (normalize.go). The canonical string is rendered from a normal
// form; the main result is that it can be read back, so equal strings mean equal prefixes and normal forms.
module Normalize {
  import opened Wrappers
  import opened Text
  import opened Ordering
  import opened Decimal
  import opened Profiles

  // What a canonical string records: text folded and trimmed, defaults filled in, thresholds to six decimals.
  datatype NormalForm = NormalForm(
    gender: string, country: string, ageGroup: string, minAge: Option<int>, maxAge: Option<int>,
    minGenderPlaces: Option<Places>, minCountryPlaces: Option<Places>,
    sortBy: string, order: string, page: int, limit: int)

  function PlacesOf(p: Option<Probability>): Option<Places> {
    if p.None? then None else Some(SixPlaces(p.value))
  }

  function NormalOrder(order: string): string {
    var o := ToLower(TrimSpace(order));
    if o == "asc" || o == "desc" then o else "asc"
  }

  function NormalFormOf(f: ListFilter): NormalForm {
    NormalForm(
      TrimSpace(ToLower(f.gender)), TrimSpace(ToUpper(f.countryId)), TrimSpace(ToLower(f.ageGroup)),
      f.minAge, f.maxAge, PlacesOf(f.minGenderProb), PlacesOf(f.minCountryProb),
      if TrimSpace(f.sortBy) == "" then "created_at" else TrimSpace(f.sortBy),
      NormalOrder(f.order), PageNumber(f), PageSize(f))
  }

  // ----- rendering -----------------------------------------------------------------------------

  datatype Key =
    | Gender | Country | AgeGroup | MinAge | MaxAge | MinGProb | MinCProb | SortBy | Order | Page | Limit

  function KeyName(k: Key): string {
    match k
    case Gender => "gender"
    case Country => "country"
    case AgeGroup => "age_group"
    case MinAge => "min_age"
    case MaxAge => "max_age"
    case MinGProb => "min_gprob"
    case MinCProb => "min_cprob"
    case SortBy => "sort_by"
    case Order => "order"
    case Page => "page"
    case Limit => "limit"
  }

  // A value before printing: text, a whole number, or a probability's decimals.
  datatype Datum = Word(text: string) | Whole(n: int) | Decimals(places: Places)

  type Field = (Key, Datum)

  function Print(d: Datum): string {
    match d
    case Word(s) => s
    case Whole(n) => FormatInt(n)
    case Decimals(d) => TrimPlaces(d)
  }

  function Part(field: Field): string {
    KeyName(field.0) + "=" + Print(field.1)
  }

  function Parts(fields: seq<Field>): (parts: seq<string>)
    ensures |parts| == |fields|
  {
    seq(|fields|, i requires 0 <= i < |fields| => Part(fields[i]))
  }

  function NonEmpty(v: string): Option<Datum> {
    if v == "" then None else Some(Word(v))
  }

  function WholeOf(n: Option<int>): Option<Datum> {
    if n.None? then None else Some(Whole(n.value))
  }

  function DecimalsOf(d: Option<Places>): Option<Datum> {
    if d.None? then None else Some(Decimals(d.value))
  }

  // The value a normal form gives a key, or None when the key is left out of the string.
  function ValueOf(nf: NormalForm, k: Key): Option<Datum> {
    match k
    case Gender => NonEmpty(nf.gender)
    case Country => NonEmpty(nf.country)
    case AgeGroup => NonEmpty(nf.ageGroup)
    case MinAge => WholeOf(nf.minAge)
    case MaxAge => WholeOf(nf.maxAge)
    case MinGProb => DecimalsOf(nf.minGenderPlaces)
    case MinCProb => DecimalsOf(nf.minCountryPlaces)
    case SortBy => Some(Word(nf.sortBy))
    case Order => Some(Word(nf.order))
    case Page => Some(Whole(nf.page))
    case Limit => Some(Whole(nf.limit))
  }

  // The field a key contributes: one, or none when it is left out.
  function OptionalField(k: Key, v: Option<Datum>): seq<Field> {
    if v.Some? then [(k, v.value)] else []
  }

  function FieldOf(nf: NormalForm, k: Key): seq<Field> {
    OptionalField(k, ValueOf(nf, k))
  }

  function SelectionFields(nf: NormalForm): seq<Field> {
    FieldOf(nf, Gender) + FieldOf(nf, Country) + FieldOf(nf, AgeGroup) + FieldOf(nf, MinAge) + FieldOf(nf, MaxAge)
    + FieldOf(nf, MinGProb) + FieldOf(nf, MinCProb)
  }

  function PagingFields(nf: NormalForm): seq<Field> {
    [(SortBy, Word(nf.sortBy)), (Order, Word(nf.order)), (Page, Whole(nf.page)), (Limit, Whole(nf.limit))]
  }

  function Fields(nf: NormalForm): seq<Field> {
    SelectionFields(nf) + PagingFields(nf)
  }

  const TEXT_ORDER: (string, string) -> bool := (a, b) => LexLeq(a, b)

  function Render(prefix: string, nf: NormalForm): string {
    prefix + ":" + Join(Ordering.SortBy(Parts(Fields(nf)), TEXT_ORDER), '&')
  }

  function PrefixOr(prefix: string): string {
    if prefix == "" then "list" else prefix
  }

  function Canonical(f: ListFilter, prefix: string): string {
    Render(PrefixOr(prefix), NormalFormOf(f))
  }

  lemma PartsConcat(a: seq<Field>, b: seq<Field>)
    ensures Parts(a + b) == Parts(a) + Parts(b)
  {
  }

  // A part is appended when its value is there.
  method AppendPart(ghost fields: seq<Field>, parts: seq<string>, k: Key, v: Option<Datum>) returns (r: seq<string>)
    requires parts == Parts(fields)
    ensures r == Parts(fields + OptionalField(k, v))
  {
    r := parts;
    if v.Some? {
      r := r + [Part((k, v.value))];
    }
  }

  // The parts in the order the backend appends them: the selection fields that are set, then sort and page.
  method AppendParts(nf: NormalForm) returns (parts: seq<string>)
    ensures parts == Parts(Fields(nf))
  {
    hide Parts, Part, ValueOf, OptionalField, PagingFields;
    NoParts();
    parts := AppendPart([], [], Gender, ValueOf(nf, Gender));
    ghost var done := [] + FieldOf(nf, Gender);
    parts := AppendPart(done, parts, Country, ValueOf(nf, Country));
    done := done + FieldOf(nf, Country);
    parts := AppendPart(done, parts, AgeGroup, ValueOf(nf, AgeGroup));
    done := done + FieldOf(nf, AgeGroup);
    parts := AppendPart(done, parts, MinAge, ValueOf(nf, MinAge));
    done := done + FieldOf(nf, MinAge);
    parts := AppendPart(done, parts, MaxAge, ValueOf(nf, MaxAge));
    done := done + FieldOf(nf, MaxAge);
    parts := AppendPart(done, parts, MinGProb, ValueOf(nf, MinGProb));
    done := done + FieldOf(nf, MinGProb);
    parts := AppendPart(done, parts, MinCProb, ValueOf(nf, MinCProb));
    done := done + FieldOf(nf, MinCProb);
    assert [] + FieldOf(nf, Gender) == FieldOf(nf, Gender);
    assert done == SelectionFields(nf);
    parts := parts + [Part((SortBy, Word(nf.sortBy))), Part((Order, Word(nf.order))),
                      Part((Page, Whole(nf.page))), Part((Limit, Whole(nf.limit)))];
    PagingParts(nf);
    PartsConcat(done, PagingFields(nf));
  }

  lemma NoParts()
    ensures Parts([]) == []
  {
  }

  lemma PagingParts(nf: NormalForm)
    ensures Parts(PagingFields(nf)) ==
            [Part((SortBy, Word(nf.sortBy))), Part((Order, Word(nf.order))), Part((Page, Whole(nf.page))),
             Part((Limit, Whole(nf.limit)))]
  {
    hide Part;
  }

  // The canonical string, built the way the backend builds it: fold, fill defaults, append what is set,
  // sort, join.
  method CanonicalFilter(f: ListFilter, prefix: string) returns (r: string)
    ensures r == Canonical(f, prefix)
  {
    var gender := TrimSpace(ToLower(f.gender));
    var country := TrimSpace(ToUpper(f.countryId));
    var ageGroup := TrimSpace(ToLower(f.ageGroup));
    var sortBy := TrimSpace(f.sortBy);
    if sortBy == "" {
      sortBy := "created_at";
    }
    var order := ToLower(TrimSpace(f.order));
    if order != "asc" && order != "desc" {
      order := "asc";
    }
    var page := f.page;
    if page < 1 {
      page := 1;
    }
    var limit := f.limit;
    if limit < 1 {
      limit := 10;
    }
    var nf := NormalForm(gender, country, ageGroup, f.minAge, f.maxAge,
                         PlacesOf(f.minGenderProb), PlacesOf(f.minCountryProb), sortBy, order, page, limit);
    assert nf == NormalFormOf(f);
    var parts := AppendParts(nf);
    parts := Ordering.SortBy(parts, TEXT_ORDER);
    r := PrefixOr(prefix) + ":" + Join(parts, '&');
  }

  // ----- reading back --------------------------------------------------------------------------

  // The text fields of a normal form avoid the character that joins parts.
  predicate Joinable(nf: NormalForm) {
    '&' !in nf.gender && '&' !in nf.country && '&' !in nf.ageGroup && '&' !in nf.sortBy
  }

  lemma FieldsAreValues(nf: NormalForm, x: Field)
    ensures x in Fields(nf) <==> ValueOf(nf, x.0) == Some(x.1)
  {
    assert forall k :: x in FieldOf(nf, k) <==> x.0 == k && ValueOf(nf, k) == Some(x.1);
    assert x in SelectionFields(nf) <==>
      x in FieldOf(nf, Gender) || x in FieldOf(nf, Country) || x in FieldOf(nf, AgeGroup) ||
      x in FieldOf(nf, MinAge) || x in FieldOf(nf, MaxAge) ||
      x in FieldOf(nf, MinGProb) || x in FieldOf(nf, MinCProb);
    var paging := PagingFields(nf);
    assert paging[0].0 == SortBy && paging[1].0 == Order && paging[2].0 == Page && paging[3].0 == Limit;
  }

  // The kind of value each key carries.
  predicate RightKind(x: Field) {
    match x.0
    case MinAge => x.1.Whole?
    case MaxAge => x.1.Whole?
    case Page => x.1.Whole?
    case Limit => x.1.Whole?
    case MinGProb => x.1.Decimals?
    case MinCProb => x.1.Decimals?
    case _ => x.1.Word?
  }

  lemma PrintInjective(d: Datum, e: Datum)
    requires Print(d) == Print(e)
    requires d.Word? == e.Word? && d.Whole? == e.Whole?
    ensures d == e
  {
    match d
    case Word(_) =>
    case Whole(n) => FormatIntInjective(n, e.n);
    case Decimals(p) => TrimPlacesInjective(p, e.places);
  }

  lemma PartInjective(x: Field, y: Field)
    requires Part(x) == Part(y) && RightKind(x) && RightKind(y)
    ensures x == y
  {
    SplitAtFirst('=', KeyName(x.0), Print(x.1), KeyName(y.0), Print(y.1));
    KeyNamesDiffer(x.0, y.0);
    PrintInjective(x.1, y.1);
  }

  lemma KeyNamesDiffer(j: Key, k: Key)
    requires KeyName(j) == KeyName(k)
    ensures j == k
  {
    var (a, b) := (KeyName(j), KeyName(k));
    assert |a| == |b| && a[0] == b[0] && a[1] == b[1];
    assert |a| > 4 ==> a[4] == b[4];
  }

  lemma PrintAvoidsJoiner(d: Datum)
    requires d.Word? ==> '&' !in d.text
    ensures '&' !in Print(d)
  {
    match d
    case Word(_) =>
    case Whole(n) => FormatNatRoundTrip(if n < 0 then -n else n);
    case Decimals(p) => TrimPlacesShape(p);
  }

  lemma PartsAvoidJoiner(nf: NormalForm)
    requires Joinable(nf) && (nf.order == "asc" || nf.order == "desc")
    ensures forall s :: s in Ordering.SortBy(Parts(Fields(nf)), TEXT_ORDER) ==> '&' !in s
    ensures Ordering.SortBy(Parts(Fields(nf)), TEXT_ORDER) != []
  {
    var fields := Fields(nf);
    SortPermutes(Parts(fields), TEXT_ORDER);
    FieldsAreValues(nf, (Limit, Whole(nf.limit)));
    assert (Limit, Whole(nf.limit)) in fields;
    forall i | 0 <= i < |fields|
      ensures '&' !in Parts(fields)[i]
    {
      FieldsAreValues(nf, fields[i]);
      WordsAvoidJoiner(nf, fields[i]);
      PartAvoidsJoiner(fields[i]);
    }
  }

  lemma WordsAvoidJoiner(nf: NormalForm, x: Field)
    requires Joinable(nf) && (nf.order == "asc" || nf.order == "desc") && ValueOf(nf, x.0) == Some(x.1)
    ensures x.1.Word? ==> '&' !in x.1.text
  {
  }

  lemma PartAvoidsJoiner(x: Field)
    requires x.1.Word? ==> '&' !in x.1.text
    ensures '&' !in Part(x)
  {
    hide Print;
    PrintAvoidsJoiner(x.1);
    assert '&' !in KeyName(x.0);
  }

  lemma SamePartsSameValues(m: NormalForm, n: NormalForm, k: Key)
    requires multiset(Parts(Fields(m))) == multiset(Parts(Fields(n)))
    ensures ValueOf(m, k).Some? ==> ValueOf(n, k) == ValueOf(m, k)
  {
    if ValueOf(m, k).Some? {
      var x := (k, ValueOf(m, k).value);
      FieldsAreValues(m, x);
      var y := FieldWithSamePart(Fields(m), Fields(n), x);
      FieldsAreValues(n, y);
      KindsAgree(m, x);
      KindsAgree(n, y);
      PartInjective(y, x);
    }
  }

  lemma KindsAgree(nf: NormalForm, x: Field)
    requires ValueOf(nf, x.0) == Some(x.1)
    ensures RightKind(x)
  {
  }

  lemma FieldWithSamePart(a: seq<Field>, b: seq<Field>, x: Field) returns (y: Field)
    requires x in a && multiset(Parts(a)) == multiset(Parts(b))
    ensures y in b && Part(y) == Part(x)
  {
    var i :| 0 <= i < |a| && a[i] == x;
    assert Parts(a)[i] in multiset(Parts(b));
    var j :| 0 <= j < |b| && Parts(b)[j] == Part(x);
    y := b[j];
  }

  // A normal form is determined by its values.
  lemma ValuesDetermine(m: NormalForm, n: NormalForm)
    requires forall k :: ValueOf(m, k) == ValueOf(n, k)
    ensures m == n
  {
    assert ValueOf(m, Gender) == ValueOf(n, Gender) && ValueOf(m, Country) == ValueOf(n, Country);
    assert ValueOf(m, AgeGroup) == ValueOf(n, AgeGroup);
    assert ValueOf(m, MinAge) == ValueOf(n, MinAge) && ValueOf(m, MaxAge) == ValueOf(n, MaxAge);
    assert ValueOf(m, MinGProb) == ValueOf(n, MinGProb) && ValueOf(m, MinCProb) == ValueOf(n, MinCProb);
    assert ValueOf(m, SortBy) == ValueOf(n, SortBy) && ValueOf(m, Order) == ValueOf(n, Order);
    assert ValueOf(m, Page) == ValueOf(n, Page) && ValueOf(m, Limit) == ValueOf(n, Limit);
  }

  // Canonical strings are equal exactly when the prefixes and the normal forms are.
  lemma CanonicalInjective(f: ListFilter, p: string, g: ListFilter, q: string)
    requires Joinable(NormalFormOf(f)) && Joinable(NormalFormOf(g))
    requires ':' !in p && ':' !in q
    ensures Canonical(f, p) == Canonical(g, q) <==>
            PrefixOr(p) == PrefixOr(q) && NormalFormOf(f) == NormalFormOf(g)
  {
    if Canonical(f, p) == Canonical(g, q) {
      var (m, n) := (NormalFormOf(f), NormalFormOf(g));
      var (a, b) := (Parts(Fields(m)), Parts(Fields(n)));
      var (x, y) := (Ordering.SortBy(a, TEXT_ORDER), Ordering.SortBy(b, TEXT_ORDER));
      assert Canonical(f, p) == PrefixOr(p) + [':'] + Join(x, '&');
      assert Canonical(g, q) == PrefixOr(q) + [':'] + Join(y, '&');
      SplitAtFirst(':', PrefixOr(p), Join(x, '&'), PrefixOr(q), Join(y, '&'));
      PartsAvoidJoiner(m);
      PartsAvoidJoiner(n);
      JoinInjective(x, y, '&');
      SortPermutes(a, TEXT_ORDER);
      SortPermutes(b, TEXT_ORDER);
      forall k
        ensures ValueOf(m, k) == ValueOf(n, k)
      {
        SamePartsSameValues(m, n, k);
        SamePartsSameValues(n, m, k);
      }
      ValuesDetermine(m, n);
    }
  }

  // The parts stand in alphabetical order.
  lemma PartsInOrder(f: ListFilter, prefix: string) returns (parts: seq<string>)
    ensures Canonical(f, prefix) == PrefixOr(prefix) + ":" + Join(parts, '&')
    ensures forall i, j :: 0 <= i < j < |parts| ==> LexLeq(parts[i], parts[j])
    ensures multiset(parts) == multiset(Parts(Fields(NormalFormOf(f))))
  {
    var all := Parts(Fields(NormalFormOf(f)));
    parts := Ordering.SortBy(all, TEXT_ORDER);
    TextOrderIsTotal();
    SortSorts(all, TEXT_ORDER);
    SortPermutes(all, TEXT_ORDER);
    forall i, j | 0 <= i < j < |parts|
      ensures LexLeq(parts[i], parts[j])
    {
      assert TEXT_ORDER(parts[i], parts[j]);
    }
  }

  lemma TextOrderIsTotal()
    ensures TotalPreorder(TEXT_ORDER)
  {
    forall a, b
      ensures TEXT_ORDER(a, b) || TEXT_ORDER(b, a)
    {
      LexTotal(a, b);
    }
    forall a, b, c | TEXT_ORDER(a, b) && TEXT_ORDER(b, c)
      ensures TEXT_ORDER(a, c)
    {
      LexTransitive(a, b, c);
    }
  }

  // And this is what they say, field by field.
  lemma PartsSayPaging(nf: NormalForm)
    ensures var parts := Parts(Fields(nf));
            && "page=" + FormatInt(nf.page) in parts && "limit=" + FormatInt(nf.limit) in parts
            && "sort_by=" + nf.sortBy in parts && "order=" + nf.order in parts
  {
    hide Fields, Parts, FormatInt;
    PartOfKey(nf, Page, "page=");
    PartOfKey(nf, Limit, "limit=");
    PartOfKey(nf, SortBy, "sort_by=");
    PartOfKey(nf, Order, "order=");
  }

  lemma PartsSayTexts(nf: NormalForm)
    ensures var parts := Parts(Fields(nf));
            && (nf.gender != "" ==> "gender=" + nf.gender in parts)
            && (nf.country != "" ==> "country=" + nf.country in parts)
            && (nf.ageGroup != "" ==> "age_group=" + nf.ageGroup in parts)
  {
    hide Fields, Parts;
    PartOfKey(nf, Gender, "gender=");
    PartOfKey(nf, Country, "country=");
    PartOfKey(nf, AgeGroup, "age_group=");
  }

  lemma PartsSayBounds(nf: NormalForm)
    ensures var parts := Parts(Fields(nf));
            && (nf.minAge.Some? ==> "min_age=" + FormatInt(nf.minAge.value) in parts)
            && (nf.maxAge.Some? ==> "max_age=" + FormatInt(nf.maxAge.value) in parts)
            && (nf.minGenderPlaces.Some? ==> "min_gprob=" + TrimPlaces(nf.minGenderPlaces.value) in parts)
            && (nf.minCountryPlaces.Some? ==> "min_cprob=" + TrimPlaces(nf.minCountryPlaces.value) in parts)
  {
    hide Fields, Parts, FormatInt, TrimPlaces;
    PartOfKey(nf, MinAge, "min_age=");
    PartOfKey(nf, MaxAge, "max_age=");
    PartOfKey(nf, MinGProb, "min_gprob=");
    PartOfKey(nf, MinCProb, "min_cprob=");
  }

  lemma PartOfKey(nf: NormalForm, k: Key, name: string)
    requires name == KeyName(k) + "="
    ensures ValueOf(nf, k).Some? ==> name + Print(ValueOf(nf, k).value) in Parts(Fields(nf))
  {
    if ValueOf(nf, k).Some? {
      var x := (k, ValueOf(nf, k).value);
      FieldsAreValues(nf, x);
      hide Fields, ValueOf, Print, KeyName;
      var i :| 0 <= i < |Fields(nf)| && Fields(nf)[i] == x;
      assert Parts(Fields(nf))[i] == Part(x);
    }
  }
}
