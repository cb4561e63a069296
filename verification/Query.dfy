// Query parameters to a ListFilter (handlers.go), and what sharing a cache key means for two accepted filters.
module Query {
  import opened Wrappers
  import opened Text
  import opened Decimal
  import opened Profiles
  import opened Normalize

  // url.Values
  type Params = map<string, seq<string>>

  // strconv.ParseFloat: the number a text denotes, or None on error.
  type FloatParser = string -> Option<Float>

  function Get(q: Params, key: string): string {
    if key in q && q[key] != [] then q[key][0] else ""
  }

  function Arg(q: Params, key: string): string {
    TrimSpace(Get(q, key))
  }

  predicate IsGender(s: string) {
    s == "male" || s == "female"
  }

  predicate IsAgeGroup(s: string) {
    s == "child" || s == "teenager" || s == "adult" || s == "senior"
  }

  predicate IsSortColumn(s: string) {
    s == "age" || s == "created_at" || s == "gender_probability"
  }

  predicate IsOrder(s: string) {
    s == "asc" || s == "desc"
  }

  predicate AtLeast(s: string, low: int) {
    Atoi(s).Value? && Atoi(s).n >= low
  }

  function ParseProb(parse: FloatParser, s: string): Option<Probability> {
    if parse(s).Some? && InUnitRange(parse(s).value) then Some(parse(s).value) else None
  }

  // ----- what a request must satisfy, and the filter it then denotes ------------------------------

  predicate SortAccepted(q: Params) {
    && (Arg(q, "sort_by") == "" || IsSortColumn(Arg(q, "sort_by")))
    && (ToLower(Arg(q, "order")) == "" || IsOrder(ToLower(Arg(q, "order"))))
  }

  predicate PagingAccepted(q: Params) {
    && (Arg(q, "page") == "" || AtLeast(Arg(q, "page"), 1))
    && (Arg(q, "limit") == "" || AtLeast(Arg(q, "limit"), 1))
  }

  predicate TextsAccepted(gender: string, ageGroup: string, country: string) {
    && (gender == "" || IsGender(ToLower(gender)))
    && (ageGroup == "" || IsAgeGroup(ToLower(ageGroup)))
    && (country == "" || (|country| == 2 && IsAlpha(country)))
  }

  predicate AgeAccepted(age: string) {
    age == "" || AtLeast(age, 0)
  }

  predicate ProbAccepted(parse: FloatParser, prob: string) {
    prob == "" || ParseProb(parse, prob).Some?
  }

  predicate SelectionAccepted(q: Params, parse: FloatParser) {
    && TextsAccepted(Arg(q, "gender"), Arg(q, "age_group"), Arg(q, "country_id"))
    && AgeAccepted(Arg(q, "min_age")) && AgeAccepted(Arg(q, "max_age"))
    && ProbAccepted(parse, Arg(q, "min_gender_probability"))
    && ProbAccepted(parse, Arg(q, "min_country_probability"))
  }

  predicate Accepted(q: Params, parse: FloatParser) {
    SelectionAccepted(q, parse) && SortAccepted(q) && PagingAccepted(q)
  }

  function AgeOf(age: string): Option<int>
    requires AgeAccepted(age)
  {
    if age == "" then None else Some(Atoi(age).n)
  }

  function ProbOf(parse: FloatParser, prob: string): Option<Probability> {
    if prob == "" then None else ParseProb(parse, prob)
  }

  function PageArg(q: Params): int
    requires PagingAccepted(q)
  {
    if Arg(q, "page") == "" then 1 else Atoi(Arg(q, "page")).n
  }

  function LimitArg(q: Params): int
    requires PagingAccepted(q)
  {
    if Arg(q, "limit") == "" then 10
    else if Atoi(Arg(q, "limit")).n > 50 then 50
    else Atoi(Arg(q, "limit")).n
  }

  function FilterOf(q: Params, parse: FloatParser): ListFilter
    requires Accepted(q, parse)
  {
    ListFilter(
      ToLower(Arg(q, "gender")), ToUpper(Arg(q, "country_id")), ToLower(Arg(q, "age_group")),
      AgeOf(Arg(q, "min_age")), AgeOf(Arg(q, "max_age")),
      ProbOf(parse, Arg(q, "min_gender_probability")), ProbOf(parse, Arg(q, "min_country_probability")),
      Arg(q, "sort_by"), ToLower(Arg(q, "order")), PageArg(q), LimitArg(q))
  }

  method ParseSort(q: Params) returns (r: Result<(string, string), ()>)
    ensures r == if SortAccepted(q) then Ok((Arg(q, "sort_by"), ToLower(Arg(q, "order")))) else Err(())
  {
    var sortBy := Arg(q, "sort_by");
    if sortBy != "" && !IsSortColumn(sortBy) {
      return Err(());
    }
    var order := ToLower(Arg(q, "order"));
    if order != "" && order != "asc" && order != "desc" {
      return Err(());
    }
    return Ok((sortBy, order));
  }

  method ParsePageLimit(q: Params) returns (r: Result<(int, int), ()>)
    ensures r == if PagingAccepted(q) then Ok((PageArg(q), LimitArg(q))) else Err(())
  {
    var page, limit := 1, 10;
    var v := Arg(q, "page");
    if v != "" {
      var n := Atoi(v);
      if !n.Value? || n.n < 1 {
        return Err(());
      }
      page := n.n;
    }
    v := Arg(q, "limit");
    if v != "" {
      var n := Atoi(v);
      if !n.Value? || n.n < 1 {
        return Err(());
      }
      limit := if n.n > 50 then 50 else n.n;
    }
    return Ok((page, limit));
  }

  method ParseTexts(gender: string, ageGroup: string, country: string) returns (r: Result<ListFilter, ()>)
    ensures r == if TextsAccepted(gender, ageGroup, country)
                 then Ok(NO_FILTER.(gender := ToLower(gender), ageGroup := ToLower(ageGroup),
                                    countryId := ToUpper(country)))
                 else Err(())
  {
    var f := NO_FILTER;
    if gender != "" {
      var lv := ToLower(gender);
      if lv != "male" && lv != "female" {
        return Err(());
      }
      f := f.(gender := lv);
    }
    if ageGroup != "" {
      var lv := ToLower(ageGroup);
      if !IsAgeGroup(lv) {
        return Err(());
      }
      f := f.(ageGroup := lv);
    }
    if country != "" {
      if |country| != 2 || !IsAlpha(country) {
        return Err(());
      }
      f := f.(countryId := ToUpper(country));
    }
    return Ok(f);
  }

  method ParseBounds(f0: ListFilter, parse: FloatParser, minAge: string, maxAge: string, minGender: string,
                     minCountry: string) returns (r: Result<ListFilter, ()>)
    requires f0.minAge == f0.maxAge == None && f0.minGenderProb == f0.minCountryProb == None
    ensures r == if AgeAccepted(minAge) && AgeAccepted(maxAge)
                    && ProbAccepted(parse, minGender) && ProbAccepted(parse, minCountry)
                 then Ok(f0.(minAge := AgeOf(minAge), maxAge := AgeOf(maxAge),
                             minGenderProb := ProbOf(parse, minGender), minCountryProb := ProbOf(parse, minCountry)))
                 else Err(())
  {
    var f := f0;
    if minAge != "" {
      if !AtLeast(minAge, 0) {
        return Err(());
      }
      f := f.(minAge := Some(Atoi(minAge).n));
    }
    if maxAge != "" {
      if !AtLeast(maxAge, 0) {
        return Err(());
      }
      f := f.(maxAge := Some(Atoi(maxAge).n));
    }
    if minGender != "" {
      var p := ParseProb(parse, minGender);
      if p.None? {
        return Err(());
      }
      f := f.(minGenderProb := p);
    }
    if minCountry != "" {
      var p := ParseProb(parse, minCountry);
      if p.None? {
        return Err(());
      }
      f := f.(minCountryProb := p);
    }
    return Ok(f);
  }

  // The cascade of checks accepts a request exactly when every parameter is acceptable on its own, and
  // then fills the filter field by field.
  method ParseListQuery(q: Params, parse: FloatParser) returns (r: Result<ListFilter, ()>)
    ensures r == if Accepted(q, parse) then Ok(FilterOf(q, parse)) else Err(())
  {
    var texts := ParseTexts(Arg(q, "gender"), Arg(q, "age_group"), Arg(q, "country_id"));
    if texts.Err? {
      return Err(());
    }
    var bounds := ParseBounds(texts.value, parse, Arg(q, "min_age"), Arg(q, "max_age"),
                              Arg(q, "min_gender_probability"), Arg(q, "min_country_probability"));
    if bounds.Err? {
      return Err(());
    }
    var sort := ParseSort(q);
    if sort.Err? {
      return Err(());
    }
    var f := bounds.value.(sortBy := sort.value.0, order := sort.value.1);
    var paging := ParsePageLimit(q);
    if paging.Err? {
      return Err(());
    }
    f := f.(page := paging.value.0, limit := paging.value.1);
    return Ok(f);
  }

  // ----- what a request means ---------------------------------------------------------------------

  lemma FoldsTo(s: string, word: string)
    requires PlainWord(word)
    ensures ToLower(s) == word <==> SameUpToCase(s, word)
  {
    FoldedAlikeIff(s, word);
    PlainWordStable(word);
  }

  // Exactly which list requests are accepted, parameter by parameter.
  lemma SelectionAcceptedIff(q: Params, parse: FloatParser)
    ensures SelectionAccepted(q, parse) <==>
            && GenderWord(Arg(q, "gender")) && AgeGroupWord(Arg(q, "age_group"))
            && (Arg(q, "country_id") == "" || (|Arg(q, "country_id")| == 2 && IsAlpha(Arg(q, "country_id"))))
            && IsNumberFrom(Arg(q, "min_age"), 0) && IsNumberFrom(Arg(q, "max_age"), 0)
            && IsUnitNumber(parse, Arg(q, "min_gender_probability"))
            && IsUnitNumber(parse, Arg(q, "min_country_probability"))
  {
    GenderWordIff(Arg(q, "gender"));
    AgeGroupWordIff(Arg(q, "age_group"));
    hide Arg, Atoi, ToLower, IsGender, IsAgeGroup, GenderWord, AgeGroupWord, IsAlpha;
  }

  lemma SortAcceptedIff(q: Params)
    ensures SortAccepted(q) <==>
            && (Arg(q, "sort_by") == "" || Arg(q, "sort_by") == "age" || Arg(q, "sort_by") == "created_at"
                || Arg(q, "sort_by") == "gender_probability")
            && (Arg(q, "order") == "" || SameUpToCase(Arg(q, "order"), "asc") || SameUpToCase(Arg(q, "order"), "desc"))
  {
    FoldsTo(Arg(q, "order"), "asc");
    FoldsTo(Arg(q, "order"), "desc");
    hide Arg, ToLower, SameUpToCase;
  }

  lemma PagingAcceptedIff(q: Params)
    ensures PagingAccepted(q) <==> IsNumberFrom(Arg(q, "page"), 1) && IsNumberFrom(Arg(q, "limit"), 1)
  {
    hide Arg, Atoi;
  }

  predicate GenderWord(s: string) {
    s == "" || SameUpToCase(s, "male") || SameUpToCase(s, "female")
  }

  predicate AgeGroupWord(s: string) {
    s == "" || SameUpToCase(s, "child") || SameUpToCase(s, "teenager") || SameUpToCase(s, "adult")
    || SameUpToCase(s, "senior")
  }

  lemma GenderWordIff(s: string)
    ensures s == "" || IsGender(ToLower(s)) <==> GenderWord(s)
  {
    FoldsTo(s, "male");
    FoldsTo(s, "female");
    hide ToLower, SameUpToCase;
  }

  lemma AgeGroupWordIff(s: string)
    ensures s == "" || IsAgeGroup(ToLower(s)) <==> AgeGroupWord(s)
  {
    FoldsTo(s, "child");
    FoldsTo(s, "teenager");
    FoldsTo(s, "adult");
    FoldsTo(s, "senior");
    hide ToLower, SameUpToCase;
  }

  // Left out, or a whole number in 64 bits from low on.
  ghost predicate IsNumberFrom(s: string, low: int) {
    s == "" || exists n :: n >= low && Atoi(s) == Value(n)
  }

  // Left out, or a number in the unit interval, or one of the two values that no range check stops.
  predicate IsUnitNumber(parse: FloatParser, s: string) {
    s == "" || (parse(s).Some? && (parse(s).value.Number? ==> 0.0 <= parse(s).value.v <= 1.0))
  }

  // Which profiles a list request selects, parameter by parameter: each one that is given narrows the answer to the
  // profiles it describes.
  lemma RequestSelects(q: Params, parse: FloatParser, rows: seq<Profile>, p: Profile)
    requires Accepted(q, parse) && IsTable(rows)
    ensures p in AllMatching(rows, FilterOf(q, parse)) <==>
            && p in rows
            && (Arg(q, "gender") != "" ==> SameUpToCase(p.gender, Arg(q, "gender")))
            && (Arg(q, "country_id") != "" ==> SameUpToCase(p.countryId, Arg(q, "country_id")))
            && (Arg(q, "age_group") != "" ==> SameUpToCase(p.ageGroup, Arg(q, "age_group")))
            && (forall n :: Atoi(Arg(q, "min_age")) == Value(n) ==> n <= p.age)
            && (forall n :: Atoi(Arg(q, "max_age")) == Value(n) ==> p.age <= n)
            && (Arg(q, "min_gender_probability") != "" ==>
                  Reaches(p.genderProbability, parse(Arg(q, "min_gender_probability")).value))
            && (Arg(q, "min_country_probability") != "" ==>
                  Reaches(p.countryProbability, parse(Arg(q, "min_country_probability")).value))
  {
    AllMatchingIsSortedSelection(rows, FilterOf(q, parse));
    hide AllMatching, Matches;
    RequestMatches(q, parse, p);
  }

  lemma RequestMatches(q: Params, parse: FloatParser, p: Profile)
    requires Accepted(q, parse)
    ensures Matches(FilterOf(q, parse), p) <==>
            && (Arg(q, "gender") != "" ==> SameUpToCase(p.gender, Arg(q, "gender")))
            && (Arg(q, "country_id") != "" ==> SameUpToCase(p.countryId, Arg(q, "country_id")))
            && (Arg(q, "age_group") != "" ==> SameUpToCase(p.ageGroup, Arg(q, "age_group")))
            && (forall n :: Atoi(Arg(q, "min_age")) == Value(n) ==> n <= p.age)
            && (forall n :: Atoi(Arg(q, "max_age")) == Value(n) ==> p.age <= n)
            && (Arg(q, "min_gender_probability") != "" ==>
                  Reaches(p.genderProbability, parse(Arg(q, "min_gender_probability")).value))
            && (Arg(q, "min_country_probability") != "" ==>
                  Reaches(p.countryProbability, parse(Arg(q, "min_country_probability")).value))
  {
    FoldTwice(p.gender, Arg(q, "gender"));
    FoldTwice(p.countryId, Arg(q, "country_id"));
    FoldTwice(p.ageGroup, Arg(q, "age_group"));
    AgeBoundMeans(Arg(q, "min_age"), p.age);
    AgeBoundMeans(Arg(q, "max_age"), p.age);
    hide Arg, Atoi, ToLower, ToUpper, SameUpToCase, Reaches, TextsAccepted, AgeOf, AgeAccepted;
  }

  lemma AgeBoundMeans(s: string, age: int)
    requires AgeAccepted(s)
    ensures (AgeOf(s).Some? ==> age >= AgeOf(s).value) <==> forall n :: Atoi(s) == Value(n) ==> n <= age
    ensures (AgeOf(s).Some? ==> age <= AgeOf(s).value) <==> forall n :: Atoi(s) == Value(n) ==> age <= n
  {
    assert Atoi("") == BadSyntax;
    hide Atoi;
  }

  lemma FoldTwice(s: string, t: string)
    ensures ToLower(s) == ToLower(ToLower(t)) <==> SameUpToCase(s, t)
    ensures ToUpper(s) == ToUpper(ToUpper(t)) <==> SameUpToCase(s, t)
    ensures (ToLower(t) == "" <==> t == "") && (ToUpper(t) == "" <==> t == "")
  {
    FoldedAlikeIff(s, t);
    FoldedCase(t);
    FoldedAlikeIff(t, ToLower(t));
    FoldedAlikeIff(t, ToUpper(t));
  }

  // How a request is sorted and paged: page 1 and ten to a page unless it says otherwise, and never more than fifty.
  ghost predicate PagedAs(q: Params, f: ListFilter) {
    && (Arg(q, "page") == "" ==> f.page == 1)
    && (Arg(q, "page") != "" ==> Atoi(Arg(q, "page")) == Value(f.page))
    && (Arg(q, "limit") == "" ==> f.limit == 10)
    && (forall n :: n <= 50 && Atoi(Arg(q, "limit")) == Value(n) ==> f.limit == n)
    && (forall n :: n > 50 && Atoi(Arg(q, "limit")) == Value(n) ==> f.limit == 50)
    && f.sortBy == Arg(q, "sort_by") && SameUpToCase(f.order, Arg(q, "order"))
  }

  lemma ArgsPage(q: Params, f: ListFilter)
    requires PagingAccepted(q) && f.page == PageArg(q) && f.limit == LimitArg(q)
    requires f.sortBy == Arg(q, "sort_by") && f.order == ToLower(Arg(q, "order"))
    ensures PagedAs(q, f)
  {
    FoldedCase(Arg(q, "order"));
    FoldedAlikeIff(Arg(q, "order"), ToLower(Arg(q, "order")));
    FoldedAlikeIff(ToLower(Arg(q, "order")), Arg(q, "order"));
    assert Atoi("") == BadSyntax;
    hide Arg, Atoi, ToLower, SameUpToCase;
  }

  lemma RequestPages(q: Params, parse: FloatParser)
    requires Accepted(q, parse)
    ensures PagedAs(q, FilterOf(q, parse))
  {
    ArgsPage(q, FilterOf(q, parse));
    hide PagedAs;
  }

  // ----- validated filters ----------------------------------------------------------------------

  // What list and search requests hand to the store and to the cache.
  predicate Validated(f: ListFilter) {
    && (f.gender == "" || IsGender(f.gender))
    && (f.countryId == "" || (|f.countryId| == 2 && IsUpperAlpha(f.countryId)))
    && (f.ageGroup == "" || IsAgeGroup(f.ageGroup))
    && (f.sortBy == "" || IsSortColumn(f.sortBy))
    && (f.order == "" || IsOrder(f.order))
    && 1 <= f.page <= MAX_INT && 1 <= f.limit <= 50
  }

  lemma UpperOfAlpha(s: string)
    requires IsAlpha(s)
    ensures IsUpperAlpha(ToUpper(s))
  {
  }

  lemma AtoiInRange(s: string)
    ensures Atoi(s).Value? ==> MIN_INT <= Atoi(s).n <= MAX_INT
  {
  }

  lemma TextsAreValidated(gender: string, ageGroup: string, country: string)
    requires TextsAccepted(gender, ageGroup, country)
    ensures ToLower(gender) == "" || IsGender(ToLower(gender))
    ensures ToLower(ageGroup) == "" || IsAgeGroup(ToLower(ageGroup))
    ensures ToUpper(country) == "" || (|ToUpper(country)| == 2 && IsUpperAlpha(ToUpper(country)))
  {
    if country != "" {
      UpperOfAlpha(country);
    }
  }

  lemma AcceptedIsValidated(q: Params, parse: FloatParser)
    requires Accepted(q, parse)
    ensures Validated(FilterOf(q, parse))
  {
    TextsAreValidated(Arg(q, "gender"), Arg(q, "age_group"), Arg(q, "country_id"));
    AtoiInRange(Arg(q, "page"));
    AtoiInRange(Arg(q, "limit"));
  }

  lemma TrimOfTrimmed(s: string)
    requires Trimmed(s)
    ensures TrimSpace(s) == s
  {
  }

  predicate PlainWord(s: string) {
    forall i :: 0 <= i < |s| ==> 'a' <= s[i] <= 'z' || s[i] == '_'
  }

  lemma PlainWordStable(s: string)
    requires PlainWord(s)
    ensures ToLower(s) == s && TrimSpace(s) == s
  {
    TrimOfTrimmed(s);
  }

  lemma UpperStable(s: string)
    requires IsUpperAlpha(s)
    ensures ToUpper(s) == s && TrimSpace(s) == s
  {
    TrimOfTrimmed(s);
  }

  lemma OrderStable(order: string)
    requires order == "" || IsOrder(order)
    ensures NormalOrder(order) == if order == "" then "asc" else order
  {
    TrimOfTrimmed(order);
    PlainWordStable(order);
  }

  // Normalizing a validated filter only fills in the sort defaults and rounds the thresholds.
  lemma ValidatedNormalForm(f: ListFilter)
    requires Validated(f)
    ensures NormalFormOf(f) == NormalForm(
      f.gender, f.countryId, f.ageGroup, f.minAge, f.maxAge, PlacesOf(f.minGenderProb), PlacesOf(f.minCountryProb),
      if f.sortBy == "" then "created_at" else f.sortBy, if f.order == "" then "asc" else f.order, f.page, f.limit)
    ensures Joinable(NormalFormOf(f))
  {
    ValidatedTextsStable(f);
    OrderStable(f.order);
    hide ToLower, ToUpper, TrimSpace, SixPlaces;
  }

  lemma GenderStable(s: string)
    requires s == "" || IsGender(s)
    ensures TrimSpace(ToLower(s)) == s && '&' !in s
  {
    assert PlainWord(s);
    PlainWordStable(s);
  }

  lemma AgeGroupStable(s: string)
    requires s == "" || IsAgeGroup(s)
    ensures TrimSpace(ToLower(s)) == s && '&' !in s
  {
    assert PlainWord(s);
    PlainWordStable(s);
  }

  lemma SortColumnStable(s: string)
    requires s == "" || IsSortColumn(s)
    ensures TrimSpace(s) == s && '&' !in s
  {
    assert PlainWord(s);
    PlainWordStable(s);
  }

  lemma ValidatedTextsStable(f: ListFilter)
    requires Validated(f)
    ensures TrimSpace(ToLower(f.gender)) == f.gender && TrimSpace(ToUpper(f.countryId)) == f.countryId
    ensures TrimSpace(ToLower(f.ageGroup)) == f.ageGroup && TrimSpace(f.sortBy) == f.sortBy
    ensures '&' !in f.gender && '&' !in f.countryId && '&' !in f.ageGroup && '&' !in f.sortBy
  {
    GenderStable(f.gender);
    AgeGroupStable(f.ageGroup);
    SortColumnStable(f.sortBy);
    UpperStable(f.countryId);
  }

  lemma ValidatedJoinable(f: ListFilter)
    requires Validated(f)
    ensures Joinable(NormalFormOf(f))
  {
    ValidatedNormalForm(f);
  }

  // The two endpoints' key prefixes.
  predicate IsPrefix(p: string) {
    p == "list" || p == "search"
  }

  lemma PrefixReadable(p: string)
    requires IsPrefix(p)
    ensures ':' !in p && PrefixOr(p) == p
  {
  }

  // Two validated requests share a canonical string exactly when endpoint and normal form agree.
  lemma KeyIdentity(f: ListFilter, p: string, g: ListFilter, q: string)
    requires Validated(f) && Validated(g) && IsPrefix(p) && IsPrefix(q)
    ensures Canonical(f, p) == Canonical(g, q) <==> p == q && NormalFormOf(f) == NormalFormOf(g)
  {
    ValidatedJoinable(f);
    ValidatedJoinable(g);
    PrefixReadable(p);
    PrefixReadable(q);
    CanonicalInjective(f, p, g, q);
  }

  // ----- sharing a key and sharing an answer -----------------------------------------------------

  // The part of a list response that the store determines.
  datatype Answer = Answer(page: int, limit: int, total: nat, totalPages: nat, data: seq<Profile>)

  function AnswerOf(rows: seq<Profile>, f: ListFilter): Answer {
    var total := |AllMatching(rows, f)|;
    Answer(f.page, f.limit, total, if f.limit > 0 then TotalPages(total, f.limit) else 0, PageData(rows, f))
  }

  predicate SameThresholds(f: ListFilter, g: ListFilter) {
    f.minGenderProb == g.minGenderProb && f.minCountryProb == g.minCountryProb
  }

  predicate SixDecimals(f: ListFilter) {
    && (f.minGenderProb.Some? ==> SixDecimal(f.minGenderProb.value))
    && (f.minCountryProb.Some? ==> SixDecimal(f.minCountryProb.value))
  }

  lemma SamePlaces(f: ListFilter, g: ListFilter)
    requires NormalFormOf(f) == NormalFormOf(g)
    ensures PlacesOf(f.minGenderProb) == PlacesOf(g.minGenderProb)
    ensures PlacesOf(f.minCountryProb) == PlacesOf(g.minCountryProb)
  {
    var (m, n) := (NormalFormOf(f), NormalFormOf(g));
    assert m.minGenderPlaces == n.minGenderPlaces && m.minCountryPlaces == n.minCountryPlaces;
  }

  // With six-decimal thresholds nothing is lost in the rounding.
  lemma SixDecimalsSuffice(f: ListFilter, g: ListFilter)
    requires NormalFormOf(f) == NormalFormOf(g) && SixDecimals(f) && SixDecimals(g)
    ensures SameThresholds(f, g)
  {
    hide NormalFormOf, Micros;
    SamePlaces(f, g);
  }

  predicate ThresholdReadsBack(parse: FloatParser, v: Option<Probability>) {
    v.Some? ==> parse(TrimFloat(v.value)) == Some(v.value)
  }

  // Each threshold is what parsing its own printed decimals gives, as for the machine float nearest to a
  // six-decimal text.
  predicate ReadsBack(parse: FloatParser, f: ListFilter) {
    ThresholdReadsBack(parse, f.minGenderProb) && ThresholdReadsBack(parse, f.minCountryProb)
  }

  // And nothing is lost either when the printed decimals read back, whatever the parser.
  lemma ReadBackSuffices(parse: FloatParser, f: ListFilter, g: ListFilter)
    requires NormalFormOf(f) == NormalFormOf(g) && ReadsBack(parse, f) && ReadsBack(parse, g)
    ensures SameThresholds(f, g)
  {
    hide NormalFormOf, Micros;
    SamePlaces(f, g);
  }

  // List depends only on the normal form, once the thresholds agree.
  lemma {:induction false} SameMatching(rows: seq<Profile>, f: ListFilter, g: ListFilter)
    requires Validated(f) && Validated(g) && NormalFormOf(f) == NormalFormOf(g) && SameThresholds(f, g)
    ensures Matching(rows, f) == Matching(rows, g)
  {
    ValidatedNormalForm(f);
    ValidatedNormalForm(g);
    if rows != [] {
      SameMatching(rows[1..], f, g);
    }
  }

  lemma SameSelection(rows: seq<Profile>, f: ListFilter, g: ListFilter)
    requires Validated(f) && Validated(g) && NormalFormOf(f) == NormalFormOf(g) && SameThresholds(f, g)
    ensures AllMatching(rows, f) == AllMatching(rows, g)
  {
    ValidatedNormalForm(f);
    ValidatedNormalForm(g);
    hide NormalFormOf, Matching, Ordering.SortBy, Descending;
    SameMatching(rows, f, g);
    SameOrder(f, g);
  }

  lemma SamePaging(f: ListFilter, g: ListFilter)
    requires Validated(f) && Validated(g) && NormalFormOf(f) == NormalFormOf(g)
    ensures f.page == g.page && f.limit == g.limit
  {
    ValidatedNormalForm(f);
    ValidatedNormalForm(g);
    hide NormalFormOf;
  }

  lemma SameAnswer(rows: seq<Profile>, f: ListFilter, g: ListFilter)
    requires Validated(f) && Validated(g) && NormalFormOf(f) == NormalFormOf(g) && SameThresholds(f, g)
    ensures AnswerOf(rows, f) == AnswerOf(rows, g)
  {
    hide NormalFormOf, Validated, AllMatching, SameThresholds;
    SameSelection(rows, f, g);
    SamePaging(f, g);
    assert PageData(rows, f) == PageData(rows, g);
  }

  lemma SameOrder(f: ListFilter, g: ListFilter)
    requires Validated(f) && Validated(g)
    requires (if f.sortBy == "" then "created_at" else f.sortBy) == (if g.sortBy == "" then "created_at" else g.sortBy)
    requires (if f.order == "" then "asc" else f.order) == (if g.order == "" then "asc" else g.order)
    ensures SortColumn(f.sortBy) == SortColumn(g.sortBy) && Descending(f.order) == Descending(g.order)
  {
    SortDirection(f.order);
    SortDirection(g.order);
  }

  lemma SortDirection(order: string)
    requires order == "" || IsOrder(order)
    ensures Descending(order) <==> order == "desc"
  {
    PlainWordStable(order);
  }

  // A filter whose age bounds cross selects nothing.
  predicate NoAgeFits(f: ListFilter) {
    f.minAge.Some? && f.maxAge.Some? && f.minAge.value > f.maxAge.value
  }

  // Nor does one with a threshold that is not a number.
  predicate SelectsNothing(f: ListFilter) {
    NoAgeFits(f) || f.minGenderProb == Some(NaN) || f.minCountryProb == Some(NaN)
  }

  // A profile that meets every condition of a filter, with the probabilities given.
  function Witness(f: ListFilter, genderProb: Probability, countryProb: Probability): Profile {
    var age := if f.minAge.Some? then f.minAge.value else if f.maxAge.Some? then f.maxAge.value else 0;
    Profile("id", "name", f.gender, genderProb, age, f.ageGroup, f.countryId, "", countryProb, "")
  }

  lemma OneRow(p: Profile, f: ListFilter)
    ensures |AllMatching([p], f)| == if Matches(f, p) then 1 else 0
  {
    assert Matching([p][1..], f) == [];
    Ordering.SortPermutes(Matching([p], f), RowOrder(SortColumn(f.sortBy), Descending(f.order)));
  }

  lemma ThresholdsTellApart(f: ListFilter, g: ListFilter, p: Profile)
    requires Matches(f, p) && !Matches(g, p) && Storable(p)
    ensures IsTable([p]) && AnswerOf([p], f) != AnswerOf([p], g)
  {
    OneRow(p, f);
    OneRow(p, g);
  }

  predicate Lower(p: Option<Probability>, q: Option<Probability>) {
    p.Some? && q.Some? && p.value.Number? && q.value.Number? && p.value.v < q.value.v
  }

  lemma LowerThresholdMatches(f: ListFilter, g: ListFilter)
    requires Validated(f) && Validated(g) && NormalFormOf(f) == NormalFormOf(g) && !SelectsNothing(f)
    ensures Lower(f.minGenderProb, g.minGenderProb) ==>
              var p := Witness(f, f.minGenderProb.value, Number(1.0)); Matches(f, p) && !Matches(g, p) && Storable(p)
    ensures Lower(f.minCountryProb, g.minCountryProb) ==>
              var p := Witness(f, Number(1.0), f.minCountryProb.value); Matches(f, p) && !Matches(g, p) && Storable(p)
  {
    hide NormalFormOf, Validated;
  }

  lemma SameAges(f: ListFilter, g: ListFilter)
    requires NormalFormOf(f) == NormalFormOf(g)
    ensures f.minAge == g.minAge && f.maxAge == g.maxAge
  {
    assert NormalFormOf(f).minAge == NormalFormOf(g).minAge && NormalFormOf(f).maxAge == NormalFormOf(g).maxAge;
  }

  // Thresholds that print alike and differ are numbers, one lower than the other.
  lemma SomeThresholdIsLower(f: ListFilter, g: ListFilter)
    requires NormalFormOf(f) == NormalFormOf(g) && !SameThresholds(f, g) && !SelectsNothing(f)
    ensures !SelectsNothing(g)
    ensures Lower(f.minGenderProb, g.minGenderProb) || Lower(g.minGenderProb, f.minGenderProb) ||
            Lower(f.minCountryProb, g.minCountryProb) || Lower(g.minCountryProb, f.minCountryProb)
  {
    hide NormalFormOf, Micros;
    SamePlaces(f, g);
    SameAges(f, g);
  }

  // Requests that share a key have the same answer on every table exactly when their thresholds agree
  // beyond the six printed decimals, or the filter selects nothing: crossed age bounds, or a threshold that
  // is no number.
  lemma SharedKeySameAnswerIff(f: ListFilter, g: ListFilter)
    requires Validated(f) && Validated(g) && NormalFormOf(f) == NormalFormOf(g)
    ensures (forall rows :: IsTable(rows) ==> AnswerOf(rows, f) == AnswerOf(rows, g)) <==>
            SameThresholds(f, g) || SelectsNothing(f)
  {
    hide AnswerOf, NormalFormOf;
    if SameThresholds(f, g) {
      forall rows | IsTable(rows)
        ensures AnswerOf(rows, f) == AnswerOf(rows, g)
      {
        SameAnswer(rows, f, g);
      }
    } else if SelectsNothing(f) {
      forall rows | IsTable(rows)
        ensures AnswerOf(rows, f) == AnswerOf(rows, g)
      {
        EmptyAnswers(rows, f, g);
      }
    } else {
      var p := TellApart(f, g);
      assert IsTable([p]) && AnswerOf([p], f) != AnswerOf([p], g);
    }
  }

  lemma EmptyAnswers(rows: seq<Profile>, f: ListFilter, g: ListFilter)
    requires Validated(f) && Validated(g) && NormalFormOf(f) == NormalFormOf(g) && SelectsNothing(f)
    ensures AnswerOf(rows, f) == AnswerOf(rows, g)
  {
    ValidatedNormalForm(f);
    ValidatedNormalForm(g);
    hide NormalFormOf;
    NothingMatches(rows, f);
    NothingMatches(rows, g);
  }

  lemma {:induction false} NothingMatches(rows: seq<Profile>, f: ListFilter)
    requires forall p :: p in rows ==> !Matches(f, p)
    ensures Matching(rows, f) == [] && AllMatching(rows, f) == []
  {
    if rows != [] {
      NothingMatches(rows[1..], f);
    }
  }

  lemma TellApart(f: ListFilter, g: ListFilter) returns (p: Profile)
    requires Validated(f) && Validated(g) && NormalFormOf(f) == NormalFormOf(g)
    requires !SameThresholds(f, g) && !SelectsNothing(f)
    ensures IsTable([p]) && AnswerOf([p], f) != AnswerOf([p], g)
  {
    SomeThresholdIsLower(f, g);
    LowerThresholdMatches(f, g);
    LowerThresholdMatches(g, f);
    hide NormalFormOf, Validated, SelectsNothing, SameThresholds, Matches, AnswerOf, IsTable, Witness, Storable;
    if Lower(f.minGenderProb, g.minGenderProb) {
      p := Witness(f, f.minGenderProb.value, Number(1.0));
      ThresholdsTellApart(f, g, p);
    } else if Lower(g.minGenderProb, f.minGenderProb) {
      p := Witness(g, g.minGenderProb.value, Number(1.0));
      ThresholdsTellApart(g, f, p);
    } else if Lower(f.minCountryProb, g.minCountryProb) {
      p := Witness(f, Number(1.0), f.minCountryProb.value);
      ThresholdsTellApart(f, g, p);
    } else {
      p := Witness(g, Number(1.0), g.minCountryProb.value);
      ThresholdsTellApart(g, f, p);
    }
  }

  // Such a pair exists: thresholds 0.5 and 0.5000001 print alike and are told apart by a profile at 0.5.
  lemma SevenDecimalsCollide() returns (f: ListFilter, g: ListFilter, p: Profile)
    ensures Validated(f) && Validated(g) && Canonical(f, "list") == Canonical(g, "list")
    ensures AnswerOf([p], f) != AnswerOf([p], g)
  {
    f := ListFilter("", "", "", None, None, Some(Number(0.5)), None, "", "", 1, 10);
    g := f.(minGenderProb := Some(Number(0.5000001)));
    assert (0.5 * 1000000.0).Floor == 500000;
    assert (0.5000001 * 1000000.0).Floor == 500000;
    assert NormalFormOf(f) == NormalFormOf(g);
    p := TellApart(f, g);
  }
}
