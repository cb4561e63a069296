// Pagination links (pagination.go) and what a client sees by following them.
module Pagination {
  import opened Wrappers
  import opened Decimal
  import opened Profiles
  import opened Query

  // A link before url.Values.Encode: the path and the parameters it carries.
  datatype Link = Link(path: string, params: Params)

  datatype Links = Links(self: Link, next: Option<Link>, prev: Option<Link>)

  predicate Carried(query: Params, key: string) {
    key in query && query[key] != [] && key != "page" && key != "limit"
  }

  // The request's own parameters: all but page and limit.
  function OwnParams(query: Params): Params {
    map key | key in query && Carried(query, key) :: query[key]
  }

  // The request's own parameters, with page and limit replaced.
  function LinkParams(query: Params, page: int, limit: int): Params {
    OwnParams(query)["page" := [FormatInt(page)]]["limit" := [FormatInt(limit)]]
  }

  function LinksFor(path: string, query: Params, page: int, limit: int, totalPages: int): Links {
    Links(
      Link(path, LinkParams(query, page, limit)),
      if page < totalPages then Some(Link(path, LinkParams(query, page + 1, limit))) else None,
      if page > 1 && totalPages > 0 then Some(Link(path, LinkParams(query, page - 1, limit))) else None)
  }

  // url.Values.Add
  function Add(q: Params, key: string, v: string): Params {
    q[key := if key in q then q[key] + [v] else [v]]
  }

  // q with the values vs added under a key it does not have yet.
  method AddAll(q: Params, key: string, vs: seq<string>) returns (r: Params)
    requires key !in q
    ensures r == if vs == [] then q else q[key := vs]
  {
    r := q;
    for i := 0 to |vs|
      invariant i == 0 ==> r == q
      invariant i > 0 ==> r == q[key := vs[..i]]
    {
      ghost var r0 := r;
      r := Add(r, key, vs[i]);
      if i == 0 {
        assert vs[..1] == [vs[0]];
      } else {
        assert r0[key] == vs[..i] && vs[..i + 1] == vs[..i] + [vs[i]];
      }
    }
    assert vs[..|vs|] == vs;
  }

  // Copies every parameter but page and limit, value by value, then sets those two.
  method MakeLink(path: string, query: Params, page: int, limit: int) returns (link: Link)
    ensures link == Link(path, LinkParams(query, page, limit))
  {
    var q: Params := map[];
    var todo := query.Keys;
    while todo != {}
      invariant todo <= query.Keys
      invariant q == map key | key in query && Carried(query, key) && key !in todo :: query[key]
    {
      var k :| k in todo;
      todo := todo - {k};
      if k != "page" && k != "limit" {
        q := AddAll(q, k, query[k]);
      }
    }
    q := q["page" := [FormatInt(page)]]["limit" := [FormatInt(limit)]];
    link := Link(path, q);
  }

  method BuildPagination(path: string, query: Params, page: int, limit: int, total: nat)
    returns (totalPages: nat, links: Links)
    ensures totalPages == if limit > 0 then TotalPages(total, limit) else 0
    ensures links == LinksFor(path, query, page, limit, totalPages)
  {
    totalPages := 0;
    if limit > 0 {
      totalPages := (total + limit - 1) / limit;
    }
    var self := MakeLink(path, query, page, limit);
    links := Links(self, None, None);
    if page < totalPages {
      var s := MakeLink(path, query, page + 1, limit);
      links := links.(next := Some(s));
    }
    if page > 1 && totalPages > 0 {
      var s := MakeLink(path, query, page - 1, limit);
      links := links.(prev := Some(s));
    }
  }

  // ----- following links -------------------------------------------------------------------------

  lemma OtherArgsKept(query: Params, page: int, limit: int, key: string)
    requires key != "page" && key != "limit"
    ensures Get(LinkParams(query, page, limit), key) == Get(query, key)
    ensures Arg(LinkParams(query, page, limit), key) == Arg(query, key)
  {
  }

  lemma PageArgsSet(query: Params, page: int, limit: int)
    requires 1 <= page <= MAX_INT && 1 <= limit <= 50
    ensures var q := LinkParams(query, page, limit);
            PagingAccepted(q) && PageArg(q) == page && LimitArg(q) == limit
  {
    var q := LinkParams(query, page, limit);
    assert Get(q, "page") == FormatInt(page);
    assert Get(q, "limit") == FormatInt(limit);
    AtoiFormatInt(page);
    AtoiFormatInt(limit);
    TrimOfTrimmed(FormatInt(page));
    TrimOfTrimmed(FormatInt(limit));
  }

  // Re-parsing a link gives the same filter with only the page changed.
  lemma LinkReparses(query: Params, parse: FloatParser, page: int)
    requires Accepted(query, parse) && 1 <= page <= MAX_INT
    ensures var f := FilterOf(query, parse);
            var q := LinkParams(query, page, f.limit);
            Accepted(q, parse) && FilterOf(q, parse) == f.(page := page)
  {
    var f := FilterOf(query, parse);
    var q := LinkParams(query, page, f.limit);
    AcceptedIsValidated(query, parse);
    PageArgsSet(query, page, f.limit);
    OtherArgsKept(query, page, f.limit, "gender");
    OtherArgsKept(query, page, f.limit, "age_group");
    OtherArgsKept(query, page, f.limit, "country_id");
    OtherArgsKept(query, page, f.limit, "min_age");
    OtherArgsKept(query, page, f.limit, "max_age");
    OtherArgsKept(query, page, f.limit, "min_gender_probability");
    OtherArgsKept(query, page, f.limit, "min_country_probability");
    OtherArgsKept(query, page, f.limit, "sort_by");
    OtherArgsKept(query, page, f.limit, "order");
  }

  // How an endpoint reads a request: None when it refuses it.
  type Reader = Params -> Option<ListFilter>

  function ListReader(parse: FloatParser): Reader {
    q => if Accepted(q, parse) then Some(FilterOf(q, parse)) else None
  }

  // Links mean what they say: reading a link gives the request's own filter at the link's page.
  ghost predicate ReadsLinks(read: Reader) {
    && (forall q :: read(q).Some? ==> Validated(read(q).value))
    && (forall q, p {:trigger LinkParams(q, p, read(q).value.limit)} :: read(q).Some? && 1 <= p <= MAX_INT ==>
          read(LinkParams(q, p, read(q).value.limit)) == Some(read(q).value.(page := p)))
  }

  lemma ListReadsLinks(parse: FloatParser)
    ensures ReadsLinks(ListReader(parse))
  {
    var read := ListReader(parse);
    forall q | read(q).Some?
      ensures Validated(read(q).value)
    {
      AcceptedIsValidated(q, parse);
    }
    forall q, p | read(q).Some? && 1 <= p <= MAX_INT
      ensures read(LinkParams(q, p, read(q).value.limit)) == Some(read(q).value.(page := p))
    {
      LinkReparses(q, parse, p);
    }
  }

  // The links in the response to a request.
  function LinksOf(rows: seq<Profile>, path: string, query: Params, f: ListFilter): Links {
    LinksFor(path, query, f.page, f.limit, AnswerOf(rows, f).totalPages)
  }

  // What a client gets for one request: the page, its rows, and the parameters of the two links.
  datatype Response = Response(page: int, data: seq<Profile>, next: Option<Params>, prev: Option<Params>)

  type Endpoint = Params -> Option<Response>

  function ParamsOf(link: Option<Link>): Option<Params> {
    if link.None? then None else Some(link.value.params)
  }

  function Respond(rows: seq<Profile>, path: string, query: Params, f: ListFilter): Response {
    var links := LinksOf(rows, path, query, f);
    Response(f.page, AnswerOf(rows, f).data, ParamsOf(links.next), ParamsOf(links.prev))
  }

  function EndpointOf(rows: seq<Profile>, path: string, read: Reader): Endpoint {
    q => if read(q).None? then None else Some(Respond(rows, path, q, read(q).value))
  }

  // The data a client collects by fetching a request and then following next, at most fuel more times.
  function Collect(fetch: Endpoint, query: Params, fuel: nat): seq<Profile>
    decreases fuel
  {
    match fetch(query)
    case None => []
    case Some(r) => r.data + if r.next.None? || fuel == 0 then [] else Collect(fetch, r.next.value, fuel - 1)
  }

  // The pages a client sees by following prev, at most fuel times.
  function BackPages(fetch: Endpoint, query: Params, fuel: nat): seq<int>
    decreases fuel
  {
    match fetch(query)
    case None => []
    case Some(r) => [r.page] + if r.prev.None? || fuel == 0 then [] else BackPages(fetch, r.prev.value, fuel - 1)
  }

  // The pages a client sees by following next, at most fuel times.
  function ForwardPages(fetch: Endpoint, query: Params, fuel: nat): seq<int>
    decreases fuel
  {
    match fetch(query)
    case None => []
    case Some(r) => [r.page] + if r.next.None? || fuel == 0 then [] else ForwardPages(fetch, r.next.value, fuel - 1)
  }

  // The pages of a list, by number.
  type Cuts = int -> seq<Profile>

  function CutsOf(s: seq<Profile>, n: int): Cuts
    requires n >= 1
  {
    page => if page >= 1 then Cut(s, page, n) else []
  }

  // Walking from one page up to page t.
  function WalkCuts(cuts: Cuts, page: int, t: int, fuel: nat): seq<Profile>
    decreases fuel
  {
    cuts(page) + if page >= t || fuel == 0 then [] else WalkCuts(cuts, page + 1, t, fuel - 1)
  }

  // From a page on, the walk collects the rows from that page's first row on.
  lemma {:induction false} WalkCutsCollectsRest(s: seq<Profile>, page: int, start: int, n: int, t: int, fuel: nat)
    requires n >= 1 && page >= 1 && start == (page - 1) * n && t == TotalPages(|s|, n)
    requires fuel + page >= t && (page == 1 || page <= t)
    ensures 0 <= start <= |s| && WalkCuts(CutsOf(s, n), page, t, fuel) == s[start..]
    decreases fuel
  {
    hide TotalPages, LimitOffset;
    PageBounds(|s|, n, t, page, start);
    if page < t {
      WalkCutsCollectsRest(s, page + 1, start + n, n, t, fuel - 1);
      WalkStep(s, page, start, n, t, fuel);
    } else {
      CutAtPage(s, page, start, n);
      LastCut(s, start, n);
    }
  }

  lemma CutAtPage(s: seq<Profile>, page: int, start: int, n: int)
    requires n >= 1 && page >= 1 && start == (page - 1) * n
    ensures CutsOf(s, n)(page) == LimitOffset(s, n, start)
  {
  }

  lemma LastCut(s: seq<Profile>, start: int, n: int)
    requires n >= 1 && 0 <= start <= |s| <= start + n
    ensures LimitOffset(s, n, start) == s[start..]
  {
  }

  lemma WalkStep(s: seq<Profile>, page: int, start: int, n: int, t: int, fuel: nat)
    requires n >= 1 && 1 <= page < t && fuel > 0 && start == (page - 1) * n && 0 <= start && start + n <= |s|
    requires WalkCuts(CutsOf(s, n), page + 1, t, fuel - 1) == s[start + n..]
    ensures WalkCuts(CutsOf(s, n), page, t, fuel) == s[start..]
  {
    CutAtPage(s, page, start, n);
    FullPageThenRest(s, start, n);
  }

  lemma PageBounds(total: nat, n: int, t: int, page: int, start: int)
    requires n >= 1 && page >= 1 && start == (page - 1) * n && t == TotalPages(total, n)
    requires page == 1 || page <= t
    ensures start + n == page * n && 0 <= start <= total
    ensures page < t ==> start + n <= total
    ensures page >= t ==> total <= start + n
  {
    DivisionBounds(total, n, t);
    MulStep(page, n);
    if page < t {
      MulMonotone(page, t - 1, n);
    } else {
      MulMonotone(t, page, n);
      if page > 1 {
        MulMonotone(page - 1, t - 1, n);
      }
    }
  }

  lemma FullPageThenRest(all: seq<Profile>, start: int, n: int)
    requires 0 <= start && n >= 1 && start + n <= |all|
    ensures LimitOffset(all, n, start) + all[start + n..] == all[start..]
  {
  }

  lemma PageInRange(rows: seq<Profile>, f: ListFilter)
    requires Validated(f) && |AllMatching(rows, f)| <= MAX_INT
    requires f.page == 1 || f.page <= AnswerOf(rows, f).totalPages
    ensures AnswerOf(rows, f).data == Cut(AllMatching(rows, f), f.page, f.limit)
  {
    var total := |AllMatching(rows, f)|;
    PageBounds(total, f.limit, TotalPages(total, f.limit), f.page, ExactOffset(f));
    PageIsCutIff(rows, f);
  }

  lemma PagesFitInInt(total: nat, n: int)
    requires n >= 1 && total <= MAX_INT
    ensures TotalPages(total, n) <= MAX_INT
  {
    var t := TotalPages(total, n);
    DivisionBounds(total, n, t);
    if t >= 1 {
      MulMonotone(1, n, t - 1);
    }
  }

  lemma {:induction false} SameMatchingOtherPage(rows: seq<Profile>, f: ListFilter, page: int)
    ensures Matching(rows, f.(page := page)) == Matching(rows, f)
  {
    if rows != [] {
      SameMatchingOtherPage(rows[1..], f, page);
    }
  }

  lemma SameRowsOtherPage(rows: seq<Profile>, f: ListFilter, page: int)
    ensures AllMatching(rows, f.(page := page)) == AllMatching(rows, f)
    ensures AnswerOf(rows, f.(page := page)).totalPages == AnswerOf(rows, f).totalPages
  {
    SameMatchingOtherPage(rows, f, page);
  }

  lemma LinkReads(read: Reader, query: Params, f: ListFilter, page: int)
    requires ReadsLinks(read) && read(query) == Some(f) && 1 <= page <= MAX_INT
    ensures read(LinkParams(query, page, f.limit)) == Some(f.(page := page))
    ensures Validated(f)
  {
  }

  // The requests that differ from f at most in the page.
  predicate SameButPage(read: Reader, f: ListFilter, q: Params) {
    read(q).Some? && read(q).value == f.(page := read(q).value.page)
  }

  // Every such request returns its own cut of the answer, a next link to the following page unless it is
  // the last, and a prev link to the page before unless it is the first.
  lemma ResponseIsCut(rows: seq<Profile>, path: string, read: Reader, f: ListFilter, q: Params)
    requires ReadsLinks(read) && SameButPage(read, f, q) && |AllMatching(rows, f)| <= MAX_INT
    ensures var r := EndpointOf(rows, path, read)(q);
            var (page, t) := (read(q).value.page, AnswerOf(rows, f).totalPages);
            && r.Some? && r.value.page == page >= 1 && f.limit >= 1
            && (page == 1 || page <= t ==> r.value.data == Cut(AllMatching(rows, f), page, f.limit))
            && (r.value.next.Some? <==> page < t)
            && (r.value.prev.Some? <==> page > 1 && t > 0)
            && (page < t ==>
                  SameButPage(read, f, r.value.next.value) && read(r.value.next.value).value.page == page + 1)
            && (page > 1 && t > 0 ==>
                  SameButPage(read, f, r.value.prev.value) && read(r.value.prev.value).value.page == page - 1)
  {
    hide LinkParams, Cut, PageData, AllMatching;
    var g := read(q).value;
    LinkReads(read, q, g, 1);
    SameRowsOtherPage(rows, f, g.page);
    PagesFitInInt(|AllMatching(rows, f)|, f.limit);
    if g.page == 1 || g.page <= AnswerOf(rows, f).totalPages {
      PageInRange(rows, g);
    }
    if g.page < AnswerOf(rows, f).totalPages {
      LinkReads(read, q, g, g.page + 1);
    }
    if g.page > 1 {
      LinkReads(read, q, g, g.page - 1);
    }
  }

  // Requests numbered by page, each returning its own cut and linking to its neighbours.
  ghost predicate Paged(fetch: Endpoint, pageOf: Params -> int, cuts: Cuts, t: int) {
    forall q {:trigger fetch(q)} :: pageOf(q) >= 1 ==>
      fetch(q).Some? && PagedResponse(fetch(q).value, pageOf, pageOf(q), cuts, t)
  }

  predicate PagedResponse(r: Response, pageOf: Params -> int, page: int, cuts: Cuts, t: int) {
    && r.page == page
    && (page == 1 || page <= t ==> r.data == cuts(page))
    && (r.next.Some? <==> page < t) && (page < t ==> pageOf(r.next.value) == page + 1)
    && (r.prev.Some? <==> page > 1 && t > 0) && (page > 1 && t > 0 ==> pageOf(r.prev.value) == page - 1)
  }

  function PageOf(read: Reader, f: ListFilter): Params -> int {
    q => if SameButPage(read, f, q) then read(q).value.page else 0
  }

  lemma EndpointIsPaged(rows: seq<Profile>, path: string, read: Reader, f: ListFilter)
    requires ReadsLinks(read) && Validated(f) && |AllMatching(rows, f)| <= MAX_INT
    ensures Paged(EndpointOf(rows, path, read), PageOf(read, f), CutsOf(AllMatching(rows, f), f.limit),
                  AnswerOf(rows, f).totalPages)
  {
    forall q | PageOf(read, f)(q) >= 1
      ensures EndpointOf(rows, path, read)(q).Some? &&
              PagedResponse(EndpointOf(rows, path, read)(q).value, PageOf(read, f), PageOf(read, f)(q),
                            CutsOf(AllMatching(rows, f), f.limit), AnswerOf(rows, f).totalPages)
    {
      ResponseIsCut(rows, path, read, f, q);
    }
  }

  lemma {:induction false} CollectIsWalk(
      fetch: Endpoint, pageOf: Params -> int, cuts: Cuts, t: int, q: Params, fuel: nat)
    requires Paged(fetch, pageOf, cuts, t)
    requires pageOf(q) >= 1 && (pageOf(q) == 1 || pageOf(q) <= t)
    ensures Collect(fetch, q, fuel) == WalkCuts(cuts, pageOf(q), t, fuel)
    decreases fuel
  {
    var r := fetch(q).value;
    if pageOf(q) < t && fuel > 0 {
      CollectIsWalk(fetch, pageOf, cuts, t, r.next.value, fuel - 1);
    }
  }

  lemma {:induction false} ForwardPagesCountUp(
      fetch: Endpoint, pageOf: Params -> int, cuts: Cuts, t: int, q: Params, fuel: nat)
    requires Paged(fetch, pageOf, cuts, t)
    requires pageOf(q) >= 1 && fuel + pageOf(q) >= t
    ensures ForwardPages(fetch, q, fuel) == CountUp(pageOf(q), t)
    decreases fuel
  {
    var r := fetch(q).value;
    if pageOf(q) < t {
      ForwardPagesCountUp(fetch, pageOf, cuts, t, r.next.value, fuel - 1);
    }
  }

  // page, page + 1, up to last; at least page itself.
  function CountUp(page: int, last: int): seq<int>
    decreases last - page
  {
    [page] + if page >= last then [] else CountUp(page + 1, last)
  }

  lemma {:induction false} BackPagesCountDown(
      fetch: Endpoint, pageOf: Params -> int, cuts: Cuts, t: int, q: Params, fuel: nat)
    requires Paged(fetch, pageOf, cuts, t) && t > 0
    requires 1 <= pageOf(q) <= fuel
    ensures BackPages(fetch, q, fuel) == CountDown(pageOf(q))
    decreases fuel
  {
    var r := fetch(q).value;
    if pageOf(q) > 1 {
      BackPagesCountDown(fetch, pageOf, cuts, t, r.prev.value, fuel - 1);
    } else {
      assert CountDown(0) == [];
    }
  }

  function CountDown(page: int): seq<int> {
    if page < 1 then [] else [page] + CountDown(page - 1)
  }

  // The links themselves: all three lead to the request's own path, and read back as the same filter at its own page,
  // the next page and the page before.
  lemma LinksLeadTo(rows: seq<Profile>, path: string, read: Reader, query: Params, f: ListFilter)
    requires ReadsLinks(read) && read(query) == Some(f) && |AllMatching(rows, f)| <= MAX_INT
    ensures var links := LinksOf(rows, path, query, f);
            && links.self.path == path && read(links.self.params) == Some(f)
            && (links.next.Some? <==> f.page * f.limit < |AllMatching(rows, f)|)
            && (links.next.Some? ==>
                  links.next.value.path == path && read(links.next.value.params) == Some(f.(page := f.page + 1)))
            && (links.prev.Some? <==> f.page > 1 && AllMatching(rows, f) != [])
            && (links.prev.Some? ==>
                  links.prev.value.path == path && read(links.prev.value.params) == Some(f.(page := f.page - 1)))
  {
    LinkReads(read, query, f, 1);
    var (total, t) := (|AllMatching(rows, f)|, AnswerOf(rows, f).totalPages);
    TotalPagesIff(total, f.limit, f.page);
    hide LinkParams, AllMatching, PageData, TotalPages;
    PagesFitInInt(total, f.limit);
    LinkReads(read, query, f, f.page);
    if f.page < t {
      LinkReads(read, query, f, f.page + 1);
    }
    if f.page > 1 {
      LinkReads(read, query, f, f.page - 1);
    }
  }

  // There is a page after page p exactly when p pages do not hold everything.
  lemma TotalPagesIff(total: nat, n: int, p: int)
    requires n >= 1 && p >= 1
    ensures p < TotalPages(total, n) <==> p * n < total
    ensures TotalPages(total, n) > 0 <==> total > 0
  {
    var t := TotalPages(total, n);
    DivisionBounds(total, n, t);
    if p < t {
      MulMonotone(p, t - 1, n);
    } else {
      MulMonotone(t, p, n);
    }
  }

  // From any page, following next visits each page up to the last once, in order, and stops there, however
  // long one is prepared to go on.
  lemma FollowingNextVisitsEachPage(rows: seq<Profile>, path: string, read: Reader, query: Params, f: ListFilter,
                                    fuel: nat)
    requires ReadsLinks(read) && read(query) == Some(f) && |AllMatching(rows, f)| <= MAX_INT
    requires fuel + f.page >= AnswerOf(rows, f).totalPages
    ensures ForwardPages(EndpointOf(rows, path, read), query, fuel) == CountUp(f.page, AnswerOf(rows, f).totalPages)
  {
    LinkReads(read, query, f, 1);
    EndpointIsPaged(rows, path, read, f);
    ForwardPagesCountUp(EndpointOf(rows, path, read), PageOf(read, f), CutsOf(AllMatching(rows, f), f.limit),
                        AnswerOf(rows, f).totalPages, query, fuel);
  }

  // Starting at page 1 and following next until there is none yields the whole answer, each matching row
  // once and in order.
  lemma FollowingNextCollectsAll(rows: seq<Profile>, path: string, read: Reader, query: Params, f: ListFilter,
                                 fuel: nat)
    requires ReadsLinks(read) && read(query) == Some(f) && f.page == 1
    requires |AllMatching(rows, f)| <= MAX_INT && fuel >= AnswerOf(rows, f).totalPages
    ensures Collect(EndpointOf(rows, path, read), query, fuel) == AllMatching(rows, f)
  {
    var t := AnswerOf(rows, f).totalPages;
    LinkReads(read, query, f, 1);
    EndpointIsPaged(rows, path, read, f);
    CollectIsWalk(EndpointOf(rows, path, read), PageOf(read, f), CutsOf(AllMatching(rows, f), f.limit), t, query, fuel);
    WalkFromPageOne(AllMatching(rows, f), f.limit, t, fuel);
  }

  lemma WalkFromPageOne(s: seq<Profile>, n: int, t: int, fuel: nat)
    requires n >= 1 && t == TotalPages(|s|, n) && fuel >= t
    ensures WalkCuts(CutsOf(s, n), 1, t, fuel) == s
  {
    WalkCutsCollectsRest(s, 1, 0, n, t, fuel);
  }

  // Only page and limit change from one link to the next.
  lemma RelinkingKeepsParams(query: Params, p: int, page: int, limit: int)
    ensures LinkParams(LinkParams(query, p, limit), page, limit) == LinkParams(query, page, limit)
  {
    var q := LinkParams(query, p, limit);
    assert forall key :: key in q && Carried(q, key) <==> key in query && Carried(query, key);
  }

  // Going next and then prev comes back to the link of the page one started from.
  lemma PrevUndoesNext(rows: seq<Profile>, path: string, read: Reader, query: Params, f: ListFilter)
    requires ReadsLinks(read) && read(query) == Some(f)
    requires LinksOf(rows, path, query, f).next.Some? && |AllMatching(rows, f)| <= MAX_INT
    ensures var links := LinksOf(rows, path, query, f);
            var q := links.next.value.params;
            read(q).Some? && LinksOf(rows, path, q, read(q).value).prev == Some(links.self)
  {
    LinkReads(read, query, f, 1);
    PagesFitInInt(|AllMatching(rows, f)|, f.limit);
    LinkReads(read, query, f, f.page + 1);
    SameRowsOtherPage(rows, f, f.page + 1);
    RelinkingKeepsParams(query, f.page + 1, f.page, f.limit);
  }

  // From any page, even one past the end, following prev steps down one page at a time to page 1 and stops
  // there, as long as anything matches at all.
  lemma FollowingPrevReachesOne(rows: seq<Profile>, path: string, read: Reader, query: Params, f: ListFilter, fuel: nat)
    requires ReadsLinks(read) && read(query) == Some(f) && |AllMatching(rows, f)| <= MAX_INT
    requires AnswerOf(rows, f).totalPages > 0 && fuel >= f.page
    ensures BackPages(EndpointOf(rows, path, read), query, fuel) == CountDown(f.page)
  {
    LinkReads(read, query, f, 1);
    EndpointIsPaged(rows, path, read, f);
    BackPagesCountDown(EndpointOf(rows, path, read), PageOf(read, f), CutsOf(AllMatching(rows, f), f.limit),
                       AnswerOf(rows, f).totalPages, query, fuel);
  }
}
