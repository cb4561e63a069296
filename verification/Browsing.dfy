// A client that pages through a list while the cache answers: whatever it hits on the way, and whoever filled
// those entries, following next from page 1 still yields the whole answer (handlers.go, pagination.go).
module Browsing {
  import opened Wrappers
  import opened Decimal
  import opened Profiles
  import opened Normalize
  import opened Query
  import opened Pagination
  import opened Server

  // Filters for pages of one list.
  predicate SameList(f: ListFilter, g: ListFilter) {
    NormalFormOf(f.(page := 1)) == NormalFormOf(g.(page := 1)) && SameThresholds(f, g)
  }

  // The list requests of a run that ask for pages of f's list agree with it on the thresholds.
  ghost predicate ThresholdsAgree(env: Env, past: seq<Request>, f: ListFilter) {
    forall r :: r in past && r.List? && FilterFor(env, r).Some?
                && NormalFormOf(FilterFor(env, r).value.(page := 1)) == NormalFormOf(f.(page := 1)) ==>
      SameThresholds(FilterFor(env, r).value, f)
  }

  // A server after some requests, with nothing committed since the last bump.
  ghost predicate Ready(env: Env, s: Api, past: seq<Request>, f: ListFilter) {
    && Inv(env, s, past) && s.settled == |s.rows| && (forall r :: r in past ==> WellFormed(env, r))
    && ThresholdsAgree(env, past, f)
  }

  // What a client collects by sending a list request and then following next, at most fuel more times; entries
  // may vanish between its requests.
  function CachedCollect(env: Env, s: Api, q: Params, gone: nat -> set<string>, fuel: nat): seq<Profile>
    decreases fuel
  {
    var (t, reply) := Step(env, s, List(q));
    match reply
    case Hit(body) => body.answer.data + CollectNext(env, t, body.links.next, gone, fuel)
    case Miss(body) => body.answer.data + CollectNext(env, t, body.links.next, gone, fuel)
    case _ => []
  }

  function CollectNext(env: Env, s: Api, next: Option<Link>, gone: nat -> set<string>, fuel: nat): seq<Profile>
    decreases fuel, 0
  {
    if next.None? || fuel == 0 then []
    else CachedCollect(env, Step(env, s, Vanish(gone(fuel))).0, next.value.params, gone, fuel - 1)
  }

  lemma SameListSameRows(rows: seq<Profile>, f: ListFilter, g: ListFilter)
    requires Validated(f) && Validated(g) && SameList(f, g)
    ensures f.limit == g.limit && AllMatching(rows, f) == AllMatching(rows, g)
    ensures AnswerOf(rows, f).totalPages == AnswerOf(rows, g).totalPages
  {
    var (a, b) := (f.(page := 1), g.(page := 1));
    ValidatedNormalForm(a);
    ValidatedNormalForm(b);
    hide NormalFormOf, AllMatching, PageData;
    SameSelection(rows, a, b);
    SameRowsOtherPage(rows, f, 1);
    SameRowsOtherPage(rows, g, 1);
  }

  lemma SameListAsItself(f: ListFilter)
    ensures SameList(f, f)
  {
  }

  // One page as an uncached server sends it, for any request for a page of f's list.
  ghost predicate IsPageOf(env: Env, rows: seq<Profile>, f: ListFilter, page: int, body: Body) {
    var t := AnswerOf(rows, f).totalPages;
    && page >= 1 && f.limit >= 1
    && (page == 1 || page <= t ==> body.answer.data == Cut(AllMatching(rows, f), page, f.limit))
    && (body.links.next.Some? <==> page < t)
    && (page < t ==> AsksForPage(env, f, body.links.next.value.params, page + 1))
  }

  ghost predicate AsksForPage(env: Env, f: ListFilter, q: Params, page: int) {
    FilterFor(env, List(q)).Some? && FilterFor(env, List(q)).value.page == page
    && SameList(FilterFor(env, List(q)).value, f)
  }

  lemma UncachedIsPage(env: Env, rows: seq<Profile>, q: Params, f: ListFilter)
    requires FilterFor(env, List(q)).Some? && Validated(f) && |AllMatching(rows, f)| <= MAX_INT
    requires SameList(FilterFor(env, List(q)).value, f)
    ensures IsPageOf(env, rows, f, FilterFor(env, List(q)).value.page, UncachedBody(env, rows, List(q)))
  {
    hide LinkParams, Cut, PageData, AllMatching, NormalFormOf, Accepted, FilterOf;
    var (read, g) := (ListReader(env.parse), FilterFor(env, List(q)).value);
    AcceptedIsValidated(q, env.parse);
    SameListSameRows(rows, g, f);
    ListReadsLinks(env.parse);
    ResponseIsCut(rows, LIST_PATH, read, g, q);
  }

  // However a list request is answered, it is with the body of some request for the same page of the same list.
  lemma AnyReplyIsPage(env: Env, s: Api, past: seq<Request>, q: Params, f: ListFilter)
    requires Ready(env, s, past, f) && Validated(f) && |AllMatching(s.rows, f)| <= MAX_INT
    requires FilterFor(env, List(q)).Some? && SameList(FilterFor(env, List(q)).value, f)
    ensures var (t, reply) := Step(env, s, List(q));
            && (reply.Hit? || reply.Miss?) && t.rows == s.rows && t.settled == s.settled
            && IsPageOf(env, s.rows, f, FilterFor(env, List(q)).value.page, reply.body)
  {
    hide IsPageOf, AllMatching, AnswerOf, Accepted, FilterOf, Canonical, LinksOf, Replays, NormalFormOf;
    var g := FilterFor(env, List(q)).value;
    AcceptedIsValidated(q, env.parse);
    ReadStep(env, s, List(q));
    UncachedIsPage(env, s.rows, q, f);
    var key := CacheKey(env, g, "list", s.namespace);
    if key in s.entries {
      assert Replays(env, s, past, "list", g, s.entries[key]);
      ReplayIsPage(env, s, past, q, f, s.entries[key]);
    }
  }

  lemma ReplayIsPage(env: Env, s: Api, past: seq<Request>, q: Params, f: ListFilter, body: Body)
    requires Ready(env, s, past, f) && Validated(f) && |AllMatching(s.rows, f)| <= MAX_INT
    requires FilterFor(env, List(q)).Some? && SameList(FilterFor(env, List(q)).value, f)
    requires Replays(env, s, past, "list", FilterFor(env, List(q)).value, body)
    ensures IsPageOf(env, s.rows, f, FilterFor(env, List(q)).value.page, body)
  {
    hide IsPageOf, AllMatching, Coherent, UncachedBody, NormalFormOf, Accepted, FilterOf;
    var g := FilterFor(env, List(q)).value;
    var r, n :| r in past && AsksSame(env, r, "list", g) && s.settled <= n <= |s.rows|
                && body == UncachedBody(env, s.rows[..n], r);
    assert s.rows[..n] == s.rows;
    var h := FilterFor(env, r).value;
    AcceptedIsValidated(q, env.parse);
    SamePageOne(g, h);
    UncachedIsPage(env, s.rows, r.query, f);
  }

  lemma SamePageOne(f: ListFilter, g: ListFilter)
    requires Validated(f) && Validated(g) && NormalFormOf(f) == NormalFormOf(g)
    ensures f.page == g.page && NormalFormOf(f.(page := 1)) == NormalFormOf(g.(page := 1))
  {
    ValidatedNormalForm(f);
    ValidatedNormalForm(g);
  }

  lemma StillAgree(env: Env, past: seq<Request>, q: Params, f: ListFilter, keys: set<string>)
    requires ThresholdsAgree(env, past, f) && (forall r :: r in past ==> WellFormed(env, r))
    requires FilterFor(env, List(q)).Some? && SameList(FilterFor(env, List(q)).value, f)
    ensures var after := past + [List(q)] + [Vanish(keys)];
            ThresholdsAgree(env, after, f) && forall r :: r in after ==> WellFormed(env, r)
  {
    hide NormalFormOf, Validated, SameThresholds, Accepted, FilterOf;
    AcceptedIsValidated(q, env.parse);
    assert forall r :: r in past + [List(q)] + [Vanish(keys)] ==> r in past || r == List(q) || r == Vanish(keys);
  }

  lemma StaysReady(env: Env, s: Api, past: seq<Request>, q: Params, f: ListFilter, keys: set<string>)
    requires CollisionFree(env.digest) && Ready(env, s, past, f)
    requires FilterFor(env, List(q)).Some? && SameList(FilterFor(env, List(q)).value, f)
    ensures var t := Step(env, Step(env, s, List(q)).0, Vanish(keys)).0;
            Ready(env, t, past + [List(q)] + [Vanish(keys)], f) && t.rows == s.rows
  {
    hide Inv, FilterFor, SameList, WellFormed, ThresholdsAgree, UncachedBody, AnswerOf, Fresh;
    StillAgree(env, past, q, f, keys);
    ListIsWellFormed(env, q);
    ServeKeepsInv(env, s, past, List(q));
    ReadStep(env, s, List(q));
    VanishKeepsInv(env, Step(env, s, List(q)).0, past + [List(q)], keys);
  }

  lemma VanishKeepsInv(env: Env, s: Api, past: seq<Request>, keys: set<string>)
    requires Inv(env, s, past)
    ensures Inv(env, s.(entries := s.entries - keys), past + [Vanish(keys)])
  {
    hide Coherent, NoLaterEntries;
    QuietKeepsInv(env, s, s.(entries := s.entries - keys), past, Vanish(keys));
  }

  lemma {:induction false} CachedCollectIsWalk(env: Env, s: Api, past: seq<Request>, q: Params, f: ListFilter,
                                               gone: nat -> set<string>, fuel: nat)
    requires CollisionFree(env.digest) && Ready(env, s, past, f) && Validated(f) && |AllMatching(s.rows, f)| <= MAX_INT
    requires FilterFor(env, List(q)).Some? && SameList(FilterFor(env, List(q)).value, f)
    requires var page := FilterFor(env, List(q)).value.page; page == 1 || page <= AnswerOf(s.rows, f).totalPages
    ensures CachedCollect(env, s, q, gone, fuel) ==
            WalkCuts(CutsOf(AllMatching(s.rows, f), f.limit), FilterFor(env, List(q)).value.page,
                     AnswerOf(s.rows, f).totalPages, fuel)
    decreases fuel
  {
    hide Step, Ready, AllMatching, AnswerOf, FilterFor, Validated, SameList, Cut;
    AnyReplyIsPage(env, s, past, q, f);
    var (t, reply) := Step(env, s, List(q));
    var (page, last) := (FilterFor(env, List(q)).value.page, AnswerOf(s.rows, f).totalPages);
    if page < last && fuel > 0 {
      var keys := gone(fuel);
      StaysReady(env, s, past, q, f, keys);
      var next := reply.body.links.next.value.params;
      CachedCollectIsWalk(env, Step(env, t, Vanish(keys)).0, past + [List(q)] + [Vanish(keys)],
                          next, f, gone, fuel - 1);
    }
  }

  // After any run that left nothing unsettled, and whose requests for this list agree on the thresholds: paging
  // through the list from page 1 by next links, hit or miss, collects every matching row once and in order,
  // although a hit's next link may be one made for somebody else.
  lemma CachedWalkCollectsAll(env: Env, rows: seq<Profile>, reqs: seq<Request>, q: Params,
                              gone: nat -> set<string>, fuel: nat)
    requires CollisionFree(env.digest) && IsTable(rows) && 1 + |reqs| < TWO64
    requires forall r :: r in reqs ==> WellFormed(env, r)
    requires Accepted(q, env.parse) && FilterOf(q, env.parse).page == 1
    requires var (s, f) := (After(env, Boot(rows), reqs), FilterOf(q, env.parse));
             && s.settled == |s.rows| && ThresholdsAgree(env, reqs, f)
             && |AllMatching(s.rows, f)| <= MAX_INT && fuel >= AnswerOf(s.rows, f).totalPages
    ensures var s := After(env, Boot(rows), reqs);
            CachedCollect(env, s, q, gone, fuel) == AllMatching(s.rows, FilterOf(q, env.parse))
  {
    hide After, AllMatching, AnswerOf, Accepted, FilterOf, SameList, Inv, WellFormed, ThresholdsAgree, CachedCollect,
      WalkCuts, TotalPages, CutsOf, IsTable, CollisionFree;
    var (s, f) := (After(env, Boot(rows), reqs), FilterOf(q, env.parse));
    AcceptedIsValidated(q, env.parse);
    RunKeepsInv(env, rows, reqs);
    SameListAsItself(f);
    CachedCollectIsWalk(env, s, reqs, q, f, gone, fuel);
    PageCount(s.rows, f);
    WalkFromPageOne(AllMatching(s.rows, f), f.limit, AnswerOf(s.rows, f).totalPages, fuel);
  }

  lemma PageCount(rows: seq<Profile>, f: ListFilter)
    requires f.limit >= 1
    ensures AnswerOf(rows, f).totalPages == TotalPages(|AllMatching(rows, f)|, f.limit)
  {
    hide AllMatching, PageData, TotalPages;
  }
}
