// List, search, create, delete and import requests against one store and one cache, taken one at a time
// (handlers.go, bulk_import.go). Every hit replays an earlier reply, and it is proved exactly when that is still what
// an uncached query would answer.
module Server {
  import opened Wrappers
  import opened Text
  import opened Decimal
  import opened Profiles
  import opened Normalize
  import opened Query
  import opened Pagination
  import opened Cache
  import Ordering
  import Import
  import Search

  // A response body: what the store determines, and the links of the request that computed it.
  datatype Body = Body(answer: Answer, links: Links)

  // The library calls and the seed table the server works with. digest stands for the truncated SHA-256.
  datatype Env = Env(digest: string -> string, parse: FloatParser, codeToName: map<string, string>)

  ghost predicate CollisionFree(digest: string -> string) {
    forall a, b :: digest(a) == digest(b) ==> a == b
  }

  // Table and cache. settled is how many rows there were after the last bump; the rows from there on were
  // committed without one.
  datatype Api = Api(rows: seq<Profile>, entries: map<string, Body>, namespace: nat, settled: nat)

  // The rows committed without a bump.
  function Unsettled(s: Api): seq<Profile> {
    if s.settled <= |s.rows| then s.rows[s.settled..] else []
  }

  // A server just started on a table.
  function Boot(rows: seq<Profile>): Api {
    Api(rows, map[], 1, |rows|)
  }

  datatype Request =
    | List(query: Params)
    | Search(query: Params, parsed: Search.ParsedQuery)
    | Create(profile: Profile)
    | Delete(id: string)
    | Import(header: Option<seq<string>>, recs: seq<Import.Record>, flushing: Import.Flushing)
    | Vanish(keys: set<string>)

  datatype Reply = Hit(body: Body) | Miss(body: Body) | Refused | Written

  const LIST_PATH := "/api/profiles"
  const SEARCH_PATH := "/api/profiles/search"

  function CacheKey(env: Env, f: ListFilter, prefix: string, namespace: nat): string {
    Versioned(env.digest(Canonical(f, prefix)), namespace)
  }

  // ----- one request on abstract state ----------------------------------------------------------------

  function Fresh(rows: seq<Profile>, path: string, query: Params, f: ListFilter): Body {
    Body(AnswerOf(rows, f), LinksOf(rows, path, query, f))
  }

  function Serve(env: Env, s: Api, prefix: string, path: string, query: Params, f: ListFilter): (Api, Reply) {
    var key := CacheKey(env, f, prefix, s.namespace);
    if key in s.entries then (s, Hit(s.entries[key]))
    else
      var body := Fresh(s.rows, path, query, f);
      (s.(entries := s.entries[key := body]), Miss(body))
  }

  function Bumped(s: Api, rows: seq<Profile>): Api {
    s.(rows := rows, namespace := (s.namespace + 1) % TWO64, settled := |rows|)
  }

  // The filter a read request asks for, or None when it is refused.
  function FilterFor(env: Env, req: Request): Option<ListFilter> {
    match req
    case List(q) => if Accepted(q, env.parse) then Some(FilterOf(q, env.parse)) else None
    case Search(q, parsed) =>
      if TrimSpace(Get(q, "q")) != "" && parsed.matched && PagingAccepted(q) && SortAccepted(q)
      then Some(Search.SearchFilter(parsed, q)) else None
    case _ => None
  }

  predicate NameTaken(rows: seq<Profile>, name: string) {
    exists i :: 0 <= i < |rows| && ToLower(rows[i].name) == ToLower(name)
  }

  function CreateStep(s: Api, p: Profile): (Api, Reply) {
    if NameTaken(s.rows, p.name) || Conflicts(s.rows, p) then (s, Refused) else (Bumped(s, s.rows + [p]), Written)
  }

  function DeleteStep(s: Api, id: string): (Api, Reply) {
    if IdIn(s.rows, id) then (Bumped(s, WithoutId(s.rows, id)), Written) else (s, Refused)
  }

  function ChecksFor(env: Env, header: seq<string>): Import.Validator {
    Import.RowChecks(Import.Context(Import.HeaderIndex(header), env.codeToName, env.parse))
  }

  // The cache is bumped only when the import completes with new rows.
  function ImportStep(s: Api, check: Import.Validator, recs: seq<Import.Record>, flushing: Import.Flushing)
    : (Api, Reply)
  {
    var r := Import.ImportOf(s.rows, check, recs, flushing);
    match r.outcome
    case Completed(sum) => ((if sum.inserted > 0 then Bumped(s, r.rows) else s.(rows := r.rows)), Written)
    case _ => (s.(rows := r.rows), Refused)
  }

  function Step(env: Env, s: Api, req: Request): (Api, Reply) {
    match req
    case List(q) =>
      if FilterFor(env, req).None? then (s, Refused)
      else Serve(env, s, "list", LIST_PATH, q, FilterFor(env, req).value)
    case Search(q, _) =>
      if FilterFor(env, req).None? then (s, Refused)
      else Serve(env, s, "search", SEARCH_PATH, q, FilterFor(env, req).value)
    case Create(p) => CreateStep(s, p)
    case Delete(id) => DeleteStep(s, id)
    case Import(header, recs, flushing) =>
      if header.None? || !(Import.REQUIRED <= Import.HeaderIndex(header.value).Keys) then (s, Refused)
      else ImportStep(s, ChecksFor(env, header.value), recs, flushing)
    case Vanish(keys) => (s.(entries := s.entries - keys), Written)
  }

  // ----- the handlers ----------------------------------------------------------------------------------

  class ApiServer {
    const env: Env
    const store: Store
    const cache: QueryCache<Body>
    ghost var settled: nat

    ghost predicate Valid()
      reads this, store, cache
    {
      store.Valid() && cache.Valid()
    }

    ghost function State(): Api
      reads this, store, cache
    {
      Api(store.rows, cache.entries, cache.namespace, settled)
    }

    constructor (env: Env)
      ensures Valid() && this.env == env && fresh(store) && fresh(cache)
      ensures State() == Boot([])
    {
      this.env := env;
      store := new Store();
      cache := new QueryCache();
      settled := 0;
    }

    // Both read handlers: look the canonical filter up, else query the store, answer, and remember the answer.
    method ServeFilter(prefix: string, path: string, query: Params, f: ListFilter) returns (reply: Reply)
      requires Valid()
      modifies cache`entries
      ensures Valid() && (State(), reply) == Serve(env, old(State()), prefix, path, query, f)
    {
      var canonical := CanonicalFilter(f, prefix);
      var key := env.digest(canonical);
      var cached := cache.Get(key);
      if cached.Some? {
        return Hit(cached.value);
      }
      var data, total := store.List(f);
      var totalPages, links := BuildPagination(path, query, f.page, f.limit, total);
      var body := Body(Answer(f.page, f.limit, total, totalPages, data), links);
      cache.Set(key, body);
      return Miss(body);
    }

    method ListProfiles(query: Params) returns (reply: Reply)
      requires Valid()
      modifies cache`entries
      ensures Valid() && (State(), reply) == Step(env, old(State()), List(query))
    {
      var f := ParseListQuery(query, env.parse);
      if f.Err? {
        return Refused;
      }
      reply := ServeFilter("list", LIST_PATH, query, f.value);
    }

    // parsed is what ParseNL returns for the query's text.
    method SearchProfiles(query: Params, parsed: Search.ParsedQuery) returns (reply: Reply)
      requires Valid()
      modifies cache`entries
      ensures Valid() && (State(), reply) == Step(env, old(State()), Search(query, parsed))
    {
      if TrimSpace(Get(query, "q")) == "" || !parsed.matched {
        return Refused;
      }
      var paging := ParsePageLimit(query);
      if paging.Err? {
        return Refused;
      }
      var sort := ParseSort(query);
      if sort.Err? {
        return Refused;
      }
      var f := parsed.filter;
      f := f.(page := paging.value.0, limit := paging.value.1);
      f := f.(sortBy := sort.value.0, order := sort.value.1);
      reply := ServeFilter("search", SEARCH_PATH, query, f);
    }

    // p is the profile assembled from the outside services for a new name.
    method CreateProfile(p: Profile) returns (reply: Reply)
      requires Valid()
      modifies this`settled, store, cache`namespace
      ensures Valid() && (State(), reply) == Step(env, old(State()), Create(p))
    {
      if NameTaken(store.rows, p.name) {
        return Refused;
      }
      var ok := store.Insert(p);
      if !ok {
        return Refused;
      }
      cache.Bump();
      settled := |store.rows|;
      return Written;
    }

    method DeleteProfile(id: string) returns (reply: Reply)
      requires Valid()
      modifies this`settled, store, cache`namespace
      ensures Valid() && (State(), reply) == Step(env, old(State()), Delete(id))
    {
      var ok := store.Delete(id);
      if !ok {
        return Refused;
      }
      cache.Bump();
      settled := |store.rows|;
      return Written;
    }

    method ImportProfiles(header: Option<seq<string>>, recs: seq<Import.Record>, flushing: Import.Flushing)
      returns (reply: Reply)
      requires Valid()
      modifies this`settled, store, cache`namespace
      ensures Valid() && (State(), reply) == Step(env, old(State()), Import(header, recs, flushing))
    {
      hide Import.ImportOf, Import.HeaderIndex, Import.RowChecks;
      if header.None? {
        return Refused;
      }
      var idx := Import.BuildHeaderIndex(header.value);
      if idx.Err? {
        return Refused;
      }
      var check := Import.RowChecks(Import.Context(idx.value, env.codeToName, env.parse));
      Import.RowChecksSound(Import.Context(idx.value, env.codeToName, env.parse));
      var outcome := Import.ImportRecords(store, check, recs, flushing);
      if !outcome.Completed? {
        return Refused;
      }
      if outcome.summary.inserted > 0 {
        cache.Bump();
        settled := |store.rows|;
      }
      return Written;
    }
  }

  // ----- what hits show, over whole runs -------------------------------------------------------------------

  function PrefixOf(r: Request): string {
    if r.List? then "list" else "search"
  }

  function PathOf(r: Request): string {
    if r.List? then LIST_PATH else SEARCH_PATH
  }

  function QueryOf(r: Request): Params {
    match r
    case List(q) => q
    case Search(q, _) => q
    case _ => map[]
  }

  // What a server without a cache sends for a read request it accepts.
  function UncachedBody(env: Env, rows: seq<Profile>, r: Request): Body
    requires FilterFor(env, r).Some?
  {
    Fresh(rows, PathOf(r), QueryOf(r), FilterFor(env, r).value)
  }

  // Requests to one endpoint with one normal form.
  predicate AsksSame(env: Env, r: Request, prefix: string, f: ListFilter) {
    FilterFor(env, r).Some? && PrefixOf(r) == prefix && NormalFormOf(FilterFor(env, r).value) == NormalFormOf(f)
  }

  // The body is what an uncached server sent for an earlier request of the same kind, on the first n rows of the
  // table as it is now, where n counts at least the rows of the last bump.
  ghost predicate Replays(env: Env, s: Api, past: seq<Request>, prefix: string, f: ListFilter, body: Body) {
    exists r, n {:trigger UncachedBody(env, s.rows[..n], r)} ::
      r in past && AsksSame(env, r, prefix, f) && s.settled <= n <= |s.rows|
      && body == UncachedBody(env, s.rows[..n], r)
  }

  // Every entry reachable now replays an earlier reply.
  ghost predicate Coherent(env: Env, s: Api, past: seq<Request>) {
    forall f, p {:trigger Canonical(f, p)} ::
      Validated(f) && IsPrefix(p) && CacheKey(env, f, p, s.namespace) in s.entries ==>
      Replays(env, s, past, p, f, s.entries[CacheKey(env, f, p, s.namespace)])
  }

  // No entry waits under a namespace still to come.
  ghost predicate NoLaterEntries(s: Api) {
    forall k, v: nat :: v > s.namespace ==> Versioned(k, v) !in s.entries
  }

  ghost predicate Inv(env: Env, s: Api, past: seq<Request>) {
    IsTable(s.rows) && s.settled <= |s.rows| && s.namespace < TWO64 && NoLaterEntries(s) && Coherent(env, s, past)
  }

  ghost predicate WellFormed(env: Env, req: Request) {
    FilterFor(env, req).Some? ==> Validated(FilterFor(env, req).value)
  }

  lemma ListIsWellFormed(env: Env, q: Params)
    ensures WellFormed(env, List(q))
  {
    hide Accepted, FilterOf, Validated;
    if Accepted(q, env.parse) {
      AcceptedIsValidated(q, env.parse);
    }
  }

  // Search requests are when ParseNL parsed them.
  lemma SearchIsWellFormed(env: Env, q: Params, m: Search.Found, parsed: Search.ParsedQuery)
    requires Search.SeedCodes(env.codeToName) && Search.ParseResult(m, env.codeToName, parsed)
    ensures WellFormed(env, Search(q, parsed))
  {
    hide Search.ParseResult, Search.SearchFilter, Validated;
    if FilterFor(env, Search(q, parsed)).Some? {
      Search.SearchIsValidated(m, env.codeToName, parsed, q);
    }
  }

  // Requests that meet in one cache slot ask the same endpoint for the same normal form in the same namespace,
  // and have the same answer on every table exactly when their thresholds agree or they select nothing.
  lemma KeyMeansFilter(env: Env, f: ListFilter, p: string, g: ListFilter, q: string, m: nat, n: nat)
    requires CollisionFree(env.digest) && Validated(f) && Validated(g) && IsPrefix(p) && IsPrefix(q)
    requires CacheKey(env, f, p, m) == CacheKey(env, g, q, n)
    ensures m == n && p == q && NormalFormOf(f) == NormalFormOf(g)
    ensures (forall rows :: IsTable(rows) ==> AnswerOf(rows, f) == AnswerOf(rows, g)) <==>
            SameThresholds(f, g) || SelectsNothing(f)
  {
    hide NormalFormOf, AnswerOf, Canonical, Versioned, Validated, SelectsNothing, SameThresholds;
    VersionedInjective(env.digest(Canonical(f, p)), m, env.digest(Canonical(g, q)), n);
    KeyIdentity(f, p, g, q);
    SharedKeySameAnswerIff(f, g);
  }

  // A step that leaves the namespace alone, at most appends rows, and stores nothing new.
  lemma QuietKeepsInv(env: Env, s: Api, t: Api, past: seq<Request>, req: Request)
    requires Inv(env, s, past) && IsTable(t.rows) && s.rows <= t.rows
    requires t.settled == s.settled && t.namespace == s.namespace
    requires forall k :: k in t.entries ==> k in s.entries && t.entries[k] == s.entries[k]
    ensures Inv(env, t, past + [req])
  {
    hide Canonical, Versioned, Validated, Replays, IsTable;
    forall f, p | Validated(f) && IsPrefix(p) && CacheKey(env, f, p, t.namespace) in t.entries
      ensures Replays(env, t, past + [req], p, f, t.entries[CacheKey(env, f, p, t.namespace)])
    {
      ReplaysLater(env, s, t, past, req, p, f, t.entries[CacheKey(env, f, p, t.namespace)]);
    }
  }

  lemma ReplaysLater(env: Env, s: Api, t: Api, past: seq<Request>, req: Request, p: string, f: ListFilter, body: Body)
    requires Replays(env, s, past, p, f, body) && s.rows <= t.rows && t.settled == s.settled
    ensures Replays(env, t, past + [req], p, f, body)
  {
    hide FilterFor, NormalFormOf, Fresh;
    var r, n :| r in past && AsksSame(env, r, p, f) && s.settled <= n <= |s.rows|
                && body == UncachedBody(env, s.rows[..n], r);
    assert t.rows[..n] == s.rows[..n] && r in past + [req];
  }

  lemma ServeKeepsInv(env: Env, s: Api, past: seq<Request>, req: Request)
    requires CollisionFree(env.digest) && Inv(env, s, past) && WellFormed(env, req) && FilterFor(env, req).Some?
    ensures Inv(env, Step(env, s, req).0, past + [req])
  {
    hide Canonical, LinksOf, AnswerOf, Versioned, Validated, Replays, IsTable, Coherent, FilterFor;
    var (f, prefix) := (FilterFor(env, req).value, PrefixOf(req));
    var key := CacheKey(env, f, prefix, s.namespace);
    ReadStep(env, s, req);
    QuietKeepsInv(env, s, s, past, req);
    if key !in s.entries {
      NewEntryKeepsInv(env, s, past, req);
    }
  }

  // A read request is served through its endpoint's key.
  lemma ReadStep(env: Env, s: Api, req: Request)
    requires FilterFor(env, req).Some?
    ensures Step(env, s, req) == Serve(env, s, PrefixOf(req), PathOf(req), QueryOf(req), FilterFor(env, req).value)
  {
    hide Serve;
  }

  lemma NewEntryKeepsInv(env: Env, s: Api, past: seq<Request>, req: Request)
    requires CollisionFree(env.digest) && Inv(env, s, past + [req]) && WellFormed(env, req) && FilterFor(env, req).Some?
    ensures var key := CacheKey(env, FilterFor(env, req).value, PrefixOf(req), s.namespace);
            Inv(env, s.(entries := s.entries[key := UncachedBody(env, s.rows, req)]), past + [req])
  {
    hide Canonical, UncachedBody, Versioned, Validated, Replays, IsTable, FilterFor, NormalFormOf, AnswerOf,
      SelectsNothing, SameThresholds;
    var (f, prefix) := (FilterFor(env, req).value, PrefixOf(req));
    var key := CacheKey(env, f, prefix, s.namespace);
    var t := s.(entries := s.entries[key := UncachedBody(env, s.rows, req)]);
    forall k, v: nat | v > s.namespace
      ensures Versioned(k, v) !in t.entries
    {
      if Versioned(k, v) == key {
        VersionedInjective(k, v, env.digest(Canonical(f, prefix)), s.namespace);
      }
    }
    forall g, p | Validated(g) && IsPrefix(p) && CacheKey(env, g, p, t.namespace) in t.entries
      ensures Replays(env, t, past + [req], p, g, t.entries[CacheKey(env, g, p, t.namespace)])
    {
      if CacheKey(env, g, p, t.namespace) == key {
        KeyMeansFilter(env, g, p, f, prefix, t.namespace, s.namespace);
        NewEntryReplays(env, t, past + [req], req, g);
      } else {
        SameRowsReplay(env, s, t, past + [req], p, g, s.entries[CacheKey(env, g, p, s.namespace)]);
      }
    }
  }

  lemma NewEntryReplays(env: Env, t: Api, past: seq<Request>, req: Request, g: ListFilter)
    requires req in past && AsksSame(env, req, PrefixOf(req), g) && t.settled <= |t.rows|
    ensures Replays(env, t, past, PrefixOf(req), g, UncachedBody(env, t.rows, req))
  {
    hide AsksSame, UncachedBody;
    assert t.rows[..|t.rows|] == t.rows;
  }

  lemma SameRowsReplay(env: Env, s: Api, t: Api, past: seq<Request>, p: string, f: ListFilter, body: Body)
    requires Replays(env, s, past, p, f, body) && s.rows == t.rows && t.settled == s.settled
    ensures Replays(env, t, past, p, f, body)
  {
    hide AsksSame, UncachedBody;
  }

  // After a bump nothing is reachable.
  lemma BumpKeepsInv(env: Env, s: Api, past: seq<Request>, rows: seq<Profile>)
    requires NoLaterEntries(s) && IsTable(rows) && s.namespace + 1 < TWO64
    ensures Inv(env, Bumped(s, rows), past)
  {
    hide Canonical, Versioned, Validated, Replays;
    var t := Bumped(s, rows);
    assert t.namespace == s.namespace + 1;
    forall f, p | Validated(f) && IsPrefix(p)
      ensures CacheKey(env, f, p, t.namespace) !in t.entries
    {
      assert Versioned(env.digest(Canonical(f, p)), t.namespace) !in s.entries;
    }
  }

  lemma ImportKeepsInv(env: Env, s: Api, past: seq<Request>, req: Request, check: Import.Validator,
                       recs: seq<Import.Record>, flushing: Import.Flushing)
    requires Inv(env, s, past) && s.namespace + 1 < TWO64 && Import.Sound(check)
    ensures Inv(env, ImportStep(s, check, recs, flushing).0, past + [req])
  {
    hide Coherent, IsTable, Import.ImportOf;
    var r := Import.ImportOf(s.rows, check, recs, flushing);
    Import.ImportKeepsTable(s.rows, check, recs, flushing);
    if r.outcome.Completed? && r.outcome.summary.inserted > 0 {
      BumpKeepsInv(env, s, past + [req], r.rows);
    } else {
      QuietKeepsInv(env, s, s.(rows := r.rows), past, req);
    }
  }

  lemma StepKeepsInv(env: Env, s: Api, past: seq<Request>, req: Request)
    requires CollisionFree(env.digest) && Inv(env, s, past) && s.namespace + 1 < TWO64 && WellFormed(env, req)
    ensures Inv(env, Step(env, s, req).0, past + [req])
    ensures Step(env, s, req).0.namespace <= s.namespace + 1
  {
    hide AnswerOf, Canonical, Versioned, FilterOf, Import.ImportOf, Import.HeaderIndex, Import.RowChecks, Coherent;
    if FilterFor(env, req).Some? {
      ServeKeepsInv(env, s, past, req);
    } else {
      WriteKeepsInv(env, s, past, req);
    }
  }

  lemma WriteKeepsInv(env: Env, s: Api, past: seq<Request>, req: Request)
    requires Inv(env, s, past) && s.namespace + 1 < TWO64 && FilterFor(env, req).None?
    ensures Inv(env, Step(env, s, req).0, past + [req])
  {
    hide Import.ImportOf, Import.HeaderIndex, Import.RowChecks, Coherent;
    QuietKeepsInv(env, s, s, past, req);
    match req
    case Create(p) =>
      if !Conflicts(s.rows, p) {
        assert IsTable(s.rows + [p]);
        BumpKeepsInv(env, s, past + [req], s.rows + [p]);
      }
    case Delete(id) =>
      WithoutIdKeepsTable(s.rows, id);
      BumpKeepsInv(env, s, past + [req], WithoutId(s.rows, id));
    case Import(header, recs, flushing) =>
      if header.Some? {
        Import.RowChecksSound(Import.Context(Import.HeaderIndex(header.value), env.codeToName, env.parse));
        ImportKeepsInv(env, s, past, req, ChecksFor(env, header.value), recs, flushing);
      }
    case Vanish(keys) => QuietKeepsInv(env, s, s.(entries := s.entries - keys), past, req);
    case _ =>
  }

  // The state after a run of requests.
  function After(env: Env, s: Api, reqs: seq<Request>): Api {
    if reqs == [] then s else Step(env, After(env, s, reqs[..|reqs| - 1]), reqs[|reqs| - 1]).0
  }

  lemma {:induction false} RunKeepsInv(env: Env, rows: seq<Profile>, reqs: seq<Request>)
    requires CollisionFree(env.digest) && IsTable(rows) && 1 + |reqs| < TWO64
    requires forall r :: r in reqs ==> WellFormed(env, r)
    ensures Inv(env, After(env, Boot(rows), reqs), reqs) && After(env, Boot(rows), reqs).namespace <= 1 + |reqs|
  {
    hide WellFormed, Step, Replays;
    if reqs != [] {
      hide Inv;
      var before := reqs[..|reqs| - 1];
      assert reqs == before + [reqs[|reqs| - 1]];
      RunKeepsInv(env, rows, before);
      StepKeepsInv(env, After(env, Boot(rows), before), before, reqs[|reqs| - 1]);
    }
  }

  // The main result, with no hypothesis on the requests' thresholds: in any run, with entries free to vanish at
  // any time, whatever is hit is a replay. It is what an uncached server would send for some earlier request of
  // the run to the same endpoint with the same normal form, on the table as it was since the last bump.
  lemma HitsAreReplays(env: Env, rows: seq<Profile>, reqs: seq<Request>, req: Request)
    requires CollisionFree(env.digest) && IsTable(rows) && 1 + |reqs| < TWO64 && WellFormed(env, req)
    requires forall r :: r in reqs ==> WellFormed(env, r)
    ensures var s := After(env, Boot(rows), reqs);
            var reply := Step(env, s, req).1;
            reply.Hit? ==>
              FilterFor(env, req).Some? &&
              Replays(env, s, reqs, PrefixOf(req), FilterFor(env, req).value, reply.body)
  {
    hide AnswerOf, Canonical, Versioned, FilterFor, Replays, After, Step, LinksOf, Validated, IsTable;
    RunKeepsInv(env, rows, reqs);
    var s := After(env, Boot(rows), reqs);
    if Step(env, s, req).1.Hit? {
      OnlyReadsHit(env, s, req);
      ReadStep(env, s, req);
      var (f, p) := (FilterFor(env, req).value, PrefixOf(req));
      assert Step(env, s, req).1 == Hit(s.entries[CacheKey(env, f, p, s.namespace)]);
    }
  }

  lemma OnlyReadsHit(env: Env, s: Api, req: Request)
    requires Step(env, s, req).1.Hit?
    ensures FilterFor(env, req).Some?
  {
    hide FilterFor, Import.ImportOf, Import.HeaderIndex, Import.RowChecks;
  }

  // Rows appended to a table change a filter's answer exactly when one of them matches.
  lemma AppendedRowsChangeAnswerIff(rows: seq<Profile>, more: seq<Profile>, f: ListFilter)
    ensures AnswerOf(rows + more, f) == AnswerOf(rows, f) <==> forall p :: p in more ==> !Matches(f, p)
  {
    hide Matches, PageData, Ordering.SortBy;
    var order := RowOrder(SortColumn(f.sortBy), Descending(f.order));
    MatchingAppend(rows, more, f);
    MatchingIsFilter(more, f);
    Ordering.SortPermutes(Matching(rows, f), order);
    Ordering.SortPermutes(Matching(rows + more, f), order);
    if p :| p in more && Matches(f, p) {
      assert p in Matching(more, f);
      assert |AllMatching(rows + more, f)| > |AllMatching(rows, f)|;
    } else {
      NothingMatches(more, f);
      assert Matching(rows, f) + [] == Matching(rows, f);
      SameRowsSameAnswer(rows + more, rows, f);
    }
  }

  // And deleting a row changes it exactly when that row matched.
  lemma DeletedRowChangesAnswerIff(rows: seq<Profile>, id: string, f: ListFilter)
    ensures AnswerOf(WithoutId(rows, id), f) == AnswerOf(rows, f) <==>
            forall p :: p in rows && p.id == id ==> !Matches(f, p)
  {
    hide Matches, PageData, Ordering.SortBy;
    var order := RowOrder(SortColumn(f.sortBy), Descending(f.order));
    MatchingWithout(rows, id, f);
    Ordering.SortPermutes(Matching(rows, f), order);
    Ordering.SortPermutes(Matching(WithoutId(rows, id), f), order);
    if forall p :: p in rows && p.id == id ==> !Matches(f, p) {
      SameRowsSameAnswer(WithoutId(rows, id), rows, f);
    }
  }

  lemma {:induction false} MatchingWithout(rows: seq<Profile>, id: string, f: ListFilter)
    ensures |Matching(WithoutId(rows, id), f)| <= |Matching(rows, f)|
    ensures (forall p :: p in rows && p.id == id ==> !Matches(f, p)) ==>
              Matching(WithoutId(rows, id), f) == Matching(rows, f)
    ensures (exists p :: p in rows && p.id == id && Matches(f, p)) ==>
              |Matching(WithoutId(rows, id), f)| < |Matching(rows, f)|
  {
    if rows != [] {
      hide Matches;
      var (first, tail) := (rows[0], rows[1..]);
      MatchingWithout(tail, id, f);
      assert rows == [first] + tail;
      var head := if first.id == id then [] else [first];
      assert WithoutId(rows, id) == head + WithoutId(tail, id);
      MatchingAppend(head, WithoutId(tail, id), f);
      assert [first][1..] == [] && Matching([], f) == [];
    }
  }

  lemma SameRowsSameAnswer(a: seq<Profile>, b: seq<Profile>, f: ListFilter)
    requires AllMatching(a, f) == AllMatching(b, f)
    ensures AnswerOf(a, f) == AnswerOf(b, f)
  {
    hide AllMatching;
  }

  lemma {:induction false} MatchingAppend(rows: seq<Profile>, more: seq<Profile>, f: ListFilter)
    ensures Matching(rows + more, f) == Matching(rows, f) + Matching(more, f)
  {
    if rows == [] {
      assert rows + more == more;
    } else {
      assert (rows + more)[1..] == rows[1..] + more;
      MatchingAppend(rows[1..], more, f);
    }
  }

  // What a replay is worth to the one who gets it: when the earlier request had the same thresholds, the answer
  // is the current one exactly when no row committed since matches, and the links are then the requester's own
  // exactly when the two requests agree on all parameters but page and limit.
  lemma ReplayIsFreshIff(env: Env, s: Api, past: seq<Request>, req: Request, body: Body) returns (r: Request, n: nat)
    requires FilterFor(env, req).Some? && (forall e :: e in past + [req] ==> WellFormed(env, e))
    requires Replays(env, s, past, PrefixOf(req), FilterFor(env, req).value, body)
    ensures r in past && s.settled <= n <= |s.rows| && AsksSame(env, r, PrefixOf(req), FilterFor(env, req).value)
    ensures body == UncachedBody(env, s.rows[..n], r)
    ensures var f := FilterFor(env, req).value;
            SameThresholds(FilterFor(env, r).value, f) ==>
              && (body.answer == AnswerOf(s.rows, f) <==> forall p :: p in s.rows[n..] ==> !Matches(f, p))
              && (body.answer == AnswerOf(s.rows, f) ==>
                    (body.links == UncachedBody(env, s.rows, req).links <==>
                     OwnParams(QueryOf(r)) == OwnParams(QueryOf(req))))
  {
    hide AnswerOf, FilterFor, Validated, LinksFor, NormalFormOf, Matches;
    var f := FilterFor(env, req).value;
    r, n :| r in past && AsksSame(env, r, PrefixOf(req), f) && s.settled <= n <= |s.rows|
            && body == UncachedBody(env, s.rows[..n], r);
    var g := FilterFor(env, r).value;
    assert r in past + [req] && req in past + [req];
    if SameThresholds(g, f) {
      SameAnswer(s.rows[..n], g, f);
      AppendedRowsChangeAnswerIff(s.rows[..n], s.rows[n..], f);
      assert s.rows[..n] + s.rows[n..] == s.rows;
      AnswerShows(s.rows[..n], g);
      AnswerShows(s.rows[..n], f);
      AnswerShows(s.rows, f);
      LinksAgreeIff(PathOf(req), QueryOf(r), QueryOf(req), f.page, f.limit, AnswerOf(s.rows, f).totalPages);
    }
  }

  lemma AnswerShows(rows: seq<Profile>, f: ListFilter)
    ensures AnswerOf(rows, f).page == f.page && AnswerOf(rows, f).limit == f.limit
  {
    hide AllMatching, PageData;
  }

  // So a hit carries the page, limit, total, total_pages and data that an uncached query would give now, as long
  // as the run's requests for the same key agree on the thresholds beyond the printed decimals, and no row that
  // was committed without a bump since the last bump matches.
  lemma HitsAreFresh(env: Env, rows: seq<Profile>, reqs: seq<Request>, req: Request)
    requires CollisionFree(env.digest) && IsTable(rows) && 1 + |reqs| < TWO64
    requires forall r :: r in reqs + [req] ==> WellFormed(env, r)
    requires var s := After(env, Boot(rows), reqs);
             Step(env, s, req).1.Hit? && FilterFor(env, req).Some? &&
             var f := FilterFor(env, req).value;
             && (forall r :: r in reqs && AsksSame(env, r, PrefixOf(req), f) ==>
                   SameThresholds(FilterFor(env, r).value, f))
             && (forall p :: p in Unsettled(s) ==> !Matches(f, p))
    ensures var s := After(env, Boot(rows), reqs);
            Step(env, s, req).1.body.answer == AnswerOf(s.rows, FilterFor(env, req).value)
  {
    hide After, Step, AnswerOf, Matches, FilterFor, WellFormed, AsksSame, UncachedBody, Replays, SameThresholds;
    var s := After(env, Boot(rows), reqs);
    assert req in reqs + [req] && forall r :: r in reqs ==> r in reqs + [req];
    HitsAreReplays(env, rows, reqs, req);
    var r, n := ReplayIsFreshIff(env, s, reqs, req, Step(env, s, req).1.body);
    assert forall p :: p in s.rows[n..] ==> p in Unsettled(s);
  }

  // ----- what every reply carries -------------------------------------------------------------------------------

  // An accepted read is answered at once: from the cache, or with exactly what an uncached server sends.
  lemma ReadReply(env: Env, s: Api, req: Request)
    requires FilterFor(env, req).Some?
    ensures var (t, reply) := Step(env, s, req);
            && (reply.Hit? || (reply.Miss? && reply.body == UncachedBody(env, s.rows, req)))
            && t.rows == s.rows && t.settled == s.settled && t.namespace == s.namespace
  {
    hide FilterFor, Fresh;
    ReadStep(env, s, req);
  }

  // Which requests are answered: list requests whose every parameter is acceptable, and search requests with a text
  // that was understood and acceptable paging and sorting.
  lemma AnsweredIff(env: Env, s: Api, req: Request)
    ensures var reply := Step(env, s, req).1;
            reply.Hit? || reply.Miss? <==>
            || (req.List? && SelectionAccepted(req.query, env.parse) && SortAccepted(req.query)
                && PagingAccepted(req.query))
            || (req.Search? && TrimSpace(Get(req.query, "q")) != "" && req.parsed.matched
                && SortAccepted(req.query) && PagingAccepted(req.query))
  {
    if FilterFor(env, req).Some? {
      ReadReply(env, s, req);
    } else {
      OthersAreNotAnswered(env, s, req);
    }
    hide Step, FilterOf, SelectionAccepted, SortAccepted, PagingAccepted, TrimSpace;
  }

  lemma OthersAreNotAnswered(env: Env, s: Api, req: Request)
    requires FilterFor(env, req).None?
    ensures !Step(env, s, req).1.Hit? && !Step(env, s, req).1.Miss?
    ensures req.List? || req.Search? ==> Step(env, s, req) == (s, Refused)
  {
    hide Import.ImportOf, Import.HeaderIndex, Import.RowChecks, FilterOf, Accepted;
  }

  // What an answer says: the page and limit asked for, the number of matching rows, as many pages as they fill, and
  // the rows of that page.
  ghost predicate Shows(a: Answer, rows: seq<Profile>, f: ListFilter)
    requires f.page >= 1 && f.limit >= 1
  {
    && a.page == f.page && a.limit == f.limit
    && a.total == |set p | p in rows && Matches(f, p)|
    && (a.total == 0 <==> a.totalPages == 0) && a.total <= a.totalPages * a.limit
    && (a.total > 0 ==> (a.totalPages - 1) * a.limit < a.total)
    && (OffsetFits(f) && a.total <= MAX_INT ==> a.data == Cut(AllMatching(rows, f), f.page, f.limit))
  }

  // That is what an uncached query answers.
  lemma QueriesShow(rows: seq<Profile>, f: ListFilter)
    requires IsTable(rows) && f.page >= 1 && f.limit >= 1
    ensures Shows(AnswerOf(rows, f), rows, f)
  {
    TotalIsMatches(rows, f);
    AnswerCounts(rows, f);
    if OffsetFits(f) && |AllMatching(rows, f)| <= MAX_INT {
      CutWhenFits(rows, f);
    }
    hide AnswerOf, AllMatching, Cut, Matches, OffsetFits;
  }

  lemma CutWhenFits(rows: seq<Profile>, f: ListFilter)
    requires f.page >= 1 && f.limit >= 1 && OffsetFits(f) && |AllMatching(rows, f)| <= MAX_INT
    ensures PageData(rows, f) == Cut(AllMatching(rows, f), f.page, f.limit)
  {
    hide PageData, AllMatching, Cut, OffsetFits;
    PageIsCutIff(rows, f);
  }

  lemma AnswerCounts(rows: seq<Profile>, f: ListFilter)
    requires f.limit >= 1
    ensures AnswerOf(rows, f).page == f.page && AnswerOf(rows, f).limit == f.limit
    ensures AnswerOf(rows, f).data == PageData(rows, f)
    ensures var (total, t) := (AnswerOf(rows, f).total, AnswerOf(rows, f).totalPages);
            && total == |AllMatching(rows, f)| && (total == 0 <==> t == 0) && total <= t * f.limit
            && (total > 0 ==> (t - 1) * f.limit < total)
  {
    hide AllMatching, PageData;
    var total := |AllMatching(rows, f)|;
    DivisionBounds(total, f.limit, TotalPages(total, f.limit));
    TotalPagesIff(total, f.limit, 1);
  }

  // The main result on replies, hit or miss, on both endpoints: in any run whose requests for the key agree on the
  // thresholds, as long as no row committed without a bump matches, an accepted read is answered with the page,
  // limit, total, total_pages and data of the table as it is now, and with links made for a request of the same kind,
  // its own when it is a miss.
  lemma RepliesShow(env: Env, rows: seq<Profile>, reqs: seq<Request>, req: Request) returns (r: Request)
    requires CollisionFree(env.digest) && IsTable(rows) && 1 + |reqs| < TWO64
    requires forall e :: e in reqs + [req] ==> WellFormed(env, e)
    requires var s := After(env, Boot(rows), reqs);
             FilterFor(env, req).Some? &&
             var f := FilterFor(env, req).value;
             && (forall e :: e in reqs && AsksSame(env, e, PrefixOf(req), f) ==>
                   SameThresholds(FilterFor(env, e).value, f))
             && (forall p :: p in Unsettled(s) ==> !Matches(f, p))
    ensures var s := After(env, Boot(rows), reqs);
            var (f, reply) := (FilterFor(env, req).value, Step(env, s, req).1);
            && (reply.Hit? || reply.Miss?) && f.page >= 1 && f.limit >= 1 && Shows(reply.body.answer, s.rows, f)
            && r in reqs + [req] && AsksSame(env, r, PrefixOf(req), f) && (reply.Miss? ==> r == req)
            && reply.body.links ==
               LinksFor(PathOf(req), QueryOf(r), f.page, f.limit, reply.body.answer.totalPages)
  {
    hide After, Step, AnswerOf, Matches, FilterFor, WellFormed, UncachedBody, Replays, SameThresholds, LinksFor, Shows,
      NormalFormOf, IsTable;
    var s := After(env, Boot(rows), reqs);
    var (f, reply) := (FilterFor(env, req).value, Step(env, s, req).1);
    assert req in reqs + [req] && forall e :: e in reqs ==> e in reqs + [req];
    ReadReply(env, s, req);
    RunKeepsInv(env, rows, reqs);
    TableOf(env, s, reqs);
    ReadIsValidated(env, req);
    QueriesShow(s.rows, f);
    UncachedBodyIs(env, s.rows, req);
    r := req;
    if reply.Hit? {
      HitsAreFresh(env, rows, reqs, req);
      HitsAreReplays(env, rows, reqs, req);
      var n;
      r, n := ReplayIsFreshIff(env, s, reqs, req, reply.body);
      ReplayedLinks(env, s, r, n, req);
    }
  }

  lemma TableOf(env: Env, s: Api, reqs: seq<Request>)
    requires Inv(env, s, reqs)
    ensures IsTable(s.rows)
  {
    hide Coherent, NoLaterEntries, IsTable;
  }

  lemma ReadIsValidated(env: Env, req: Request)
    requires FilterFor(env, req).Some? && WellFormed(env, req)
    ensures FilterFor(env, req).value.page >= 1 && FilterFor(env, req).value.limit >= 1
  {
    hide FilterFor;
  }

  lemma UncachedBodyIs(env: Env, rows: seq<Profile>, req: Request)
    requires FilterFor(env, req).Some?
    ensures var (f, body) := (FilterFor(env, req).value, UncachedBody(env, rows, req));
            && body.answer == AnswerOf(rows, f)
            && body.links == LinksFor(PathOf(req), QueryOf(req), f.page, f.limit, body.answer.totalPages)
  {
    hide FilterFor, AnswerOf, LinksFor;
  }

  // A replay's links are made for the page its requester asked for, on the endpoint's own path.
  lemma ReplayedLinks(env: Env, s: Api, r: Request, n: nat, req: Request)
    requires n <= |s.rows| && FilterFor(env, req).Some? && WellFormed(env, r) && WellFormed(env, req)
    requires AsksSame(env, r, PrefixOf(req), FilterFor(env, req).value)
    ensures var (f, body) := (FilterFor(env, req).value, UncachedBody(env, s.rows[..n], r));
            body.links == LinksFor(PathOf(req), QueryOf(r), f.page, f.limit, body.answer.totalPages)
  {
    var (f, g) := (FilterFor(env, req).value, FilterFor(env, r).value);
    assert IsRead(r) && IsRead(req) by {
      hide FilterOf, Accepted;
    }
    SamePaging(f, g);
    hide FilterFor, AnswerOf, LinksFor, NormalFormOf;
  }

  predicate IsRead(r: Request) {
    r.List? || r.Search?
  }

  // Where a link leads: the endpoint its path names. A search reads its text anew, parsed as it was.
  function Route(link: Link, parsed: Search.ParsedQuery): Option<Request> {
    if link.path == "/api/profiles" then Some(List(link.params))
    else if link.path == "/api/profiles/search" then Some(Search(link.params, parsed))
    else None
  }

  // Some matching row comes after those of the pages up to f's.
  predicate MoreAfter(rows: seq<Profile>, f: ListFilter) {
    f.page * f.limit < |AllMatching(rows, f)|
  }

  // Following the next link of an uncached reply asks the same endpoint for the same filter at the next page, on
  // both endpoints.
  lemma NextLinkAsksOn(env: Env, rows: seq<Profile>, req: Request, parsed: Search.ParsedQuery)
    requires FilterFor(env, req).Some? && WellFormed(env, req) && (req.Search? ==> req.parsed == parsed)
    requires |AllMatching(rows, FilterFor(env, req).value)| <= MAX_INT
    ensures var (f, next) := (FilterFor(env, req).value, UncachedBody(env, rows, req).links.next);
            && (next.Some? <==> MoreAfter(rows, f))
            && (next.Some? ==> LeadsTo(env, next.value, parsed, PrefixOf(req), f.(page := f.page + 1)))
  {
    hide MoreAfter, UncachedBody, FilterFor, AnswerOf, LinkParams, AllMatching, WellFormed, LeadsTo, PathOf, QueryOf,
      PrefixOf, Validated;
    var f := FilterFor(env, req).value;
    ReadIsValidated(env, req);
    UncachedBodyIs(env, rows, req);
    HasNextIff(rows, f);
    if f.page < AnswerOf(rows, f).totalPages {
      PageLinkLeads(env, req, parsed, f.page + 1);
    }
  }

  lemma HasNextIff(rows: seq<Profile>, f: ListFilter)
    requires f.page >= 1 && f.limit >= 1 && |AllMatching(rows, f)| <= MAX_INT
    ensures f.page < AnswerOf(rows, f).totalPages <==> MoreAfter(rows, f)
    ensures AnswerOf(rows, f).totalPages <= MAX_INT
  {
    hide AllMatching, PageData, TotalPages;
    TotalPagesIff(|AllMatching(rows, f)|, f.limit, f.page);
    PagesFitInInt(|AllMatching(rows, f)|, f.limit);
  }

  // The link is routed to an endpoint that reads it as a request for the filter.
  ghost predicate LeadsTo(env: Env, link: Link, parsed: Search.ParsedQuery, prefix: string, f: ListFilter) {
    var req := Route(link, parsed);
    req.Some? && PrefixOf(req.value) == prefix && FilterFor(env, req.value) == Some(f)
  }

  lemma PageLinkLeads(env: Env, req: Request, parsed: Search.ParsedQuery, page: int)
    requires FilterFor(env, req).Some? && WellFormed(env, req) && (req.Search? ==> req.parsed == parsed)
    requires 1 <= page <= MAX_INT
    ensures var f := FilterFor(env, req).value;
            LeadsTo(env, Link(PathOf(req), LinkParams(QueryOf(req), page, f.limit)), parsed, PrefixOf(req),
                    f.(page := page))
  {
    NextIsRead(env, req, page);
    assert IsRead(req) by {
      hide FilterOf, Accepted;
    }
    hide FilterFor, LinkParams;
  }

  lemma NextIsRead(env: Env, req: Request, page: int)
    requires FilterFor(env, req).Some? && WellFormed(env, req) && 1 <= page <= MAX_INT
    ensures var (f, q) := (FilterFor(env, req).value, LinkParams(QueryOf(req), page, FilterFor(env, req).value.limit));
            && (req.List? ==> FilterFor(env, List(q)) == Some(f.(page := page)))
            && (req.Search? ==> FilterFor(env, Search(q, req.parsed)) == Some(f.(page := page)))
  {
    hide LinkParams, Accepted, FilterOf, Search.SearchFilter, Validated, Arg;
    var f := FilterFor(env, req).value;
    if req.List? {
      LinkReparses(req.query, env.parse, page);
    } else {
      Search.SearchLinkReparses(req.parsed, req.query, page);
    }
  }

  // ----- what writes do ---------------------------------------------------------------------------------------

  // A create is written exactly when no row has the name, in whatever case, and nothing else stands in the way; the
  // table then has one row more, and a new namespace.
  lemma CreateReply(env: Env, s: Api, p: Profile)
    ensures var (t, reply) := Step(env, s, Create(p));
            var taken := exists i :: 0 <= i < |s.rows| && SameUpToCase(s.rows[i].name, p.name);
            && (reply == Written || reply == Refused)
            && (reply == Written <==> !taken && Storable(p) && !IdIn(s.rows, p.id))
            && (reply == Written ==> t.rows == s.rows + [p] && t.namespace == (s.namespace + 1) % TWO64
                                     && t.settled == |t.rows| && t.entries == s.entries)
            && (reply == Refused ==> t == s)
  {
    forall i | 0 <= i < |s.rows|
      ensures ToLower(s.rows[i].name) == ToLower(p.name) <==> SameUpToCase(s.rows[i].name, p.name)
      ensures s.rows[i].name == p.name ==> SameUpToCase(s.rows[i].name, p.name)
    {
      FoldedAlikeIff(s.rows[i].name, p.name);
    }
    hide ToLower, SameUpToCase, Storable;
  }

  // A delete is written exactly when a row has the id; then just that row is gone.
  lemma DeleteReply(env: Env, s: Api, id: string)
    requires IsTable(s.rows)
    ensures var (t, reply) := Step(env, s, Delete(id));
            && (reply == Written || reply == Refused)
            && (reply == Written <==> exists p :: p in s.rows && p.id == id)
            && (forall p :: p in t.rows <==> p in s.rows && p.id != id)
            && (reply == Written ==> t.namespace == (s.namespace + 1) % TWO64 && t.settled == |t.rows|)
            && (reply == Refused ==> t == s)
  {
    WithoutIdKeepsTable(s.rows, id);
    assert IdIn(s.rows, id) <==> exists p :: p in s.rows && p.id == id;
    hide WithoutId, IsTable;
  }

  predicate HasRequired(header: seq<string>) {
    forall col :: col in Import.REQUIRED ==>
      exists i :: 0 <= i < |header| && ToLower(TrimSpace(header[i])) == col
  }

  lemma HasRequiredIff(header: seq<string>)
    ensures Import.REQUIRED <= Import.HeaderIndex(header).Keys <==> HasRequired(header)
  {
    forall col
      ensures col in Import.HeaderIndex(header) <==>
              exists i :: 0 <= i < |header| && ToLower(TrimSpace(header[i])) == col
    {
      Import.IndexedColumnsExist(header, col);
    }
    hide ToLower, TrimSpace, Import.HeaderIndex;
  }

  // An import is refused at once without the required columns. Otherwise it leaves the table its rows make, is
  // answered as written exactly when it completes, and opens a new namespace exactly when it then has added rows.
  lemma ImportReply(env: Env, s: Api, header: Option<seq<string>>, recs: seq<Import.Record>, flushing: Import.Flushing)
    ensures var (t, reply) := Step(env, s, Import(header, recs, flushing));
            && (header.None? || !HasRequired(header.value) ==> (t, reply) == (s, Refused))
            && (header.Some? && HasRequired(header.value) ==>
                  var r := Import.ImportOf(s.rows, ChecksFor(env, header.value), recs, flushing);
                  && t.rows == r.rows && t.entries == s.entries
                  && (reply == Written <==> r.outcome.Completed?) && (reply == Refused <==> !r.outcome.Completed?)
                  && t.namespace == (if r.outcome.Completed? && |r.rows| > |s.rows| then (s.namespace + 1) % TWO64
                                     else s.namespace))
  {
    hide HasRequired, Import.ImportOf, Import.HeaderIndex, Import.RowChecks, ChecksFor, ImportStep;
    if header.Some? {
      HasRequiredIff(header.value);
      ImportedReply(s, ChecksFor(env, header.value), recs, flushing);
    }
  }

  lemma ImportedReply(s: Api, check: Import.Validator, recs: seq<Import.Record>, flushing: Import.Flushing)
    ensures var (t, reply) := ImportStep(s, check, recs, flushing);
            var r := Import.ImportOf(s.rows, check, recs, flushing);
            && t.rows == r.rows && t.entries == s.entries
            && reply == (if r.outcome.Completed? then Written else Refused)
            && t.namespace == (if r.outcome.Completed? && |r.rows| > |s.rows| then (s.namespace + 1) % TWO64
                               else s.namespace)
  {
    InsertedIsGrowth(s.rows, check, recs, flushing);
    hide Import.ImportOf;
  }

  lemma InsertedIsGrowth(rows: seq<Profile>, check: Import.Validator, recs: seq<Import.Record>,
                         flushing: Import.Flushing)
    ensures var r := Import.ImportOf(rows, check, recs, flushing);
            r.outcome.Completed? ==> r.outcome.summary.inserted == |r.rows| - |rows|
  {
    hide Import.ImportOf;
    if Import.ImportOf(rows, check, recs, flushing).outcome.Completed? {
      Import.InsertedCount(rows, check, recs, flushing);
    }
  }

  // Rows stay unsettled only after an import that stopped early; every other request that changes the table
  // settles all of it.
  lemma OnlyEarlyExitsUnsettle(env: Env, s: Api, req: Request)
    ensures var (t, reply) := Step(env, s, req);
            || t.settled == |t.rows|
            || (t.settled == s.settled && t.rows == s.rows)
            || (t.settled == s.settled && s.rows <= t.rows && t.namespace == s.namespace && t.entries == s.entries
                && req.Import? && reply == Refused)
  {
    hide AnswerOf, Canonical, FilterFor, Import.ImportOf, Import.HeaderIndex, Import.RowChecks;
    if req.Import? && req.header.Some? {
      var check := ChecksFor(env, req.header.value);
      Import.ImportAppends(s.rows, check, req.recs, req.flushing);
      var outcome := Import.ImportOf(s.rows, check, req.recs, req.flushing).outcome;
      if outcome.Completed? && outcome.summary.inserted == 0 {
        Import.NothingInserted(s.rows, check, req.recs, req.flushing);
      }
    }
  }

  // Every refused request of the run committed nothing: no import stopped early after a flushed chunk.
  ghost predicate RefusalsCommitNothing(env: Env, s: Api, reqs: seq<Request>) {
    reqs == [] ||
    (var before := After(env, s, reqs[..|reqs| - 1]);
     var (after, reply) := Step(env, before, reqs[|reqs| - 1]);
     RefusalsCommitNothing(env, s, reqs[..|reqs| - 1]) && (reply == Refused ==> after.rows == before.rows))
  }

  lemma {:induction false} CleanRunsStaySettled(env: Env, s: Api, reqs: seq<Request>)
    requires s.settled == |s.rows| && RefusalsCommitNothing(env, s, reqs)
    ensures After(env, s, reqs).settled == |After(env, s, reqs).rows|
  {
    if reqs != [] {
      hide Step;
      var before := After(env, s, reqs[..|reqs| - 1]);
      CleanRunsStaySettled(env, s, reqs[..|reqs| - 1]);
      OnlyEarlyExitsUnsettle(env, before, reqs[|reqs| - 1]);
    }
  }

  // So in a run where refused requests commit nothing, and whose thresholds their own printed decimals give
  // back, every hit is fresh.
  lemma CleanRunsAreFresh(env: Env, rows: seq<Profile>, reqs: seq<Request>, req: Request)
    requires CollisionFree(env.digest) && IsTable(rows) && 1 + |reqs| < TWO64
    requires forall r :: r in reqs + [req] ==> WellFormed(env, r)
    requires forall r :: r in reqs + [req] && FilterFor(env, r).Some? ==> ReadsBack(env.parse, FilterFor(env, r).value)
    requires RefusalsCommitNothing(env, Boot(rows), reqs)
    ensures var s := After(env, Boot(rows), reqs);
            Step(env, s, req).1.Hit? ==>
              FilterFor(env, req).Some? &&
              Step(env, s, req).1.body.answer == AnswerOf(s.rows, FilterFor(env, req).value)
  {
    hide After, Step, RefusalsCommitNothing, WellFormed, AnswerOf, FilterFor, Matches, ReadsBack,
      SameThresholds, NormalFormOf;
    var s := After(env, Boot(rows), reqs);
    CleanRunsStaySettled(env, Boot(rows), reqs);
    if Step(env, s, req).1.Hit? {
      OnlyReadsHit(env, s, req);
      var f := FilterFor(env, req).value;
      assert req in reqs + [req];
      forall r | r in reqs && AsksSame(env, r, PrefixOf(req), f)
        ensures SameThresholds(FilterFor(env, r).value, f)
      {
        assert r in reqs + [req];
        ReadBackSuffices(env.parse, FilterFor(env, r).value, f);
      }
      HitsAreFresh(env, rows, reqs, req);
    }
  }

  // Exactly when an import that stops early leaves a stale answer: a list that was just cached is still served
  // afterwards, and is fresh if and only if none of the rows the import committed matches it.
  lemma EarlyExitStaleIff(env: Env, s: Api, q: Params, header: seq<string>, recs: seq<Import.Record>,
                          flushing: Import.Flushing)
    requires Step(env, s, List(q)).1.Miss? && Import.REQUIRED <= Import.HeaderIndex(header).Keys
    requires !Import.ImportOf(s.rows, ChecksFor(env, header), recs, flushing).outcome.Completed?
    ensures var s1 := Step(env, s, List(q)).0;
            var (s2, refused) := Step(env, s1, Import(Some(header), recs, flushing));
            var again := Step(env, s2, List(q)).1;
            && refused == Refused && s.rows <= s2.rows && again.Hit? && Accepted(q, env.parse)
            && (again.body.answer == AnswerOf(s2.rows, FilterOf(q, env.parse)) <==>
                forall p :: p in s2.rows[|s.rows|..] ==> !Matches(FilterOf(q, env.parse), p))
  {
    hide AnswerOf, Canonical, Versioned, LinksOf, FilterOf, Accepted, Matches, Import.ImportOf, Import.HeaderIndex,
      Import.RowChecks;
    var f := FilterOf(q, env.parse);
    var s1 := Step(env, s, List(q)).0;
    Import.ImportAppends(s.rows, ChecksFor(env, header), recs, flushing);
    var s2 := Step(env, s1, Import(Some(header), recs, flushing)).0;
    assert s1.entries[CacheKey(env, f, "list", s.namespace)] == Fresh(s.rows, LIST_PATH, q, f);
    assert s2.entries == s1.entries && s2.namespace == s.namespace;
    assert s.rows + s2.rows[|s.rows|..] == s2.rows;
    AppendedRowsChangeAnswerIff(s.rows, s2.rows[|s.rows|..], f);
  }

  // Such imports exist: any upload with more than 500 valid rows whose second flush fails commits its first
  // chunk, so a list that was empty before and matches the first row stays empty for as long as the entry lives.
  lemma SecondFlushFailureIsStale(env: Env, q: Params, header: seq<string>, recs: seq<Import.Record>)
    requires Accepted(q, env.parse) && Import.REQUIRED <= Import.HeaderIndex(header).Keys
    requires |recs| <= Import.MAX_ROWS && |Import.ValidRows(ChecksFor(env, header), recs)| > Import.CHUNK
    requires var p := Import.ValidRows(ChecksFor(env, header), recs)[0];
             Storable(p) && Matches(FilterOf(q, env.parse), p)
    ensures var s := Boot([]);
            var s1 := Step(env, s, List(q)).0;
            var s2 := Step(env, s1, Import(Some(header), recs, FAIL_SECOND)).0;
            Step(env, s2, List(q)).1.Hit? &&
            Step(env, s2, List(q)).1.body.answer.total == 0 < AnswerOf(s2.rows, FilterOf(q, env.parse)).total
  {
    hide Canonical, FilterOf, Accepted, Import.HeaderIndex, Import.RowChecks, Import.ImportOf, PageData, LinksOf,
      Matches;
    var (s, f, check) := (Boot([]), FilterOf(q, env.parse), ChecksFor(env, header));
    var s1 := Step(env, s, List(q)).0;
    var v := Import.ValidRows(check, recs);
    var rows := InsertAll([], v[..Import.CHUNK]);
    Import.SecondFlushFails([], check, recs, FAIL_SECOND);
    Import.FirstNewRowStays([], v[..Import.CHUNK]);
    NoRowsNoMatches(f);
    assert rows[0] == v[0];
    SomeRowMatches(rows, f, v[0]);
    assert s1 == s.(entries := map[CacheKey(env, f, "list", 1) := Fresh([], LIST_PATH, q, f)]);
  }

  const FAIL_SECOND: Import.Flushing := Import.Flushing(Import.CHUNK, k => if k == 1 then Some(0) else None)

  lemma NoRowsNoMatches(f: ListFilter)
    ensures AllMatching([], f) == []
  {
  }

  lemma SomeRowMatches(rows: seq<Profile>, f: ListFilter, p: Profile)
    requires p in rows && Matches(f, p)
    ensures |AllMatching(rows, f)| > 0
  {
    hide Matches;
    MatchingIsFilter(rows, f);
    Ordering.SortPermutes(Matching(rows, f), RowOrder(SortColumn(f.sortBy), Descending(f.order)));
    assert p in AllMatching(rows, f);
  }

  // ----- links -------------------------------------------------------------------------------------------

  // Links made for the same page agree exactly when the two requests agree on all parameters but page and limit.
  lemma LinksAgreeIff(path: string, q: Params, r: Params, page: int, limit: int, totalPages: int)
    ensures LinksFor(path, q, page, limit, totalPages) == LinksFor(path, r, page, limit, totalPages) <==>
            OwnParams(q) == OwnParams(r)
  {
    var (a, b) := (LinkParams(q, page, limit), LinkParams(r, page, limit));
    if a == b {
      forall key
        ensures key in OwnParams(q) <==> key in OwnParams(r)
        ensures key in OwnParams(q) ==> OwnParams(q)[key] == OwnParams(r)[key]
      {
        assert key != "page" && key != "limit" ==> (key in a <==> key in b) && (key in a ==> a[key] == b[key]);
      }
      assert OwnParams(q) == OwnParams(r);
    }
  }

  // Links are not part of freshness. A list that misses fills the entry, another list with the same filter hits
  // it and gets a fresh answer; the links it gets are its own exactly when the two requests agree on all
  // parameters but page and limit.
  lemma HitShowsFillersLinks(env: Env, s: Api, q: Params, r: Params)
    requires Step(env, s, List(q)).1.Miss?
    requires FilterFor(env, List(r)) == FilterFor(env, List(q))
    ensures FilterFor(env, List(r)).Some?
    ensures var reply := Step(env, Step(env, s, List(q)).0, List(r)).1;
            var own := UncachedBody(env, s.rows, List(r));
            && reply.Hit? && reply.body.answer == own.answer
            && (reply.body.links == own.links <==> OwnParams(q) == OwnParams(r))
  {
    hide AnswerOf, Canonical, Versioned, LinksFor, FilterFor;
    var f := FilterFor(env, List(q)).value;
    ReadStep(env, s, List(q));
    var s1 := Step(env, s, List(q)).0;
    ReadStep(env, s1, List(r));
    LinksAgreeIff(LIST_PATH, q, r, f.page, f.limit, AnswerOf(s.rows, f).totalPages);
  }

  lemma ForeignArgsKept(q: Params)
    ensures forall key :: key != "utm_source" ==> Arg(q["utm_source" := ["mail"]], key) == Arg(q, key)
  {
  }

  lemma ForeignParamKeepsFilter(q: Params, parse: FloatParser)
    requires Accepted(q, parse)
    ensures var r := q["utm_source" := ["mail"]]; Accepted(r, parse) && FilterOf(r, parse) == FilterOf(q, parse)
  {
    hide Arg, ToLower, ToUpper, Atoi, AtLeast, TextsAccepted, AgeAccepted, ProbAccepted, AgeOf, ProbOf,
      IsSortColumn, IsOrder;
    ForeignArgsKept(q);
  }

  // A parameter the server does not know is such a difference: whoever adds one to a list just cached gets the
  // cached answer with links that drop it.
  lemma ForeignParamGetsForeignLinks(env: Env, s: Api, q: Params)
    requires Step(env, s, List(q)).1.Miss? && "utm_source" !in q
    ensures var r := q["utm_source" := ["mail"]];
            var reply := Step(env, Step(env, s, List(q)).0, List(r)).1;
            && reply.Hit? && FilterFor(env, List(r)).Some?
            && reply.body.answer == UncachedBody(env, s.rows, List(r)).answer
            && reply.body.links != UncachedBody(env, s.rows, List(r)).links
  {
    hide Accepted, FilterOf, Serve, UncachedBody;
    var r := q["utm_source" := ["mail"]];
    ForeignParamKeepsFilter(q, env.parse);
    HitShowsFillersLinks(env, s, q, r);
    assert "utm_source" in OwnParams(r) && "utm_source" !in OwnParams(q);
  }
}
