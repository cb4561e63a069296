// The sliding-window rate limiter and the two-stage limiter in front of the auth endpoints (middleware.go).
// The pruned list of hits answers exactly as the full log of accepted requests would.
module RateLimit {
  import opened Text

  // ----- one decision ------------------------------------------------------------------------------------

  // The hits from the first one after the cutoff on.
  function Prune(hits: seq<int>, cutoff: int): seq<int> {
    if hits == [] || hits[0] > cutoff then hits else Prune(hits[1..], cutoff)
  }

  function HitsOf(hits: map<string, seq<int>>, key: string): seq<int> {
    if key in hits then hits[key] else []
  }

  datatype Limiter = Limiter(hits: map<string, seq<int>>, limit: nat, window: int)

  function Decide(l: Limiter, key: string, now: int): bool {
    |Prune(HitsOf(l.hits, key), now - l.window)| < l.limit
  }

  function AfterRequest(l: Limiter, key: string, now: int): Limiter {
    var kept := Prune(HitsOf(l.hits, key), now - l.window);
    l.(hits := l.hits[key := if Decide(l, key, now) then kept + [now] else kept])
  }

  class RateLimiter {
    var hits: map<string, seq<int>>
    const limit: nat
    const window: int

    ghost function State(): Limiter
      reads this
    {
      Limiter(hits, limit, window)
    }

    constructor (limit: nat, window: int)
      ensures State() == Limiter(map[], limit, window)
    {
      hits := map[];
      this.limit, this.window := limit, window;
    }

    // now is the clock reading taken under the lock.
    method Allow(key: string, now: int) returns (ok: bool)
      modifies this
      ensures ok == Decide(old(State()), key, now)
      ensures State() == AfterRequest(old(State()), key, now)
    {
      var cutoff := now - window;
      var h := HitsOf(hits, key);
      var i := 0;
      while i < |h| && h[i] <= cutoff
        invariant 0 <= i <= |h|
        invariant Prune(h, cutoff) == Prune(h[i..], cutoff)
      {
        assert h[i..][1..] == h[i + 1..];
        i := i + 1;
      }
      h := h[i..];
      if |h| >= limit {
        hits := hits[key := h];
        return false;
      }
      h := h + [now];
      hits := hits[key := h];
      return true;
    }
  }

  // ----- the full log --------------------------------------------------------------------------------------

  datatype Request = Request(key: string, now: int)

  function Run(l: Limiter, reqs: seq<Request>): Limiter {
    if reqs == [] then l
    else
      var last := reqs[|reqs| - 1];
      AfterRequest(Run(l, reqs[..|reqs| - 1]), last.key, last.now)
  }

  // Every accepted request of a key, never pruned.
  function Log(l: Limiter, reqs: seq<Request>, key: string): seq<int> {
    if reqs == [] then []
    else
      var (before, last) := (reqs[..|reqs| - 1], reqs[|reqs| - 1]);
      Log(l, before, key) + if last.key == key && Decide(Run(l, before), key, last.now) then [last.now] else []
  }

  // How many times lie in the half-open interval (low, high].
  function CountIn(times: seq<int>, low: int, high: int): nat {
    if times == [] then 0
    else CountIn(times[..|times| - 1], low, high) + if low < times[|times| - 1] <= high then 1 else 0
  }

  ghost predicate Nondecreasing(reqs: seq<Request>) {
    forall i, j :: 0 <= i < j < |reqs| ==> reqs[i].now <= reqs[j].now
  }

  ghost predicate SortedTimes(s: seq<int>) {
    forall i, j :: 0 <= i < j < |s| ==> s[i] <= s[j]
  }

  // kept is log without some prefix, all of it at or before the cutoff.
  ghost predicate KeptSuffix(log: seq<int>, kept: seq<int>, cutoff: int) {
    |kept| <= |log| && kept == log[|log| - |kept|..] && forall i :: 0 <= i < |log| - |kept| ==> log[i] <= cutoff
  }

  lemma {:induction false} PruneDropsOld(hits: seq<int>, cutoff: int)
    requires SortedTimes(hits)
    ensures KeptSuffix(hits, Prune(hits, cutoff), cutoff)
    ensures forall i :: 0 <= i < |Prune(hits, cutoff)| ==> Prune(hits, cutoff)[i] > cutoff
  {
    if hits != [] && hits[0] <= cutoff {
      PruneDropsOld(hits[1..], cutoff);
      assert hits == [hits[0]] + hits[1..];
    }
  }

  lemma {:induction false} CountAppend(a: seq<int>, b: seq<int>, low: int, high: int)
    ensures CountIn(a + b, low, high) == CountIn(a, low, high) + CountIn(b, low, high)
  {
    if b == [] {
      assert a + b == a;
    } else {
      assert (a + b)[..|a + b| - 1] == a + b[..|b| - 1];
      CountAppend(a, b[..|b| - 1], low, high);
    }
  }

  lemma {:induction false} CountNone(s: seq<int>, low: int, high: int)
    requires forall i :: 0 <= i < |s| ==> s[i] <= low
    ensures CountIn(s, low, high) == 0
  {
    if s != [] {
      CountNone(s[..|s| - 1], low, high);
    }
  }

  lemma {:induction false} CountAll(s: seq<int>, low: int, high: int)
    ensures CountIn(s, low, high) <= |s|
    ensures (forall i :: 0 <= i < |s| ==> low < s[i] <= high) ==> CountIn(s, low, high) == |s|
  {
    if s != [] {
      CountAll(s[..|s| - 1], low, high);
    }
  }

  // Members `limit` places apart lie at least a window apart.
  ghost predicate Spaced(log: seq<int>, limit: nat, window: int) {
    forall i :: limit <= i < |log| ==> log[i - limit] <= log[i] - window
  }

  // What is true of a key's log and kept hits at a moment: the kept hits are a suffix of the sorted log, what
  // was pruned is older than the window, and the log is spaced.
  ghost predicate Sound(log: seq<int>, kept: seq<int>, limit: nat, window: int, asOf: int) {
    && SortedTimes(log) && Spaced(log, limit, window) && (limit == 0 ==> log == [])
    && (forall i :: 0 <= i < |log| ==> log[i] <= asOf)
    && KeptSuffix(log, kept, asOf - window)
  }

  lemma PruneSuffix(log: seq<int>, kept: seq<int>, cutoff: int)
    requires SortedTimes(log) && KeptSuffix(log, kept, cutoff)
    ensures KeptSuffix(log, Prune(kept, cutoff), cutoff)
    ensures forall i :: 0 <= i < |Prune(kept, cutoff)| ==> Prune(kept, cutoff)[i] > cutoff
  {
    PruneDropsOld(kept, cutoff);
    var p := Prune(kept, cutoff);
    assert kept[|kept| - |p|..] == log[|log| - |p|..];
    forall i | 0 <= i < |log| - |p|
      ensures log[i] <= cutoff
    {
      if i >= |log| - |kept| {
        assert log[i] == kept[i - (|log| - |kept|)];
      }
    }
  }

  // Pruning the kept hits leaves exactly the members of the whole log inside the window.
  lemma DecisionCountsLog(log: seq<int>, kept: seq<int>, window: int, now: int)
    requires SortedTimes(log) && KeptSuffix(log, kept, now - window)
    requires forall i :: 0 <= i < |log| ==> log[i] <= now
    ensures |Prune(kept, now - window)| == CountIn(log, now - window, now)
  {
    hide CountIn, Prune;
    PruneSuffix(log, kept, now - window);
    var p := Prune(kept, now - window);
    var gone := log[..|log| - |p|];
    assert log == gone + p;
    CountAppend(gone, p, now - window, now);
    CountNone(gone, now - window, now);
    CountAll(p, now - window, now);
  }

  lemma SoundStep(log: seq<int>, kept: seq<int>, limit: nat, window: int, now: int)
    requires Sound(log, kept, limit, window, now)
    ensures var p := Prune(kept, now - window);
            if |p| < limit then Sound(log + [now], p + [now], limit, window, now)
            else Sound(log, p, limit, window, now)
  {
    hide Prune;
    PruneSuffix(log, kept, now - window);
    var p := Prune(kept, now - window);
    if |p| < limit {
      var (log', p') := (log + [now], p + [now]);
      assert p' == log'[|log'| - |p'|..];
      forall i | limit <= i < |log'|
        ensures log'[i - limit] <= log'[i] - window
      {
        if i == |log| {
          assert i - limit < |log| - |p|;
        }
      }
    }
  }

  lemma {:induction false} RunKeepsLimits(l: Limiter, reqs: seq<Request>)
    ensures Run(l, reqs).limit == l.limit && Run(l, reqs).window == l.window
  {
    if reqs != [] {
      RunKeepsLimits(l, reqs[..|reqs| - 1]);
    }
  }

  ghost predicate Past(reqs: seq<Request>, now: int) {
    forall i :: 0 <= i < |reqs| ==> reqs[i].now <= now
  }

  lemma SoundLater(log: seq<int>, kept: seq<int>, limit: nat, window: int, asOf: int, later: int)
    requires Sound(log, kept, limit, window, asOf) && asOf <= later
    ensures Sound(log, kept, limit, window, later)
  {
    hide Spaced;
  }

  lemma LogStep(l: Limiter, reqs: seq<Request>, last: Request, key: string)
    ensures Log(l, reqs + [last], key) ==
            Log(l, reqs, key) + if last.key == key && Decide(Run(l, reqs), key, last.now) then [last.now] else []
    ensures Run(l, reqs + [last]) == AfterRequest(Run(l, reqs), last.key, last.now)
  {
    assert (reqs + [last])[..|reqs|] == reqs;
  }

  lemma ClockPrefix(reqs: seq<Request>, asOf: int)
    requires Nondecreasing(reqs) && Past(reqs, asOf) && reqs != []
    ensures Nondecreasing(reqs[..|reqs| - 1]) && Past(reqs[..|reqs| - 1], reqs[|reqs| - 1].now)
    ensures reqs[|reqs| - 1].now <= asOf
  {
  }

  // One request's effect on one key's log and kept hits.
  lemma SoundAfterRequest(l: Limiter, mid: Limiter, log: seq<int>, last: Request, key: string)
    requires mid.limit == l.limit && mid.window == l.window
    requires Sound(log, HitsOf(mid.hits, key), l.limit, l.window, last.now)
    ensures var more := if last.key == key && Decide(mid, key, last.now) then [last.now] else [];
            Sound(log + more, HitsOf(AfterRequest(mid, last.key, last.now).hits, key), l.limit, l.window, last.now)
  {
    hide Sound, Prune;
    assert log + [] == log;
    if last.key == key {
      SoundStep(log, HitsOf(mid.hits, key), l.limit, l.window, last.now);
    }
  }

  // After any run with a clock that never goes back, every key is sound, at the last reading or later.
  lemma {:induction false} RunIsSound(l: Limiter, reqs: seq<Request>, key: string, asOf: int)
    requires l.hits == map[] && Nondecreasing(reqs) && Past(reqs, asOf)
    ensures Sound(Log(l, reqs, key), HitsOf(Run(l, reqs).hits, key), l.limit, l.window, asOf)
  {
    if reqs != [] {
      ClockPrefix(reqs, asOf);
      hide Sound, Nondecreasing, Past, Run, Log, Decide, AfterRequest;
      var (before, last) := (reqs[..|reqs| - 1], reqs[|reqs| - 1]);
      assert reqs == before + [last];
      RunIsSound(l, before, key, last.now);
      RunKeepsLimits(l, before);
      LogStep(l, before, last, key);
      SoundAfterRequest(l, Run(l, before), Log(l, before, key), last, key);
      SoundLater(Log(l, reqs, key), HitsOf(Run(l, reqs).hits, key), l.limit, l.window, last.now, asOf);
    }
  }

  // Main result, one decision at a time: a request is accepted exactly when fewer than limit requests of its
  // key were accepted in the window before it, counted in the full log.
  lemma DecisionsCountTheLog(l: Limiter, reqs: seq<Request>, key: string, now: int)
    requires l.hits == map[] && Nondecreasing(reqs) && Past(reqs, now)
    ensures Decide(Run(l, reqs), key, now) <==> CountIn(Log(l, reqs, key), now - l.window, now) < l.limit
  {
    hide Run, Log, Prune, CountIn, Spaced, KeptSuffix;
    RunIsSound(l, reqs, key, now);
    RunKeepsLimits(l, reqs);
    DecisionCountsLog(Log(l, reqs, key), HitsOf(Run(l, reqs).hits, key), l.window, now);
  }

  // The same without counting: the request accepted limit places back, if there was one, is a window old by now.
  lemma DecisionByPlace(l: Limiter, reqs: seq<Request>, key: string, now: int)
    requires l.hits == map[] && Nondecreasing(reqs) && Past(reqs, now)
    ensures var log := Log(l, reqs, key);
            Decide(Run(l, reqs), key, now) <==>
            l.limit > 0 && (|log| >= l.limit ==> log[|log| - l.limit] <= now - l.window)
  {
    hide Run, Log, Prune, Spaced, Nondecreasing, Past;
    RunIsSound(l, reqs, key, now);
    RunKeepsLimits(l, reqs);
    var (log, kept) := (Log(l, reqs, key), HitsOf(Run(l, reqs).hits, key));
    PruneSuffix(log, kept, now - l.window);
  }

  lemma CountOne(x: int, low: int, high: int)
    ensures CountIn([x], low, high) == if low < x <= high then 1 else 0
  {
    assert [x][..0] == [];
  }

  lemma SpacedPrefix(log: seq<int>, limit: nat, window: int)
    requires SortedTimes(log) && Spaced(log, limit, window) && log != []
    ensures SortedTimes(log[..|log| - 1]) && Spaced(log[..|log| - 1], limit, window)
  {
  }

  // When the newest member is in the window, the one limit places before it no longer is.
  lemma NewestInWindow(log: seq<int>, limit: nat, window: int, t: int)
    requires SortedTimes(log) && Spaced(log, limit, window) && |log| > limit > 0
    requires t - window < log[|log| - 1] <= t
    ensures CountIn(log, t - window, t) <= limit
  {
    hide CountIn;
    var (far, near) := (log[..|log| - limit], log[|log| - limit..]);
    assert log == far + near;
    assert log[|log| - 1 - limit] <= log[|log| - 1] - window;
    CountAppend(far, near, t - window, t);
    CountNone(far, t - window, t);
    CountAll(near, t - window, t);
  }

  lemma {:induction false} SpacedCount(log: seq<int>, limit: nat, window: int, t: int)
    requires SortedTimes(log) && Spaced(log, limit, window) && (limit == 0 ==> log == [])
    ensures CountIn(log, t - window, t) <= limit
  {
    CountAll(log, t - window, t);
    if |log| > limit {
      hide Spaced, SortedTimes, CountIn;
      var (n, init) := (|log|, log[..|log| - 1]);
      if t - window < log[n - 1] <= t {
        NewestInWindow(log, limit, window, t);
      } else {
        assert log == init + [log[n - 1]];
        CountGrows(init, log[n - 1], t - window, t);
        SpacedPrefix(log, limit, window);
        SpacedCount(init, limit, window, t);
      }
    }
  }

  // Main result over any run: whatever the moment t, at most limit requests of a key are accepted in
  // (t - window, t].
  lemma AtMostLimitInAnyWindow(l: Limiter, reqs: seq<Request>, key: string, t: int)
    requires l.hits == map[] && Nondecreasing(reqs)
    ensures CountIn(Log(l, reqs, key), t - l.window, t) <= l.limit
  {
    var asOf := if reqs == [] then 0 else reqs[|reqs| - 1].now;
    RunIsSound(l, reqs, key, asOf);
    SpacedCount(Log(l, reqs, key), l.limit, l.window, t);
  }

  // ----- the two-stage limiter of the auth endpoints ---------------------------------------------------------

  function PathKey(path: string): string {
    "path:" + path
  }

  function IpKey(ip: string, path: string): string {
    "ip:" + ip + "|" + path
  }

  // A request with the clock readings its two stages would take.
  datatype AuthRequest = AuthRequest(ip: string, path: string, first: int, second: int)

  datatype Verdict = Admitted | RefusedByPath | RefusedByIp

  function AuthStep(l: Limiter, r: AuthRequest): (Limiter, Verdict) {
    var mid := AfterRequest(l, PathKey(r.path), r.first);
    if !Decide(l, PathKey(r.path), r.first) then (mid, RefusedByPath)
    else
      (AfterRequest(mid, IpKey(r.ip, r.path), r.second),
       if Decide(mid, IpKey(r.ip, r.path), r.second) then Admitted else RefusedByIp)
  }

  method AuthRateLimit(limiter: RateLimiter, r: AuthRequest) returns (v: Verdict)
    modifies limiter
    ensures (limiter.State(), v) == AuthStep(old(limiter.State()), r)
  {
    var ok := limiter.Allow(PathKey(r.path), r.first);
    if !ok {
      return RefusedByPath;
    }
    ok := limiter.Allow(IpKey(r.ip, r.path), r.second);
    if !ok {
      return RefusedByIp;
    }
    return Admitted;
  }

  // The single-stage requests an auth run amounts to: a refused path stage takes no second step.
  function Flatten(l: Limiter, rs: seq<AuthRequest>): seq<Request> {
    if rs == [] then []
    else
      var (before, r) := (Flatten(l, rs[..|rs| - 1]), rs[|rs| - 1]);
      before + [Request(PathKey(r.path), r.first)]
      + if Decide(Run(l, before), PathKey(r.path), r.first) then [Request(IpKey(r.ip, r.path), r.second)] else []
  }

  function AuthRun(l: Limiter, rs: seq<AuthRequest>): Limiter {
    if rs == [] then l else AuthStep(AuthRun(l, rs[..|rs| - 1]), rs[|rs| - 1]).0
  }

  // The clock readings of admitted requests for a path.
  function AdmittedAt(l: Limiter, rs: seq<AuthRequest>, path: string): seq<int> {
    if rs == [] then []
    else
      var (before, r) := (rs[..|rs| - 1], rs[|rs| - 1]);
      AdmittedAt(l, before, path)
      + if r.path == path && AuthStep(AuthRun(l, before), r).1 == Admitted then [r.first] else []
  }

  // One clock for all readings, in order.
  ghost predicate Clocked(rs: seq<AuthRequest>) {
    && (forall i :: 0 <= i < |rs| ==> rs[i].first <= rs[i].second)
    && (forall i, j :: 0 <= i < j < |rs| ==> rs[i].second <= rs[j].first)
  }

  lemma {:induction false} FlattenRuns(l: Limiter, rs: seq<AuthRequest>)
    ensures Run(l, Flatten(l, rs)) == AuthRun(l, rs)
  {
    if rs != [] {
      var (before, r) := (rs[..|rs| - 1], rs[|rs| - 1]);
      FlattenRuns(l, before);
      var flat := Flatten(l, before);
      var one := flat + [Request(PathKey(r.path), r.first)];
      assert one[..|one| - 1] == flat;
      if Decide(Run(l, flat), PathKey(r.path), r.first) {
        var two := one + [Request(IpKey(r.ip, r.path), r.second)];
        assert two[..|two| - 1] == one;
      } else {
        assert one + [] == one;
      }
    }
  }

  lemma {:induction false} FlattenClocked(l: Limiter, rs: seq<AuthRequest>, now: int)
    requires Clocked(rs) && forall i :: 0 <= i < |rs| ==> rs[i].second <= now
    ensures Nondecreasing(Flatten(l, rs)) && Past(Flatten(l, rs), now)
  {
    if rs != [] {
      var (before, r) := (rs[..|rs| - 1], rs[|rs| - 1]);
      FlattenClocked(l, before, r.first);
    }
  }

  lemma KeysDiffer(path: string, ip: string, other: string)
    ensures PathKey(path) != IpKey(ip, other)
  {
    assert PathKey(path)[0] == 'p' && IpKey(ip, other)[0] == 'i';
  }

  lemma PathKeyInjective(a: string, b: string)
    requires PathKey(a) == PathKey(b)
    ensures a == b
  {
    assert a == PathKey(a)[5..] && b == PathKey(b)[5..];
  }

  // How a key's log grows by one auth request.
  lemma AuthLogStep(l: Limiter, before: seq<AuthRequest>, r: AuthRequest, key: string)
    ensures var flat := Flatten(l, before);
            var passed := Decide(Run(l, flat), PathKey(r.path), r.first);
            var mid := AfterRequest(Run(l, flat), PathKey(r.path), r.first);
            Log(l, Flatten(l, before + [r]), key) ==
            Log(l, flat, key)
            + (if passed && key == PathKey(r.path) then [r.first] else [])
            + (if passed && key == IpKey(r.ip, r.path) && Decide(mid, key, r.second) then [r.second] else [])
  {
    hide Decide, AfterRequest, PathKey, IpKey, Log, Run;
    assert (before + [r])[..|before|] == before;
    var flat := Flatten(l, before);
    var one := flat + [Request(PathKey(r.path), r.first)];
    LogStep(l, flat, Request(PathKey(r.path), r.first), key);
    LogStep(l, one, Request(IpKey(r.ip, r.path), r.second), key);
    assert one + [] == one;
    assert Log(l, one, key) + [] == Log(l, one, key) && Log(l, flat, key) + [] == Log(l, flat, key);
  }

  // Admitted requests for a path are among the requests its path stage accepted.
  lemma {:induction false} AdmittedWithinPathLog(l: Limiter, rs: seq<AuthRequest>, path: string, low: int, high: int)
    ensures CountIn(AdmittedAt(l, rs, path), low, high) <= CountIn(Log(l, Flatten(l, rs), PathKey(path)), low, high)
  {
    if rs != [] {
      var (before, r) := (rs[..|rs| - 1], rs[|rs| - 1]);
      assert rs == before + [r];
      AdmittedWithinPathLog(l, before, path, low, high);
      FlattenRuns(l, before);
      AuthLogStep(l, before, r, PathKey(path));
      hide CountIn, Decide, AfterRequest, PathKey, IpKey, Log, Run, Flatten;
      KeysDiffer(path, r.ip, r.path);
      if r.path != path && PathKey(r.path) == PathKey(path) {
        PathKeyInjective(r.path, path);
      }
      CountGrows(AdmittedAt(l, before, path), r.first, low, high);
      CountGrows(Log(l, Flatten(l, before), PathKey(path)), r.first, low, high);
    }
  }

  lemma CountGrows(s: seq<int>, x: int, low: int, high: int)
    ensures CountIn(s + [x], low, high) == CountIn(s, low, high) + if low < x <= high then 1 else 0
    ensures s + [] == s && s + [] + [] == s && s + [x] + [] == s + [x] && s + [] + [x] == s + [x]
  {
    CountAppend(s, [x], low, high);
    CountOne(x, low, high);
  }

  // Main result for the auth endpoints: whatever the source IPs, at most limit requests for a path are
  // admitted in any window.
  lemma AtMostLimitPerPath(l: Limiter, rs: seq<AuthRequest>, path: string, t: int)
    requires l.hits == map[] && Clocked(rs)
    ensures CountIn(AdmittedAt(l, rs, path), t - l.window, t) <= l.limit
  {
    hide Clocked, Nondecreasing, Log, CountIn, AdmittedAt, Flatten;
    FlatInOrder(l, rs);
    AdmittedWithinPathLog(l, rs, path, t - l.window, t);
    AtMostLimitInAnyWindow(l, Flatten(l, rs), PathKey(path), t);
  }

  lemma FlatInOrder(l: Limiter, rs: seq<AuthRequest>)
    requires Clocked(rs)
    ensures Nondecreasing(Flatten(l, rs))
  {
    if rs != [] {
      hide Flatten, Nondecreasing;
      FlattenClocked(l, rs, rs[|rs| - 1].second);
    }
  }

  // The auth routes are fixed paths without the separator the per-IP key uses.
  predicate PlainPath(path: string) {
    '|' !in path
  }

  lemma IpKeyReadable(ip: string, path: string, ip': string, path': string)
    requires IpKey(ip, path) == IpKey(ip', path') && PlainPath(path) && PlainPath(path')
    ensures ip == ip' && path == path'
  {
    SplitAtLast('|', "ip:" + ip, path, "ip:" + ip', path');
    assert ip == ("ip:" + ip)[3..] && ip' == ("ip:" + ip')[3..];
  }

  // A second reading in (low, high] by this source on this path goes with a first one in (pathLow, pathHigh].
  predicate ReadTogether(e: AuthRequest, ip: string, path: string, low: int, high: int, pathLow: int, pathHigh: int) {
    e.ip == ip && e.path == path && low < e.second <= high ==> pathLow < e.first <= pathHigh
  }

  lemma IpLogStep(l: Limiter, before: seq<AuthRequest>, r: AuthRequest, ip: string, path: string,
                  low: int, high: int, pathLow: int, pathHigh: int)
    requires PlainPath(path) && PlainPath(r.path) && ReadTogether(r, ip, path, low, high, pathLow, pathHigh)
    requires CountIn(Log(l, Flatten(l, before), IpKey(ip, path)), low, high) <=
             CountIn(Log(l, Flatten(l, before), PathKey(path)), pathLow, pathHigh)
    ensures CountIn(Log(l, Flatten(l, before + [r]), IpKey(ip, path)), low, high) <=
            CountIn(Log(l, Flatten(l, before + [r]), PathKey(path)), pathLow, pathHigh)
  {
    hide CountIn, Decide, AfterRequest, PathKey, IpKey, Log, Run, Flatten, PlainPath;
    AuthLogStep(l, before, r, IpKey(ip, path));
    AuthLogStep(l, before, r, PathKey(path));
    KeysDiffer(path, r.ip, r.path);
    KeysDiffer(r.path, ip, path);
    if IpKey(r.ip, r.path) == IpKey(ip, path) {
      IpKeyReadable(r.ip, r.path, ip, path);
    }
    CountGrows(Log(l, Flatten(l, before), IpKey(ip, path)), r.second, low, high);
    CountGrows(Log(l, Flatten(l, before), PathKey(path)), r.first, pathLow, pathHigh);
  }

  // Hits of one source on a path are among the path's own, also when the two are counted in different windows.
  lemma {:induction false} IpLogWithinPathLog(
      l: Limiter, rs: seq<AuthRequest>, ip: string, path: string, low: int, high: int, pathLow: int, pathHigh: int)
    requires PlainPath(path)
    requires forall e :: e in rs ==> PlainPath(e.path) && ReadTogether(e, ip, path, low, high, pathLow, pathHigh)
    ensures CountIn(Log(l, Flatten(l, rs), IpKey(ip, path)), low, high) <=
            CountIn(Log(l, Flatten(l, rs), PathKey(path)), pathLow, pathHigh)
  {
    if rs == [] {
      EmptyLogs(l, IpKey(ip, path));
    } else {
      hide CountIn, Log, Flatten, PathKey, IpKey, PlainPath, ReadTogether;
      var (before, r) := (rs[..|rs| - 1], rs[|rs| - 1]);
      assert rs == before + [r] && r in rs;
      IpLogWithinPathLog(l, before, ip, path, low, high, pathLow, pathHigh);
      IpLogStep(l, before, r, ip, path, low, high, pathLow, pathHigh);
    }
  }

  lemma EmptyLogs(l: Limiter, key: string)
    ensures Log(l, Flatten(l, []), key) == []
  {
  }

  // Both stages decide by counting in the full logs as they stand before the request, each at its own reading.
  lemma AuthDecisions(l: Limiter, rs: seq<AuthRequest>, r: AuthRequest)
    requires l.hits == map[] && Clocked(rs + [r])
    ensures var (s, pk, ik) := (AuthRun(l, rs), PathKey(r.path), IpKey(r.ip, r.path));
            && (Decide(s, pk, r.first) <==> CountIn(Log(l, Flatten(l, rs), pk), r.first - l.window, r.first) < l.limit)
            && (Decide(AfterRequest(s, pk, r.first), ik, r.second) <==>
                CountIn(Log(l, Flatten(l, rs), ik), r.second - l.window, r.second) < l.limit)
  {
    hide Nondecreasing, Past, Log, Run, CountIn, Decide, AfterRequest, PathKey, IpKey, Clocked, Flatten;
    var flat := Flatten(l, rs);
    var one := flat + [Request(PathKey(r.path), r.first)];
    ClockedPrefix(rs, r);
    FlatBeforeRequest(l, rs, r, Request(PathKey(r.path), r.first));
    FlattenRuns(l, rs);
    KeysDiffer(r.path, r.ip, r.path);
    DecisionsCountTheLog(l, flat, PathKey(r.path), r.first);
    DecisionsCountTheLog(l, one, IpKey(r.ip, r.path), r.second);
    LogStep(l, flat, Request(PathKey(r.path), r.first), IpKey(r.ip, r.path));
    assert Log(l, flat, IpKey(r.ip, r.path)) + [] == Log(l, flat, IpKey(r.ip, r.path));
  }

  lemma FlatBeforeRequest(l: Limiter, rs: seq<AuthRequest>, r: AuthRequest, next: Request)
    requires Clocked(rs) && (forall i :: 0 <= i < |rs| ==> rs[i].second <= r.first) && next.now == r.first <= r.second
    ensures var flat := Flatten(l, rs);
            Nondecreasing(flat) && Past(flat, r.first) && Nondecreasing(flat + [next]) && Past(flat + [next], r.second)
  {
    hide Flatten, Clocked;
    FlattenClocked(l, rs, r.first);
  }

  lemma ClockedPrefix(rs: seq<AuthRequest>, r: AuthRequest)
    requires Clocked(rs + [r])
    ensures Clocked(rs) && r.first <= r.second && forall i :: 0 <= i < |rs| ==> rs[i].second <= r.first
  {
    assert forall i :: 0 <= i < |rs| ==> (rs + [r])[i] == rs[i];
    assert (rs + [r])[|rs|] == r;
  }

  // When the per-IP stage refuses what the path stage let through: exactly when the path's log has room at the
  // first reading and the source's log is full at the second.
  lemma RefusedByIpIff(l: Limiter, rs: seq<AuthRequest>, r: AuthRequest)
    requires l.hits == map[] && Clocked(rs + [r])
    ensures AuthStep(AuthRun(l, rs), r).1 == RefusedByIp <==>
            && CountIn(Log(l, Flatten(l, rs), PathKey(r.path)), r.first - l.window, r.first) < l.limit
            && CountIn(Log(l, Flatten(l, rs), IpKey(r.ip, r.path)), r.second - l.window, r.second) >= l.limit
  {
    hide Log, AuthRun, CountIn, Decide, AfterRequest, PathKey, IpKey, Clocked, Flatten;
    AuthDecisions(l, rs, r);
  }

  // Who gets in: exactly those whose path's log has room at the first reading and whose source's log has room at the
  // second. The path refuses exactly when its log is full.
  lemma AdmittedIff(l: Limiter, rs: seq<AuthRequest>, r: AuthRequest)
    requires l.hits == map[] && Clocked(rs + [r])
    ensures var inPath := CountIn(Log(l, Flatten(l, rs), PathKey(r.path)), r.first - l.window, r.first);
            var inSource := CountIn(Log(l, Flatten(l, rs), IpKey(r.ip, r.path)), r.second - l.window, r.second);
            var verdict := AuthStep(AuthRun(l, rs), r).1;
            && (verdict == Admitted <==> inPath < l.limit && inSource < l.limit)
            && (verdict == RefusedByPath <==> inPath >= l.limit)
            && (verdict == RefusedByIp <==> inPath < l.limit && inSource >= l.limit)
  {
    hide Log, AuthRun, CountIn, Decide, AfterRequest, PathKey, IpKey, Clocked, Flatten;
    AuthDecisions(l, rs, r);
  }

  // So a fresh limiter lets everyone in until the limit: the requests before r were fewer than limit.
  lemma AdmittedBelowLimit(l: Limiter, rs: seq<AuthRequest>, r: AuthRequest)
    requires l.hits == map[] && Clocked(rs + [r]) && |rs| < l.limit
    ensures AuthStep(AuthRun(l, rs), r).1 == Admitted
  {
    hide AuthRun, AuthStep, CountIn, PathKey, IpKey, Clocked, Flatten, Log;
    AdmittedIff(l, rs, r);
    LogsNoLonger(l, rs, PathKey(r.path));
    LogsNoLonger(l, rs, IpKey(r.ip, r.path));
    CountAll(Log(l, Flatten(l, rs), PathKey(r.path)), r.first - l.window, r.first);
    CountAll(Log(l, Flatten(l, rs), IpKey(r.ip, r.path)), r.second - l.window, r.second);
  }

  // A request adds at most one hit to a key's log.
  lemma {:induction false} LogsNoLonger(l: Limiter, rs: seq<AuthRequest>, key: string)
    ensures |Log(l, Flatten(l, rs), key)| <= |rs|
  {
    if rs == [] {
      EmptyLogs(l, key);
    } else {
      hide Log, Flatten, PathKey, IpKey, Decide, AfterRequest, Run;
      var (before, r) := (rs[..|rs| - 1], rs[|rs| - 1]);
      assert rs == before + [r];
      LogsNoLonger(l, before, key);
      AuthLogStep(l, before, r, key);
      KeysDiffer(r.path, r.ip, r.path);
    }
  }

  // An earlier request of the same source and path that the path stage has forgotten by r's first reading, but
  // the per-IP stage still counts at r's second.
  predicate Straddles(e: AuthRequest, r: AuthRequest, window: int) {
    e.ip == r.ip && e.path == r.path && e.first <= r.first - window && e.second > r.second - window
  }

  // Only such a request can make the per-IP stage refuse.
  lemma OnlyStraddlersRefuse(l: Limiter, rs: seq<AuthRequest>, r: AuthRequest)
    requires l.hits == map[] && Clocked(rs + [r])
    requires forall e :: e in rs + [r] ==> PlainPath(e.path)
    requires forall e :: e in rs ==> !Straddles(e, r, l.window)
    ensures AuthStep(AuthRun(l, rs), r).1 != RefusedByIp
  {
    hide Log, AuthRun, CountIn, AuthStep, Flatten, PathKey, IpKey, PlainPath, Clocked;
    ClockedPrefix(rs, r);
    RefusedByIpIff(l, rs, r);
    assert r in rs + [r];
    forall e | e in rs
      ensures PlainPath(e.path)
      ensures ReadTogether(e, r.ip, r.path, r.second - l.window, r.second, r.first - l.window, r.first)
    {
      assert e in rs + [r] && !Straddles(e, r, l.window);
    }
    IpLogWithinPathLog(l, rs, r.ip, r.path, r.second - l.window, r.second, r.first - l.window, r.first);
  }

  // One clock reading serves both stages of every request.
  ghost predicate OneReading(rs: seq<AuthRequest>) {
    forall e :: e in rs ==> e.first == e.second && PlainPath(e.path)
  }

  // So with one reading per request, the per-IP stage never refuses what the path stage let through.
  lemma IpStageNeverRefuses(l: Limiter, rs: seq<AuthRequest>, r: AuthRequest)
    requires l.hits == map[] && Clocked(rs + [r]) && OneReading(rs + [r])
    ensures AuthStep(AuthRun(l, rs), r).1 != RefusedByIp
  {
    hide AuthStep, AuthRun, Clocked, PlainPath;
    assert r in rs + [r] && forall e :: e in rs ==> e in rs + [r];
    OnlyStraddlersRefuse(l, rs, r);
  }

  // ----- with two readings it can ------------------------------------------------------------------------------

  // One request whose readings fall on either side of a clock tick, and n more after the tick.
  function Burst(ip: string, path: string, n: nat): seq<AuthRequest> {
    if n == 0 then [AuthRequest(ip, path, 0, 1)] else Burst(ip, path, n - 1) + [AuthRequest(ip, path, 1, 1)]
  }

  function Ones(n: nat): seq<int> {
    seq(n, _ => 1)
  }

  lemma {:induction false} BurstMembers(ip: string, path: string, n: nat)
    ensures var rs := Burst(ip, path, n);
            |rs| == n + 1 && rs[0] == AuthRequest(ip, path, 0, 1) &&
            forall i :: 1 <= i <= n ==> rs[i] == AuthRequest(ip, path, 1, 1)
  {
    if n > 0 {
      BurstMembers(ip, path, n - 1);
    }
  }

  lemma BurstClocked(ip: string, path: string, n: nat, next: AuthRequest)
    requires 1 <= next.first <= next.second
    ensures Clocked(Burst(ip, path, n) + [next])
  {
    hide Burst;
    BurstMembers(ip, path, n);
  }

  lemma BurstFirst(l: Limiter, ip: string, path: string)
    requires l.hits == map[] && l.limit > 0
    ensures var flat := Flatten(l, Burst(ip, path, 0));
            Log(l, flat, PathKey(path)) == [0] + Ones(0) && Log(l, flat, IpKey(ip, path)) == Ones(1)
  {
    var r := AuthRequest(ip, path, 0, 1);
    assert Burst(ip, path, 0) == [] + [r] && [0] + Ones(0) == [] + [0] && Ones(1) == [] + [1] && Clocked([] + [r]);
    hide Log, PathKey, IpKey, Flatten, Burst, Clocked, Ones;
    EmptyLogs(l, PathKey(path));
    EmptyLogs(l, IpKey(ip, path));
    RoomInBothLogs(l, [], r);
  }

  lemma BurstNext(ip: string, path: string, n: nat)
    requires n > 0
    ensures Burst(ip, path, n) == Burst(ip, path, n - 1) + [AuthRequest(ip, path, 1, 1)]
    ensures [0] + Ones(n) == [0] + Ones(n - 1) + [1] && Ones(n + 1) == Ones(n) + [1]
  {
  }

  // Below the limit, a request is admitted whatever its readings, and logged at them.
  lemma RoomInBothLogs(l: Limiter, before: seq<AuthRequest>, r: AuthRequest)
    requires l.hits == map[] && Clocked(before + [r])
    requires |Log(l, Flatten(l, before), PathKey(r.path))| < l.limit
    requires |Log(l, Flatten(l, before), IpKey(r.ip, r.path))| < l.limit
    ensures var flat := Flatten(l, before + [r]);
            && Log(l, flat, PathKey(r.path)) == Log(l, Flatten(l, before), PathKey(r.path)) + [r.first]
            && Log(l, flat, IpKey(r.ip, r.path)) == Log(l, Flatten(l, before), IpKey(r.ip, r.path)) + [r.second]
  {
    hide Log, CountIn, Decide, AfterRequest, PathKey, IpKey, Clocked, Flatten, Run, AuthRun;
    var (pk, ik) := (PathKey(r.path), IpKey(r.ip, r.path));
    var (pl, il) := (Log(l, Flatten(l, before), pk), Log(l, Flatten(l, before), ik));
    CountAll(pl, r.first - l.window, r.first);
    CountAll(il, r.second - l.window, r.second);
    AuthDecisions(l, before, r);
    FlattenRuns(l, before);
    KeysDiffer(r.path, r.ip, r.path);
    AuthLogStep(l, before, r, pk);
    AuthLogStep(l, before, r, ik);
    CountGrows(pl, r.first, 0, 0);
    CountGrows(il, r.second, 0, 0);
  }

  // All of a burst of at most limit requests is admitted, and logged at its readings.
  lemma {:induction false} BurstLogs(l: Limiter, ip: string, path: string, n: nat)
    requires l.hits == map[] && n < l.limit
    ensures var flat := Flatten(l, Burst(ip, path, n));
            Log(l, flat, PathKey(path)) == [0] + Ones(n) && Log(l, flat, IpKey(ip, path)) == Ones(n + 1)
  {
    hide Log, PathKey, IpKey, Flatten, Burst, Clocked;
    if n == 0 {
      BurstFirst(l, ip, path);
    } else {
      var r := AuthRequest(ip, path, 1, 1);
      BurstNext(ip, path, n);
      BurstLogs(l, ip, path, n - 1);
      BurstClocked(ip, path, n - 1, r);
      RoomInBothLogs(l, Burst(ip, path, n - 1), r);
    }
  }

  // The two stages read the clock separately, and then it happens for every limit and window: a full window of
  // requests, the first of them read on either side of a tick, and one more request a window later. The path
  // stage has just forgotten the first hit, which the per-IP stage recorded a moment later and still counts.
  lemma SeparateReadingsCanRefuse(limit: nat, window: int, ip: string, path: string)
    requires limit >= 1 && window >= 1
    ensures var l := Limiter(map[], limit, window);
            var (rs, r) := (Burst(ip, path, limit - 1), AuthRequest(ip, path, window, window));
            Clocked(rs + [r]) && AuthStep(AuthRun(l, rs), r).1 == RefusedByIp
  {
    var l := Limiter(map[], limit, window);
    var r := AuthRequest(ip, path, window, window);
    hide Log, CountIn, PathKey, IpKey, Clocked, Flatten, Burst, AuthStep, AuthRun;
    BurstClocked(ip, path, limit - 1, r);
    BurstLogs(l, ip, path, limit - 1);
    RefusedByIpIff(l, Burst(ip, path, limit - 1), r);
    CountAppend([0], Ones(limit - 1), 0, window);
    CountOne(0, 0, window);
    CountAll(Ones(limit - 1), 0, window);
    CountAll(Ones(limit), 0, window);
  }
}
