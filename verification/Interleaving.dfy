// The cache under concurrency: a read is Get, the two queries of List, and Set, and a mutation is Write and Bump, each
// a step of its own, in any interleaving (cache.go, handlers.go, store.go). Which stale bodies can be reached, and
// which cannot.
module Interleaving {
  import opened Wrappers
  import opened Profiles
  import opened Normalize
  import opened Query
  import opened Cache
  import opened Server

  // A reader between its steps: after its Get missed, after List counted, and after List selected the page. The two
  // queries run without a transaction.
  datatype Reader =
    | Missed(f: ListFilter, prefix: string)
    | Counted(f: ListFilter, prefix: string, total: nat, countedAt: nat)
    | Selected(f: ListFilter, prefix: string, answer: Answer, countedAt: nat, selectedAt: nat)

  // A cached answer, with the filter it was computed for and the moments of its two queries and of its Set.
  datatype Entry = Entry(f: ListFilter, answer: Answer, countedAt: nat, selectedAt: nat, setAt: nat)

  // A committed change of the table; bumpedAt is None while its Bump is pending (forever, for the chunks of an
  // import that stops early).
  datatype Mutation = Mutation(writtenAt: nat, bumpedAt: Option<nat>)

  // clock numbers the steps. namespace counts bumps without wrapping.
  datatype State = State(
    clock: nat, rows: seq<Profile>, entries: map<string, Entry>, namespace: nat,
    readers: map<nat, Reader>, mutations: seq<Mutation>)

  datatype Event =
    | Get(reader: nat, f: ListFilter, prefix: string)
    | Count(reader: nat)
    | Select(reader: nat)
    | Set(reader: nat)
    | Write(rows: seq<Profile>)
    | Bump(settles: set<nat>)
    | Vanish(keys: set<string>)

  ghost predicate Enabled(env: Env, s: State, e: Event) {
    match e
    case Get(r, f, p) => r !in s.readers && Validated(f) && IsPrefix(p)
    case Count(r) => r in s.readers && s.readers[r].Missed?
    case Select(r) => r in s.readers && s.readers[r].Counted?
    case Set(r) => r in s.readers && s.readers[r].Selected?
    case Write(rows) => true
    case Bump(ms) => forall m :: m in ms ==> m < |s.mutations| && s.mutations[m].bumpedAt.None?
    case Vanish(_) => true
  }

  // The mutations after a bump at a moment that settles some of them, such as all the chunks of an import.
  function Settled(ms: seq<Mutation>, settles: set<nat>, at: nat): (r: seq<Mutation>)
    ensures |r| == |ms|
  {
    seq(|ms|, i requires 0 <= i < |ms| => if i in settles then ms[i].(bumpedAt := Some(at)) else ms[i])
  }

  // The answer made of a total and of the page another table gives.
  function AnswerWith(total: nat, rows: seq<Profile>, f: ListFilter): Answer {
    Answer(f.page, f.limit, total, if f.limit > 0 then TotalPages(total, f.limit) else 0, PageData(rows, f))
  }

  // The effect of a step. A Get that hits is done at once; Set files the answer under the namespace of the
  // moment it stores, not of the moment its reader missed.
  function Apply(env: Env, s: State, e: Event): State {
    var t := s.(clock := s.clock + 1);
    match e
    case Get(r, f, p) =>
      if CacheKey(env, f, p, s.namespace) in s.entries then t else t.(readers := s.readers[r := Missed(f, p)])
    case Count(r) =>
      if r !in s.readers || !s.readers[r].Missed? then t
      else
        var (f, p) := (s.readers[r].f, s.readers[r].prefix);
        t.(readers := s.readers[r := Counted(f, p, |AllMatching(s.rows, f)|, s.clock)])
    case Select(r) =>
      if r !in s.readers || !s.readers[r].Counted? then t
      else
        var Counted(f, p, total, at) := s.readers[r];
        t.(readers := s.readers[r := Selected(f, p, AnswerWith(total, s.rows, f), at, s.clock)])
    case Set(r) =>
      if r !in s.readers || !s.readers[r].Selected? then t
      else
        var Selected(f, p, answer, counted, selected) := s.readers[r];
        t.(entries := s.entries[CacheKey(env, f, p, s.namespace) := Entry(f, answer, counted, selected, s.clock)],
           readers := s.readers - {r})
    case Write(rows) => t.(rows := rows, mutations := s.mutations + [Mutation(s.clock, None)])
    case Bump(ms) => t.(namespace := s.namespace + 1, mutations := Settled(s.mutations, ms, s.clock))
    case Vanish(keys) => t.(entries := s.entries - keys)
  }

  // ----- the invariant -----------------------------------------------------------------------------------

  // A mutation that an answer counted at this moment does not fully show.
  predicate Unseen(m: Mutation, countedAt: nat) {
    m.writtenAt >= countedAt
  }

  // No table written since a moment.
  predicate Unwritten(s: State, since: nat) {
    forall i :: 0 <= i < |s.mutations| ==> !Unseen(s.mutations[i], since)
  }

  // Every mutation an entry missed is still to be bumped, or was written and bumped between the entry's count
  // and its Set.
  predicate Spanned(m: Mutation, e: Entry) {
    Unseen(m, e.countedAt) ==>
      m.bumpedAt.None? || e.countedAt <= m.writtenAt < m.bumpedAt.value < e.setAt
  }

  // What a reader holds is current unless the table was written since it counted.
  ghost predicate ReaderSound(s: State, r: Reader) {
    && Validated(r.f) && IsPrefix(r.prefix)
    && match r
       case Missed(_, _) => true
       case Counted(f, _, total, at) =>
         at < s.clock && (Unwritten(s, at) ==> total == |AllMatching(s.rows, f)|)
       case Selected(f, _, answer, at, selected) =>
         at < selected < s.clock && (Unwritten(s, at) ==> answer == AnswerOf(s.rows, f))
  }

  ghost predicate ReadersSound(s: State) {
    forall r :: r in s.readers ==> ReaderSound(s, s.readers[r])
  }

  ghost predicate EntrySound(env: Env, s: State, f: ListFilter, prefix: string) {
    var key := CacheKey(env, f, prefix, s.namespace);
    key in s.entries ==>
      && Validated(s.entries[key].f) && NormalFormOf(s.entries[key].f) == NormalFormOf(f)
      && s.entries[key].countedAt < s.entries[key].selectedAt < s.entries[key].setAt < s.clock
      && (Unwritten(s, s.entries[key].countedAt) ==> s.entries[key].answer == AnswerOf(s.rows, s.entries[key].f))
      && forall i :: 0 <= i < |s.mutations| ==> Spanned(s.mutations[i], s.entries[key])
  }

  ghost predicate EntriesSound(env: Env, s: State) {
    forall f, p {:trigger Canonical(f, p)} :: Validated(f) && IsPrefix(p) ==> EntrySound(env, s, f, p)
  }

  ghost predicate NoLater(s: State) {
    forall k, v: nat :: v > s.namespace ==> Versioned(k, v) !in s.entries
  }

  ghost predicate WritesInPast(s: State) {
    forall i :: 0 <= i < |s.mutations| ==>
      s.mutations[i].writtenAt < s.clock &&
      (s.mutations[i].bumpedAt.Some? ==> s.mutations[i].writtenAt < s.mutations[i].bumpedAt.value < s.clock)
  }

  ghost predicate Inv(env: Env, s: State) {
    ReadersSound(s) && EntriesSound(env, s) && NoLater(s) && WritesInPast(s)
  }

  lemma EntriesFor(env: Env, s: State, f: ListFilter, p: string)
    requires EntriesSound(env, s) && Validated(f) && IsPrefix(p)
    ensures EntrySound(env, s, f, p)
  {
    hide EntrySound;
    var c := Canonical(f, p);
  }

  // A step that leaves table, namespace and mutations alone and stores nothing new.
  lemma QuietStep(env: Env, s: State, t: State)
    requires Inv(env, s) && t.clock == s.clock + 1
    requires t.rows == s.rows && t.namespace == s.namespace && t.mutations == s.mutations
    requires forall k :: k in t.entries ==> k in s.entries && t.entries[k] == s.entries[k]
    ensures EntriesSound(env, t) && NoLater(t) && WritesInPast(t)
  {
    hide AnswerOf, Canonical, Versioned, Validated, NormalFormOf;
    forall f, p | Validated(f) && IsPrefix(p)
      ensures EntrySound(env, t, f, p)
    {
      EntriesFor(env, s, f, p);
    }
  }

  // Nothing changes for a reader while no table is written.
  lemma ReaderLater(s: State, t: State, r: Reader)
    requires ReaderSound(s, r) && t.rows == s.rows && s.clock <= t.clock && |t.mutations| == |s.mutations|
    requires forall i :: 0 <= i < |s.mutations| ==> t.mutations[i].writtenAt == s.mutations[i].writtenAt
    ensures ReaderSound(t, r)
  {
    hide AnswerOf, AllMatching, Validated;
    assert forall at :: Unwritten(t, at) ==> Unwritten(s, at) by {
      forall at | Unwritten(t, at)
        ensures Unwritten(s, at)
      {
        assert forall i :: 0 <= i < |s.mutations| ==> Unseen(t.mutations[i], at) == Unseen(s.mutations[i], at);
      }
    }
  }

  lemma CountIsSound(env: Env, s: State, r: nat)
    requires Inv(env, s) && Enabled(env, s, Count(r))
    ensures var t := Apply(env, s, Count(r)); ReaderSound(t, t.readers[r])
  {
    hide AllMatching, Validated, EntriesSound, NoLater;
    assert ReaderSound(s, s.readers[r]);
  }

  lemma SelectIsSound(env: Env, s: State, r: nat)
    requires Inv(env, s) && Enabled(env, s, Select(r))
    ensures var t := Apply(env, s, Select(r)); ReaderSound(t, t.readers[r])
  {
    hide AllMatching, Validated, EntriesSound, NoLater, PageData, TotalPages;
    assert ReaderSound(s, s.readers[r]);
    var t := Apply(env, s, Select(r));
    assert forall at :: Unwritten(t, at) == Unwritten(s, at);
  }

  lemma ReaderStepsKeepInv(env: Env, s: State, e: Event)
    requires Inv(env, s) && Enabled(env, s, e) && (e.Get? || e.Count? || e.Select? || e.Vanish?)
    ensures Inv(env, Apply(env, s, e))
  {
    hide AnswerWith, AllMatching, Canonical, Versioned, EntriesSound, NoLater, WritesInPast, CacheKey, Validated,
      NormalFormOf, ReaderSound;
    var t := Apply(env, s, e);
    QuietStep(env, s, t);
    match e {
    case Count(r) => CountIsSound(env, s, r);
    case Select(r) => SelectIsSound(env, s, r);
    case Get(r, f, p) => MissIsSound(t, f, p);
    case _ =>
    }
    forall r | r in t.readers
      ensures ReaderSound(t, t.readers[r])
    {
      if r in s.readers && t.readers[r] == s.readers[r] {
        ReaderLater(s, t, s.readers[r]);
      }
    }
  }

  lemma MissIsSound(t: State, f: ListFilter, p: string)
    requires Validated(f) && IsPrefix(p)
    ensures ReaderSound(t, Missed(f, p))
  {
  }

  lemma SetKeepsInv(env: Env, s: State, r: nat)
    requires CollisionFree(env.digest) && Inv(env, s) && Enabled(env, s, Set(r))
    ensures Inv(env, Apply(env, s, Set(r)))
  {
    hide AnswerOf, Canonical, Versioned, Validated, NormalFormOf;
    var t := Apply(env, s, Set(r));
    var reader := s.readers[r];
    assert ReaderSound(s, reader);
    var key := CacheKey(env, reader.f, reader.prefix, s.namespace);
    forall g, q | Validated(g) && IsPrefix(q)
      ensures EntrySound(env, t, g, q)
    {
      EntriesFor(env, s, g, q);
      if CacheKey(env, g, q, t.namespace) == key {
        KeyMeansFilter(env, g, q, reader.f, reader.prefix, t.namespace, s.namespace);
      }
    }
    forall k, v: nat | v > t.namespace
      ensures Versioned(k, v) !in t.entries
    {
      if Versioned(k, v) == key {
        VersionedInjective(k, v, env.digest(Canonical(reader.f, reader.prefix)), s.namespace);
      }
    }
    forall o | o in t.readers
      ensures ReaderSound(t, t.readers[o])
    {
      ReaderLater(s, t, s.readers[o]);
    }
  }

  lemma WriteKeepsInv(env: Env, s: State, rows: seq<Profile>)
    requires Inv(env, s)
    ensures Inv(env, Apply(env, s, Write(rows)))
  {
    hide AnswerOf, Canonical, Versioned, Validated, NormalFormOf;
    var t := Apply(env, s, Write(rows));
    var last := |s.mutations|;
    assert t.mutations[last] == Mutation(s.clock, None);
    forall f, p | Validated(f) && IsPrefix(p)
      ensures EntrySound(env, t, f, p)
    {
      EntriesFor(env, s, f, p);
      var key := CacheKey(env, f, p, t.namespace);
      if key in t.entries {
        assert Unseen(t.mutations[last], t.entries[key].countedAt);
      }
    }
    forall r | r in t.readers
      ensures ReaderSound(t, t.readers[r])
    {
      assert ReaderSound(s, s.readers[r]);
      assert forall at: nat :: at <= s.clock ==> Unseen(t.mutations[last], at);
    }
  }

  lemma BumpKeepsInv(env: Env, s: State, ms: set<nat>)
    requires Inv(env, s) && Enabled(env, s, Bump(ms))
    ensures Inv(env, Apply(env, s, Bump(ms)))
  {
    hide AnswerOf, Canonical, Versioned, Validated, NormalFormOf;
    var t := Apply(env, s, Bump(ms));
    forall f, p | Validated(f) && IsPrefix(p)
      ensures EntrySound(env, t, f, p)
    {
      assert Versioned(env.digest(Canonical(f, p)), t.namespace) !in s.entries;
    }
    forall r | r in t.readers
      ensures ReaderSound(t, t.readers[r])
    {
      ReaderLater(s, t, s.readers[r]);
    }
  }

  lemma StepKeepsInv(env: Env, s: State, e: Event)
    requires CollisionFree(env.digest) && Inv(env, s) && Enabled(env, s, e)
    ensures Inv(env, Apply(env, s, e))
  {
    hide Inv, Apply;
    match e
    case Set(r) => SetKeepsInv(env, s, r);
    case Write(rows) => WriteKeepsInv(env, s, rows);
    case Bump(ms) => BumpKeepsInv(env, s, ms);
    case _ => ReaderStepsKeepInv(env, s, e);
  }

  // ----- runs ----------------------------------------------------------------------------------------------

  function Start(rows: seq<Profile>): State {
    State(0, rows, map[], 1, map[], [])
  }

  function Reach(env: Env, s: State, es: seq<Event>): State {
    if es == [] then s else Apply(env, Reach(env, s, es[..|es| - 1]), es[|es| - 1])
  }

  ghost predicate Possible(env: Env, s: State, es: seq<Event>) {
    es == [] ||
    (Possible(env, s, es[..|es| - 1]) && Enabled(env, Reach(env, s, es[..|es| - 1]), es[|es| - 1]))
  }

  lemma {:induction false} RunsKeepInv(env: Env, s: State, es: seq<Event>)
    requires CollisionFree(env.digest) && Inv(env, s) && Possible(env, s, es)
    ensures Inv(env, Reach(env, s, es))
  {
    if es != [] {
      hide Inv, Apply, Enabled;
      RunsKeepInv(env, s, es[..|es| - 1]);
      StepKeepsInv(env, Reach(env, s, es[..|es| - 1]), es[|es| - 1]);
    }
  }

  lemma StartIsSound(env: Env, rows: seq<Profile>)
    ensures Inv(env, Start(rows))
  {
    hide AnswerOf, Canonical, Versioned, Validated, NormalFormOf;
    var s := Start(rows);
    forall f, p | Validated(f) && IsPrefix(p)
      ensures EntrySound(env, s, f, p)
    {
    }
  }

  // The main result: in any interleaving, an answer reachable now was computed for a filter with the requested
  // normal form, and is the current one for it unless some mutation was written after the answer's count; and
  // each such mutation either has its Bump still pending, or was written and bumped entirely between the
  // reader's count and the reader's Set.
  lemma StaleOnlyByOverlap(env: Env, rows: seq<Profile>, es: seq<Event>, f: ListFilter, prefix: string)
    requires CollisionFree(env.digest) && Possible(env, Start(rows), es) && Validated(f) && IsPrefix(prefix)
    ensures var s := Reach(env, Start(rows), es);
            var key := CacheKey(env, f, prefix, s.namespace);
            key in s.entries ==>
              && Validated(s.entries[key].f) && NormalFormOf(s.entries[key].f) == NormalFormOf(f)
              && (s.entries[key].answer == AnswerOf(s.rows, s.entries[key].f) ||
                  exists i :: 0 <= i < |s.mutations| && Unseen(s.mutations[i], s.entries[key].countedAt))
              && (forall i :: 0 <= i < |s.mutations| ==> Spanned(s.mutations[i], s.entries[key]))
  {
    hide AnswerOf, Canonical, Versioned, Apply, Enabled, NormalFormOf, Validated;
    StartIsSound(env, rows);
    RunsKeepInv(env, Start(rows), es);
    EntriesFor(env, Reach(env, Start(rows), es), f, prefix);
  }

  // So an answer is fresh as soon as no mutation it missed is still unbumped, and none was bumped before its
  // Set; mutations the answer already shows do not matter, bumped or not.
  lemma NoOverlapMeansFresh(env: Env, rows: seq<Profile>, es: seq<Event>, f: ListFilter, prefix: string)
    requires CollisionFree(env.digest) && Possible(env, Start(rows), es) && Validated(f) && IsPrefix(prefix)
    requires var s := Reach(env, Start(rows), es);
             CacheKey(env, f, prefix, s.namespace) in s.entries &&
             forall i :: 0 <= i < |s.mutations| ==>
               var (m, e) := (s.mutations[i], s.entries[CacheKey(env, f, prefix, s.namespace)]);
               Unseen(m, e.countedAt) ==> m.bumpedAt.Some? && m.bumpedAt.value >= e.setAt
    ensures var s := Reach(env, Start(rows), es);
            var e := s.entries[CacheKey(env, f, prefix, s.namespace)];
            && NormalFormOf(e.f) == NormalFormOf(f) && e.answer == AnswerOf(s.rows, e.f)
            && (SameThresholds(e.f, f) ==> e.answer == AnswerOf(s.rows, f))
  {
    hide AnswerOf, CacheKey, Reach, NormalFormOf, Validated, Possible;
    var s := Reach(env, Start(rows), es);
    var e := s.entries[CacheKey(env, f, prefix, s.namespace)];
    StaleOnlyByOverlap(env, rows, es, f, prefix);
    if SameThresholds(e.f, f) {
      SameAnswer(s.rows, e.f, f);
    }
  }
}
