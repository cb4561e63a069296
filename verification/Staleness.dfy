// What a cached answer shows, and how long it can be wrong: the tables its two queries saw, when an answer that a
// write overlapped is fresh all the same, and when the cache's time to live bounds its staleness (cache.go, store.go).
module Staleness {
  import opened Wrappers
  import opened Profiles
  import opened Normalize
  import opened Query
  import opened Server
  import opened Interleaving
  import Ordering

  // ----- answers across two tables ---------------------------------------------------------------------------

  // The total of one table with the page of another.
  function Across(counted: seq<Profile>, selected: seq<Profile>, f: ListFilter): Answer {
    AnswerWith(|AllMatching(counted, f)|, selected, f)
  }

  predicate NoneMatch(ps: seq<Profile>, f: ListFilter) {
    forall p :: p in ps ==> !Matches(f, p)
  }

  lemma TotalGrows(rows: seq<Profile>, more: seq<Profile>, f: ListFilter)
    ensures |AllMatching(rows + more, f)| == |AllMatching(rows, f)| <==> NoneMatch(more, f)
  {
    hide Matches, Ordering.SortBy;
    var order := RowOrder(SortColumn(f.sortBy), Descending(f.order));
    MatchingAppend(rows, more, f);
    MatchingIsFilter(more, f);
    Ordering.SortPermutes(Matching(rows, f), order);
    Ordering.SortPermutes(Matching(rows + more, f), order);
    if NoneMatch(more, f) {
      NothingMatches(more, f);
    } else {
      var p :| p in more && Matches(f, p);
      assert p in Matching(more, f);
    }
  }

  // An answer is that of a table grown since it was counted exactly when no row added since matches, and the page is
  // right.
  lemma AcrossIsAnswerIff(counted: seq<Profile>, selected: seq<Profile>, now: seq<Profile>, f: ListFilter)
    requires counted <= now
    ensures Across(counted, selected, f) == AnswerOf(now, f) <==>
            NoneMatch(now[|counted|..], f) && PageData(selected, f) == PageData(now, f)
  {
    assert counted + now[|counted|..] == now;
    TotalGrows(counted, now[|counted|..], f);
    hide AllMatching, PageData, NoneMatch;
  }

  // Rows that do not match leave the page alone.
  lemma SamePage(rows: seq<Profile>, now: seq<Profile>, f: ListFilter)
    requires rows <= now && NoneMatch(now[|rows|..], f)
    ensures PageData(rows, f) == PageData(now, f)
  {
    assert rows + now[|rows|..] == now;
    AppendedRowsChangeAnswerIff(rows, now[|rows|..], f);
    hide AllMatching, PageData, Matches;
  }

  lemma NoneMatchBetween(a: seq<Profile>, b: seq<Profile>, c: seq<Profile>, f: ListFilter)
    requires a <= b <= c
    ensures NoneMatch(c[|a|..], f) <==> NoneMatch(b[|a|..], f) && NoneMatch(c[|b|..], f)
  {
    assert c[|a|..] == b[|a|..] + c[|b|..];
  }

  // Rows written between the two queries tear an answer: it is that of the later table exactly when none of them
  // matches, and that of the earlier one exactly when they leave the page alone.
  lemma TornIff(counted: seq<Profile>, selected: seq<Profile>, f: ListFilter)
    requires counted <= selected
    ensures Across(counted, selected, f) == AnswerOf(selected, f) <==> NoneMatch(selected[|counted|..], f)
    ensures Across(counted, selected, f) == AnswerOf(counted, f) <==> PageData(selected, f) == PageData(counted, f)
  {
    AcrossIsAnswerIff(counted, selected, selected, f);
    AcrossIsAnswerIff(counted, selected, counted, f);
  }

  // It happens: a first matching row written in between yields a page of one row under a total of zero.
  lemma TornAnswer(p: Profile, f: ListFilter)
    requires Matches(f, p) && Validated(f) && f.page == 1
    ensures var a := Across([], [p], f); a.total == 0 && a.data == [p]
  {
    hide Matches;
    NoRowsNoMatches(f);
    var order := RowOrder(SortColumn(f.sortBy), Descending(f.order));
    assert [p][1..] == [] && Matching([], f) == [];
    assert Matching([p], f) == [p];
    Ordering.SortPermutes([p], order);
    assert |AllMatching([p], f)| == 1 && AllMatching([p], f)[0] in multiset(AllMatching([p], f));
    assert Wrap64(ExactOffset(f)) == 0;
  }

  // ----- what an entry shows ---------------------------------------------------------------------------------

  // The table as it was when the first n events of a run had happened.
  function TableAt(env: Env, rows: seq<Profile>, es: seq<Event>, n: nat): seq<Profile>
    requires n <= |es|
  {
    Reach(env, Start(rows), es[..n]).rows
  }

  ghost predicate ReaderShows(env: Env, rows: seq<Profile>, es: seq<Event>, r: Reader) {
    match r
    case Missed(_, _) => true
    case Counted(f, _, total, at) => at < |es| && total == |AllMatching(TableAt(env, rows, es, at), f)|
    case Selected(f, _, answer, counted, selected) =>
      counted < selected < |es| &&
      answer == Across(TableAt(env, rows, es, counted), TableAt(env, rows, es, selected), f)
  }

  ghost predicate EntryShows(env: Env, rows: seq<Profile>, es: seq<Event>, e: Entry) {
    e.countedAt < e.selectedAt < e.setAt < |es| &&
    e.answer == Across(TableAt(env, rows, es, e.countedAt), TableAt(env, rows, es, e.selectedAt), e.f)
  }

  // Every total and page, on its way to the cache or in it, is that of the table at the moment of its query.
  ghost predicate Snapshots(env: Env, rows: seq<Profile>, es: seq<Event>, s: State) {
    && s.clock == |es|
    && (forall r :: r in s.readers ==> ReaderShows(env, rows, es, s.readers[r]))
    && (forall k :: k in s.entries ==> EntryShows(env, rows, es, s.entries[k]))
  }

  lemma {:induction false} EntriesAreSnapshots(env: Env, rows: seq<Profile>, es: seq<Event>)
    ensures Snapshots(env, rows, es, Reach(env, Start(rows), es))
  {
    if es != [] {
      var (before, e) := (es[..|es| - 1], es[|es| - 1]);
      EntriesAreSnapshots(env, rows, before);
      EarlierTables(env, rows, es);
      hide AllMatching, PageData, CacheKey, TableAt, Reach;
      var s := Reach(env, Start(rows), before);
      assert s.rows == TableAt(env, rows, es, |before|) by {
        TableNow(env, rows, es);
      }
      SnapshotStep(env, rows, es, s, e);
      LastEvent(env, rows, es);
    }
  }

  lemma EarlierTables(env: Env, rows: seq<Profile>, es: seq<Event>)
    requires es != []
    ensures forall n :: 0 <= n < |es| ==> TableAt(env, rows, es[..|es| - 1], n) == TableAt(env, rows, es, n)
  {
    hide Reach;
    assert forall n :: 0 <= n < |es| ==> es[..|es| - 1][..n] == es[..n];
  }

  lemma TableNow(env: Env, rows: seq<Profile>, es: seq<Event>)
    requires es != []
    ensures Reach(env, Start(rows), es[..|es| - 1]).rows == TableAt(env, rows, es, |es| - 1)
  {
  }

  lemma LastEvent(env: Env, rows: seq<Profile>, es: seq<Event>)
    requires es != []
    ensures Reach(env, Start(rows), es) == Apply(env, Reach(env, Start(rows), es[..|es| - 1]), es[|es| - 1])
  {
    hide Apply;
  }

  // What was shown after fewer events is shown still.
  lemma ShownStill(env: Env, rows: seq<Profile>, es: seq<Event>)
    requires es != []
    requires forall n :: 0 <= n < |es| ==> TableAt(env, rows, es[..|es| - 1], n) == TableAt(env, rows, es, n)
    ensures forall r :: ReaderShows(env, rows, es[..|es| - 1], r) ==> ReaderShows(env, rows, es, r)
    ensures forall e :: EntryShows(env, rows, es[..|es| - 1], e) ==> EntryShows(env, rows, es, e)
  {
    hide TableAt, AnswerWith, AllMatching;
  }

  lemma QueriesShow(env: Env, rows: seq<Profile>, es: seq<Event>, s: State, r: nat)
    requires es != [] && s.clock == |es| - 1 && s.rows == TableAt(env, rows, es, |es| - 1)
    requires r in s.readers && ReaderShows(env, rows, es, s.readers[r])
    ensures var t := Apply(env, s, Count(r)); ReaderShows(env, rows, es, t.readers[r])
    ensures s.readers[r].Counted? ==> s.readers[r].countedAt < s.clock ==>
              var t := Apply(env, s, Select(r)); ReaderShows(env, rows, es, t.readers[r])
    ensures s.readers[r].Selected? ==> s.readers[r].selectedAt < s.clock ==>
              var Selected(f, _, answer, counted, selected) := s.readers[r];
              EntryShows(env, rows, es, Entry(f, answer, counted, selected, s.clock))
  {
    hide TableAt, AnswerWith, AllMatching;
  }

  lemma QueriesInPast(env: Env, rows: seq<Profile>, es: seq<Event>, r: Reader)
    requires ReaderShows(env, rows, es, r)
    ensures (r.Counted? ==> r.countedAt < |es|) && (r.Selected? ==> r.selectedAt < |es|)
  {
    hide TableAt, AnswerWith, AllMatching;
  }

  lemma ReadersAfter(env: Env, s: State, e: Event)
    ensures forall r :: r in Apply(env, s, e).readers ==>
              || (r in s.readers && Apply(env, s, e).readers[r] == s.readers[r])
              || Apply(env, s, e).readers[r].Missed?
              || ((e.Count? || (e.Select? && s.readers[r].Counted?)) && e.reader == r && r in s.readers)
  {
    hide AnswerWith, AllMatching, CacheKey;
  }

  lemma EntriesAfter(env: Env, s: State, e: Event)
    ensures forall k :: k in Apply(env, s, e).entries ==>
              || (k in s.entries && Apply(env, s, e).entries[k] == s.entries[k])
              || (e.Set? && e.reader in s.readers && s.readers[e.reader].Selected? &&
                  var Selected(f, _, answer, counted, selected) := s.readers[e.reader];
                  Apply(env, s, e).entries[k] == Entry(f, answer, counted, selected, s.clock))
    ensures Apply(env, s, e).clock == s.clock + 1
  {
    hide AnswerWith, AllMatching, CacheKey;
  }

  lemma MissShows(env: Env, rows: seq<Profile>, es: seq<Event>, r: Reader)
    requires r.Missed?
    ensures ReaderShows(env, rows, es, r)
  {
  }

  lemma SnapshotStep(env: Env, rows: seq<Profile>, es: seq<Event>, s: State, e: Event)
    requires es != [] && Snapshots(env, rows, es[..|es| - 1], s) && s.rows == TableAt(env, rows, es, |es| - 1)
    requires forall n :: 0 <= n < |es| ==> TableAt(env, rows, es[..|es| - 1], n) == TableAt(env, rows, es, n)
    ensures Snapshots(env, rows, es, Apply(env, s, e))
  {
    hide ReaderShows, EntryShows, TableAt, Apply;
    var t := Apply(env, s, e);
    ShownStill(env, rows, es);
    ReadersAfter(env, s, e);
    EntriesAfter(env, s, e);
    if (e.Count? || e.Select? || e.Set?) && e.reader in s.readers {
      QueriesInPast(env, rows, es[..|es| - 1], s.readers[e.reader]);
      QueriesShow(env, rows, es, s, e.reader);
    }
    forall r | r in t.readers
      ensures ReaderShows(env, rows, es, t.readers[r])
    {
      if t.readers[r].Missed? {
        MissShows(env, rows, es, t.readers[r]);
      }
    }
  }

  // When an overlapped answer is fresh all the same. If rows were only appended since its count, exactly when none of
  // them matches; if one row was deleted, exactly when that row does not match.
  lemma OverlappedIsFreshIff(env: Env, rows: seq<Profile>, es: seq<Event>, key: string)
    requires key in Reach(env, Start(rows), es).entries
    ensures var (s, e) := (Reach(env, Start(rows), es), Reach(env, Start(rows), es).entries[key]);
            && e.countedAt < e.selectedAt <= |es|
            && var (counted, selected) := (TableAt(env, rows, es, e.countedAt), TableAt(env, rows, es, e.selectedAt));
               && e.answer == Across(counted, selected, e.f)
               && (counted <= selected <= s.rows ==>
                     (e.answer == AnswerOf(s.rows, e.f) <==> NoneMatch(s.rows[|counted|..], e.f)))
               && (forall id :: s.rows == WithoutId(counted, id) && (selected == counted || selected == s.rows) ==>
                     (e.answer == AnswerOf(s.rows, e.f) <==>
                      forall p :: p in counted && p.id == id ==> !Matches(e.f, p)))
  {
    EntriesAreSnapshots(env, rows, es);
    hide AnswerWith, Matches, TableAt, Reach, PageData, AllMatching, NoneMatch;
    var (s, e) := (Reach(env, Start(rows), es), Reach(env, Start(rows), es).entries[key]);
    var (counted, selected) := (TableAt(env, rows, es, e.countedAt), TableAt(env, rows, es, e.selectedAt));
    if counted <= selected <= s.rows {
      AcrossIsAnswerIff(counted, selected, s.rows, e.f);
      NoneMatchBetween(counted, selected, s.rows, e.f);
      if NoneMatch(s.rows[|selected|..], e.f) {
        SamePage(selected, s.rows, e.f);
      }
    }
    forall id | s.rows == WithoutId(counted, id) && (selected == counted || selected == s.rows)
      ensures e.answer == AnswerOf(s.rows, e.f) <==> forall p :: p in counted && p.id == id ==> !Matches(e.f, p)
    {
      AcrossDeletion(counted, selected, id, e.f);
    }
  }

  lemma AcrossDeletion(counted: seq<Profile>, selected: seq<Profile>, id: string, f: ListFilter)
    requires selected == counted || selected == WithoutId(counted, id)
    ensures Across(counted, selected, f) == AnswerOf(WithoutId(counted, id), f) <==>
            forall p :: p in counted && p.id == id ==> !Matches(f, p)
  {
    DeletedRowChangesTotalIff(counted, id, f);
    DeletedRowChangesAnswerIff(counted, id, f);
    hide AllMatching, Matches, PageData;
  }

  lemma DeletedRowChangesTotalIff(rows: seq<Profile>, id: string, f: ListFilter)
    ensures |AllMatching(WithoutId(rows, id), f)| == |AllMatching(rows, f)| <==>
            forall p :: p in rows && p.id == id ==> !Matches(f, p)
  {
    hide Matches, Ordering.SortBy;
    var order := RowOrder(SortColumn(f.sortBy), Descending(f.order));
    MatchingWithout(rows, id, f);
    Ordering.SortPermutes(Matching(rows, f), order);
    Ordering.SortPermutes(Matching(WithoutId(rows, id), f), order);
  }

  // ----- the time to live --------------------------------------------------------------------------------------

  // time(n) is the clock when event n happens; TableAt(n) is the table it finds, the last moment that table is there.
  ghost predicate Ticks(time: nat -> int) {
    forall m, n :: m <= n ==> time(m) <= time(n)
  }

  // The documented promise about a served answer: it was the right one at some moment within ttl of now.
  ghost predicate RightWithin(env: Env, rows: seq<Profile>, es: seq<Event>, e: Entry, time: nat -> int, ttl: int) {
    exists n: nat :: n <= |es| && time(|es|) - time(n) <= ttl && RightAt(env, rows, es, e, n)
  }

  ghost predicate RightAt(env: Env, rows: seq<Profile>, es: seq<Event>, e: Entry, n: nat)
    requires n <= |es|
  {
    e.answer == AnswerOf(TableAt(env, rows, es, n), e.f)
  }

  function Max(a: nat, b: nat): nat {
    if a < b then b else a
  }

  ghost predicate OnlyAppended(env: Env, rows: seq<Profile>, es: seq<Event>, from: nat) {
    forall m, n :: from <= m <= n <= |es| ==> TableAt(env, rows, es, m) <= TableAt(env, rows, es, n)
  }

  // Exactly when the promise holds, for rows only appended: n0 is the first moment within ttl, m the later one of it
  // and of the answer's count. No row added between the count and m may match, and the page must still be m's. The
  // second half says nothing more once the page was selected by then.
  lemma RightWithinTtlIff(env: Env, rows: seq<Profile>, es: seq<Event>, key: string, time: nat -> int, ttl: int,
                          n0: nat)
    requires key in Reach(env, Start(rows), es).entries && n0 <= |es|
    requires forall n: nat :: n <= |es| ==> (time(|es|) - time(n) <= ttl <==> n0 <= n)
    requires var e := Reach(env, Start(rows), es).entries[key];
             OnlyAppended(env, rows, es, if n0 < e.countedAt then n0 else e.countedAt)
    ensures var e := Reach(env, Start(rows), es).entries[key];
            && e.countedAt < e.selectedAt <= |es|
            && var (m, counted) := (Max(n0, e.countedAt), TableAt(env, rows, es, e.countedAt));
               var added := TableAt(env, rows, es, m);
               && |counted| <= |added|
               && (RightWithin(env, rows, es, e, time, ttl) <==>
                   NoneMatch(added[|counted|..], e.f) &&
                   PageData(TableAt(env, rows, es, e.selectedAt), e.f) == PageData(added, e.f))
               && (e.selectedAt <= m ==>
                   (RightWithin(env, rows, es, e, time, ttl) <==> NoneMatch(added[|counted|..], e.f)))
  {
    hide Reach, RightWithin, OnlyAppended;
    EntryAt(env, rows, es, key);
    EntryRightWithinIff(env, rows, es, Reach(env, Start(rows), es).entries[key], time, ttl, n0);
  }

  lemma EntryAt(env: Env, rows: seq<Profile>, es: seq<Event>, key: string)
    requires key in Reach(env, Start(rows), es).entries
    ensures EntryShows(env, rows, es, Reach(env, Start(rows), es).entries[key])
  {
    hide Reach, EntryShows;
    EntriesAreSnapshots(env, rows, es);
  }

  lemma EntryRightWithinIff(env: Env, rows: seq<Profile>, es: seq<Event>, e: Entry, time: nat -> int, ttl: int,
                            n0: nat)
    requires EntryShows(env, rows, es, e) && n0 <= |es|
    requires forall n: nat :: n <= |es| ==> (time(|es|) - time(n) <= ttl <==> n0 <= n)
    requires OnlyAppended(env, rows, es, if n0 < e.countedAt then n0 else e.countedAt)
    ensures var (m, counted) := (Max(n0, e.countedAt), TableAt(env, rows, es, e.countedAt));
            var added := TableAt(env, rows, es, m);
            && |counted| <= |added|
            && (RightWithin(env, rows, es, e, time, ttl) <==>
                NoneMatch(added[|counted|..], e.f) &&
                PageData(TableAt(env, rows, es, e.selectedAt), e.f) == PageData(added, e.f))
            && (e.selectedAt <= m ==>
                (RightWithin(env, rows, es, e, time, ttl) <==> NoneMatch(added[|counted|..], e.f)))
  {
    hide TableAt, PageData, AllMatching, NoneMatch, AnswerWith, RightWithin, Across;
    var m := Max(n0, e.countedAt);
    var (counted, selected, added) :=
      (TableAt(env, rows, es, e.countedAt), TableAt(env, rows, es, e.selectedAt), TableAt(env, rows, es, m));
    RightWithinIsRightAt(env, rows, es, e, time, ttl, n0);
    assert counted <= added && (e.selectedAt <= m ==> counted <= selected <= added);
    AcrossIsAnswerIff(counted, selected, added, e.f);
    if e.selectedAt <= m && NoneMatch(added[|counted|..], e.f) {
      NoneMatchBetween(counted, selected, added, e.f);
      SamePage(selected, added, e.f);
    }
  }

  // Among the moments within ttl, the one to look at.
  lemma RightWithinIsRightAt(env: Env, rows: seq<Profile>, es: seq<Event>, e: Entry, time: nat -> int, ttl: int,
                             n0: nat)
    requires EntryShows(env, rows, es, e) && n0 <= |es|
    requires forall n: nat :: n <= |es| ==> (time(|es|) - time(n) <= ttl <==> n0 <= n)
    requires OnlyAppended(env, rows, es, if n0 < e.countedAt then n0 else e.countedAt)
    ensures RightWithin(env, rows, es, e, time, ttl) <==> RightAt(env, rows, es, e, Max(n0, e.countedAt))
  {
    hide TableAt, AnswerOf, Across;
    var m := Max(n0, e.countedAt);
    if n: nat :| n <= |es| && time(|es|) - time(n) <= ttl && RightAt(env, rows, es, e, n) {
      if n < e.countedAt || m <= n {
        RightThenRightAt(TableAt(env, rows, es, e.countedAt), TableAt(env, rows, es, e.selectedAt),
                         TableAt(env, rows, es, n), TableAt(env, rows, es, m), e.f, n < e.countedAt);
      }
    }
  }

  // An answer that is right at one moment is right at the earlier of later moments, and of its own count.
  lemma RightThenRightAt(counted: seq<Profile>, selected: seq<Profile>, there: seq<Profile>, here: seq<Profile>,
                         f: ListFilter, before: bool)
    requires Across(counted, selected, f) == AnswerOf(there, f)
    requires if before then there <= counted == here else counted <= here <= there
    ensures Across(counted, selected, f) == AnswerOf(here, f)
  {
    if before {
      assert there + counted[|there|..] == counted;
      TotalGrows(there, counted[|there|..], f);
      SamePageIfSameTotal(there, counted, f);
    } else {
      AcrossIsAnswerIff(counted, selected, there, f);
      AcrossIsAnswerIff(counted, selected, here, f);
      NoneMatchBetween(counted, here, there, f);
      hide AllMatching, PageData, NoneMatch;
      SamePage(here, there, f);
    }
  }

  lemma SamePageIfSameTotal(rows: seq<Profile>, now: seq<Profile>, f: ListFilter)
    requires rows <= now && |AllMatching(rows, f)| == |AllMatching(now, f)|
    ensures PageData(rows, f) == PageData(now, f)
  {
    assert rows + now[|rows|..] == now;
    TotalGrows(rows, now[|rows|..], f);
    hide AllMatching, PageData, NoneMatch;
    SamePage(rows, now, f);
  }

  // No table changes while nothing is written.
  lemma {:induction false} UnwrittenTables(env: Env, rows: seq<Profile>, es: seq<Event>, m: nat, n: nat)
    requires m <= n <= |es| && forall i :: m <= i < n ==> !es[i].Write?
    ensures TableAt(env, rows, es, n) == TableAt(env, rows, es, m)
    decreases n
  {
    hide Apply, Reach;
    if m < n {
      UnwrittenTables(env, rows, es, m, n - 1);
      assert es[..n][..n - 1] == es[..n - 1];
      LastEvent(env, rows, es[..n]);
      OnlyWritesChange(env, Reach(env, Start(rows), es[..n - 1]), es[n - 1]);
    }
  }

  lemma OnlyWritesChange(env: Env, s: State, e: Event)
    requires !e.Write?
    ensures Apply(env, s, e).rows == s.rows
  {
    hide AnswerWith, AllMatching, CacheKey;
  }

  // So the promise holds whenever no Write falls between an entry's count and its Set.
  lemma BoundHoldsWithoutOverlap(env: Env, rows: seq<Profile>, es: seq<Event>, key: string, time: nat -> int, ttl: int)
    requires key in Reach(env, Start(rows), es).entries
    requires var e := Reach(env, Start(rows), es).entries[key];
             && e.setAt < |es| && time(|es|) - time(e.setAt) <= ttl
             && forall i :: e.countedAt <= i < e.setAt ==> !es[i].Write?
    ensures RightWithin(env, rows, es, Reach(env, Start(rows), es).entries[key], time, ttl)
  {
    hide TableAt, Reach, AllMatching, PageData, AnswerWith;
    EntryAt(env, rows, es, key);
    var e := Reach(env, Start(rows), es).entries[key];
    UnwrittenTables(env, rows, es, e.countedAt, e.selectedAt);
    UnwrittenTables(env, rows, es, e.countedAt, e.setAt);
    SameTable(TableAt(env, rows, es, e.countedAt), e.f);
    assert RightAt(env, rows, es, e, e.setAt);
  }

  lemma SameTable(rows: seq<Profile>, f: ListFilter)
    ensures Across(rows, rows, f) == AnswerOf(rows, f)
  {
    hide AllMatching, PageData, TotalPages;
  }

  // ----- overlaps that do leave a stale answer ---------------------------------------------------------------------

  ghost predicate ServesStale(env: Env, s: State, f: ListFilter, prefix: string) {
    var key := CacheKey(env, f, prefix, s.namespace);
    key in s.entries && s.entries[key].answer != AnswerOf(s.rows, f)
  }

  // A reader that queries before a Write and stores after its Bump files the old answer under the new namespace.
  lemma OverlapIsStale(env: Env, s: State, r: nat, rows: seq<Profile>)
    requires r in s.readers && s.readers[r].Missed?
    requires AnswerOf(rows, s.readers[r].f) != AnswerOf(s.rows, s.readers[r].f)
    ensures var (f, p) := (s.readers[r].f, s.readers[r].prefix);
            var s2 := Apply(env, Apply(env, s, Count(r)), Select(r));
            var s3 := Apply(env, s2, Write(rows));
            var s4 := Apply(env, s3, Bump({|s.mutations|}));
            var s5 := Apply(env, s4, Set(r));
            && Enabled(env, s, Count(r)) && Enabled(env, Apply(env, s, Count(r)), Select(r))
            && Enabled(env, s2, Write(rows)) && Enabled(env, s3, Bump({|s.mutations|}))
            && Enabled(env, s4, Set(r)) && s3.rows == s4.rows == s5.rows == rows && s5.namespace == s.namespace + 1
            && ServesStale(env, s5, f, p)
            && s5.entries[CacheKey(env, f, p, s5.namespace)] ==
               Entry(f, AnswerOf(s.rows, f), s.clock, s.clock + 1, s.clock + 4)
  {
    hide AllMatching, PageData, TotalPages, CacheKey, Validated, NormalFormOf;
    var (f, p) := (s.readers[r].f, s.readers[r].prefix);
    var s2 := Apply(env, Apply(env, s, Count(r)), Select(r));
    assert s2.readers[r] == Selected(f, p, AnswerOf(s.rows, f), s.clock, s.clock + 1);
    var s3 := Apply(env, s2, Write(rows));
    assert |s3.mutations| == |s.mutations| + 1 && s3.mutations[|s.mutations|] == Mutation(s.clock + 2, None);
  }

  // And while a Bump is pending, what was stored before the Write stays in reach.
  lemma PendingBumpIsStale(env: Env, s: State, r: nat, rows: seq<Profile>)
    requires r in s.readers && s.readers[r].Missed?
    requires AnswerOf(rows, s.readers[r].f) != AnswerOf(s.rows, s.readers[r].f)
    ensures var s2 := Apply(env, Apply(env, s, Count(r)), Select(r));
            var s3 := Apply(env, s2, Set(r));
            && Enabled(env, s, Count(r)) && Enabled(env, Apply(env, s, Count(r)), Select(r)) && Enabled(env, s2, Set(r))
            && ServesStale(env, Apply(env, s3, Write(rows)), s.readers[r].f, s.readers[r].prefix)
  {
    hide AllMatching, PageData, TotalPages, CacheKey, Validated, NormalFormOf;
  }

  // The run that goes on with a reader's steps around a whole mutation.
  function Around(es: seq<Event>, r: nat, rows: seq<Profile>, m: nat): seq<Event> {
    es + [Count(r)] + [Select(r)] + [Write(rows)] + [Bump({m})] + [Set(r)]
  }

  lemma OneMore(env: Env, start: seq<Profile>, es: seq<Event>, e: Event, s: State)
    requires Reach(env, Start(start), es) == s
    ensures Reach(env, Start(start), es + [e]) == Apply(env, s, e)
    ensures Possible(env, Start(start), es) && Enabled(env, s, e) ==> Possible(env, Start(start), es + [e])
  {
    hide Apply, Enabled;
    assert (es + [e])[..|es|] == es;
  }

  lemma AroundIsApplied(env: Env, start: seq<Profile>, es: seq<Event>, r: nat, rows: seq<Profile>, m: nat)
    ensures var (s, run) := (Reach(env, Start(start), es), Around(es, r, rows, m));
            var s2 := Apply(env, Apply(env, s, Count(r)), Select(r));
            var s3 := Apply(env, s2, Write(rows));
            var s4 := Apply(env, s3, Bump({m}));
            && Reach(env, Start(start), run) == Apply(env, s4, Set(r))
            && TableAt(env, start, run, |es| + 3) == s3.rows && TableAt(env, start, run, |es| + 4) == s4.rows
            && TableAt(env, start, run, |es| + 5) == Apply(env, s4, Set(r)).rows
            && ((&& Possible(env, Start(start), es) && Enabled(env, s, Count(r))
                 && Enabled(env, Apply(env, s, Count(r)), Select(r)) && Enabled(env, s2, Write(rows))
                 && Enabled(env, s3, Bump({m})) && Enabled(env, s4, Set(r))) ==>
                Possible(env, Start(start), run))
  {
    hide Apply, Reach, Enabled, Possible;
    var s := Reach(env, Start(start), es);
    var s1 := Apply(env, s, Count(r));
    var s2 := Apply(env, s1, Select(r));
    var s3 := Apply(env, s2, Write(rows));
    var e2 := es + [Count(r)] + [Select(r)];
    var e3 := e2 + [Write(rows)];
    var e4 := e3 + [Bump({m})];
    OneMore(env, start, es, Count(r), s);
    OneMore(env, start, es + [Count(r)], Select(r), s1);
    OneMore(env, start, e2, Write(rows), s2);
    OneMore(env, start, e3, Bump({m}), s3);
    OneMore(env, start, e4, Set(r), Apply(env, s3, Bump({m})));
    var run := Around(es, r, rows, m);
    assert run[..|es| + 3] == e3 && run[..|es| + 4] == e4 && run[..|es| + 5] == run;
  }

  // The promise fails as soon as time passes between such a Write and the Set: served at an age of exactly ttl, the
  // answer differs from the uncached one at every moment within ttl.
  lemma StalerThanTtl(env: Env, start: seq<Profile>, es: seq<Event>, r: nat, rows: seq<Profile>,
                      time: nat -> int, ttl: int)
    requires var s := Reach(env, Start(start), es);
             r in s.readers && s.readers[r].Missed? &&
             AnswerOf(rows, s.readers[r].f) != AnswerOf(s.rows, s.readers[r].f)
    requires Ticks(time) && time(|es| + 2) < time(|es| + 4) && time(|es| + 5) - time(|es| + 4) == ttl
    ensures var s := Reach(env, Start(start), es);
            var run := Around(es, r, rows, |s.mutations|);
            var t := Reach(env, Start(start), run);
            var key := CacheKey(env, s.readers[r].f, s.readers[r].prefix, t.namespace);
            && |run| == |es| + 5 && key in t.entries && t.entries[key].setAt == |es| + 4
            && time(|run|) - time(t.entries[key].setAt) <= ttl
            && !RightWithin(env, start, run, t.entries[key], time, ttl)
            && (Possible(env, Start(start), es) ==> Possible(env, Start(start), run))
  {
    hide Possible, Enabled, Apply, Reach, AnswerOf, CacheKey, TableAt, Snapshots;
    var s := Reach(env, Start(start), es);
    var run := Around(es, r, rows, |s.mutations|);
    assert s.clock == |es| by {
      EntriesAreSnapshots(env, start, es);
      ClockOf(env, start, es);
    }
    OverlapIsStale(env, s, r, rows);
    AroundIsApplied(env, start, es, r, rows, |s.mutations|);
    var t := Reach(env, Start(start), run);
    var e := t.entries[CacheKey(env, s.readers[r].f, s.readers[r].prefix, t.namespace)];
    forall n: nat | n <= |run| && time(|run|) - time(n) <= ttl
      ensures !RightAt(env, start, run, e, n)
    {
      assert time(|es| + 2) < time(n);
      assert n > |es| + 2;
      assert n == |es| + 3 || n == |es| + 4 || n == |es| + 5;
    }
  }

  lemma ClockOf(env: Env, rows: seq<Profile>, es: seq<Event>)
    requires Snapshots(env, rows, es, Reach(env, Start(rows), es))
    ensures Reach(env, Start(rows), es).clock == |es|
  {
    hide Reach, TableAt;
  }
}
