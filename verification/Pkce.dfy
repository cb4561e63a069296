// The one-shot store of PKCE verifiers (pkce.go), for the flow of section 4 of RFC 7636. Sweeping expired
// entries is invisible: the store behaves like one that never sweeps.
module Pkce {
  import opened Wrappers

  datatype Entry = Entry(verifier: string, createdAt: int)

  type Entries = map<string, Entry>

  function Expired(e: Entry, now: int, ttl: int): bool {
    now - e.createdAt > ttl
  }

  // clock(k) is the reading taken when the sweep looks at k.
  function SetStep(m: Entries, ttl: int, state: string, verifier: string, now: int, clock: string -> int): Entries {
    var added := m[state := Entry(verifier, now)];
    map k | k in added && !Expired(added[k], clock(k), ttl) :: added[k]
  }

  function PopResult(m: Entries, ttl: int, state: string, now: int): Option<string> {
    if state in m && !Expired(m[state], now, ttl) then Some(m[state].verifier) else None
  }

  class PkceStore {
    var store: Entries
    const ttl: int

    constructor (ttl: int)
      ensures store == map[] && this.ttl == ttl
    {
      store := map[];
      this.ttl := ttl;
    }

    method Set(state: string, verifier: string, now: int, clock: string -> int)
      requires forall k :: clock(k) >= now
      modifies this
      ensures store == SetStep(old(store), ttl, state, verifier, now, clock)
      ensures forall k :: k in store ==> !Expired(store[k], now, ttl)
    {
      store := store[state := Entry(verifier, now)];
      ghost var added := store;
      var todo := store.Keys;
      while todo != {}
        invariant todo <= added.Keys && store.Keys <= added.Keys
        invariant forall k :: k in added ==>
          (k in store <==> k in todo || !Expired(added[k], clock(k), ttl)) && (k in store ==> store[k] == added[k])
      {
        var k :| k in todo;
        todo := todo - {k};
        if Expired(store[k], clock(k), ttl) {
          store := store - {k};
        }
      }
    }

    method PopVerifier(state: string, now: int) returns (v: Option<string>)
      modifies this
      ensures v == PopResult(old(store), ttl, state, now)
      ensures store == old(store) - {state}
    {
      if state !in store {
        assert store - {state} == store;
        return None;
      }
      var e := store[state];
      store := store - {state};
      if Expired(e, now, ttl) {
        return None;
      }
      return Some(e.verifier);
    }
  }

  // ----- histories -----------------------------------------------------------------------------------------

  // start and finish bound the clock readings of one call.
  datatype Event =
    | Set(state: string, verifier: string, start: int, clock: string -> int, finish: int)
    | Pop(state: string, start: int, finish: int)

  function Step(m: Entries, ttl: int, e: Event): Entries {
    match e
    case Set(state, v, now, clock, _) => SetStep(m, ttl, state, v, now, clock)
    case Pop(state, _, _) => m - {state}
  }

  // The same without the sweep.
  function KeepStep(m: Entries, e: Event): Entries {
    match e
    case Set(state, v, now, _, _) => m[state := Entry(v, now)]
    case Pop(state, _, _) => m - {state}
  }

  function Run(ttl: int, es: seq<Event>): Entries {
    if es == [] then map[] else Step(Run(ttl, es[..|es| - 1]), ttl, es[|es| - 1])
  }

  function KeepRun(es: seq<Event>): Entries {
    if es == [] then map[] else KeepStep(KeepRun(es[..|es| - 1]), es[|es| - 1])
  }

  // One monotonic clock: calls one after the other, and every reading within its call.
  ghost predicate Clocked(es: seq<Event>) {
    && (forall i :: 0 <= i < |es| ==>
          es[i].start <= es[i].finish &&
          (es[i].Set? ==> forall k :: es[i].start <= es[i].clock(k) <= es[i].finish))
    && (forall i, j :: 0 <= i < j < |es| ==> es[i].finish <= es[j].start)
  }

  // What the sweep removed is expired for good.
  ghost predicate SweptOnlyExpired(m: Entries, kept: Entries, ttl: int, now: int) {
    && (forall k :: k in m ==> k in kept && m[k] == kept[k])
    && (forall k :: k in kept && k !in m ==> Expired(kept[k], now, ttl))
  }

  lemma {:induction false} SweepIsInvisible(ttl: int, es: seq<Event>, now: int)
    requires Clocked(es) && (es != [] ==> es[|es| - 1].finish <= now)
    ensures SweptOnlyExpired(Run(ttl, es), KeepRun(es), ttl, now)
  {
    if es != [] {
      var (before, e) := (es[..|es| - 1], es[|es| - 1]);
      SweepIsInvisible(ttl, before, e.start);
    }
  }

  // Main result: at every moment of every run, popping any state gives what a store that never sweeps gives.
  lemma ObservablyUnswept(ttl: int, es: seq<Event>, state: string, now: int)
    requires Clocked(es) && (es != [] ==> es[|es| - 1].finish <= now)
    ensures PopResult(Run(ttl, es), ttl, state, now) == PopResult(KeepRun(es), ttl, state, now)
  {
    hide Run, KeepRun, Clocked;
    SweepIsInvisible(ttl, es, now);
  }

  // The last call in a history that concerned a state, as one more than its index; 0 when none did.
  function LastCall(es: seq<Event>, state: string): (n: nat)
    ensures n <= |es|
  {
    if es == [] then 0
    else if es[|es| - 1].state == state then |es|
    else LastCall(es[..|es| - 1], state)
  }

  lemma {:induction false} LastCallIsLast(es: seq<Event>, state: string)
    ensures var n := LastCall(es, state);
            (n > 0 ==> es[n - 1].state == state) && forall j :: n <= j < |es| ==> es[j].state != state
  {
    if es != [] && es[|es| - 1].state != state {
      LastCallIsLast(es[..|es| - 1], state);
    }
  }

  // The verifier a pop is due by history: the last call for the state was a Set, at most ttl ago.
  function Due(ttl: int, es: seq<Event>, state: string, now: int): Option<string> {
    var n := LastCall(es, state);
    if n > 0 && es[n - 1].Set? && now - es[n - 1].start <= ttl then Some(es[n - 1].verifier) else None
  }

  lemma {:induction false} KeepRunIsLastCall(es: seq<Event>, state: string)
    ensures var n := LastCall(es, state);
            if n > 0 && es[n - 1].Set? then
              state in KeepRun(es) && KeepRun(es)[state] == Entry(es[n - 1].verifier, es[n - 1].start)
            else state !in KeepRun(es)
  {
    if es != [] {
      KeepRunIsLastCall(es[..|es| - 1], state);
    }
  }

  // Main result, on histories: a pop succeeds exactly when the last call for its state was a Set at most ttl
  // before, and then yields that Set's verifier.
  lemma PopFollowsHistory(ttl: int, es: seq<Event>, state: string, now: int)
    requires Clocked(es) && (es != [] ==> es[|es| - 1].finish <= now)
    ensures PopResult(Run(ttl, es), ttl, state, now) == Due(ttl, es, state, now)
  {
    ObservablyUnswept(ttl, es, state, now);
    KeepRunIsLastCall(es, state);
  }

  // Hence each Set is redeemed at most once: two successful pops of a state have a Set between them.
  lemma EachSetRedeemedOnce(ttl: int, es: seq<Event>, i: nat, j: nat)
    requires Clocked(es) && i < j < |es| && es[i].Pop? && es[j].Pop? && es[i].state == es[j].state
    requires PopResult(Run(ttl, es[..j]), ttl, es[j].state, es[j].start).Some?
    ensures var n := LastCall(es[..j], es[j].state); i + 1 < n && es[n - 1].Set?
  {
    var before := es[..j];
    assert forall k :: 0 <= k < j ==> before[k] == es[k];
    PopFollowsHistory(ttl, before, es[j].state, es[j].start);
    LastCallIsLast(before, es[j].state);
  }
}
