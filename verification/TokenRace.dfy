// Refresh tokens as the database sees a rotation: a read, an update and an insert, each a statement of its own, in
// any interleaving (users.go, auth.go). Which schedules redeem one token twice, and how many live tokens a login's
// chain can then have.
module TokenRace {
  import opened Wrappers
  import Tokens

  // A redeemer between its read and its update: the token it found redeemable, and when.
  datatype Checked = Checked(hash: string, checkedAt: nat)

  // A redemption that succeeded, with the moments of its read and its update.
  datatype Done = Done(hash: string, checkedAt: nat, revokedAt: nat)

  // clock numbers the steps. chain is the login a token descends from; owed holds the redeemers that updated and
  // have yet to insert the next token of a chain. extra counts, by chain, the updates that met a revoked row, and
  // lost the tokens that were logged out and the inserts that were refused.
  datatype State = State(
    clock: nat, rows: Tokens.Rows, chain: map<string, nat>, logins: nat, pending: map<nat, Checked>,
    owed: map<nat, nat>, redeemed: seq<Done>, extra: multiset<nat>, lost: multiset<nat>)

  // now is the reading a check compares with the expiry, or the one an update or insert records; active says the
  // user exists and is enabled.
  datatype Event =
    | Login(hash: string, userId: string, ttl: int, now: int)
    | Check(redeemer: nat, hash: string, now: int)
    | Update(redeemer: nat, now: int)
    | Rotate(redeemer: nat, active: bool, next: string, userId: string, now: int)
    | Logout(hash: string, now: int)

  const START := State.State(0, map[], map[], 0, map[], map[], [], multiset{}, multiset{})

  predicate Live(s: State, hash: string) {
    hash in s.rows && s.rows[hash].revokedAt.None?
  }

  predicate Revoked(s: State, hash: string) {
    hash in s.rows && s.rows[hash].revokedAt.Some?
  }

  function ChainOf(s: State, hash: string): nat {
    if hash in s.chain then s.chain[hash] else 0
  }

  function AfterUpdate(s: State, r: nat, now: int): State
    requires r in s.pending
  {
    var Checked(h, at) := s.pending[r];
    s.(rows := Tokens.Marked(s.rows, h, now), pending := s.pending - {r}, owed := s.owed[r := ChainOf(s, h)],
       redeemed := s.redeemed + [Done(h, at, s.clock)],
       extra := if Live(s, h) then s.extra else s.extra + multiset{ChainOf(s, h)})
  }

  function AfterRotate(s: State, r: nat, active: bool, next: string, row: Tokens.TokenRow): State
    requires r in s.owed
  {
    var t := s.(owed := s.owed - {r});
    if !active || next in s.rows then t.(lost := s.lost + multiset{s.owed[r]})
    else t.(rows := s.rows[next := row], chain := s.chain[next := s.owed[r]])
  }

  function Act(s: State, e: Event): State {
    match e
    case Login(h, user, ttl, now) =>
      if h in s.rows then s
      else s.(rows := s.rows[h := Tokens.TokenRow(user, now, now + ttl, None)], chain := s.chain[h := s.logins],
              logins := s.logins + 1)
    case Check(r, h, now) =>
      if r in s.pending || r in s.owed || !Tokens.Redeemable(s.rows, h, now) then s
      else s.(pending := s.pending[r := Checked(h, s.clock)])
    case Update(r, now) => if r in s.pending then AfterUpdate(s, r, now) else s
    case Rotate(r, active, next, user, now) =>
      if r !in s.owed then s
      else AfterRotate(s, r, active, next, Tokens.TokenRow(user, now, now + Tokens.REFRESH_TTL, None))
    case Logout(h, now) =>
      s.(rows := Tokens.LogoutRows(s.rows, h, now),
         lost := if Live(s, h) then s.lost + multiset{ChainOf(s, h)} else s.lost)
  }

  function Apply(s: State, e: Event): State {
    Act(s, e).(clock := s.clock + 1)
  }

  function Run(es: seq<Event>): State {
    if es == [] then START else Apply(Run(es[..|es| - 1]), es[|es| - 1])
  }

  // ----- redemptions that overlap --------------------------------------------------------------------------

  // The second redemption's read came before the first one's update.
  predicate Overlap(first: Done, second: Done) {
    second.checkedAt < first.revokedAt
  }

  ghost predicate DoneSound(s: State) {
    && (forall i :: 0 <= i < |s.redeemed| ==>
          Revoked(s, s.redeemed[i].hash) && s.redeemed[i].checkedAt < s.redeemed[i].revokedAt < s.clock)
    && (forall i, j :: 0 <= i < j < |s.redeemed| ==> s.redeemed[i].revokedAt < s.redeemed[j].revokedAt)
    && (forall i, j :: 0 <= i < j < |s.redeemed| && s.redeemed[i].hash == s.redeemed[j].hash ==>
          Overlap(s.redeemed[i], s.redeemed[j]))
  }

  // What a redeemer found redeemable had not been redeemed by then.
  ghost predicate PendingSound(s: State) {
    forall r :: r in s.pending ==>
      && s.pending[r].hash in s.rows && s.pending[r].checkedAt < s.clock
      && forall i :: 0 <= i < |s.redeemed| && s.redeemed[i].hash == s.pending[r].hash ==>
           s.pending[r].checkedAt < s.redeemed[i].revokedAt
  }

  lemma RevokedStays(s: State, e: Event, hash: string)
    ensures hash in s.rows ==> hash in Apply(s, e).rows
    ensures Revoked(s, hash) ==> Revoked(Apply(s, e), hash)
  {
  }

  lemma RedeemableIsNew(s: State, hash: string, now: int)
    requires DoneSound(s) && Tokens.Redeemable(s.rows, hash, now)
    ensures hash in s.rows && forall i :: 0 <= i < |s.redeemed| ==> s.redeemed[i].hash != hash
  {
    assert forall i :: 0 <= i < |s.redeemed| ==> Revoked(s, s.redeemed[i].hash);
  }

  lemma UpdateRevokes(s: State, r: nat, now: int)
    requires PendingSound(s) && r in s.pending
    ensures Revoked(Apply(s, Update(r, now)), s.pending[r].hash)
  {
  }

  // What a step does to the redeemers and the redemptions.
  lemma StepEffect(s: State, e: Event)
    ensures var t := Apply(s, e);
            && t.clock == s.clock + 1
            && (if e.Update? && e.redeemer in s.pending then
                  t.pending == s.pending - {e.redeemer} &&
                  var c := s.pending[e.redeemer];
                  t.redeemed == s.redeemed + [Done(c.hash, c.checkedAt, s.clock)]
                else t.redeemed == s.redeemed && if t.pending == s.pending then true else
                  e.Check? && e.redeemer !in s.pending && Tokens.Redeemable(s.rows, e.hash, e.now) &&
                  t.pending == s.pending[e.redeemer := Checked(e.hash, s.clock)])
  {
  }

  lemma StepKeepsDone(s: State, e: Event)
    requires DoneSound(s) && PendingSound(s)
    ensures DoneSound(Apply(s, e))
  {
    hide Apply, Revoked;
    var t := Apply(s, e);
    StepEffect(s, e);
    if e.Update? && e.redeemer in s.pending {
      UpdateRevokes(s, e.redeemer, e.now);
    }
    forall i | 0 <= i < |t.redeemed|
      ensures Revoked(t, t.redeemed[i].hash)
    {
      if i < |s.redeemed| {
        RevokedStays(s, e, s.redeemed[i].hash);
      }
    }
  }

  lemma StepKeepsPending(s: State, e: Event)
    requires DoneSound(s) && PendingSound(s)
    ensures PendingSound(Apply(s, e))
  {
    hide Apply;
    StepEffect(s, e);
    if e.Check? && Tokens.Redeemable(s.rows, e.hash, e.now) {
      RedeemableIsNew(s, e.hash, e.now);
    }
    forall h | h in s.rows
      ensures h in Apply(s, e).rows
    {
      RevokedStays(s, e, h);
    }
    hide DoneSound, Tokens.Redeemable;
  }

  lemma {:induction false} RunsAreSound(es: seq<Event>)
    ensures DoneSound(Run(es)) && PendingSound(Run(es)) && Run(es).clock == |es|
  {
    if es != [] {
      hide Apply, DoneSound, PendingSound;
      var (before, e) := (es[..|es| - 1], es[|es| - 1]);
      RunsAreSound(before);
      StepEffect(Run(before), e);
      StepKeepsDone(Run(before), e);
      StepKeepsPending(Run(before), e);
    }
  }

  // ----- which schedules redeem a token twice ----------------------------------------------------------------

  predicate PendingOn(s: State, r: nat, hash: string) {
    r in s.pending && s.pending[r].hash == hash
  }

  lemma LastStep(es: seq<Event>)
    requires es != []
    ensures Run(es) == Apply(Run(es[..|es| - 1]), es[|es| - 1])
    ensures forall m :: 0 <= m < |es| ==> es[..|es| - 1][..m] == es[..m]
  {
  }

  // A redemption comes from an update by a redeemer pending on the token.
  lemma {:induction false} DoneFromUpdate(es: seq<Event>, k: nat) returns (r: nat)
    requires k < |Run(es).redeemed|
    ensures var d := Run(es).redeemed[k];
            && d.revokedAt < |es| && es[d.revokedAt].Update? && es[d.revokedAt].redeemer == r
            && r in Run(es[..d.revokedAt]).pending
            && Run(es[..d.revokedAt]).pending[r] == Checked(d.hash, d.checkedAt)
  {
    hide Apply;
    var (before, e) := (es[..|es| - 1], es[|es| - 1]);
    LastStep(es);
    RunsAreSound(before);
    StepEffect(Run(before), e);
    if k < |Run(before).redeemed| {
      r := DoneFromUpdate(before, k);
    } else {
      r := e.redeemer;
      assert es[..|es| - 1] == before;
    }
  }

  // A redeemer has been pending since its read.
  lemma {:induction false} PendingSince(es: seq<Event>, r: nat, m: nat)
    requires r in Run(es).pending && Run(es).pending[r].checkedAt < m <= |es|
    ensures r in Run(es[..m]).pending && Run(es[..m]).pending[r] == Run(es).pending[r]
  {
    if m == |es| {
      assert es[..m] == es;
    } else {
      hide Apply;
      var before := es[..|es| - 1];
      LastStep(es);
      RunsAreSound(before);
      StepEffect(Run(before), es[|es| - 1]);
      PendingSince(before, r, m);
    }
  }

  predicate UpdatesAt(es: seq<Event>, u: nat, r: nat) {
    u < |es| && es[u].Update? && es[u].redeemer == r
  }

  // A redeemer stays pending until it updates.
  lemma {:induction false} PendingUntilUpdate(es: seq<Event>, r: nat, m: nat)
    requires m <= |es| && r in Run(es[..m]).pending && forall u :: m <= u < |es| ==> !UpdatesAt(es, u, r)
    ensures r in Run(es).pending && Run(es).pending[r] == Run(es[..m]).pending[r]
  {
    if m == |es| {
      assert es[..m] == es;
    } else {
      hide Apply;
      var before := es[..|es| - 1];
      LastStep(es);
      StepEffect(Run(before), es[|es| - 1]);
      assert forall u :: m <= u < |before| ==> UpdatesAt(before, u, r) == UpdatesAt(es, u, r);
      PendingUntilUpdate(before, r, m);
      assert !UpdatesAt(es, |es| - 1, r);
    }
  }

  // And its update redeems the token, for good.
  lemma {:induction false} UpdateRedeems(es: seq<Event>, r: nat, t: nat) returns (k: nat)
    requires UpdatesAt(es, t, r) && r in Run(es[..t]).pending
    ensures k < |Run(es).redeemed| && Run(es).redeemed[k].revokedAt == t
    ensures Run(es).redeemed[k].hash == Run(es[..t]).pending[r].hash
  {
    hide Apply;
    var before := es[..|es| - 1];
    LastStep(es);
    RunsAreSound(before);
    StepEffect(Run(before), es[|es| - 1]);
    if t == |es| - 1 {
      assert es[..t] == before;
      k := |Run(before).redeemed|;
    } else {
      k := UpdateRedeems(before, r, t);
    }
  }

  lemma {:induction false} FirstUpdate(es: seq<Event>, r: nat, m: nat, u: nat) returns (v: nat)
    requires m <= u && UpdatesAt(es, u, r)
    ensures m <= v <= u && UpdatesAt(es, v, r) && forall w :: m <= w < v ==> !UpdatesAt(es, w, r)
    decreases u
  {
    if w :| m <= w < u && UpdatesAt(es, w, r) {
      v := FirstUpdate(es, r, m, w);
    } else {
      v := u;
    }
  }

  ghost predicate RedeemedTwice(s: State, hash: string) {
    exists i, j :: 0 <= i < j < |s.redeemed| && s.redeemed[i].hash == s.redeemed[j].hash == hash
  }

  // The schedule: at the update of one redeemer another one is pending on the same token, and updates later.
  ghost predicate RacingAt(es: seq<Event>, hash: string, t: nat, u: nat) {
    && t < u < |es| && es[t].Update? && es[u].Update? && es[t].redeemer != es[u].redeemer
    && PendingOn(Run(es[..t]), es[t].redeemer, hash) && PendingOn(Run(es[..t]), es[u].redeemer, hash)
  }

  lemma TwiceMeansRace(es: seq<Event>, hash: string) returns (t: nat, u: nat)
    requires RedeemedTwice(Run(es), hash)
    ensures RacingAt(es, hash, t, u)
  {
    hide Run, Apply;
    var s := Run(es);
    var i, j :| 0 <= i < j < |s.redeemed| && s.redeemed[i].hash == s.redeemed[j].hash == hash;
    RunsAreSound(es);
    t, u := s.redeemed[i].revokedAt, s.redeemed[j].revokedAt;
    var q := DoneFromUpdate(es, i);
    var r := DoneFromUpdate(es, j);
    assert es[..u][..t] == es[..t] && es[..u][..t + 1] == es[..t + 1];
    PendingSince(es[..u], r, t);
    PendingSince(es[..u], r, t + 1);
    assert es[..t + 1][..t] == es[..t];
    LastStep(es[..t + 1]);
    StepEffect(Run(es[..t]), es[t]);
  }

  lemma RaceMeansTwice(es: seq<Event>, hash: string, t: nat, u: nat)
    requires RacingAt(es, hash, t, u)
    ensures RedeemedTwice(Run(es), hash)
  {
    hide Run, Apply;
    var (q, r) := (es[t].redeemer, es[u].redeemer);
    var i := UpdateRedeems(es, q, t);
    var v := FirstUpdate(es, r, t, u);
    assert es[..v][..t] == es[..t] && forall w :: t <= w < v ==> UpdatesAt(es[..v], w, r) == UpdatesAt(es, w, r);
    PendingUntilUpdate(es[..v], r, t);
    var j := UpdateRedeems(es, r, v);
    var s := Run(es);
    assert i != j;
    var (first, second) := if i < j then (i, j) else (j, i);
    assert s.redeemed[first].hash == s.redeemed[second].hash == hash;
  }

  // A token is redeemed twice in a run exactly when, at some redeemer's update, another redeemer had already read
  // the token too, and updates later. Without such a schedule, each token is redeemed at most once.
  lemma TwiceIffRace(es: seq<Event>, hash: string)
    ensures RedeemedTwice(Run(es), hash) <==> exists t, u :: RacingAt(es, hash, t, u)
  {
    if RedeemedTwice(Run(es), hash) {
      var t, u := TwiceMeansRace(es, hash);
    }
    if t, u :| RacingAt(es, hash, t, u) {
      RaceMeansTwice(es, hash, t, u);
    }
  }

  // Every redemption of the token, done or under way, read it before moment i.
  ghost predicate CheckedBefore(s: State, hash: string, i: nat) {
    && Revoked(s, hash)
    && (forall k :: 0 <= k < |s.redeemed| && s.redeemed[k].hash == hash ==> s.redeemed[k].checkedAt < i)
    && (forall r :: r in s.pending && s.pending[r].hash == hash ==> s.pending[r].checkedAt < i)
  }

  lemma StepKeepsCheckedBefore(s: State, e: Event, hash: string, i: nat)
    requires CheckedBefore(s, hash, i)
    ensures CheckedBefore(Apply(s, e), hash, i)
  {
    RevokedStays(s, e, hash);
    StepEffect(s, e);
    assert e.Check? && e.hash == hash ==> !Tokens.Redeemable(s.rows, hash, e.now);
    hide Apply, Revoked, Tokens.Redeemable;
  }

  // No interleaving redeems a token whose read came after a logout's update, or after another redemption's.
  lemma {:induction false} RevokedTokensAreSpent(es: seq<Event>, i: nat, hash: string)
    requires i <= |es| && Revoked(Run(es[..i]), hash)
    ensures CheckedBefore(Run(es), hash, i)
    decreases |es|
  {
    hide Apply;
    if i < |es| {
      var before := es[..|es| - 1];
      assert before[..i] == es[..i];
      RevokedTokensAreSpent(before, i, hash);
      StepKeepsCheckedBefore(Run(before), es[|es| - 1], hash, i);
    } else {
      assert es[..i] == es;
      RunsAreSound(es);
    }
  }

  // ----- live tokens of a chain ----------------------------------------------------------------------------------

  function LiveIn(s: State, c: nat): set<string> {
    set h | h in s.rows && Live(s, h) && ChainOf(s, h) == c
  }

  function OwedIn(s: State, c: nat): set<nat> {
    set r | r in s.owed && s.owed[r] == c
  }

  ghost predicate Chained(s: State) {
    && s.chain.Keys == s.rows.Keys && s.pending.Keys !! s.owed.Keys
    && (forall h :: h in s.chain ==> s.chain[h] < s.logins) && (forall r :: r in s.owed ==> s.owed[r] < s.logins)
    && (forall r :: r in s.pending ==> s.pending[r].hash in s.rows)
  }

  // Each login puts one token into its chain. An update takes one out and owes one, except that on a revoked row it
  // takes none; an insert pays what is owed, and logouts and refused inserts lose one.
  ghost predicate Balanced(s: State, c: nat) {
    |LiveIn(s, c)| + |OwedIn(s, c)| + s.lost[c] == (if c < s.logins then 1 else 0) + s.extra[c]
  }

  lemma UpdateKeepsChained(s: State, r: nat, now: int)
    requires Chained(s) && r in s.pending
    ensures Chained(AfterUpdate(s, r, now))
  {
  }

  lemma RotateKeepsChained(s: State, r: nat, active: bool, next: string, row: Tokens.TokenRow)
    requires Chained(s) && r in s.owed
    ensures Chained(AfterRotate(s, r, active, next, row))
  {
  }

  lemma LoginKeepsChained(s: State, h: string, user: string, ttl: int, now: int)
    requires Chained(s)
    ensures Chained(Act(s, Login(h, user, ttl, now)))
  {
  }

  lemma CheckKeepsChained(s: State, r: nat, h: string, now: int)
    requires Chained(s)
    ensures Chained(Act(s, Check(r, h, now)))
  {
  }

  lemma RowsAreNoMatter(s: State, t: State)
    requires Chained(s) && t.rows.Keys == s.rows.Keys && t.chain == s.chain && t.logins == s.logins
    requires t.pending == s.pending && t.owed == s.owed
    ensures Chained(t)
  {
  }

  lemma StepKeepsChained(s: State, e: Event)
    requires Chained(s)
    ensures Chained(Apply(s, e))
  {
    hide Chained, AfterUpdate, AfterRotate, ChainOf, Tokens.Redeemable;
    var t := Act(s, e);
    match e {
    case Login(h, user, ttl, now) => LoginKeepsChained(s, h, user, ttl, now);
    case Check(r, h, now) => CheckKeepsChained(s, r, h, now);
    case Update(r, now) =>
      if r in s.pending {
        UpdateKeepsChained(s, r, now);
      }
    case Rotate(r, active, next, user, now) =>
      if r in s.owed {
        RotateKeepsChained(s, r, active, next, Tokens.TokenRow(user, now, now + Tokens.REFRESH_TTL, None));
      }
    case Logout(h, now) => RowsAreNoMatter(s, t);
    }
    RowsAreNoMatter(t, Apply(s, e));
  }

  lemma LiveAfterRevoke(s: State, t: State, h: string, now: int, c: nat)
    requires t.rows == Tokens.Marked(s.rows, h, now) && t.chain == s.chain
    ensures |LiveIn(t, c)| == |LiveIn(s, c)| - if Live(s, h) && ChainOf(s, h) == c then 1 else 0
  {
    assert LiveIn(t, c) == LiveIn(s, c) - {h};
    assert h in LiveIn(s, c) <==> Live(s, h) && ChainOf(s, h) == c;
  }

  lemma LiveAfterIssue(s: State, t: State, h: string, row: Tokens.TokenRow, chain: nat, c: nat)
    requires h !in s.rows && row.revokedAt.None? && t.rows == s.rows[h := row] && t.chain == s.chain[h := chain]
    ensures |LiveIn(t, c)| == |LiveIn(s, c)| + if c == chain then 1 else 0
  {
    assert h !in LiveIn(s, c);
    forall g
      ensures g in LiveIn(t, c) <==> g in LiveIn(s, c) || (g == h && c == chain)
    {
      LiveElsewhere(s, t, h, row, chain, c, g);
    }
    hide LiveIn;
    if c == chain {
      assert LiveIn(t, c) == LiveIn(s, c) + {h};
    } else {
      assert LiveIn(t, c) == LiveIn(s, c);
    }
  }

  lemma LiveElsewhere(s: State, t: State, h: string, row: Tokens.TokenRow, chain: nat, c: nat, g: string)
    requires h !in s.rows && row.revokedAt.None? && t.rows == s.rows[h := row] && t.chain == s.chain[h := chain]
    ensures g in LiveIn(t, c) <==> g in LiveIn(s, c) || (g == h && c == chain)
  {
  }

  lemma OwedAfterUpdate(s: State, t: State, r: nat, d: nat, c: nat)
    requires r !in s.owed && t.owed == s.owed[r := d]
    ensures |OwedIn(t, c)| == |OwedIn(s, c)| + if c == d then 1 else 0
  {
    assert OwedIn(t, c) == OwedIn(s, c) + if c == d then {r} else {};
    assert r !in OwedIn(s, c);
  }

  lemma OwedAfterRotate(s: State, t: State, r: nat, c: nat)
    requires r in s.owed && t.owed == s.owed - {r}
    ensures |OwedIn(t, c)| == |OwedIn(s, c)| - if s.owed[r] == c then 1 else 0
  {
    assert OwedIn(t, c) == OwedIn(s, c) - {r};
    assert r in OwedIn(s, c) <==> s.owed[r] == c;
  }

  lemma SameLive(s: State, t: State, c: nat)
    requires t.rows == s.rows && t.chain == s.chain
    ensures LiveIn(t, c) == LiveIn(s, c)
  {
  }

  lemma SameOwed(s: State, t: State, c: nat)
    requires t.owed == s.owed
    ensures OwedIn(t, c) == OwedIn(s, c)
  {
  }

  lemma LoginBalances(s: State, h: string, user: string, ttl: int, now: int, c: nat)
    requires Chained(s) && Balanced(s, c)
    requires LiveIn(s, s.logins) == {} && OwedIn(s, s.logins) == {}
    ensures Balanced(Act(s, Login(h, user, ttl, now)), c)
  {
    if h !in s.rows {
      hide LiveIn, OwedIn, Live, Chained;
      var t := Act(s, Login(h, user, ttl, now));
      LiveAfterIssue(s, t, h, Tokens.TokenRow(user, now, now + ttl, None), s.logins, c);
      SameOwed(s, t, c);
    }
  }

  lemma UpdateBalances(s: State, r: nat, now: int, c: nat)
    requires Chained(s) && Balanced(s, c) && r in s.pending
    ensures Balanced(AfterUpdate(s, r, now), c)
  {
    assert r !in s.owed;
    hide LiveIn, OwedIn, Live, Chained, ChainOf;
    var (t, h) := (AfterUpdate(s, r, now), s.pending[r].hash);
    LiveAfterRevoke(s, t, h, now, c);
    OwedAfterUpdate(s, t, r, ChainOf(s, h), c);
  }

  lemma RotateBalances(s: State, r: nat, active: bool, next: string, row: Tokens.TokenRow, c: nat)
    requires Balanced(s, c) && r in s.owed && row.revokedAt.None?
    ensures Balanced(AfterRotate(s, r, active, next, row), c)
  {
    hide LiveIn, OwedIn;
    var t := AfterRotate(s, r, active, next, row);
    OwedAfterRotate(s, t, r, c);
    if !active || next in s.rows {
      SameLive(s, t, c);
    } else {
      LiveAfterIssue(s, t, next, row, s.owed[r], c);
    }
  }

  lemma LogoutBalances(s: State, h: string, now: int, c: nat)
    requires Balanced(s, c)
    ensures Balanced(Act(s, Logout(h, now)), c)
  {
    hide LiveIn, OwedIn, ChainOf;
    var t := Act(s, Logout(h, now));
    SameOwed(s, t, c);
    if Live(s, h) {
      LiveAfterRevoke(s, t, h, now, c);
    } else {
      SameLive(s, t, c);
    }
  }

  lemma NothingInNewChain(s: State)
    requires Chained(s)
    ensures LiveIn(s, s.logins) == {} && OwedIn(s, s.logins) == {}
  {
    assert forall h :: h in s.rows ==> ChainOf(s, h) < s.logins;
  }

  lemma StepKeepsBalance(s: State, e: Event, c: nat)
    requires Chained(s) && Balanced(s, c)
    ensures Balanced(Apply(s, e), c)
  {
    SameTokens(Act(s, e), Apply(s, e), c);
    hide Balanced, Chained, LiveIn, OwedIn, AfterUpdate, AfterRotate, ChainOf, Tokens.Redeemable;
    match e
    case Login(h, user, ttl, now) =>
      NothingInNewChain(s);
      LoginBalances(s, h, user, ttl, now, c);
    case Check(r, h, now) => SameTokens(s, Act(s, e), c);
    case Update(r, now) =>
      if r in s.pending {
        UpdateBalances(s, r, now, c);
      }
    case Rotate(r, active, next, user, now) =>
      if r in s.owed {
        RotateBalances(s, r, active, next, Tokens.TokenRow(user, now, now + Tokens.REFRESH_TTL, None), c);
      }
    case Logout(h, now) => LogoutBalances(s, h, now, c);
  }

  lemma SameTokens(s: State, t: State, c: nat)
    requires t.rows == s.rows && t.chain == s.chain && t.owed == s.owed && t.logins == s.logins
    requires t.extra == s.extra && t.lost == s.lost
    ensures Balanced(s, c) <==> Balanced(t, c)
  {
    SameLive(s, t, c);
    SameOwed(s, t, c);
  }

  // In every interleaving each chain balances.
  lemma {:induction false} ChainsBalance(es: seq<Event>, c: nat)
    ensures Chained(Run(es)) && Balanced(Run(es), c)
  {
    if es == [] {
      assert LiveIn(START, c) == {} && OwedIn(START, c) == {};
    } else {
      hide Apply, Chained, Balanced;
      ChainsBalance(es[..|es| - 1], c);
      StepKeepsChained(Run(es[..|es| - 1]), es[|es| - 1]);
      StepKeepsBalance(Run(es[..|es| - 1]), es[|es| - 1], c);
    }
  }

  // An update that meets a row already revoked, by another redemption or by a logout, since its redeemer read it.
  predicate Late(s: State, e: Event, c: nat) {
    && e.Update? && e.redeemer in s.pending
    && !Live(s, s.pending[e.redeemer].hash) && ChainOf(s, s.pending[e.redeemer].hash) == c
  }

  predicate LateAt(es: seq<Event>, t: nat, c: nat) {
    t < |es| && Late(Run(es[..t]), es[t], c)
  }

  lemma ExtraStep(s: State, e: Event, c: nat)
    ensures Apply(s, e).extra[c] == s.extra[c] + if Late(s, e, c) then 1 else 0
  {
  }

  lemma LateInPrefix(es: seq<Event>, c: nat)
    requires es != []
    ensures forall t :: 0 <= t < |es| - 1 ==> LateAt(es[..|es| - 1], t, c) == LateAt(es, t, c)
  {
    hide Run, Live, ChainOf;
    assert forall t :: 0 <= t < |es| - 1 ==> es[..|es| - 1][..t] == es[..t];
  }

  lemma {:induction false} ExtraIffLate(es: seq<Event>, c: nat)
    ensures Run(es).extra[c] > 0 <==> exists t :: LateAt(es, t, c)
  {
    if es == [] {
      assert forall t :: !LateAt(es, t, c);
    } else {
      hide LateAt, Run, Apply;
      var (before, last) := (es[..|es| - 1], |es| - 1);
      ExtraAtLastStep(es, c);
      LateInPrefix(es, c);
      ExtraIffLate(before, c);
      if t: nat :| LateAt(before, t, c) {
        LateIsInside(before, t, c);
        assert LateAt(es, t, c);
      } else if t: nat :| LateAt(es, t, c) {
        LateIsInside(es, t, c);
        assert t < last ==> LateAt(before, t, c);
      }
    }
  }

  lemma LateIsInside(es: seq<Event>, t: nat, c: nat)
    requires LateAt(es, t, c)
    ensures t < |es|
  {
  }

  lemma ExtraAtLastStep(es: seq<Event>, c: nat)
    requires es != []
    ensures Run(es).extra[c] == Run(es[..|es| - 1]).extra[c] + if LateAt(es, |es| - 1, c) then 1 else 0
  {
    hide Apply, Live, ChainOf;
    LastStep(es);
    ExtraStep(Run(es[..|es| - 1]), es[|es| - 1], c);
  }

  // So a chain has more than one live token only after such an update, and once nothing is owed or lost it has one
  // more for each.
  lemma LiveTokensOfChain(es: seq<Event>, c: nat)
    ensures var s := Run(es);
            && |LiveIn(s, c)| <= 1 + s.extra[c]
            && ((forall t :: !LateAt(es, t, c)) ==> |LiveIn(s, c)| <= 1)
            && (c < s.logins && OwedIn(s, c) == {} && s.lost[c] == 0 ==> |LiveIn(s, c)| == 1 + s.extra[c])
  {
    hide Run, LiveIn, OwedIn, LateAt;
    ChainsBalance(es, c);
    ExtraIffLate(es, c);
  }

  // A chain that is over: nothing live, and nothing on its way.
  predicate Dead(s: State, c: nat) {
    LiveIn(s, c) == {} && OwedIn(s, c) == {}
  }

  lemma DeadBySize(s: State, c: nat)
    ensures Dead(s, c) <==> |LiveIn(s, c)| == 0 && |OwedIn(s, c)| == 0
  {
  }

  lemma DeadIssue(s: State, t: State, h: string, row: Tokens.TokenRow, chain: nat, c: nat)
    requires h !in s.rows && row.revokedAt.None? && t.rows == s.rows[h := row] && t.chain == s.chain[h := chain]
    requires t.owed == s.owed && chain != c && Dead(s, c)
    ensures Dead(t, c)
  {
    hide LiveIn, OwedIn, Dead;
    DeadBySize(s, c);
    DeadBySize(t, c);
    LiveAfterIssue(s, t, h, row, chain, c);
    SameOwed(s, t, c);
  }

  lemma DeadUpdate(s: State, r: nat, now: int, c: nat)
    requires Chained(s) && r in s.pending && Dead(s, c)
    ensures Dead(AfterUpdate(s, r, now), c) <==> !Late(s, Update(r, now), c)
  {
    assert r !in s.owed;
    var h := s.pending[r].hash;
    assert Live(s, h) && ChainOf(s, h) == c <==> h in LiveIn(s, c);
    hide LiveIn, OwedIn, Dead, Live, Chained, ChainOf;
    var t := AfterUpdate(s, r, now);
    DeadBySize(s, c);
    DeadBySize(t, c);
    LiveAfterRevoke(s, t, h, now, c);
    OwedAfterUpdate(s, t, r, ChainOf(s, h), c);
  }

  lemma DeadRotate(s: State, r: nat, active: bool, next: string, row: Tokens.TokenRow, c: nat)
    requires r in s.owed && row.revokedAt.None? && Dead(s, c)
    ensures Dead(AfterRotate(s, r, active, next, row), c)
  {
    assert s.owed[r] == c <==> r in OwedIn(s, c);
    hide LiveIn, OwedIn, Dead;
    var t := AfterRotate(s, r, active, next, row);
    DeadBySize(s, c);
    DeadBySize(t, c);
    OwedAfterRotate(s, t, r, c);
    if !active || next in s.rows {
      SameLive(s, t, c);
    } else {
      LiveAfterIssue(s, t, next, row, s.owed[r], c);
    }
  }

  lemma DeadLogout(s: State, h: string, now: int, c: nat)
    requires Dead(s, c)
    ensures Dead(Act(s, Logout(h, now)), c)
  {
    hide LiveIn, OwedIn, ChainOf, Dead;
    var t := Act(s, Logout(h, now));
    DeadBySize(s, c);
    DeadBySize(t, c);
    SameOwed(s, t, c);
    if Live(s, h) {
      LiveAfterRevoke(s, t, h, now, c);
    } else {
      SameLive(s, t, c);
    }
  }

  lemma DeadIsTokens(s: State, t: State, c: nat)
    requires t.rows == s.rows && t.chain == s.chain && t.owed == s.owed
    ensures Dead(s, c) <==> Dead(t, c)
  {
    SameLive(s, t, c);
    SameOwed(s, t, c);
  }

  // One step ends a dead chain's rest exactly when it is a late update on it.
  lemma DeadStep(s: State, e: Event, c: nat)
    requires Chained(s) && c < s.logins && Dead(s, c)
    ensures Dead(Apply(s, e), c) <==> !Late(s, e, c)
  {
    DeadIsTokens(Act(s, e), Apply(s, e), c);
    hide Chained, Dead, LiveIn, OwedIn, AfterUpdate, AfterRotate, ChainOf, Live, Tokens.Redeemable;
    match e
    case Login(h, user, ttl, now) =>
      if h !in s.rows {
        DeadIssue(s, Act(s, e), h, Tokens.TokenRow(user, now, now + ttl, None), s.logins, c);
      }
    case Check(r, h, now) => DeadIsTokens(s, Act(s, e), c);
    case Update(r, now) =>
      if r in s.pending {
        DeadUpdate(s, r, now, c);
      }
    case Rotate(r, active, next, user, now) =>
      if r in s.owed {
        DeadRotate(s, r, active, next, Tokens.TokenRow(user, now, now + Tokens.REFRESH_TTL, None), c);
      }
    case Logout(h, now) => DeadLogout(s, h, now, c);
  }

  lemma LoginsGrow(s: State, e: Event)
    ensures s.logins <= Apply(s, e).logins
  {
  }

  lemma {:induction false} LoginsStay(es: seq<Event>, i: nat, m: nat)
    requires i <= m <= |es|
    ensures Run(es[..i]).logins <= Run(es[..m]).logins
    decreases m
  {
    if i < m {
      hide Apply;
      LoginsStay(es, i, m - 1);
      assert es[..m][..m - 1] == es[..m - 1];
      LoginsGrow(Run(es[..m - 1]), es[m - 1]);
    }
  }

  lemma DeadAtStep(es: seq<Event>, i: nat, m: nat, c: nat)
    requires i <= m < |es| && c < Run(es[..i]).logins && Dead(Run(es[..m]), c)
    ensures Dead(Run(es[..m + 1]), c) <==> !LateAt(es, m, c)
  {
    hide Apply, Dead, Late;
    LoginsStay(es, i, m);
    ChainsBalance(es[..m], c);
    DeadStep(Run(es[..m]), es[m], c);
    assert es[..m + 1][..m] == es[..m];
  }

  lemma {:induction false} DeadUntilLate(es: seq<Event>, i: nat, m: nat, c: nat)
    requires i <= m <= |es| && c < Run(es[..i]).logins && Dead(Run(es[..i]), c)
    requires forall t :: i <= t < m ==> !LateAt(es, t, c)
    ensures Dead(Run(es[..m]), c)
    decreases m
  {
    if i < m {
      hide Run, Dead, LateAt;
      DeadUntilLate(es, i, m - 1, c);
      DeadAtStep(es, i, m - 1, c);
    }
  }

  // When a session that is over comes back: a chain with nothing live and nothing owed, after a logout say, stays so
  // exactly as long as no late update on it follows.
  lemma DeadStaysDeadIff(es: seq<Event>, i: nat, c: nat)
    requires i <= |es| && c < Run(es[..i]).logins && Dead(Run(es[..i]), c)
    ensures (forall m :: i <= m <= |es| ==> Dead(Run(es[..m]), c)) <==>
            (forall t :: i <= t < |es| ==> !LateAt(es, t, c))
  {
    hide Run, Dead, LateAt;
    if forall t :: i <= t < |es| ==> !LateAt(es, t, c) {
      forall m | i <= m <= |es|
        ensures Dead(Run(es[..m]), c)
      {
        DeadUntilLate(es, i, m, c);
      }
    } else {
      var t :| i <= t < |es| && LateAt(es, t, c);
      if forall m :: i <= m <= |es| ==> Dead(Run(es[..m]), c) {
        assert Dead(Run(es[..t]), c) && Dead(Run(es[..t + 1]), c);
        DeadAtStep(es, i, t, c);
        assert false;
      }
    }
  }

  // Two redeemers that both read a token before either updates it both redeem it, from any state,
  lemma BothSucceed(s: State, h: string, q: nat, r: nat, now: int, later: int)
    requires Chained(s) && Tokens.Redeemable(s.rows, h, now) && q != r
    requires q !in s.pending && q !in s.owed && r !in s.pending && r !in s.owed
    ensures var t := Apply(Apply(Apply(Apply(s, Check(q, h, now)), Check(r, h, now)), Update(q, later)),
                           Update(r, later));
            && t.redeemed == s.redeemed + [Done(h, s.clock, s.clock + 2), Done(h, s.clock + 1, s.clock + 3)]
            && t.rows == Tokens.Revoke(s.rows, h, later) && t.chain == s.chain
            && t.owed == s.owed[q := ChainOf(s, h)][r := ChainOf(s, h)]
  {
    hide AfterRotate, Tokens.LogoutRows;
    var s2 := Apply(Apply(s, Check(q, h, now)), Check(r, h, now));
    assert s2 == s.(clock := s.clock + 2, pending := s.pending[q := Checked(h, s.clock)][r := Checked(h, s.clock + 1)]);
    var s3 := Apply(s2, Update(q, later));
    assert s3.redeemed == s.redeemed + [Done(h, s.clock, s.clock + 2)] && r in s3.pending;
    var t := Apply(s3, Update(r, later));
    assert t.redeemed == s.redeemed + [Done(h, s.clock, s.clock + 2), Done(h, s.clock + 1, s.clock + 3)];
  }

  // and then both insert a token: the chain has two live ones.
  lemma RaceForksChain(s: State, h: string, q: nat, r: nat, m: string, n: string, user: string, now: int, later: int)
    requires Chained(s) && Tokens.Redeemable(s.rows, h, now) && q != r
    requires q !in s.pending && q !in s.owed && r !in s.pending && r !in s.owed
    requires m !in s.rows && n !in s.rows && m != n
    ensures var raced := Apply(Apply(Apply(Apply(s, Check(q, h, now)), Check(r, h, now)), Update(q, later)),
                               Update(r, later));
            var t := Apply(Apply(raced, Rotate(q, true, m, user, later)), Rotate(r, true, n, user, later));
            {m, n} <= LiveIn(t, ChainOf(s, h))
  {
    var s2 := Apply(Apply(s, Check(q, h, now)), Check(r, h, now));
    var raced := Apply(Apply(s2, Update(q, later)), Update(r, later));
    BothSucceed(s, h, q, r, now, later);
    TwoRotations(raced, q, r, m, n, user, later);
  }

  lemma TwoRotations(s: State, q: nat, r: nat, m: string, n: string, user: string, now: int)
    requires q in s.owed && r in s.owed && q != r && s.owed[q] == s.owed[r] && m !in s.rows && n !in s.rows && m != n
    ensures {m, n} <= LiveIn(Apply(Apply(s, Rotate(q, true, m, user, now)), Rotate(r, true, n, user, now)), s.owed[q])
  {
  }

  // A logout between a redeemer's read and its update does not end the session: the chain goes on.
  lemma LogoutCanBeOutrun(s: State, h: string, r: nat, n: string, user: string, now: int, later: int)
    requires Chained(s) && Tokens.Redeemable(s.rows, h, now) && r !in s.pending && r !in s.owed && n !in s.rows
    ensures var out := Apply(Apply(s, Check(r, h, now)), Logout(h, now));
            var t := Apply(Apply(out, Update(r, later)), Rotate(r, true, n, user, later));
            Revoked(out, h) && n in LiveIn(t, ChainOf(s, h))
  {
  }
}
