// Refresh tokens (users.go, auth.go): issue, rotation and logout over the refresh_tokens table, in the sense
// of section 6 of RFC 6749. Redeeming a token is one step.
module Tokens {
  import opened Wrappers

  datatype TokenRow = TokenRow(userId: string, createdAt: int, expiresAt: int, revokedAt: Option<int>)

  // Keyed by the token's hash.
  type Rows = map<string, TokenRow>

  const SECOND: int := 1_000_000_000
  const REFRESH_TTL: int := 300_000_000_000
  const LONG_TTL: int := 86_400_000_000_000

  predicate Redeemable(rows: Rows, hash: string, now: int) {
    hash in rows && rows[hash].revokedAt.None? && now <= rows[hash].expiresAt
  }

  function Revoke(rows: Rows, hash: string, now: int): Rows
    requires hash in rows
  {
    rows[hash := rows[hash].(revokedAt := Some(now))]
  }

  // An update of the row with this hash, if there is one.
  function Marked(rows: Rows, hash: string, now: int): Rows {
    if hash in rows then Revoke(rows, hash, now) else rows
  }

  class TokenStore {
    var rows: Rows
    const digest: string -> string

    constructor (digest: string -> string)
      ensures rows == map[] && this.digest == digest
    {
      rows := map[];
      this.digest := digest;
    }

    // INSERT under the primary key on the hash.
    method StoreRefreshToken(token: string, userId: string, ttl: int, now: int) returns (ok: bool)
      modifies this
      ensures ok <==> digest(token) !in old(rows)
      ensures rows == if ok then old(rows)[digest(token) := TokenRow(userId, now, now + ttl, None)] else old(rows)
    {
      var hash := digest(token);
      ok := hash !in rows;
      if ok {
        rows := rows[hash := TokenRow(userId, now, now + ttl, None)];
      }
    }

    // The SELECT and the checks on what it found; now is the reading the expiry is compared with.
    method FindRedeemable(token: string, now: int) returns (userId: Option<string>)
      ensures userId ==
              if Redeemable(rows, digest(token), now) then Some(rows[digest(token)].userId) else None
    {
      var hash := digest(token);
      if hash !in rows {
        return None;
      }
      var row := rows[hash];
      if row.revokedAt.Some? {
        return None;
      }
      if now > row.expiresAt {
        return None;
      }
      return Some(row.userId);
    }

    // The UPDATE, which does not look whether the token is still unrevoked.
    method MarkRevoked(token: string, now: int)
      modifies this
      ensures rows == Marked(old(rows), digest(token), now)
    {
      var hash := digest(token);
      if hash in rows {
        rows := rows[hash := rows[hash].(revokedAt := Some(now))];
      }
    }

    // Both, with nothing in between; later is the reading recorded as the revocation.
    method ValidateAndRevokeRefreshToken(token: string, now: int, later: int) returns (userId: Option<string>)
      modifies this
      ensures userId ==
              if Redeemable(old(rows), digest(token), now) then Some(old(rows)[digest(token)].userId) else None
      ensures rows == if userId.Some? then Revoke(old(rows), digest(token), later) else old(rows)
    {
      userId := FindRedeemable(token, now);
      if userId.None? {
        return None;
      }
      MarkRevoked(token, later);
    }

    method RevokeRefreshToken(token: string, now: int)
      modifies this
      ensures rows == LogoutRows(old(rows), digest(token), now)
    {
      var hash := digest(token);
      if hash in rows && rows[hash].revokedAt.None? {
        rows := rows[hash := rows[hash].(revokedAt := Some(now))];
      }
    }
  }

  function LogoutRows(rows: Rows, hash: string, now: int): Rows {
    if hash in rows && rows[hash].revokedAt.None? then Revoke(rows, hash, now) else rows
  }

  // ----- the auth handlers ---------------------------------------------------------------------------------

  // What refreshing does to the table, and whether a new token is out. active says the user exists and is
  // enabled; next is the hash of the token just generated.
  function RefreshRows(rows: Rows, hash: string, now: int, later: int, active: bool, next: string, issuedAt: int)
    : (Rows, bool)
  {
    if !Redeemable(rows, hash, now) then (rows, false)
    else
      var spent := Revoke(rows, hash, later);
      if !active || next in spent then (spent, false)
      else (spent[next := TokenRow(rows[hash].userId, issuedAt, issuedAt + REFRESH_TTL, None)], true)
  }

  class Auth {
    const store: TokenStore

    constructor (digest: string -> string)
      ensures fresh(store) && store.rows == map[] && store.digest == digest
    {
      store := new TokenStore(digest);
    }

    // issueTokensFor and issueLongTokensFor: they differ in the lifetime only.
    method IssueTokens(userId: string, token: string, long: bool, now: int) returns (ok: bool)
      modifies store
      ensures ok <==> store.digest(token) !in old(store.rows)
      ensures store.rows == if !ok then old(store.rows)
                            else old(store.rows)[store.digest(token) :=
                                   TokenRow(userId, now, now + SECOND * if long then 24 * 60 * 60 else 5 * 60, None)]
    {
      ok := store.StoreRefreshToken(token, userId, if long then LONG_TTL else REFRESH_TTL, now);
    }

    // authRefresh with the lookup of the user and the generated token as inputs; "" stands for no token sent. The
    // clock is read for the expiry, for the revocation and for the new token.
    method Refresh(token: string, now: int, later: int, active: string -> bool, next: string, issuedAt: int)
      returns (ok: bool)
      modifies store
      ensures token == "" ==> store.rows == old(store.rows) && !ok
      ensures token != "" ==>
              var hash := store.digest(token);
              var isActive := hash in old(store.rows) && active(old(store.rows)[hash].userId);
              (store.rows, ok) == RefreshRows(old(store.rows), hash, now, later, isActive, store.digest(next), issuedAt)
    {
      if token == "" {
        return false;
      }
      var userId := store.ValidateAndRevokeRefreshToken(token, now, later);
      if userId.None? {
        return false;
      }
      if !active(userId.value) {
        return false;
      }
      ok := IssueTokens(userId.value, next, false, issuedAt);
    }

    method Logout(token: string, now: int)
      modifies store
      ensures store.rows ==
              if token == "" then old(store.rows) else LogoutRows(old(store.rows), store.digest(token), now)
    {
      if token != "" {
        store.RevokeRefreshToken(token, now);
      }
    }
  }

  // ----- histories -----------------------------------------------------------------------------------------

  // Tokens appear by their hashes. Every way to log in starts a chain.
  datatype Event =
    | Login(hash: string, userId: string, ttl: int, now: int)
    | Refresh(hash: string, now: int, later: int, active: bool, next: string, issuedAt: int)
    | Logout(hash: string, now: int)

  datatype Redemption = Redemption(hash: string, at: int)

  // The table, with the login each token descends from and the redemptions so far.
  datatype State = State(rows: Rows, chain: map<string, nat>, logins: nat, redeemed: seq<Redemption>)

  const START := State(map[], map[], 0, [])

  function Step(s: State, e: Event): State {
    match e
    case Login(h, user, ttl, now) =>
      if h in s.rows then s
      else s.(rows := s.rows[h := TokenRow(user, now, now + ttl, None)], chain := s.chain[h := s.logins],
              logins := s.logins + 1)
    case Refresh(h, now, later, active, next, at) =>
      var (rows, issued) := RefreshRows(s.rows, h, now, later, active, next, at);
      if !Redeemable(s.rows, h, now) then s
      else s.(rows := rows, redeemed := s.redeemed + [Redemption(h, now)],
              chain := if issued && h in s.chain then s.chain[next := s.chain[h]] else s.chain)
    case Logout(h, now) => s.(rows := LogoutRows(s.rows, h, now))
  }

  function Run(es: seq<Event>): State {
    if es == [] then START else Step(Run(es[..|es| - 1]), es[|es| - 1])
  }

  predicate Unrevoked(s: State, h: string) {
    h in s.rows && s.rows[h].revokedAt.None?
  }

  ghost predicate ChainsSound(s: State) {
    && s.chain.Keys == s.rows.Keys && (forall h :: h in s.chain ==> s.chain[h] < s.logins)
    && (forall g, h :: Unrevoked(s, g) && Unrevoked(s, h) && s.chain[g] == s.chain[h] ==> g == h)
    && (forall g, h :: g in s.rows && h in s.rows && s.chain[g] == s.chain[h] ==> s.rows[g].userId == s.rows[h].userId)
  }

  ghost predicate RedemptionsSound(s: State) {
    && (forall i :: 0 <= i < |s.redeemed| ==>
          s.redeemed[i].hash in s.rows && s.rows[s.redeemed[i].hash].revokedAt.Some? &&
          s.redeemed[i].at <= s.rows[s.redeemed[i].hash].expiresAt)
    && (forall i, j :: 0 <= i < j < |s.redeemed| ==> s.redeemed[i].hash != s.redeemed[j].hash)
  }

  // Rows are never removed, and a row only ever changes by being revoked, once.
  ghost predicate OnlyRevokes(before: Rows, after: Rows) {
    forall h :: h in before ==>
      && h in after && after[h].userId == before[h].userId && after[h].expiresAt == before[h].expiresAt
      && (before[h].revokedAt.Some? ==> after[h].revokedAt == before[h].revokedAt)
  }

  lemma StepOnlyRevokes(s: State, e: Event)
    ensures OnlyRevokes(s.rows, Step(s, e).rows)
  {
  }

  lemma RevokingKeepsChains(s: State, h: string, now: int)
    requires ChainsSound(s) && h in s.rows && s.rows[h].revokedAt.None?
    ensures var t := s.(rows := Revoke(s.rows, h, now));
            && ChainsSound(t)
            && (forall g {:trigger Unrevoked(t, g)} :: Unrevoked(t, g) ==> Unrevoked(s, g) && t.chain[g] != s.chain[h])
  {
    var t := s.(rows := Revoke(s.rows, h, now));
    forall g | Unrevoked(t, g)
      ensures g in t.chain && Unrevoked(s, g) && t.chain[g] != s.chain[h]
    {
      assert g != h && Unrevoked(s, g) && Unrevoked(s, h);
    }
    forall g | g in t.rows
      ensures g in s.rows && t.rows[g].userId == s.rows[g].userId
    {
    }
  }

  // A new row may join chain c as its only unrevoked token, for the user of c's other tokens.
  lemma IssuingKeepsChains(s: State, h: string, row: TokenRow, c: nat, logins: nat)
    requires ChainsSound(s) && h !in s.rows && s.logins <= logins && c < logins
    requires forall g {:trigger Unrevoked(s, g)} :: Unrevoked(s, g) ==> s.chain[g] != c
    requires forall g {:trigger s.rows[g]} :: g in s.rows && s.chain[g] == c ==> s.rows[g].userId == row.userId
    ensures ChainsSound(s.(rows := s.rows[h := row], chain := s.chain[h := c], logins := logins))
  {
    var t := s.(rows := s.rows[h := row], chain := s.chain[h := c], logins := logins);
    forall f, g | Unrevoked(t, f) && Unrevoked(t, g) && t.chain[f] == t.chain[g]
      ensures f == g
    {
      assert f == h || Unrevoked(s, f);
      assert g == h || Unrevoked(s, g);
    }
    forall f, g | f in t.rows && g in t.rows && t.chain[f] == t.chain[g]
      ensures t.rows[f].userId == t.rows[g].userId
    {
      assert f == h || f in s.rows;
      assert g == h || g in s.rows;
    }
  }

  lemma RefreshKeepsChains(s: State, h: string, later: int, next: string, row: TokenRow)
    requires ChainsSound(s) && h in s.rows && s.rows[h].revokedAt.None? && next !in s.rows
    requires row.userId == s.rows[h].userId
    ensures h in s.chain
    ensures ChainsSound(s.(rows := Revoke(s.rows, h, later)[next := row], chain := s.chain[next := s.chain[h]]))
  {
    RevokingKeepsChains(s, h, later);
    var spent := s.(rows := Revoke(s.rows, h, later));
    forall g | g in spent.rows && spent.chain[g] == s.chain[h]
      ensures spent.rows[g].userId == row.userId
    {
      assert g in s.rows;
    }
    IssuingKeepsChains(spent, next, row, s.chain[h], s.logins);
  }

  lemma LoginKeepsChains(s: State, h: string, row: TokenRow)
    requires ChainsSound(s) && h !in s.rows
    ensures ChainsSound(s.(rows := s.rows[h := row], chain := s.chain[h := s.logins], logins := s.logins + 1))
  {
    IssuingKeepsChains(s, h, row, s.logins, s.logins + 1);
  }

  lemma ChainsIgnoreRedemptions(s: State, redeemed: seq<Redemption>)
    requires ChainsSound(s)
    ensures ChainsSound(s.(redeemed := redeemed))
  {
    var t := s.(redeemed := redeemed);
    assert forall g {:trigger Unrevoked(t, g)} :: Unrevoked(t, g) ==> Unrevoked(s, g);
  }

  lemma StepKeepsChains(s: State, e: Event)
    requires ChainsSound(s)
    ensures ChainsSound(Step(s, e))
  {
    hide ChainsSound;
    match e
    case Login(h, user, ttl, now) =>
      if h !in s.rows {
        LoginKeepsChains(s, h, TokenRow(user, now, now + ttl, None));
      }
    case Refresh(h, now, later, active, next, at) =>
      if Redeemable(s.rows, h, now) {
        RevokingKeepsChains(s, h, later);
        var moved := s.(rows := Revoke(s.rows, h, later));
        if active && next !in s.rows {
          var row := TokenRow(s.rows[h].userId, at, at + REFRESH_TTL, None);
          RefreshKeepsChains(s, h, later, next, row);
          moved := moved.(rows := moved.rows[next := row], chain := s.chain[next := s.chain[h]]);
        }
        ChainsIgnoreRedemptions(moved, s.redeemed + [Redemption(h, now)]);
      }
    case Logout(h, now) =>
      if h in s.rows && s.rows[h].revokedAt.None? {
        RevokingKeepsChains(s, h, now);
      }
  }

  lemma StepKeepsRedemptions(s: State, e: Event)
    requires RedemptionsSound(s)
    ensures RedemptionsSound(Step(s, e))
  {
  }

  // In every run, each login's chain of rotations has at most one unrevoked token at a time, all for one
  // user; each token is redeemed at most once, and never after it expired.
  lemma {:induction false} RunsAreSound(es: seq<Event>)
    ensures ChainsSound(Run(es)) && RedemptionsSound(Run(es))
  {
    if es != [] {
      hide Step, ChainsSound, RedemptionsSound;
      RunsAreSound(es[..|es| - 1]);
      StepKeepsChains(Run(es[..|es| - 1]), es[|es| - 1]);
      StepKeepsRedemptions(Run(es[..|es| - 1]), es[|es| - 1]);
    }
  }

  lemma {:induction false} RevokedStaysRevoked(es: seq<Event>, i: nat, h: string)
    requires i <= |es| && h in Run(es[..i]).rows && Run(es[..i]).rows[h].revokedAt.Some?
    ensures h in Run(es).rows && Run(es).rows[h].revokedAt == Run(es[..i]).rows[h].revokedAt
    decreases |es|
  {
    if i < |es| {
      hide Step;
      var before := es[..|es| - 1];
      assert before[..i] == es[..i];
      RevokedStaysRevoked(before, i, h);
      StepOnlyRevokes(Run(before), es[|es| - 1]);
    } else {
      assert es[..i] == es;
    }
  }

  // ----- what each step is for -------------------------------------------------------------------------------

  // A refresh succeeds exactly with a known, unrevoked token that has not expired, for an active user, when the new
  // token is new; and then the old one is revoked and the new one stored for the same user for five minutes.
  lemma RefreshIff(rows: Rows, hash: string, now: int, later: int, active: bool, next: string, issuedAt: int)
    ensures var (after, ok) := RefreshRows(rows, hash, now, later, active, next, issuedAt);
            && (ok <==> && hash in rows && rows[hash].revokedAt == None && now <= rows[hash].expiresAt
                        && active && next !in rows)
            && (ok ==> && after.Keys == rows.Keys + {next} && after[hash].revokedAt == Some(later)
                       && after[next] == TokenRow(rows[hash].userId, issuedAt, issuedAt + 300_000_000_000, None))
            && (!ok ==> after.Keys == rows.Keys)
            && (forall h :: h in rows && h != hash ==> after[h] == rows[h])
            && (Redeemable(rows, hash, now) ==> after[hash].revokedAt == Some(later))
            && (!Redeemable(rows, hash, now) ==> after == rows)
  {
  }

  // A logout revokes the token it names, once, and no other.
  lemma LogoutRevokes(rows: Rows, hash: string, now: int)
    ensures var after := LogoutRows(rows, hash, now);
            && after.Keys == rows.Keys && (forall h :: h in rows && h != hash ==> after[h] == rows[h])
            && (hash in rows ==> after[hash].revokedAt.Some? && after[hash].userId == rows[hash].userId)
            && (hash in rows && rows[hash].revokedAt == None ==> after[hash].revokedAt == Some(now))
            && (hash in rows && rows[hash].revokedAt.Some? ==> after[hash] == rows[hash])
  {
  }

  // The event that issues a token, with the moment it was issued at and how long it lives.
  predicate Issues(s: State, e: Event, h: string, at: int, ttl: int) {
    match e
    case Login(hash, _, t, now) => hash == h && hash !in s.rows && now == at && t == ttl
    case Refresh(hash, now, _, active, next, issuedAt) =>
      next == h && Redeemable(s.rows, hash, now) && active && next !in s.rows && issuedAt == at
      && ttl == REFRESH_TTL
    case Logout(_, _) => false
  }

  predicate Spends(e: Event, h: string) {
    !e.Login? && e.hash == h
  }

  lemma UnspentStays(s: State, e: Event, h: string)
    requires h in s.rows && !Spends(e, h)
    ensures h in Step(s, e).rows && Step(s, e).rows[h] == s.rows[h]
  {
  }

  lemma IssuedRow(s: State, e: Event, h: string, at: int, ttl: int)
    requires Issues(s, e, h, at, ttl)
    ensures h in Step(s, e).rows && Step(s, e).rows[h].revokedAt == None && Step(s, e).rows[h].expiresAt == at + ttl
  {
  }

  // An issued token can be redeemed until its expiry and not after, as long as nobody refreshed with it or logged it
  // out.
  lemma {:induction false} RedeemableUntilExpiry(es: seq<Event>, i: nat, h: string, at: int, ttl: int, now: int)
    requires i < |es| && Issues(Run(es[..i]), es[i], h, at, ttl)
    requires forall j :: i < j < |es| ==> !Spends(es[j], h)
    ensures h in Run(es).rows && Run(es).rows[h].revokedAt == None && Run(es).rows[h].expiresAt == at + ttl
    ensures Redeemable(Run(es).rows, h, now) <==> now <= at + ttl
    decreases |es|
  {
    hide Step, Issues;
    var (before, last) := (es[..|es| - 1], es[|es| - 1]);
    assert Run(es) == Step(Run(before), last);
    if i == |es| - 1 {
      IssuedRow(Run(before), last, h, at, ttl);
    } else {
      assert before[..i] == es[..i];
      RedeemableUntilExpiry(before, i, h, at, ttl, now);
      UnspentStays(Run(before), last, h);
    }
  }

  // Once a known token was redeemed or logged out, every later attempt to redeem it is refused and changes
  // nothing.
  lemma SpentTokensAreRefused(es: seq<Event>, i: nat, now: int, later: int, active: bool, next: string, at: int)
    requires i < |es| && (es[i].Logout? || es[i].Refresh?) && es[i].hash in Run(es[..i]).rows
    requires es[i].Refresh? ==> Redeemable(Run(es[..i]).rows, es[i].hash, es[i].now)
    ensures !Redeemable(Run(es).rows, es[i].hash, now)
    ensures Step(Run(es), Refresh(es[i].hash, now, later, active, next, at)) == Run(es)
  {
    assert es[..i + 1][..i] == es[..i];
    assert Run(es[..i + 1]) == Step(Run(es[..i]), es[i]);
    RevokedStaysRevoked(es, i + 1, es[i].hash);
  }

  // A successful refresh moves the chain on: the old token is spent and the new one is the chain's only live
  // token, for the same user.
  lemma RotationKeepsChain(es: seq<Event>, h: string, now: int, later: int, next: string, at: int)
    requires Redeemable(Run(es).rows, h, now) && next !in Run(es).rows
    ensures var (s, t) := (Run(es), Step(Run(es), Refresh(h, now, later, true, next, at)));
            && h in s.chain && next in t.chain && t.chain[next] == s.chain[h]
            && Unrevoked(t, next) && t.rows[next].userId == s.rows[h].userId
            && (forall g :: Unrevoked(t, g) && g in t.chain && t.chain[g] == s.chain[h] ==> g == next)
  {
    hide Run;
    RunsAreSound(es);
    StepKeepsChains(Run(es), Refresh(h, now, later, true, next, at));
  }

  // A refresh refused for the user's sake still spends the token, and with it the whole chain.
  lemma RefusedUserEndsChain(es: seq<Event>, h: string, now: int, later: int, next: string, at: int)
    requires Redeemable(Run(es).rows, h, now)
    ensures var (s, t) := (Run(es), Step(Run(es), Refresh(h, now, later, false, next, at)));
            h in s.chain && forall g :: Unrevoked(t, g) && g in t.chain ==> t.chain[g] != s.chain[h]
  {
    hide Run;
    RunsAreSound(es);
  }
}
