/** How long a credential lives: from the moment its pair is minted, in microseconds, over every run
    that follows. */
module Lifetimes {
  import opened Basics
  import opened Schema
  import opened Credentials
  import opened Chains

  /** A lifetime in seconds that has not run out; zero seconds are no limit. */
  predicate InTime(minted: Time, seconds: int, now: Time) {
    seconds != 0 ==> now < minted + seconds * 1_000_000
  }

  predicate IsActive(st: Store, u: UserId) {
    u in st.accounts && st.accounts[u] == ActiveAccount
  }

  /** A grant, or an exchange that is granted: what mints a pair, and for whom. */
  predicate Mints(ttls: Ttls, r: Realm, e: Event, u: UserId) {
    (e.Grant? && e.u == u)
    || (e.Exchange? && Rotate(r.store, e.presented, r.now, ttls).1.Ok? && r.store.tokens[e.presented].user == u)
  }

  predicate IsMinted(st: Store, i: nat, u: UserId, kind: Kind, minted: Time, seconds: int) {
    && i in st.tokens && st.tokens[i].user == u && st.tokens[i].kind == kind && st.tokens[i].revokedAt.None?
    && st.tokens[i].lastUsedAt.None?
    && (st.tokens[i].expiresAt.Some? <==> seconds != 0)
    && (seconds != 0 ==> st.tokens[i].expiresAt == Some(minted + seconds * 1_000_000))
  }

  /** The two tokens of a new pair are the next two rows: access, then refresh. */
  lemma PairMinted(ttls: Ttls, r: Realm, e: Event, u: UserId)
    requires Numbered(r.store) && Mints(ttls, r, e, u)
    ensures var st := Next(ttls, r, e).store;
      && IsMinted(st, r.store.nextToken, u, Access, r.now, ttls.access)
      && IsMinted(st, r.store.nextToken + 1, u, Refresh, r.now, ttls.refresh)
  {
  }

  lemma RunParts(ttls: Ttls, s: Realm, before: seq<Event>, e: Event, after: seq<Event>)
    ensures After(ttls, s, before + [e]) == Next(ttls, After(ttls, s, before), e)
    ensures After(ttls, s, before + [e] + after) == After(ttls, Next(ttls, After(ttls, s, before), e), after)
  {
    AfterJoin(ttls, s, before, [e]);
    AfterJoin(ttls, s, before + [e], after);
    var r := After(ttls, s, before);
    assert [e][1..] == [];
    assert After(ttls, r, [e]) == After(ttls, Next(ttls, r, e), []);
  }

  /** In every run, on either layer: the access token of a pair is honoured only for its own account,
      while that is active, and only within the access lifetime; and the refresh token likewise
      within the refresh lifetime. */
  lemma PairLivesNoLonger(ttls: Ttls, accounts: map<UserId, AccountState>, t: Time, before: seq<Event>, e: Event,
                          after: seq<Event>, u: UserId)
    requires Mints(ttls, After(ttls, Empty(accounts, t), before), e, u)
    ensures var r := After(ttls, Empty(accounts, t), before);
      var end := After(ttls, Empty(accounts, t), before + [e] + after);
      var access, refresh := r.store.nextToken, r.store.nextToken + 1;
      && (Resolve(end.store, access, end.now).1.Ok? ==>
            && Resolve(end.store, access, end.now).1 == Ok(u)
            && IsActive(end.store, u) && InTime(r.now, ttls.access, end.now))
      && (Rotate(end.store, refresh, end.now, ttls).1.Ok? ==>
            IsActive(end.store, u) && InTime(r.now, ttls.refresh, end.now))
      && Resolve(end.store, refresh, end.now).1.Err? && Rotate(end.store, access, end.now, ttls).1.Err?
  {
    var r := After(ttls, Empty(accounts, t), before);
    RunParts(ttls, Empty(accounts, t), before, e, after);
    assert Orderly(r.store) by {
      EmptyOrderly(accounts, t);
      AfterOrderly(ttls, Empty(accounts, t), before);
    }
    PairDue(ttls, r, e, u, after);
    var end := After(ttls, Next(ttls, r, e), after);
    HonouredInTime(end, r.store.nextToken, u, Access, r.now, ttls.access, ttls);
    HonouredInTime(end, r.store.nextToken + 1, u, Refresh, r.now, ttls.refresh, ttls);
  }

  lemma PairDue(ttls: Ttls, r: Realm, e: Event, u: UserId, after: seq<Event>)
    requires Orderly(r.store) && Mints(ttls, r, e, u)
    ensures var st := After(ttls, Next(ttls, r, e), after).store;
      && IsDue(st, r.store.nextToken, u, Access, r.now, ttls.access)
      && IsDue(st, r.store.nextToken + 1, u, Refresh, r.now, ttls.refresh)
  {
    var r1 := Next(ttls, r, e);
    PairMinted(ttls, r, e, u);
    assert Persist(r1.store, After(ttls, r1, after).store) by {
      NextOrderly(ttls, r, e);
      AfterOrderly(ttls, r1, after);
    }
    MintedStays(r1.store, After(ttls, r1, after).store, r.store.nextToken, u, Access, r.now, ttls.access);
    MintedStays(r1.store, After(ttls, r1, after).store, r.store.nextToken + 1, u, Refresh, r.now, ttls.refresh);
  }

  /** Whose a row is, what it is and when it expires. */
  predicate IsDue(st: Store, i: nat, u: UserId, kind: Kind, minted: Time, seconds: int) {
    && i in st.tokens && st.tokens[i].user == u && st.tokens[i].kind == kind
    && st.tokens[i].expiresAt == if seconds == 0 then None else Some(minted + seconds * 1_000_000)
  }

  lemma MintedStays(st: Store, st1: Store, i: nat, u: UserId, kind: Kind, minted: Time, seconds: int)
    requires IsMinted(st, i, u, kind, minted, seconds) && Persist(st, st1)
    ensures IsDue(st1, i, u, kind, minted, seconds)
  {
  }

  lemma HonouredInTime(end: Realm, i: nat, u: UserId, kind: Kind, minted: Time, seconds: int, ttls: Ttls)
    requires IsDue(end.store, i, u, kind, minted, seconds)
    ensures var used, swapped := Resolve(end.store, i, end.now).1, Rotate(end.store, i, end.now, ttls).1;
      && (used.Ok? ==>
            kind != Refresh && used.value == u && IsActive(end.store, u) && InTime(minted, seconds, end.now))
      && (swapped.Ok? ==> kind == Refresh && IsActive(end.store, u) && InTime(minted, seconds, end.now))
  {
  }

  /** And over HTTP exactly as long: the access token of a pair while its account is active and the
      access lifetime runs, whatever is exchanged or replayed; the refresh token while its account is
      active, the refresh lifetime runs, and no exchange of it was granted. */
  lemma PairLivesAsLong(ttls: Ttls, accounts: map<UserId, AccountState>, t: Time, before: seq<Event>, e: Event,
                        after: seq<Event>, u: UserId)
    requires Mints(ttls, After(ttls, Empty(accounts, t), before), e, u)
    requires OverHttp(before) && OverHttp([e]) && OverHttp(after)
    ensures var r := After(ttls, Empty(accounts, t), before);
      var end := After(ttls, Empty(accounts, t), before + [e] + after);
      var access, refresh := r.store.nextToken, r.store.nextToken + 1;
      && (Resolve(end.store, access, end.now).1.Ok? <==>
            IsActive(end.store, u) && InTime(r.now, ttls.access, end.now))
      && (Rotate(end.store, refresh, end.now, ttls).1.Ok? <==>
            IsActive(end.store, u) && InTime(r.now, ttls.refresh, end.now)
            && !Spent(ttls, Next(ttls, r, e), after, refresh))
  {
    AccessLivesAsLong(ttls, accounts, t, before, e, after, u);
    RefreshLivesAsLong(ttls, accounts, t, before, e, after, u);
  }

  lemma PairMintedInRun(ttls: Ttls, accounts: map<UserId, AccountState>, t: Time, before: seq<Event>, e: Event,
                        u: UserId)
    requires Mints(ttls, After(ttls, Empty(accounts, t), before), e, u)
    ensures var r := After(ttls, Empty(accounts, t), before);
      var st := After(ttls, Empty(accounts, t), before + [e]).store;
      && IsMinted(st, r.store.nextToken, u, Access, r.now, ttls.access)
      && IsMinted(st, r.store.nextToken + 1, u, Refresh, r.now, ttls.refresh)
  {
    var r := After(ttls, Empty(accounts, t), before);
    assert Numbered(r.store) by {
      EmptyOrderly(accounts, t);
      AfterOrderly(ttls, Empty(accounts, t), before);
    }
    assert After(ttls, Empty(accounts, t), before + [e]) == Next(ttls, r, e) by {
      RunParts(ttls, Empty(accounts, t), before, e, []);
    }
    PairMinted(ttls, r, e, u);
  }

  lemma AccessLivesAsLong(ttls: Ttls, accounts: map<UserId, AccountState>, t: Time, before: seq<Event>, e: Event,
                          after: seq<Event>, u: UserId)
    requires Mints(ttls, After(ttls, Empty(accounts, t), before), e, u)
    requires OverHttp(before + [e]) && OverHttp(after)
    ensures var r := After(ttls, Empty(accounts, t), before);
      var end := After(ttls, Empty(accounts, t), before + [e] + after);
      Resolve(end.store, r.store.nextToken, end.now).1.Ok? <==>
        IsActive(end.store, u) && InTime(r.now, ttls.access, end.now)
  {
    PairMintedInRun(ttls, accounts, t, before, e, u);
    AccessOverHttp(ttls, accounts, t, before + [e], after, After(ttls, Empty(accounts, t), before).store.nextToken);
  }

  lemma RefreshLivesAsLong(ttls: Ttls, accounts: map<UserId, AccountState>, t: Time, before: seq<Event>, e: Event,
                           after: seq<Event>, u: UserId)
    requires Mints(ttls, After(ttls, Empty(accounts, t), before), e, u) && OverHttp(after)
    ensures var r := After(ttls, Empty(accounts, t), before);
      var end := After(ttls, Empty(accounts, t), before + [e] + after);
      var refresh := r.store.nextToken + 1;
      Rotate(end.store, refresh, end.now, ttls).1.Ok? <==>
        && IsActive(end.store, u) && InTime(r.now, ttls.refresh, end.now)
        && !Spent(ttls, Next(ttls, r, e), after, refresh)
  {
    var r := After(ttls, Empty(accounts, t), before);
    assert After(ttls, Empty(accounts, t), before + [e]) == Next(ttls, r, e) by {
      RunParts(ttls, Empty(accounts, t), before, e, after);
    }
    PairMintedInRun(ttls, accounts, t, before, e, u);
    RefreshOverHttp(ttls, accounts, t, before + [e], after, r.store.nextToken + 1);
  }

  // ----- personal tokens -----

  lemma PatStep(ttls: Ttls, r: Realm, e: Event, i: nat)
    requires Orderly(r.store) && i in r.store.tokens && r.store.tokens[i].kind == Pat
    ensures var st, row := Next(ttls, r, e).store, r.store.tokens[i];
      && i in st.tokens && st.tokens[i].kind == Pat && st.tokens[i].user == row.user
      && st.tokens[i].expiresAt == row.expiresAt
      && (st.tokens[i].revokedAt.Some? <==> row.revokedAt.Some? || e == RevokePat(i, row.user))
  {
    if e.Exchange? && e.presented in r.store.tokens && r.store.tokens[e.presented].kind == Refresh {
      assert r.store.tokens[e.presented].chain != r.store.tokens[i].chain;
    }
  }

  lemma {:induction false} PatRun(ttls: Ttls, r: Realm, events: seq<Event>, i: nat)
    requires Orderly(r.store) && i in r.store.tokens && r.store.tokens[i].kind == Pat
    ensures var st, row := After(ttls, r, events).store, r.store.tokens[i];
      && i in st.tokens && st.tokens[i].kind == Pat && st.tokens[i].user == row.user
      && st.tokens[i].expiresAt == row.expiresAt
      && (st.tokens[i].revokedAt.Some? <==> row.revokedAt.Some? || RevokePat(i, row.user) in events)
    decreases |events|
  {
    if events != [] {
      PatStep(ttls, r, events[0], i);
      NextOrderly(ttls, r, events[0]);
      PatRun(ttls, Next(ttls, r, events[0]), events[1..], i);
      assert events == [events[0]] + events[1..];
    }
  }

  /** A personal token never expires: in every run, on either layer, it is honoured exactly until its
      own account revokes it, while that account is active. */
  lemma PatLivesUntilRevoked(ttls: Ttls, accounts: map<UserId, AccountState>, t: Time, before: seq<Event>,
                             scopes: seq<string>, after: seq<Event>, u: UserId)
    ensures var i := After(ttls, Empty(accounts, t), before).store.nextToken;
      var end := After(ttls, Empty(accounts, t), before + [MintPat(u, scopes)] + after);
      Resolve(end.store, i, end.now).1.Ok? <==> IsActive(end.store, u) && RevokePat(i, u) !in after
  {
    var r := After(ttls, Empty(accounts, t), before);
    var e := MintPat(u, scopes);
    EmptyOrderly(accounts, t);
    AfterOrderly(ttls, Empty(accounts, t), before);
    RunParts(ttls, Empty(accounts, t), before, e, after);
    NextOrderly(ttls, r, e);
    PatRun(ttls, Next(ttls, r, e), after, r.store.nextToken);
  }

  // ----- suspended accounts -----

  lemma {:induction false} StateStays(ttls: Ttls, r: Realm, events: seq<Event>, u: UserId)
    requires u in r.store.accounts && forall state :: SetState(u, state) !in events
    ensures var st := After(ttls, r, events).store; u in st.accounts && st.accounts[u] == r.store.accounts[u]
    decreases |events|
  {
    if events != [] {
      var r1 := Next(ttls, r, events[0]);
      assert events[0] in events;
      assert u in r1.store.accounts && r1.store.accounts[u] == r.store.accounts[u];
      StateStays(ttls, r1, events[1..], u);
    }
  }

  /** From the moment an account is suspended or closed, in every run, until its state is set again: no
      credential of it is honoured. */
  lemma SuspendedIsRefused(ttls: Ttls, accounts: map<UserId, AccountState>, t: Time, before: seq<Event>, u: UserId,
                           state: AccountState, after: seq<Event>, i: nat)
    requires state != ActiveAccount && forall s :: SetState(u, s) !in after
    ensures var end := After(ttls, Empty(accounts, t), before + [SetState(u, state)] + after);
      i in end.store.tokens && end.store.tokens[i].user == u ==>
        Resolve(end.store, i, end.now).1.Err? && Rotate(end.store, i, end.now, ttls).1.Err?
  {
    RunParts(ttls, Empty(accounts, t), before, SetState(u, state), after);
    StateStays(ttls, Next(ttls, After(ttls, Empty(accounts, t), before), SetState(u, state)), after, u);
  }

  // ----- what a replay leaves alone -----

  /** What a replay writes: on its own chain, every token not yet revoked is revoked now. */
  lemma ReplayWrites(st: Store, presented: nat, now: Time, ttls: Ttls, i: nat)
    requires presented in st.tokens && st.tokens[presented].kind == Refresh && st.tokens[presented].revokedAt.Some?
    requires i in st.tokens && st.tokens[i].chain == st.tokens[presented].chain
    ensures var (st1, result) := Rotate(st, presented, now, ttls);
      && result == Err(Replayed) && i in st1.tokens
      && st1.tokens[i]
           == if st.tokens[i].revokedAt.Some? then st.tokens[i] else st.tokens[i].(revokedAt := Some(now))
  {
  }

  /** A replay in a kept session ends its own chain and no other token. */
  lemma ReplayEndsNoOther(st: Store, presented: nat, now: Time, ttls: Ttls, i: nat)
    requires Numbered(st) && presented in st.tokens && i in st.tokens
    requires st.tokens[i].chain != st.tokens[presented].chain
    ensures var st1 := Rotate(st, presented, now, ttls).0;
      i in st1.tokens && st1.tokens[i] == st.tokens[i] && st1.accounts == st.accounts
  {
  }
}
