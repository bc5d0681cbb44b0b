/** Runs of the credential store: every chain has one live refresh token or is dead altogether, its
    authority never grows, and a dead chain never revives. */
module Chains {
  import opened Basics
  import opened Schema
  import opened Credentials

  datatype Realm = Realm(store: Store, now: Time)

  datatype Event =
    | Grant(u: UserId, scopes: seq<string>)
    | MintPat(u: UserId, scopes: seq<string>)
    | Use(presented: nat)
    | Exchange(presented: nat, layer: Layer)
    | RevokePat(id: nat, u: UserId)
    | SetState(u: UserId, state: AccountState)
    | Wait(d: nat)

  /** On the request layer a refused exchange is rolled back; on the session layer what it did stays. */
  function Exchanged(ttls: Ttls, r: Realm, presented: nat, layer: Layer): Store {
    var (st, result) := Rotate(r.store, presented, r.now, ttls);
    if result.Err? && layer.RequestLayer? then r.store else st
  }

  function Granted(ttls: Ttls, r: Realm, u: UserId, scopes: seq<string>): Store {
    PairIssued(r.store.(nextChain := r.store.nextChain + 1), u, scopes, r.store.nextChain, r.now, ttls)
  }

  function PatMinted(ttls: Ttls, r: Realm, u: UserId, scopes: seq<string>): Store {
    Minted(r.store.(nextChain := r.store.nextChain + 1), Fresh(u, Pat, scopes, r.store.nextChain, r.now, ttls))
  }

  function PatRevoked(r: Realm, id: nat, u: UserId): Store {
    if id in r.store.tokens && r.store.tokens[id].user == u && r.store.tokens[id].kind == Pat
    then r.store.(tokens := r.store.tokens[id := Revoked(r.store.tokens[id], r.now)]) else r.store
  }

  function Next(ttls: Ttls, r: Realm, e: Event): Realm {
    match e
    case Grant(u, scopes) => r.(store := Granted(ttls, r, u, scopes))
    case MintPat(u, scopes) => r.(store := PatMinted(ttls, r, u, scopes))
    case Use(presented) => r.(store := Resolve(r.store, presented, r.now).0)
    case Exchange(presented, layer) => r.(store := Exchanged(ttls, r, presented, layer))
    case RevokePat(id, u) => r.(store := PatRevoked(r, id, u))
    case SetState(u, state) => r.(store := r.store.(accounts := r.store.accounts[u := state]))
    case Wait(d) => r.(now := r.now + d)
  }

  function After(ttls: Ttls, r: Realm, events: seq<Event>): Realm
    decreases |events|
  {
    if events == [] then r else After(ttls, Next(ttls, r, events[0]), events[1..])
  }

  function Empty(accounts: map<UserId, AccountState>, t: Time): Realm {
    Realm(Store(accounts, map[], 0, 0), t)
  }

  // ----- what a chain looks like -----

  ghost predicate Numbered(st: Store) {
    forall i | i in st.tokens :: i < st.nextToken && st.tokens[i].chain < st.nextChain
  }

  /** All tokens of a chain are one person's, with one list of scopes; a personal token is alone. */
  ghost predicate OneAuthority(st: Store) {
    forall i, j | i in st.tokens && j in st.tokens && st.tokens[i].chain == st.tokens[j].chain ::
      && st.tokens[i].user == st.tokens[j].user && st.tokens[i].scopes == st.tokens[j].scopes
      && (st.tokens[i].kind == Pat ==> i == j)
  }

  predicate IsLiveRefresh(st: Store, i: nat) {
    i in st.tokens && st.tokens[i].kind == Refresh && st.tokens[i].revokedAt.None?
  }

  ghost predicate OneLiveRefresh(st: Store) {
    forall i, j | IsLiveRefresh(st, i) && IsLiveRefresh(st, j) && st.tokens[i].chain == st.tokens[j].chain :: i == j
  }

  ghost predicate IsDead(st: Store, chain: nat) {
    forall i | i in st.tokens && st.tokens[i].chain == chain :: st.tokens[i].revokedAt.Some?
  }

  ghost predicate HasLiveRefresh(st: Store, chain: nat) {
    exists j :: IsLiveRefresh(st, j) && st.tokens[j].chain == chain
  }

  /** A grant's chain goes on with a live refresh token, or all of it is revoked. */
  ghost predicate LiveOrDead(st: Store) {
    forall i | i in st.tokens && st.tokens[i].kind != Pat ::
      IsDead(st, st.tokens[i].chain) || HasLiveRefresh(st, st.tokens[i].chain)
  }

  function KindWeight(st: Store, chain: nat, kind: Kind): nat -> nat {
    (i: nat) => if i in st.tokens && st.tokens[i].chain == chain && st.tokens[i].kind == kind then 1 else 0
  }

  function KindCount(st: Store, chain: nat, kind: Kind): nat {
    SumUpTo(st.nextToken, KindWeight(st, chain, kind))
  }

  ghost predicate Paired(st: Store) {
    forall c :: KindCount(st, c, Access) == KindCount(st, c, Refresh)
  }

  ghost predicate Orderly(st: Store) {
    Numbered(st) && OneAuthority(st) && OneLiveRefresh(st) && LiveOrDead(st) && Paired(st)
  }

  // ----- how the store changes -----

  lemma MintCount(st: Store, row: Token, chain: nat, kind: Kind)
    requires Numbered(st)
    ensures KindCount(Minted(st, row), chain, kind)
         == KindCount(st, chain, kind) + (if row.chain == chain && row.kind == kind then 1 else 0)
  {
    SumSame(st.nextToken, KindWeight(Minted(st, row), chain, kind), KindWeight(st, chain, kind));
  }

  /** Rows that change without changing chain or kind leave the counts alone. */
  lemma SameCount(st: Store, st1: Store, chain: nat, kind: Kind)
    requires st1.nextToken == st.nextToken && st1.tokens.Keys == st.tokens.Keys
    requires forall i | i in st.tokens ::
      st1.tokens[i].chain == st.tokens[i].chain && st1.tokens[i].kind == st.tokens[i].kind
    ensures KindCount(st1, chain, kind) == KindCount(st, chain, kind)
  {
    SumSame(st.nextToken, KindWeight(st1, chain, kind), KindWeight(st, chain, kind));
  }

  lemma PairCount(st: Store, u: UserId, scopes: seq<string>, chain: nat, now: Time, ttls: Ttls)
    requires Numbered(st) && Paired(st) && chain < st.nextChain
    ensures Paired(PairIssued(st, u, scopes, chain, now, ttls))
  {
    var a, b := Fresh(u, Access, scopes, chain, now, ttls), Fresh(u, Refresh, scopes, chain, now, ttls);
    var st1 := PairIssued(st, u, scopes, chain, now, ttls);
    forall c ensures KindCount(st1, c, Access) == KindCount(st1, c, Refresh) {
      MintCount(st, a, c, Access);
      MintCount(st, a, c, Refresh);
      MintCount(Minted(st, a), b, c, Access);
      MintCount(Minted(st, a), b, c, Refresh);
    }
  }

  /** Tokens are never deleted, and who they are for, what they allow and their chain never change;
      a revoked one stays revoked. */
  ghost predicate Persist(st: Store, st1: Store) {
    && st.nextToken <= st1.nextToken && st.nextChain <= st1.nextChain
    && (forall i | i in st.tokens ::
          && i in st1.tokens
          && st1.tokens[i].user == st.tokens[i].user && st1.tokens[i].scopes == st.tokens[i].scopes
          && st1.tokens[i].chain == st.tokens[i].chain && st1.tokens[i].kind == st.tokens[i].kind
          && st1.tokens[i].expiresAt == st.tokens[i].expiresAt
          && (st.tokens[i].revokedAt.Some? ==>
                st1.tokens[i].revokedAt == st.tokens[i].revokedAt || st.tokens[i].kind == Pat)
          && (st.tokens[i].revokedAt.Some? ==> st1.tokens[i].revokedAt.Some?))
  }

  lemma NextPersists(ttls: Ttls, r: Realm, e: Event)
    requires Numbered(r.store)
    ensures Persist(r.store, Next(ttls, r, e).store) && Numbered(Next(ttls, r, e).store)
  {
    if e.Exchange? {
      ExchangePersists(ttls, r, e.presented, e.layer);
    }
  }

  lemma ExchangePersists(ttls: Ttls, r: Realm, presented: nat, layer: Layer)
    requires Numbered(r.store)
    ensures Persist(r.store, Exchanged(ttls, r, presented, layer)) && Numbered(Exchanged(ttls, r, presented, layer))
  {
  }

  /** A chain whose rows are as they were, revoked or not as they were, is as alive as it was. */
  lemma ChainKept(st: Store, st1: Store, chain: nat)
    requires forall i | i in st1.tokens && st1.tokens[i].chain == chain :: i in st.tokens && st.tokens[i].chain == chain
    requires forall i | i in st.tokens && st.tokens[i].chain == chain ::
      i in st1.tokens && st1.tokens[i].chain == chain && st1.tokens[i].kind == st.tokens[i].kind
      && (st1.tokens[i].revokedAt.Some? <==> st.tokens[i].revokedAt.Some?)
    ensures IsDead(st, chain) ==> IsDead(st1, chain)
    ensures HasLiveRefresh(st, chain) ==> HasLiveRefresh(st1, chain)
  {
    if HasLiveRefresh(st, chain) {
      var j :| IsLiveRefresh(st, j) && st.tokens[j].chain == chain;
      assert IsLiveRefresh(st1, j);
    }
  }

  lemma GrantShape(ttls: Ttls, r: Realm, u: UserId, scopes: seq<string>)
    requires Numbered(r.store) && OneAuthority(r.store) && OneLiveRefresh(r.store)
    ensures var st1 := Granted(ttls, r, u, scopes);
      Numbered(st1) && OneAuthority(st1) && OneLiveRefresh(st1)
  {
    var st, st1 := r.store, Granted(ttls, r, u, scopes);
    forall i | i in st1.tokens ensures GrantedRow(st, st1, i, u, scopes) && i < st1.nextToken {
      GrantRows(ttls, r, u, scopes, i);
    }
    GrantAuthority(st, st1, u, scopes);
    GrantOneLive(st, st1, u, scopes);
  }

  lemma GrantAuthority(st: Store, st1: Store, u: UserId, scopes: seq<string>)
    requires OneAuthority(st) && forall i | i in st1.tokens :: GrantedRow(st, st1, i, u, scopes)
    ensures OneAuthority(st1)
  {
  }

  lemma GrantOneLive(st: Store, st1: Store, u: UserId, scopes: seq<string>)
    requires OneLiveRefresh(st) && forall i | i in st1.tokens :: GrantedRow(st, st1, i, u, scopes)
    ensures OneLiveRefresh(st1)
  {
    assert forall i: nat | IsLiveRefresh(st1, i) && i < st.nextToken :: IsLiveRefresh(st, i);
  }

  predicate GrantedRow(st: Store, st1: Store, i: nat, u: UserId, scopes: seq<string>)
    requires i in st1.tokens
  {
    if i < st.nextToken then i in st.tokens && st1.tokens[i] == st.tokens[i] && st.tokens[i].chain < st.nextChain
    else NewInChain(st1, i, u, scopes, st.nextChain) && (st1.tokens[i].kind == Refresh ==> i == st.nextToken + 1)
  }

  lemma GrantRows(ttls: Ttls, r: Realm, u: UserId, scopes: seq<string>, i: nat)
    requires Numbered(r.store) && i in Granted(ttls, r, u, scopes).tokens
    ensures GrantedRow(r.store, Granted(ttls, r, u, scopes), i, u, scopes)
  {
  }

  predicate NewInChain(st: Store, i: nat, u: UserId, scopes: seq<string>, chain: nat) {
    i in st.tokens && i < st.nextToken && st.tokens[i].chain == chain && st.tokens[i].user == u
    && st.tokens[i].scopes == scopes && st.tokens[i].kind != Pat
  }

  lemma GrantAlive(ttls: Ttls, r: Realm, u: UserId, scopes: seq<string>)
    requires Numbered(r.store) && LiveOrDead(r.store)
    ensures LiveOrDead(Granted(ttls, r, u, scopes))
  {
    var st1 := Granted(ttls, r, u, scopes);
    assert IsLiveRefresh(st1, r.store.nextToken + 1);
    forall i | i in st1.tokens && st1.tokens[i].kind != Pat
      ensures IsDead(st1, st1.tokens[i].chain) || HasLiveRefresh(st1, st1.tokens[i].chain)
    {
      if i < r.store.nextToken {
        ChainKept(r.store, st1, st1.tokens[i].chain);
      }
    }
  }

  lemma GrantPaired(ttls: Ttls, r: Realm, u: UserId, scopes: seq<string>)
    requires Numbered(r.store) && Paired(r.store)
    ensures Paired(Granted(ttls, r, u, scopes))
  {
    var st := r.store.(nextChain := r.store.nextChain + 1);
    forall c ensures KindCount(st, c, Access) == KindCount(st, c, Refresh) {
      SameCount(r.store, st, c, Access);
      SameCount(r.store, st, c, Refresh);
    }
    PairCount(st, u, scopes, r.store.nextChain, r.now, ttls);
  }

  lemma PatShape(ttls: Ttls, r: Realm, u: UserId, scopes: seq<string>)
    requires Orderly(r.store)
    ensures var st1 := PatMinted(ttls, r, u, scopes);
      Numbered(st1) && OneAuthority(st1) && OneLiveRefresh(st1)
  {
  }

  lemma PatAlive(ttls: Ttls, r: Realm, u: UserId, scopes: seq<string>)
    requires Numbered(r.store) && LiveOrDead(r.store)
    ensures LiveOrDead(PatMinted(ttls, r, u, scopes))
  {
    var st1 := PatMinted(ttls, r, u, scopes);
    forall i | i in st1.tokens && st1.tokens[i].kind != Pat
      ensures IsDead(st1, st1.tokens[i].chain) || HasLiveRefresh(st1, st1.tokens[i].chain)
    {
      ChainKept(r.store, st1, st1.tokens[i].chain);
    }
  }

  lemma PatPaired(ttls: Ttls, r: Realm, u: UserId, scopes: seq<string>)
    requires Numbered(r.store) && Paired(r.store)
    ensures Paired(PatMinted(ttls, r, u, scopes))
  {
    var st := r.store.(nextChain := r.store.nextChain + 1);
    var row := Fresh(u, Pat, scopes, r.store.nextChain, r.now, ttls);
    var st1 := PatMinted(ttls, r, u, scopes);
    forall c ensures KindCount(st1, c, Access) == KindCount(st1, c, Refresh) {
      SameCount(r.store, st, c, Access);
      SameCount(r.store, st, c, Refresh);
      MintCount(st, row, c, Access);
      MintCount(st, row, c, Refresh);
    }
  }

  /** Rows change neither chain, kind, owner nor scopes, and none is unrevoked. */
  ghost predicate Touched(st: Store, st1: Store) {
    && st1.nextToken == st.nextToken && st1.nextChain == st.nextChain && st1.tokens.Keys == st.tokens.Keys
    && (forall i | i in st.tokens ::
          && st1.tokens[i].user == st.tokens[i].user && st1.tokens[i].scopes == st.tokens[i].scopes
          && st1.tokens[i].chain == st.tokens[i].chain && st1.tokens[i].kind == st.tokens[i].kind
          && (st.tokens[i].revokedAt.Some? ==> st1.tokens[i].revokedAt.Some?))
  }

  lemma TouchShape(st: Store, st1: Store)
    requires Numbered(st) && OneAuthority(st) && OneLiveRefresh(st) && Touched(st, st1)
    ensures Numbered(st1) && OneAuthority(st1) && OneLiveRefresh(st1)
  {
    assert forall i | IsLiveRefresh(st1, i) :: IsLiveRefresh(st, i);
  }

  lemma TouchPaired(st: Store, st1: Store)
    requires Paired(st) && Touched(st, st1)
    ensures Paired(st1)
  {
    forall c ensures KindCount(st1, c, Access) == KindCount(st1, c, Refresh) {
      SameCount(st, st1, c, Access);
      SameCount(st, st1, c, Refresh);
    }
  }

  /** Using a token and revoking a personal one leave every grant's chain as alive as it was. */
  lemma TouchAlive(st: Store, st1: Store)
    requires OneAuthority(st) && LiveOrDead(st) && Touched(st, st1)
    requires forall i | i in st.tokens && st.tokens[i].kind != Pat ::
      st1.tokens[i].revokedAt.Some? <==> st.tokens[i].revokedAt.Some?
    ensures LiveOrDead(st1)
  {
    forall i | i in st1.tokens && st1.tokens[i].kind != Pat
      ensures IsDead(st1, st1.tokens[i].chain) || HasLiveRefresh(st1, st1.tokens[i].chain)
    {
      assert forall j | j in st.tokens && st.tokens[j].chain == st.tokens[i].chain :: st.tokens[j].kind != Pat;
      ChainKept(st, st1, st.tokens[i].chain);
    }
  }

  lemma BreakAlive(st: Store, chain: nat, now: Time)
    requires LiveOrDead(st)
    ensures LiveOrDead(Broken(st, chain, now)) && IsDead(Broken(st, chain, now), chain)
  {
    var st1 := Broken(st, chain, now);
    forall i | i in st1.tokens && st1.tokens[i].kind != Pat
      ensures IsDead(st1, st1.tokens[i].chain) || HasLiveRefresh(st1, st1.tokens[i].chain)
    {
      if st.tokens[i].chain != chain {
        ChainKept(st, st1, st.tokens[i].chain);
      }
    }
  }

  lemma BreakOrderly(st: Store, chain: nat, now: Time)
    requires Orderly(st)
    ensures Orderly(Broken(st, chain, now)) && IsDead(Broken(st, chain, now), chain)
  {
    var st1 := Broken(st, chain, now);
    assert Touched(st, st1);
    TouchShape(st, st1);
    TouchPaired(st, st1);
    BreakAlive(st, chain, now);
  }

  // A successful exchange: the live refresh token of the chain hands over to its successor.

  /** What an exchange leaves of each row: the same authority, and that of the presented one in the
      two that are new. */
  lemma RotatedRow(st: Store, presented: nat, now: Time, ttls: Ttls, i: nat)
    requires Numbered(st) && Rotate(st, presented, now, ttls).1.Ok? && i in Rotate(st, presented, now, ttls).0.tokens
    ensures var st2, row := Rotate(st, presented, now, ttls).0, st.tokens[presented];
      && i < st2.nextToken && st2.nextChain == st.nextChain && row.kind == Refresh
      && var now := st2.tokens[i];
         if i < st.nextToken then
           i in st.tokens && now.chain == st.tokens[i].chain && now.kind == st.tokens[i].kind
           && now.user == st.tokens[i].user && now.scopes == st.tokens[i].scopes
         else now.chain == row.chain && now.user == row.user && now.scopes == row.scopes && now.kind != Pat
  {
  }

  lemma RotateNumbered(st: Store, presented: nat, now: Time, ttls: Ttls)
    requires Numbered(st) && OneAuthority(st) && Rotate(st, presented, now, ttls).1.Ok?
    ensures var st2 := Rotate(st, presented, now, ttls).0; Numbered(st2) && OneAuthority(st2)
  {
    var st2 := Rotate(st, presented, now, ttls).0;
    forall i | i in st2.tokens ensures i < st2.nextToken && st2.tokens[i].chain < st2.nextChain {
      RotatedRow(st, presented, now, ttls, i);
    }
    forall i, j | i in st2.tokens && j in st2.tokens && st2.tokens[i].chain == st2.tokens[j].chain
      ensures st2.tokens[i].user == st2.tokens[j].user && st2.tokens[i].scopes == st2.tokens[j].scopes
      ensures st2.tokens[i].kind == Pat ==> i == j
    {
      RotatedRow(st, presented, now, ttls, i);
      RotatedRow(st, presented, now, ttls, j);
    }
  }

  lemma RotateOneLive(st: Store, presented: nat, now: Time, ttls: Ttls)
    requires Numbered(st) && OneLiveRefresh(st) && Rotate(st, presented, now, ttls).1.Ok?
    ensures OneLiveRefresh(Rotate(st, presented, now, ttls).0)
  {
    var st2 := Rotate(st, presented, now, ttls).0;
    var row := st.tokens[presented];
    assert IsLiveRefresh(st, presented);
    forall i | IsLiveRefresh(st2, i) && i != st.nextToken + 1
      ensures IsLiveRefresh(st, i) && st.tokens[i].chain != row.chain && st2.tokens[i] == st.tokens[i]
    {
      assert i != st.nextToken && i != presented;
    }
    assert st2.tokens[st.nextToken + 1].chain == row.chain;
  }

  lemma RotateAlive(st: Store, presented: nat, now: Time, ttls: Ttls)
    requires Numbered(st) && LiveOrDead(st) && Rotate(st, presented, now, ttls).1.Ok?
    ensures LiveOrDead(Rotate(st, presented, now, ttls).0)
  {
    var st2 := Rotate(st, presented, now, ttls).0;
    var row := st.tokens[presented];
    assert IsLiveRefresh(st2, st.nextToken + 1) && st2.tokens[st.nextToken + 1].chain == row.chain;
    forall i | i in st2.tokens && st2.tokens[i].kind != Pat
      ensures IsDead(st2, st2.tokens[i].chain) || HasLiveRefresh(st2, st2.tokens[i].chain)
    {
      if st2.tokens[i].chain != row.chain {
        ChainKept(st, st2, st2.tokens[i].chain);
      }
    }
  }

  lemma RotatePaired(st: Store, presented: nat, now: Time, ttls: Ttls)
    requires Numbered(st) && Paired(st) && Rotate(st, presented, now, ttls).1.Ok?
    ensures Paired(Rotate(st, presented, now, ttls).0)
  {
    var row := st.tokens[presented];
    var st1 := st.(tokens := st.tokens[presented := Revoked(row, now)]);
    assert Touched(st, st1);
    TouchPaired(st, st1);
    PairCount(st1, row.user, row.scopes, row.chain, now, ttls);
  }

  lemma ExchangeOrderly(ttls: Ttls, r: Realm, presented: nat, layer: Layer)
    requires Orderly(r.store)
    ensures Orderly(Exchanged(ttls, r, presented, layer))
  {
    if Rotate(r.store, presented, r.now, ttls).1.Ok? {
      RotateNumbered(r.store, presented, r.now, ttls);
      RotateOneLive(r.store, presented, r.now, ttls);
      RotateAlive(r.store, presented, r.now, ttls);
      RotatePaired(r.store, presented, r.now, ttls);
    } else if presented in r.store.tokens {
      BreakOrderly(r.store, r.store.tokens[presented].chain, r.now);
    }
  }

  lemma NextTouches(ttls: Ttls, r: Realm, e: Event)
    requires !e.Grant? && !e.MintPat? && !e.Exchange?
    ensures var st, st1 := r.store, Next(ttls, r, e).store;
      && Touched(st, st1)
      && (forall i | i in st.tokens && st.tokens[i].kind != Pat ::
            st1.tokens[i].revokedAt.Some? <==> st.tokens[i].revokedAt.Some?)
  {
  }

  lemma GrantOrderly(ttls: Ttls, r: Realm, u: UserId, scopes: seq<string>)
    requires Orderly(r.store)
    ensures Orderly(Granted(ttls, r, u, scopes)) && Orderly(PatMinted(ttls, r, u, scopes))
  {
    GrantShape(ttls, r, u, scopes);
    GrantAlive(ttls, r, u, scopes);
    GrantPaired(ttls, r, u, scopes);
    PatShape(ttls, r, u, scopes);
    PatAlive(ttls, r, u, scopes);
    PatPaired(ttls, r, u, scopes);
  }

  lemma TouchOrderly(st: Store, st1: Store)
    requires Orderly(st) && Touched(st, st1)
    requires forall i | i in st.tokens && st.tokens[i].kind != Pat ::
      st1.tokens[i].revokedAt.Some? <==> st.tokens[i].revokedAt.Some?
    ensures Orderly(st1)
  {
    TouchShape(st, st1);
    TouchPaired(st, st1);
    TouchAlive(st, st1);
  }

  lemma NextOrderly(ttls: Ttls, r: Realm, e: Event)
    requires Orderly(r.store)
    ensures Orderly(Next(ttls, r, e).store)
  {
    if e.Grant? || e.MintPat? {
      GrantOrderly(ttls, r, e.u, e.scopes);
    } else if e.Exchange? {
      ExchangeOrderly(ttls, r, e.presented, e.layer);
    } else {
      NextTouches(ttls, r, e);
      TouchOrderly(r.store, Next(ttls, r, e).store);
    }
  }

  // ----- runs -----

  lemma {:induction false} AfterOrderly(ttls: Ttls, r: Realm, events: seq<Event>)
    requires Orderly(r.store)
    ensures Orderly(After(ttls, r, events).store) && Persist(r.store, After(ttls, r, events).store)
    decreases |events|
  {
    if events != [] {
      NextOrderly(ttls, r, events[0]);
      NextPersists(ttls, r, events[0]);
      AfterOrderly(ttls, Next(ttls, r, events[0]), events[1..]);
    }
  }

  lemma EmptyOrderly(accounts: map<UserId, AccountState>, t: Time)
    ensures Orderly(Empty(accounts, t).store)
  {
    var st := Empty(accounts, t).store;
    forall c ensures KindCount(st, c, Access) == KindCount(st, c, Refresh) {
      assert st.nextToken == 0;
    }
  }

  lemma {:induction false} AfterJoin(ttls: Ttls, r: Realm, a: seq<Event>, b: seq<Event>)
    ensures After(ttls, r, a + b) == After(ttls, After(ttls, r, a), b)
    decreases |a|
  {
    if a == [] {
      assert a + b == b;
    } else {
      assert (a + b)[1..] == a[1..] + b;
      AfterJoin(ttls, Next(ttls, r, a[0]), a[1..], b);
    }
  }

  /** In every reachable state: a chain has at most one unrevoked refresh token, and has one unless
      every token of it is revoked; its access and refresh tokens are equal in number. */
  lemma ChainsAreOrderly(ttls: Ttls, accounts: map<UserId, AccountState>, t: Time, events: seq<Event>, i: nat, j: nat)
    ensures var st := After(ttls, Empty(accounts, t), events).store;
      && (IsLiveRefresh(st, i) && IsLiveRefresh(st, j) && st.tokens[i].chain == st.tokens[j].chain ==> i == j)
      && (i in st.tokens && st.tokens[i].kind != Pat && !IsDead(st, st.tokens[i].chain) ==>
            HasLiveRefresh(st, st.tokens[i].chain))
      && forall c :: KindCount(st, c, Access) == KindCount(st, c, Refresh)
  {
    EmptyOrderly(accounts, t);
    AfterOrderly(ttls, Empty(accounts, t), events);
  }

  /** Whatever a grant was for, and whoever it was for, every token that ever descends from it is
      for exactly that. */
  lemma AuthorityNeverGrows(ttls: Ttls, accounts: map<UserId, AccountState>, t: Time, before: seq<Event>,
                            after: seq<Event>, i: nat, j: nat)
    requires i in After(ttls, Empty(accounts, t), before).store.tokens
    requires j in After(ttls, Empty(accounts, t), before + after).store.tokens
    requires After(ttls, Empty(accounts, t), before).store.tokens[i].chain
          == After(ttls, Empty(accounts, t), before + after).store.tokens[j].chain
    ensures var a := After(ttls, Empty(accounts, t), before).store.tokens[i];
      var b := After(ttls, Empty(accounts, t), before + after).store.tokens[j];
      b.user == a.user && b.scopes == a.scopes && (a.kind == Pat <==> b.kind == Pat)
  {
    EmptyOrderly(accounts, t);
    AfterJoin(ttls, Empty(accounts, t), before, after);
    AfterOrderly(ttls, Empty(accounts, t), before);
    AfterOrderly(ttls, After(ttls, Empty(accounts, t), before), after);
    AfterOrderly(ttls, Empty(accounts, t), before + after);
  }

  /** The identifiers of a chain's tokens. */
  function Members(st: Store, chain: nat): set<nat> {
    set i | i in st.tokens && st.tokens[i].chain == chain
  }

  lemma NextKeepsDead(ttls: Ttls, r: Realm, e: Event, chain: nat)
    requires Numbered(r.store) && chain < r.store.nextChain && IsDead(r.store, chain)
    ensures var st := Next(ttls, r, e).store; IsDead(st, chain) && Members(st, chain) == Members(r.store, chain)
  {
  }

  lemma {:induction false} DeadStaysDead(ttls: Ttls, r: Realm, events: seq<Event>, chain: nat)
    requires Numbered(r.store) && chain < r.store.nextChain && IsDead(r.store, chain)
    ensures var st := After(ttls, r, events).store; IsDead(st, chain) && Members(st, chain) == Members(r.store, chain)
    decreases |events|
  {
    if events != [] {
      NextKeepsDead(ttls, r, events[0], chain);
      NextPersists(ttls, r, events[0]);
      DeadStaysDead(ttls, Next(ttls, r, events[0]), events[1..], chain);
    }
  }

  /** On the session layer, presenting a refresh token that was already exchanged ends its chain:
      from then on, whatever happens, no token of it is accepted as a credential or exchanged, and
      the chain never gains another. */
  lemma ReplayEndsTheChain(ttls: Ttls, accounts: map<UserId, AccountState>, t: Time, before: seq<Event>,
                           after: seq<Event>, presented: nat, i: nat)
    requires var st := After(ttls, Empty(accounts, t), before).store;
      presented in st.tokens && st.tokens[presented].kind == Refresh && st.tokens[presented].revokedAt.Some?
    ensures var st := After(ttls, Empty(accounts, t), before).store;
      var later := After(ttls, Empty(accounts, t), before + ([Exchange(presented, SessionLayer)] + after));
      var chain := st.tokens[presented].chain;
      && Members(later.store, chain) == Members(st, chain)
      && (i in Members(st, chain) ==>
            Resolve(later.store, i, later.now).1.Err? && Rotate(later.store, i, later.now, ttls).1.Err?)
  {
    var r := After(ttls, Empty(accounts, t), before);
    var chain := r.store.tokens[presented].chain;
    var replay := Exchange(presented, SessionLayer);
    EmptyOrderly(accounts, t);
    AfterOrderly(ttls, Empty(accounts, t), before);
    AfterJoin(ttls, Empty(accounts, t), before, [replay] + after);
    assert ([replay] + after)[1..] == after;
    BreakOrderly(r.store, chain, r.now);
    DeadStaysDead(ttls, Next(ttls, r, replay), after, chain);
    assert Members(Next(ttls, r, replay).store, chain) == Members(r.store, chain);
  }

  // ----- replays over HTTP -----

  /** Every exchange is a request of its own, as the route makes it. */
  predicate OverHttp(events: seq<Event>) {
    forall e | e in events && e.Exchange? :: e.layer.RequestLayer?
  }

  /** Every grant's chain has a live refresh token. */
  ghost predicate AllAlive(st: Store) {
    forall i | i in st.tokens && st.tokens[i].kind != Pat :: HasLiveRefresh(st, st.tokens[i].chain)
  }

  lemma GrantAllAlive(ttls: Ttls, r: Realm, u: UserId, scopes: seq<string>)
    requires Numbered(r.store) && AllAlive(r.store)
    ensures AllAlive(Granted(ttls, r, u, scopes)) && AllAlive(PatMinted(ttls, r, u, scopes))
  {
    var st1, st2 := Granted(ttls, r, u, scopes), PatMinted(ttls, r, u, scopes);
    assert IsLiveRefresh(st1, r.store.nextToken + 1);
    forall i | i in st1.tokens && st1.tokens[i].kind != Pat ensures HasLiveRefresh(st1, st1.tokens[i].chain) {
      if i < r.store.nextToken {
        ChainKept(r.store, st1, st1.tokens[i].chain);
      }
    }
    forall i | i in st2.tokens && st2.tokens[i].kind != Pat ensures HasLiveRefresh(st2, st2.tokens[i].chain) {
      ChainKept(r.store, st2, st2.tokens[i].chain);
    }
  }

  lemma RotateAllAlive(st: Store, presented: nat, now: Time, ttls: Ttls)
    requires Numbered(st) && AllAlive(st) && Rotate(st, presented, now, ttls).1.Ok?
    ensures AllAlive(Rotate(st, presented, now, ttls).0)
  {
    var st2 := Rotate(st, presented, now, ttls).0;
    var row := st.tokens[presented];
    assert IsLiveRefresh(st2, st.nextToken + 1) && st2.tokens[st.nextToken + 1].chain == row.chain;
    forall i | i in st2.tokens && st2.tokens[i].kind != Pat ensures HasLiveRefresh(st2, st2.tokens[i].chain) {
      if st2.tokens[i].chain != row.chain {
        ChainKept(st, st2, st2.tokens[i].chain);
      }
    }
  }

  lemma TouchAllAlive(st: Store, st1: Store)
    requires OneAuthority(st) && AllAlive(st) && Touched(st, st1)
    requires forall i | i in st.tokens && st.tokens[i].kind != Pat ::
      st1.tokens[i].revokedAt.Some? <==> st.tokens[i].revokedAt.Some?
    ensures AllAlive(st1)
  {
    forall i | i in st1.tokens && st1.tokens[i].kind != Pat ensures HasLiveRefresh(st1, st1.tokens[i].chain) {
      assert forall j | j in st.tokens && st.tokens[j].chain == st.tokens[i].chain :: st.tokens[j].kind != Pat;
      ChainKept(st, st1, st.tokens[i].chain);
    }
  }

  lemma NextAllAlive(ttls: Ttls, r: Realm, e: Event)
    requires Orderly(r.store) && AllAlive(r.store) && (e.Exchange? ==> e.layer.RequestLayer?)
    ensures AllAlive(Next(ttls, r, e).store)
  {
    if e.Grant? || e.MintPat? {
      GrantAllAlive(ttls, r, e.u, e.scopes);
    } else if e.Exchange? {
      if Rotate(r.store, e.presented, r.now, ttls).1.Ok? {
        RotateAllAlive(r.store, e.presented, r.now, ttls);
      }
    } else {
      NextTouches(ttls, r, e);
      TouchAllAlive(r.store, Next(ttls, r, e).store);
    }
  }

  lemma {:induction false} AfterAllAlive(ttls: Ttls, r: Realm, events: seq<Event>)
    requires Orderly(r.store) && AllAlive(r.store) && OverHttp(events)
    ensures AllAlive(After(ttls, r, events).store)
    decreases |events|
  {
    if events != [] {
      assert events[0] in events;
      NextAllAlive(ttls, r, events[0]);
      NextOrderly(ttls, r, events[0]);
      AfterAllAlive(ttls, Next(ttls, r, events[0]), events[1..]);
    }
  }

  /** Over HTTP no replay ever ends a chain: in every reachable state the chain of every grant, with
      however many replays behind it, still has an unrevoked refresh token. */
  lemma NoReplayEndsAChain(ttls: Ttls, accounts: map<UserId, AccountState>, t: Time, events: seq<Event>, i: nat)
    requires OverHttp(events)
    ensures var st := After(ttls, Empty(accounts, t), events).store;
      i in st.tokens && st.tokens[i].kind != Pat ==> HasLiveRefresh(st, st.tokens[i].chain)
  {
    EmptyOrderly(accounts, t);
    AfterAllAlive(ttls, Empty(accounts, t), events);
  }

  /** So what one more replay does depends on its layer alone: it ends the chain if and only if the
      caller keeps the session. */
  lemma ReplayByLayer(ttls: Ttls, accounts: map<UserId, AccountState>, t: Time, before: seq<Event>, presented: nat,
                      layer: Layer)
    requires OverHttp(before)
    requires var st := After(ttls, Empty(accounts, t), before).store;
      presented in st.tokens && st.tokens[presented].kind == Refresh && st.tokens[presented].revokedAt.Some?
    ensures var st := After(ttls, Empty(accounts, t), before).store;
      IsDead(After(ttls, Empty(accounts, t), before + [Exchange(presented, layer)]).store, st.tokens[presented].chain)
      <==> layer.SessionLayer?
  {
    var r := After(ttls, Empty(accounts, t), before);
    var e := Exchange(presented, layer);
    EmptyOrderly(accounts, t);
    AfterOrderly(ttls, Empty(accounts, t), before);
    AfterJoin(ttls, Empty(accounts, t), before, [e]);
    assert [e][1..] == [];
    assert After(ttls, r, [e]) == After(ttls, Next(ttls, r, e), []);
    BreakOrderly(r.store, r.store.tokens[presented].chain, r.now);
    NoReplayEndsAChain(ttls, accounts, t, before, presented);
  }

  /** A run in which a replay changes nothing: a grant, an exchange over HTTP, and the same token
      presented again. It is answered as a replay, and both tokens of the pair issued before it
      are honoured after it. */
  lemma ReplayedAndAlive()
    ensures var ttls, accounts := Ttls(60, 600), map[0 := ActiveAccount];
      var r := After(ttls, Empty(accounts, 0), [Grant(0, []), Exchange(1, RequestLayer)]);
      var r1 := After(ttls, Empty(accounts, 0),
                      [Grant(0, []), Exchange(1, RequestLayer)] + [Exchange(1, RequestLayer)]);
      && Rotate(r.store, 1, r.now, ttls).1 == Err(Replayed) && r1 == r
      && Resolve(r1.store, 2, r1.now).1 == Ok(0) && Rotate(r1.store, 3, r1.now, ttls).1.Ok?
  {
    var ttls := Ttls(60, 600);
    var s := Empty(map[0 := ActiveAccount], 0);
    var again := Exchange(1, RequestLayer);
    var s1 := Next(ttls, s, Grant(0, []));
    var r := Next(ttls, s1, again);
    TwoEvents(ttls, s, Grant(0, []), again);
    AfterJoin(ttls, s, [Grant(0, []), again], [again]);
    assert [again][1..] == [];
    assert After(ttls, r, [again]) == After(ttls, Next(ttls, r, again), []);
    GrantedAndExchanged();
  }

  lemma TwoEvents(ttls: Ttls, r: Realm, a: Event, b: Event)
    ensures After(ttls, r, [a, b]) == Next(ttls, Next(ttls, r, a), b)
  {
    assert [a, b][1..] == [b] && [b][1..] == [];
    assert After(ttls, Next(ttls, r, a), [b]) == After(ttls, Next(ttls, Next(ttls, r, a), b), []);
  }

  lemma GrantedAndExchanged()
    ensures var ttls, again := Ttls(60, 600), Exchange(1, RequestLayer);
      var r := Next(ttls, Next(ttls, Empty(map[0 := ActiveAccount], 0), Grant(0, [])), again);
      && Rotate(r.store, 1, r.now, ttls).1 == Err(Replayed) && Next(ttls, r, again) == r
      && Resolve(r.store, 2, r.now).1 == Ok(0) && Rotate(r.store, 3, r.now, ttls).1.Ok?
  {
  }

  // ----- what is honoured over HTTP -----

  /** Some exchange of the token among the events is granted. */
  predicate Spent(ttls: Ttls, r: Realm, events: seq<Event>, i: nat)
    decreases |events|
  {
    events != [] &&
    ((events[0].Exchange? && events[0].presented == i && Rotate(r.store, i, r.now, ttls).1.Ok?)
     || Spent(ttls, Next(ttls, r, events[0]), events[1..], i))
  }

  /** Over HTTP a refresh token is revoked by its own granted exchange and by nothing else. */
  lemma NextRevokes(ttls: Ttls, r: Realm, e: Event, i: nat)
    requires Numbered(r.store) && i in r.store.tokens && r.store.tokens[i].kind == Refresh
    requires r.store.tokens[i].revokedAt.None? && (e.Exchange? ==> e.layer.RequestLayer?)
    ensures i in Next(ttls, r, e).store.tokens
    ensures Next(ttls, r, e).store.tokens[i].revokedAt.Some? <==>
      e.Exchange? && e.presented == i && Rotate(r.store, i, r.now, ttls).1.Ok?
  {
  }

  lemma {:induction false} SpentIsRevoked(ttls: Ttls, r: Realm, events: seq<Event>, i: nat)
    requires Orderly(r.store) && OverHttp(events) && i in r.store.tokens
    requires r.store.tokens[i].kind == Refresh && r.store.tokens[i].revokedAt.None?
    ensures var st := After(ttls, r, events).store;
      i in st.tokens && (st.tokens[i].revokedAt.Some? <==> Spent(ttls, r, events, i))
    decreases |events|
  {
    if events != [] {
      var r1 := Next(ttls, r, events[0]);
      assert events[0] in events;
      NextRevokes(ttls, r, events[0], i);
      NextOrderly(ttls, r, events[0]);
      NextPersists(ttls, r, events[0]);
      if r1.store.tokens[i].revokedAt.Some? {
        AfterOrderly(ttls, r1, events[1..]);
      } else {
        SpentIsRevoked(ttls, r1, events[1..], i);
      }
    }
  }

  /** From any reachable state on, over HTTP, an unrevoked refresh token is honoured exactly as long as
      no exchange of it was granted, it has not expired, and its account is active: whatever is
      replayed beside it, on its own chain too. */
  lemma RefreshOverHttp(ttls: Ttls, accounts: map<UserId, AccountState>, t: Time, before: seq<Event>,
                        after: seq<Event>, i: nat)
    requires OverHttp(after) && IsLiveRefresh(After(ttls, Empty(accounts, t), before).store, i)
    ensures var r, end := After(ttls, Empty(accounts, t), before), After(ttls, Empty(accounts, t), before + after);
      var row := r.store.tokens[i];
      Rotate(end.store, i, end.now, ttls).1.Ok? <==>
        && !Spent(ttls, r, after, i) && OwnerActive(end.store, row)
        && (row.expiresAt.Some? ==> end.now < row.expiresAt.value)
  {
    var r, end := After(ttls, Empty(accounts, t), before), After(ttls, Empty(accounts, t), before + after);
    EmptyOrderly(accounts, t);
    AfterJoin(ttls, Empty(accounts, t), before, after);
    AfterOrderly(ttls, Empty(accounts, t), before);
    AfterOrderly(ttls, r, after);
    SpentIsRevoked(ttls, r, after, i);
    ExchangeExactly(ttls, end, i);
  }

  ghost predicate AccessUnrevoked(st: Store) {
    forall i | i in st.tokens && st.tokens[i].kind == Access :: st.tokens[i].revokedAt.None?
  }

  lemma NextAccess(ttls: Ttls, r: Realm, e: Event)
    requires Numbered(r.store) && AccessUnrevoked(r.store) && (e.Exchange? ==> e.layer.RequestLayer?)
    ensures AccessUnrevoked(Next(ttls, r, e).store)
  {
  }

  lemma {:induction false} AfterAccess(ttls: Ttls, r: Realm, events: seq<Event>)
    requires Orderly(r.store) && AccessUnrevoked(r.store) && OverHttp(events)
    ensures AccessUnrevoked(After(ttls, r, events).store)
    decreases |events|
  {
    if events != [] {
      assert events[0] in events;
      NextAccess(ttls, r, events[0]);
      NextOrderly(ttls, r, events[0]);
      AfterAccess(ttls, Next(ttls, r, events[0]), events[1..]);
    }
  }

  /** Over HTTP nothing ever revokes an access token: it is honoured exactly until it expires, while its
      account is active, whatever is exchanged or replayed on its chain. */
  lemma AccessOverHttp(ttls: Ttls, accounts: map<UserId, AccountState>, t: Time, before: seq<Event>,
                       after: seq<Event>, i: nat)
    requires OverHttp(before) && OverHttp(after)
    requires var st := After(ttls, Empty(accounts, t), before).store; i in st.tokens && st.tokens[i].kind == Access
    ensures var r, end := After(ttls, Empty(accounts, t), before), After(ttls, Empty(accounts, t), before + after);
      var row := r.store.tokens[i];
      Resolve(end.store, i, end.now).1.Ok? <==>
        OwnerActive(end.store, row) && (row.expiresAt.Some? ==> end.now < row.expiresAt.value)
  {
    var r, end := After(ttls, Empty(accounts, t), before), After(ttls, Empty(accounts, t), before + after);
    EmptyOrderly(accounts, t);
    AfterJoin(ttls, Empty(accounts, t), before, after);
    AfterOrderly(ttls, Empty(accounts, t), before);
    AfterAccess(ttls, Empty(accounts, t), before);
    AfterOrderly(ttls, r, after);
    AfterAccess(ttls, r, after);
    ResolveExactly(end.store, i, end.now);
  }

  // ----- exchanges that overlap -----

  /** What `k` requests with one refresh token write, when all of them read it before any wrote: each
      found it live, and each revokes it and mints a pair. */
  function Overlapped(st: Store, presented: nat, now: Time, ttls: Ttls, k: nat): (r: Store)
    requires presented in st.tokens
    ensures presented in r.tokens
  {
    if k == 0 then st else Replaced(Overlapped(st, presented, now, ttls, k - 1), presented, now, ttls)
  }

  function LiveOf(st: Store, chain: nat): set<nat> {
    set i | i in st.tokens && IsLiveRefresh(st, i) && st.tokens[i].chain == chain
  }

  lemma ReplacedLive(st: Store, presented: nat, now: Time, ttls: Ttls)
    requires Numbered(st) && presented in st.tokens
    ensures var st1, chain := Replaced(st, presented, now, ttls), st.tokens[presented].chain;
      && Numbered(st1) && st1.tokens[presented].chain == chain
      && LiveOf(st1, chain) == LiveOf(st, chain) - {presented} + {st.nextToken + 1}
      && st.nextToken + 1 !in LiveOf(st, chain)
  {
  }

  lemma {:induction false} OverlappedLive(st: Store, presented: nat, now: Time, ttls: Ttls, k: nat)
    requires Numbered(st) && OneLiveRefresh(st) && IsLiveRefresh(st, presented) && 1 <= k
    ensures var st1, chain := Overlapped(st, presented, now, ttls, k), st.tokens[presented].chain;
      && Numbered(st1) && st1.tokens[presented].chain == chain
      && presented !in LiveOf(st1, chain) && |LiveOf(st1, chain)| == k
    decreases k
  {
    var chain := st.tokens[presented].chain;
    var st0 := Overlapped(st, presented, now, ttls, k - 1);
    if k == 1 {
      assert LiveOf(st, chain) == {presented};
      assert LiveOf(st, chain) - {presented} == {};
    } else {
      OverlappedLive(st, presented, now, ttls, k - 1);
      assert LiveOf(st0, chain) - {presented} == LiveOf(st0, chain);
    }
    ReplacedLive(st0, presented, now, ttls);
  }

  /** Why exchanges have to be serialised, which the code does not see to: of `k` exchanges of one
      token that overlap, all succeed, and they leave the chain exactly `k` live refresh tokens. One
      at a time, the first is granted and each other is a replay. */
  lemma OverlappingExchanges(ttls: Ttls, accounts: map<UserId, AccountState>, t: Time, events: seq<Event>,
                             presented: nat, k: nat)
    requires var r := After(ttls, Empty(accounts, t), events); Rotate(r.store, presented, r.now, ttls).1.Ok? && 1 <= k
    ensures var r := After(ttls, Empty(accounts, t), events);
      && |LiveOf(Overlapped(r.store, presented, r.now, ttls, k), r.store.tokens[presented].chain)| == k
      && Rotate(r.store, presented, r.now, ttls).0 == Overlapped(r.store, presented, r.now, ttls, 1)
      && Rotate(Overlapped(r.store, presented, r.now, ttls, 1), presented, r.now, ttls).1 == Err(Replayed)
  {
    var r := After(ttls, Empty(accounts, t), events);
    EmptyOrderly(accounts, t);
    AfterOrderly(ttls, Empty(accounts, t), events);
    OverlappedLive(r.store, presented, r.now, ttls, k);
    assert Overlapped(r.store, presented, r.now, ttls, 1)
        == Replaced(Overlapped(r.store, presented, r.now, ttls, 0), presented, r.now, ttls);
  }

  /** A refresh token is exchanged once at most: after it was, no later state of any run honours it. */
  lemma ExchangedOnce(ttls: Ttls, r: Realm, presented: nat, layer: Layer, after: seq<Event>)
    requires Orderly(r.store) && Rotate(r.store, presented, r.now, ttls).1.Ok?
    ensures var later := After(ttls, r, [Exchange(presented, layer)] + after);
      Rotate(later.store, presented, later.now, ttls).1 == Err(Replayed)
  {
    var e := Exchange(presented, layer);
    assert ([e] + after)[1..] == after;
    NextOrderly(ttls, r, e);
    assert Next(ttls, r, e).store.tokens[presented].revokedAt.Some?;
    AfterOrderly(ttls, Next(ttls, r, e), after);
  }

  /** A credential that is honoured now was, at every earlier moment at which it existed, unrevoked,
      of the same account and scopes, and due to expire when it is due to expire now. */
  lemma HonouredWasNeverRevoked(ttls: Ttls, accounts: map<UserId, AccountState>, t: Time, before: seq<Event>,
                                after: seq<Event>, i: nat)
    requires i in After(ttls, Empty(accounts, t), before).store.tokens
    ensures var r := After(ttls, Empty(accounts, t), before + after);
      var row := After(ttls, Empty(accounts, t), before).store.tokens[i];
      Resolve(r.store, i, r.now).1.Ok? || Rotate(r.store, i, r.now, ttls).1.Ok? ==>
        && row.revokedAt.None? && OwnerActive(r.store, row)
        && (row.expiresAt.Some? ==> r.now < row.expiresAt.value)
        && r.store.tokens[i].user == row.user && r.store.tokens[i].scopes == row.scopes
  {
    EmptyOrderly(accounts, t);
    AfterJoin(ttls, Empty(accounts, t), before, after);
    AfterOrderly(ttls, Empty(accounts, t), before);
    AfterOrderly(ttls, After(ttls, Empty(accounts, t), before), after);
  }

  /** A credential is accepted exactly when it is an access or personal token, unrevoked, unexpired
      and of an active account; it answers with its owner, and all that changes is when it was
      last used. A refresh token is never accepted as a credential. */
  lemma ResolveExactly(st: Store, presented: nat, now: Time)
    ensures var (st1, result) := Resolve(st, presented, now);
      && (result.Ok? <==>
            && presented in st.tokens && st.tokens[presented].kind != Refresh && st.tokens[presented].revokedAt.None?
            && OwnerActive(st, st.tokens[presented])
            && (st.tokens[presented].expiresAt.Some? ==> now < st.tokens[presented].expiresAt.value))
      && (result.Err? ==> st1 == st)
      && (result.Err? ==>
            if presented !in st.tokens || st.tokens[presented].kind == Refresh then result.error == NotUsable
            else if st.tokens[presented].revokedAt.Some? then result.error == IsRevoked
            else if result.error == HasExpired then
              st.tokens[presented].expiresAt.Some? && st.tokens[presented].expiresAt.value <= now
            else result.error == OwnerInactive && !OwnerActive(st, st.tokens[presented]))
      && (result.Ok? ==>
            && result.value == st.tokens[presented].user && st1 == st.(tokens := st1.tokens)
            && st1.tokens.Keys == st.tokens.Keys
            && (forall i | i in st.tokens :: st1.tokens[i] == st.tokens[i].(lastUsedAt := st1.tokens[i].lastUsedAt))
            && (forall i | i in st.tokens && i != presented :: st1.tokens[i] == st.tokens[i])
            && st1.tokens[presented].lastUsedAt == Some(now))
  {
  }

  /** An exchange is granted exactly to an unrevoked, unexpired refresh token of an active account;
      then it, and nothing else, is revoked, and its chain gains one pair with its authority. */
  lemma ExchangeExactly(ttls: Ttls, r: Realm, presented: nat)
    requires Numbered(r.store)
    ensures var (st, result) := Rotate(r.store, presented, r.now, ttls);
      && (result.Ok? <==>
            && IsLiveRefresh(r.store, presented) && OwnerActive(r.store, r.store.tokens[presented])
            && (r.store.tokens[presented].expiresAt.Some? ==> r.now < r.store.tokens[presented].expiresAt.value))
      && (result.Ok? ==>
            var row := r.store.tokens[presented];
            && st.tokens.Keys == r.store.tokens.Keys + {result.value.access, result.value.refresh}
            && {result.value.access, result.value.refresh} !! r.store.tokens.Keys
            && st.tokens[result.value.access].kind == Access && st.tokens[result.value.refresh].kind == Refresh
            && (forall n | n in {result.value.access, result.value.refresh} ::
                  st.tokens[n].user == row.user && st.tokens[n].scopes == row.scopes
                  && st.tokens[n].chain == row.chain && st.tokens[n].revokedAt.None?)
            && (forall i | i in r.store.tokens && i != presented :: st.tokens[i] == r.store.tokens[i])
            && st.tokens[presented] == row.(revokedAt := Some(r.now)) && result.value.scopes == row.scopes)
      && (result.Err? ==>
            if presented !in r.store.tokens || r.store.tokens[presented].kind != Refresh then
              result.error == NoSuchRefresh && st == r.store
            else if r.store.tokens[presented].revokedAt.Some? then result.error == Replayed
            else if result.error == HasExpired then st == r.store
              && r.store.tokens[presented].expiresAt.Some? && r.store.tokens[presented].expiresAt.value <= r.now
            else result.error == OwnerInactive && st == r.store && !OwnerActive(r.store, r.store.tokens[presented]))
  {
  }
}
