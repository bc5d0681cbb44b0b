/** The token table. Three kinds of rows, chained by the grant they descend from; resolving, exchanging
    and breaking a chain as functions of the table, and as methods proved equal to them. A token is
    known by the serial number of its row, which stands for its hash: a presented value either hashes
    to one row or to none. */
module Credentials {
  import opened Basics
  import opened Schema

  datatype Kind = Access | Refresh | Pat

  datatype AccountState = ActiveAccount | Suspended | Tombstone

  datatype Token = Token(
    user: UserId,
    kind: Kind,
    scopes: seq<string>,
    chain: nat,
    expiresAt: Option<Time>,
    revokedAt: Option<Time>,
    lastUsedAt: Option<Time>)

  datatype Store = Store(
    accounts: map<UserId, AccountState>,
    tokens: map<nat, Token>,
    nextToken: nat,
    nextChain: nat)

  datatype Ttls = Ttls(access: int, refresh: int)

  datatype Denial = NotUsable | NoSuchRefresh | Replayed | IsRevoked | HasExpired | OwnerInactive

  datatype IssuedPair = IssuedPair(access: nat, refresh: nat, scopes: seq<string>)

  /** A lifetime of zero seconds counts as none at all. */
  function Expiry(ttl: Option<int>, now: Time): Option<Time> {
    if ttl.Some? && ttl.value != 0 then Some(now + ttl.value * SECOND) else None
  }

  function TtlFor(kind: Kind, ttls: Ttls): Option<int> {
    match kind
    case Access => Some(ttls.access)
    case Refresh => Some(ttls.refresh)
    case Pat => None
  }

  function Fresh(u: UserId, kind: Kind, scopes: seq<string>, chain: nat, now: Time, ttls: Ttls): Token {
    Token(u, kind, scopes, chain, Expiry(TtlFor(kind, ttls), now), None, None)
  }

  function Minted(st: Store, row: Token): Store {
    st.(tokens := st.tokens[st.nextToken := row], nextToken := st.nextToken + 1)
  }

  function PairIssued(st: Store, u: UserId, scopes: seq<string>, chain: nat, now: Time, ttls: Ttls): Store {
    Minted(Minted(st, Fresh(u, Access, scopes, chain, now, ttls)), Fresh(u, Refresh, scopes, chain, now, ttls))
  }

  function CheckLive(row: Token, now: Time): Option<Denial> {
    if row.revokedAt.Some? then Some(IsRevoked)
    else if row.expiresAt.Some? && row.expiresAt.value <= now then Some(HasExpired)
    else None
  }

  predicate OwnerActive(st: Store, row: Token) {
    row.user in st.accounts && st.accounts[row.user] == ActiveAccount
  }

  function Revoked(row: Token, now: Time): Token {
    row.(revokedAt := Some(now))
  }

  /** The rows of the chain that are not revoked yet. */
  function Unrevoked(tokens: map<nat, Token>, chain: nat): set<nat> {
    set i | i in tokens && tokens[i].chain == chain && tokens[i].revokedAt.None?
  }

  function Broken(st: Store, chain: nat, now: Time): Store {
    var live := Unrevoked(st.tokens, chain);
    st.(tokens := map i | i in st.tokens :: if i in live then Revoked(st.tokens[i], now) else st.tokens[i])
  }

  function Resolve(st: Store, presented: nat, now: Time): (Store, Result<UserId, Denial>) {
    if presented !in st.tokens || st.tokens[presented].kind == Refresh then (st, Err(NotUsable)) else
      var row := st.tokens[presented];
      if CheckLive(row, now).Some? then (st, Err(CheckLive(row, now).value))
      else if !OwnerActive(st, row) then (st, Err(OwnerInactive))
      else (st.(tokens := st.tokens[presented := row.(lastUsedAt := Some(now))]), Ok(row.user))
  }

  /** What an exchange writes: the presented token is revoked and its chain gains a pair. */
  function Replaced(st: Store, presented: nat, now: Time, ttls: Ttls): Store
    requires presented in st.tokens
  {
    var row := st.tokens[presented];
    var st1 := st.(tokens := st.tokens[presented := Revoked(row, now)]);
    PairIssued(st1, row.user, row.scopes, row.chain, now, ttls)
  }

  /** A refresh token that was exchanged already ends its whole chain. */
  function Rotate(st: Store, presented: nat, now: Time, ttls: Ttls): (Store, Result<IssuedPair, Denial>) {
    if presented !in st.tokens || st.tokens[presented].kind != Refresh then (st, Err(NoSuchRefresh)) else
      var row := st.tokens[presented];
      if row.revokedAt.Some? then (Broken(st, row.chain, now), Err(Replayed))
      else if CheckLive(row, now).Some? then (st, Err(CheckLive(row, now).value))
      else if !OwnerActive(st, row) then (st, Err(OwnerInactive))
      else
        (Replaced(st, presented, now, ttls), Ok(IssuedPair(st.nextToken, st.nextToken + 1, row.scopes)))
  }

  class TokenTable {
    var accounts: map<UserId, AccountState>
    var tokens: map<nat, Token>
    var nextToken: nat
    var nextChain: nat

    constructor (accounts: map<UserId, AccountState>)
      ensures View() == Store(accounts, map[], 0, 0)
    {
      this.accounts := accounts;
      tokens, nextToken, nextChain := map[], 0, 0;
    }

    function View(): Store
      reads this
    {
      Store(accounts, tokens, nextToken, nextChain)
    }

    method NewChain() returns (chain: nat)
      modifies this
      ensures chain == old(nextChain) && View() == old(View()).(nextChain := chain + 1)
    {
      chain := nextChain;
      nextChain := nextChain + 1;
    }

    method Mint(row: Token) returns (id: nat)
      modifies this
      ensures id == old(nextToken) && View() == Minted(old(View()), row)
    {
      id := nextToken;
      tokens := tokens[id := row];
      nextToken := nextToken + 1;
    }

    method IssuePair(u: UserId, scopes: seq<string>, chain: Option<nat>, now: Time, ttls: Ttls)
      returns (pair: IssuedPair)
      modifies this
      ensures chain.Some? ==> View() == PairIssued(old(View()), u, scopes, chain.value, now, ttls)
      ensures chain.None? ==>
        View() == PairIssued(old(View()).(nextChain := old(nextChain) + 1), u, scopes, old(nextChain), now, ttls)
      ensures pair == IssuedPair(old(nextToken), old(nextToken) + 1, scopes)
    {
      var c: nat;
      if chain.Some? {
        c := chain.value;
      } else {
        c := NewChain();
      }
      var access := Mint(Fresh(u, Access, scopes, c, now, ttls));
      var refresh := Mint(Fresh(u, Refresh, scopes, c, now, ttls));
      pair := IssuedPair(access, refresh, scopes);
    }

    method ResolveToken(presented: nat, now: Time) returns (r: Result<UserId, Denial>)
      modifies this
      ensures (View(), r) == Resolve(old(View()), presented, now)
    {
      if presented !in tokens || tokens[presented].kind == Refresh {
        return Err(NotUsable);
      }
      var row := tokens[presented];
      var dead := CheckLive(row, now);
      if dead.Some? {
        return Err(dead.value);
      }
      if !OwnerActive(View(), row) {
        return Err(OwnerInactive);
      }
      tokens := tokens[presented := row.(lastUsedAt := Some(now))];
      r := Ok(row.user);
    }

    method RotateToken(presented: nat, now: Time, ttls: Ttls) returns (r: Result<IssuedPair, Denial>)
      modifies this
      ensures (View(), r) == Rotate(old(View()), presented, now, ttls)
    {
      if presented !in tokens || tokens[presented].kind != Refresh {
        return Err(NoSuchRefresh);
      }
      var row := tokens[presented];
      if row.revokedAt.Some? {
        BreakChain(row.chain, now);
        return Err(Replayed);
      }
      var dead := CheckLive(row, now);
      if dead.Some? {
        return Err(dead.value);
      }
      if !OwnerActive(View(), row) {
        return Err(OwnerInactive);
      }
      tokens := tokens[presented := Revoked(row, now)];
      var pair := IssuePair(row.user, row.scopes, Some(row.chain), now, ttls);
      r := Ok(pair);
    }

    /** One chain's rows, one at a time, until none is left unrevoked. */
    method BreakChain(chain: nat, now: Time)
      modifies this
      ensures View() == Broken(old(View()), chain, now)
    {
      ghost var all := Unrevoked(tokens, chain);
      var rows := Unrevoked(tokens, chain);
      while rows != {}
        invariant rows <= all && tokens.Keys == old(tokens).Keys
        invariant accounts == old(accounts) && nextToken == old(nextToken) && nextChain == old(nextChain)
        invariant forall i | i in tokens ::
          tokens[i] == if i in all - rows then Revoked(old(tokens)[i], now) else old(tokens)[i]
        decreases |rows|
      {
        var i :| i in rows;
        tokens := tokens[i := Revoked(tokens[i], now)];
        rows := rows - {i};
      }
      assert tokens == Broken(old(View()), chain, now).tokens;
    }
  }
}
