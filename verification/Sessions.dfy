/** Web sessions: an absolute and an idle expiry, and revocation that holds. A cookie is known by
    the serial number of its row, which stands for its hash. */
module Sessions {
  import opened Basics
  import opened Schema
  import opened Credentials

  datatype WebSession = WebSession(user: UserId, lastSeen: Time, expiresAt: Time, revokedAt: Option<Time>)

  datatype Limits = Limits(absolute: int, idle: int)

  datatype Site = Site(accounts: map<UserId, AccountState>, rows: map<nat, WebSession>, nextRow: nat, now: Time)

  predicate IsUsable(row: WebSession, limits: Limits, now: Time) {
    row.revokedAt.None? && row.expiresAt > now && row.lastSeen + limits.idle * SECOND > now
  }

  function Started(site: Site, u: UserId, limits: Limits): Site {
    var row := WebSession(u, site.now, site.now + limits.absolute * SECOND, None);
    site.(rows := site.rows[site.nextRow := row], nextRow := site.nextRow + 1)
  }

  predicate Resolves(site: Site, cookie: nat, limits: Limits) {
    cookie in site.rows && IsUsable(site.rows[cookie], limits, site.now)
    && site.rows[cookie].user in site.accounts && site.accounts[site.rows[cookie].user] == ActiveAccount
  }

  function Used(site: Site, cookie: nat, limits: Limits): Site {
    if Resolves(site, cookie, limits)
    then site.(rows := site.rows[cookie := site.rows[cookie].(lastSeen := site.now)]) else site
  }

  function SignedOut(site: Site, cookie: nat): Site {
    if cookie in site.rows
    then site.(rows := site.rows[cookie := site.rows[cookie].(revokedAt := Some(site.now))]) else site
  }

  function OpenRows(rows: map<nat, WebSession>, u: UserId): set<nat> {
    set i | i in rows && rows[i].user == u && rows[i].revokedAt.None?
  }

  function AllSignedOut(site: Site, u: UserId): Site {
    var open := OpenRows(site.rows, u);
    site.(rows := map i | i in site.rows ::
      if i in open then site.rows[i].(revokedAt := Some(site.now)) else site.rows[i])
  }

  class SessionTable {
    var accounts: map<UserId, AccountState>
    var rows: map<nat, WebSession>
    var nextRow: nat

    function View(now: Time): Site
      reads this
    {
      Site(accounts, rows, nextRow, now)
    }

    method StartSession(u: UserId, limits: Limits, now: Time) returns (cookie: nat)
      modifies this
      ensures cookie == old(nextRow) && View(now) == Started(old(View(now)), u, limits)
    {
      cookie := nextRow;
      rows := rows[cookie := WebSession(u, now, now + limits.absolute * SECOND, None)];
      nextRow := nextRow + 1;
    }

    method ResolveCookie(cookie: nat, limits: Limits, now: Time) returns (u: Option<UserId>)
      modifies this
      ensures View(now) == Used(old(View(now)), cookie, limits)
      ensures u == if Resolves(old(View(now)), cookie, limits) then Some(old(rows)[cookie].user) else None
    {
      if cookie !in rows || !IsUsable(rows[cookie], limits, now) {
        return None;
      }
      var row := rows[cookie];
      if row.user !in accounts || accounts[row.user] != ActiveAccount {
        return None;
      }
      rows := rows[cookie := row.(lastSeen := now)];
      u := Some(row.user);
    }

    method Revoke(cookie: nat, now: Time)
      modifies this
      ensures View(now) == SignedOut(old(View(now)), cookie)
    {
      if cookie in rows {
        rows := rows[cookie := rows[cookie].(revokedAt := Some(now))];
      }
    }

    method RevokeAll(u: UserId, now: Time) returns (revoked: nat)
      modifies this
      ensures View(now) == AllSignedOut(old(View(now)), u)
      ensures revoked == |OpenRows(old(rows), u)|
    {
      ghost var all := OpenRows(rows, u);
      var open := OpenRows(rows, u);
      revoked := 0;
      while open != {}
        invariant open <= all && revoked + |open| == |all| && rows.Keys == old(rows).Keys
        invariant accounts == old(accounts) && nextRow == old(nextRow)
        invariant forall i | i in rows ::
          rows[i] == if i in all - open then old(rows)[i].(revokedAt := Some(now)) else old(rows)[i]
        decreases |open|
      {
        var i :| i in open;
        rows := rows[i := rows[i].(revokedAt := Some(now))];
        open := open - {i};
        revoked := revoked + 1;
      }
      assert rows == AllSignedOut(old(View(now)), u).rows;
    }
  }

  // ----- runs -----

  datatype Happening =
    | SignIn(u: UserId)
    | Visit(cookie: nat)
    | SignOut(cookie: nat)
    | SignOutAll(u: UserId)
    | Moderate(u: UserId, state: AccountState)
    | Pass(d: nat)

  function Happens(limits: Limits, site: Site, h: Happening): Site {
    match h
    case SignIn(u) => Started(site, u, limits)
    case Visit(cookie) => Used(site, cookie, limits)
    case SignOut(cookie) => SignedOut(site, cookie)
    case SignOutAll(u) => AllSignedOut(site, u)
    case Moderate(u, state) => site.(accounts := site.accounts[u := state])
    case Pass(d) => site.(now := site.now + d)
  }

  function Later(limits: Limits, site: Site, hs: seq<Happening>): Site
    decreases |hs|
  {
    if hs == [] then site else Later(limits, Happens(limits, site, hs[0]), hs[1..])
  }

  ghost predicate Serial(site: Site) {
    forall i | i in site.rows :: i < site.nextRow
  }

  lemma {:induction false} DeadStaysDead(limits: Limits, site: Site, hs: seq<Happening>, cookie: nat)
    requires Serial(site) && cookie in site.rows && !IsUsable(site.rows[cookie], limits, site.now)
    ensures var end := Later(limits, site, hs);
      cookie in end.rows && !IsUsable(end.rows[cookie], limits, end.now)
    decreases |hs|
  {
    if hs != [] {
      DeadStaysDead(limits, Happens(limits, site, hs[0]), hs[1..], cookie);
    }
  }

  lemma {:induction false} LaterSerial(limits: Limits, site: Site, hs: seq<Happening>)
    requires Serial(site)
    ensures Serial(Later(limits, site, hs)) && site.now <= Later(limits, site, hs).now
    decreases |hs|
  {
    if hs != [] {
      LaterSerial(limits, Happens(limits, site, hs[0]), hs[1..]);
    }
  }

  lemma {:induction false} LaterJoin(limits: Limits, site: Site, a: seq<Happening>, b: seq<Happening>)
    ensures Later(limits, site, a + b) == Later(limits, Later(limits, site, a), b)
    decreases |a|
  {
    if a == [] {
      assert a + b == b;
    } else {
      assert (a + b)[1..] == a[1..] + b;
      LaterJoin(limits, Happens(limits, site, a[0]), a[1..], b);
    }
  }

  function NoSessions(accounts: map<UserId, AccountState>, t: Time): Site {
    Site(accounts, map[], 0, t)
  }

  /** In any run: once a cookie is revoked, idle for too long or past its absolute expiry, nothing
      that can happen makes it resolve again. */
  lemma OnceDeadAlwaysDead(limits: Limits, accounts: map<UserId, AccountState>, t: Time, before: seq<Happening>,
                           after: seq<Happening>, cookie: nat)
    requires var site := Later(limits, NoSessions(accounts, t), before);
      cookie in site.rows && !IsUsable(site.rows[cookie], limits, site.now)
    ensures !Resolves(Later(limits, NoSessions(accounts, t), before + after), cookie, limits)
  {
    LaterJoin(limits, NoSessions(accounts, t), before, after);
    LaterSerial(limits, NoSessions(accounts, t), before);
    DeadStaysDead(limits, Later(limits, NoSessions(accounts, t), before), after, cookie);
  }

  /** In any run: signing out everywhere ends every session the account has, for good. */
  lemma SignOutEverywhere(limits: Limits, accounts: map<UserId, AccountState>, t: Time, before: seq<Happening>,
                          after: seq<Happening>, u: UserId, cookie: nat)
    requires var site := Later(limits, NoSessions(accounts, t), before);
      cookie in site.rows && site.rows[cookie].user == u
    ensures !Resolves(Later(limits, NoSessions(accounts, t), before + ([SignOutAll(u)] + after)), cookie, limits)
  {
    var site := Later(limits, NoSessions(accounts, t), before);
    LaterJoin(limits, NoSessions(accounts, t), before, [SignOutAll(u)] + after);
    LaterSerial(limits, NoSessions(accounts, t), before);
    assert ([SignOutAll(u)] + after)[1..] == after;
    DeadStaysDead(limits, Happens(limits, site, SignOutAll(u)), after, cookie);
  }

  /** When the cookie was successfully used, in order. */
  function UseTimes(limits: Limits, site: Site, hs: seq<Happening>, cookie: nat): seq<Time>
    decreases |hs|
  {
    if hs == [] then []
    else (if hs[0] == Visit(cookie) && Resolves(site, cookie, limits) then [site.now] else [])
         + UseTimes(limits, Happens(limits, site, hs[0]), hs[1..], cookie)
  }

  /** Each time follows the one before by less than the idle limit, and all lie before `end`. */
  predicate Paced(from: Time, times: seq<Time>, idle: int, end: Time)
    decreases |times|
  {
    times == [] || (from <= times[0] < from + idle && times[0] < end && Paced(times[0], times[1..], idle, end))
  }

  lemma {:induction false} UsesArePaced(limits: Limits, site: Site, hs: seq<Happening>, cookie: nat)
    requires Serial(site) && cookie in site.rows && site.rows[cookie].lastSeen <= site.now
    ensures var row := site.rows[cookie];
      Paced(row.lastSeen, UseTimes(limits, site, hs, cookie), limits.idle * SECOND, row.expiresAt)
    decreases |hs|
  {
    if hs != [] {
      UsesArePaced(limits, Happens(limits, site, hs[0]), hs[1..], cookie);
      var rest := UseTimes(limits, Happens(limits, site, hs[0]), hs[1..], cookie);
      if hs[0] == Visit(cookie) && Resolves(site, cookie, limits) {
        assert UseTimes(limits, site, hs, cookie)[1..] == rest;
      } else {
        assert UseTimes(limits, site, hs, cookie) == rest;
      }
    }
  }

  /** In any run, from a sign-in on: every successful use of its cookie is before the absolute expiry
      and less than the idle limit after the use before it, the first one after the sign-in. */
  lemma SessionUseIsBounded(limits: Limits, accounts: map<UserId, AccountState>, t: Time, before: seq<Happening>,
                            u: UserId, after: seq<Happening>)
    ensures var site := Later(limits, NoSessions(accounts, t), before);
      Paced(site.now, UseTimes(limits, Happens(limits, site, SignIn(u)), after, site.nextRow),
            limits.idle * SECOND, site.now + limits.absolute * SECOND)
  {
    var site := Later(limits, NoSessions(accounts, t), before);
    LaterSerial(limits, NoSessions(accounts, t), before);
    UsesArePaced(limits, Happens(limits, site, SignIn(u)), after, site.nextRow);
  }
}
