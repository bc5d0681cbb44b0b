/** When a cookie resolves, exactly, over every run; and that signing out touches nobody else. */
module Cookies {
  import opened Basics
  import opened Schema
  import opened Credentials
  import opened Sessions

  /** The cookie is signed out by itself, or everywhere with its account. */
  predicate Ends(h: Happening, cookie: nat, u: UserId) {
    h == SignOut(cookie) || h == SignOutAll(u)
  }

  /** The last of the given times, or the moment of the sign-in. */
  function LastUse(start: Time, uses: seq<Time>): Time {
    if uses == [] then start else uses[|uses| - 1]
  }

  /** The cookie's row as the events since its sign-in have left it. */
  ghost predicate IsAt(site: Site, cookie: nat, u: UserId, last: Time, end: Time, over: bool) {
    && cookie in site.rows && site.rows[cookie].user == u && site.rows[cookie].expiresAt == end
    && site.rows[cookie].lastSeen == last && (site.rows[cookie].revokedAt.Some? <==> over)
  }

  lemma StepIsAt(limits: Limits, site: Site, h: Happening, cookie: nat, u: UserId, last: Time, end: Time, over: bool)
    requires Serial(site) && IsAt(site, cookie, u, last, end, over)
    ensures var used := h == Visit(cookie) && Resolves(site, cookie, limits);
      && Serial(Happens(limits, site, h))
      && IsAt(Happens(limits, site, h), cookie, u, if used then site.now else last, end, over || Ends(h, cookie, u))
  {
  }

  lemma {:induction false} RunIsAt(limits: Limits, site: Site, hs: seq<Happening>, cookie: nat, u: UserId, last: Time,
                                   end: Time, over: bool)
    requires Serial(site) && IsAt(site, cookie, u, last, end, over)
    ensures IsAt(Later(limits, site, hs), cookie, u, LastUse(last, UseTimes(limits, site, hs, cookie)), end,
                 over || exists h | h in hs :: Ends(h, cookie, u))
    decreases |hs|
  {
    if hs != [] {
      var used := hs[0] == Visit(cookie) && Resolves(site, cookie, limits);
      var site1 := Happens(limits, site, hs[0]);
      var uses := UseTimes(limits, site1, hs[1..], cookie);
      StepIsAt(limits, site, hs[0], cookie, u, last, end, over);
      RunIsAt(limits, site1, hs[1..], cookie, u, if used then site.now else last, end, over || Ends(hs[0], cookie, u));
      assert hs == [hs[0]] + hs[1..];
      LastOf(site.now, last, used, uses);
    }
  }

  lemma LastOf(now: Time, last: Time, used: bool, uses: seq<Time>)
    ensures LastUse(if used then now else last, uses) == LastUse(last, (if used then [now] else []) + uses)
  {
  }

  /** Exactly when a cookie resolves, in any run after its sign-in: it was not signed out, by itself or
      with its account; the account is active; the absolute limit has not run out since the
      sign-in, and the idle limit has not since the last use. */
  lemma CookieExactly(limits: Limits, accounts: map<UserId, AccountState>, t: Time, before: seq<Happening>,
                      u: UserId, after: seq<Happening>)
    ensures var site := Later(limits, NoSessions(accounts, t), before);
      var cookie := site.nextRow;
      var uses := UseTimes(limits, Happens(limits, site, SignIn(u)), after, cookie);
      var end := Later(limits, NoSessions(accounts, t), before + ([SignIn(u)] + after));
      Resolves(end, cookie, limits) <==>
        && SignOut(cookie) !in after && SignOutAll(u) !in after
        && u in end.accounts && end.accounts[u] == ActiveAccount
        && end.now < site.now + limits.absolute * 1_000_000
        && end.now < LastUse(site.now, uses) + limits.idle * 1_000_000
  {
    var site := Later(limits, NoSessions(accounts, t), before);
    var cookie := site.nextRow;
    var site1 := Happens(limits, site, SignIn(u));
    var over := exists h | h in after :: Ends(h, cookie, u);
    LaterJoin(limits, NoSessions(accounts, t), before, [SignIn(u)] + after);
    LaterSerial(limits, NoSessions(accounts, t), before);
    assert ([SignIn(u)] + after)[1..] == after;
    RunIsAt(limits, site1, after, cookie, u, site.now, site.now + limits.absolute * 1_000_000, false);
    assert over <==> SignOut(cookie) in after || SignOutAll(u) in after by {
      assert SignOut(cookie) in after ==> Ends(SignOut(cookie), cookie, u);
      assert SignOutAll(u) in after ==> Ends(SignOutAll(u), cookie, u);
    }
  }

  /** In any run: once a cookie is signed out, no later sequence makes it resolve. */
  lemma SignedOutForGood(limits: Limits, accounts: map<UserId, AccountState>, t: Time, before: seq<Happening>,
                         after: seq<Happening>, cookie: nat)
    requires cookie in Later(limits, NoSessions(accounts, t), before).rows
    ensures !Resolves(Later(limits, NoSessions(accounts, t), before + ([SignOut(cookie)] + after)), cookie, limits)
  {
    var site := Later(limits, NoSessions(accounts, t), before);
    LaterJoin(limits, NoSessions(accounts, t), before, [SignOut(cookie)] + after);
    LaterSerial(limits, NoSessions(accounts, t), before);
    assert ([SignOut(cookie)] + after)[1..] == after;
    var row := site.rows[cookie];
    RunIsAt(limits, Happens(limits, site, SignOut(cookie)), after, cookie, row.user, row.lastSeen, row.expiresAt, true);
  }

  /** What a sign-out writes. */
  lemma SignOutWrites(limits: Limits, site: Site, h: Happening, i: nat)
    requires i in site.rows && (h.SignOut? || h.SignOutAll?)
    ensures var row, row1 := site.rows[i], Happens(limits, site, h).rows[i];
      row1 ==
        if h == SignOut(i) then row.(revokedAt := Some(site.now))
        else if h == SignOutAll(row.user) && row.revokedAt.None? then row.(revokedAt := Some(site.now))
        else row
  {
  }

  lemma {:induction false} StateStays(limits: Limits, site: Site, hs: seq<Happening>, u: UserId)
    requires u in site.accounts && forall state :: Moderate(u, state) !in hs
    ensures var end := Later(limits, site, hs); u in end.accounts && end.accounts[u] == site.accounts[u]
    decreases |hs|
  {
    if hs != [] {
      var site1 := Happens(limits, site, hs[0]);
      assert hs[0] in hs;
      assert u in site1.accounts && site1.accounts[u] == site.accounts[u];
      StateStays(limits, site1, hs[1..], u);
    }
  }

  /** From the moment an account is suspended or closed, in any run, until its state is set again: no
      cookie of it resolves. */
  lemma SuspendedIsOut(limits: Limits, accounts: map<UserId, AccountState>, t: Time, before: seq<Happening>, u: UserId,
                       state: AccountState, after: seq<Happening>, cookie: nat)
    requires state != ActiveAccount && forall s :: Moderate(u, s) !in after
    ensures var end := Later(limits, NoSessions(accounts, t), before + ([Moderate(u, state)] + after));
      cookie in end.rows && end.rows[cookie].user == u ==> !Resolves(end, cookie, limits)
  {
    var site := Later(limits, NoSessions(accounts, t), before);
    LaterJoin(limits, NoSessions(accounts, t), before, [Moderate(u, state)] + after);
    assert ([Moderate(u, state)] + after)[1..] == after;
    StateStays(limits, Happens(limits, site, Moderate(u, state)), after, u);
  }

  // ----- nobody else -----

  /** Two sites that differ in some rows only. */
  ghost predicate DifferIn(a: Site, b: Site, gone: set<nat>) {
    && a.accounts == b.accounts && a.nextRow == b.nextRow && a.now == b.now && a.rows.Keys == b.rows.Keys
    && Serial(a) && (forall i | i in gone :: i < a.nextRow)
    && forall i | i in a.rows && i !in gone :: a.rows[i] == b.rows[i]
  }

  lemma StepDiffers(limits: Limits, a: Site, b: Site, h: Happening, gone: set<nat>)
    requires DifferIn(a, b, gone)
    ensures DifferIn(Happens(limits, a, h), Happens(limits, b, h), gone)
  {
  }

  lemma {:induction false} RunDiffers(limits: Limits, a: Site, b: Site, hs: seq<Happening>, gone: set<nat>)
    requires DifferIn(a, b, gone)
    ensures DifferIn(Later(limits, a, hs), Later(limits, b, hs), gone)
    decreases |hs|
  {
    if hs != [] {
      StepDiffers(limits, a, b, hs[0], gone);
      RunDiffers(limits, Happens(limits, a, hs[0]), Happens(limits, b, hs[0]), hs[1..], gone);
    }
  }

  /** The cookies a sign-out is about: the one presented, or all of the account's at that moment. */
  function SignedOutBy(site: Site, h: Happening): set<nat> {
    match h
    case SignOut(cookie) => set i | i in site.rows && i == cookie
    case SignOutAll(u) => set i | i in site.rows && site.rows[i].user == u
    case _ => {}
  }

  /** In any run: every cookie a sign-out is not about answers as it would have without it, whatever
      follows; sessions of the same account that are started later included. */
  lemma SignOutTouchesNoOther(limits: Limits, accounts: map<UserId, AccountState>, t: Time, before: seq<Happening>,
                              h: Happening, after: seq<Happening>, other: nat)
    requires h.SignOut? || h.SignOutAll?
    requires other !in SignedOutBy(Later(limits, NoSessions(accounts, t), before), h)
    ensures Resolves(Later(limits, NoSessions(accounts, t), before + ([h] + after)), other, limits)
       <==> Resolves(Later(limits, NoSessions(accounts, t), before + after), other, limits)
  {
    var site := Later(limits, NoSessions(accounts, t), before);
    var gone := SignedOutBy(site, h);
    LaterJoin(limits, NoSessions(accounts, t), before, [h] + after);
    LaterJoin(limits, NoSessions(accounts, t), before, after);
    LaterSerial(limits, NoSessions(accounts, t), before);
    assert ([h] + after)[1..] == after;
    assert DifferIn(Happens(limits, site, h), site, gone);
    RunDiffers(limits, Happens(limits, site, h), site, after, gone);
  }
}
