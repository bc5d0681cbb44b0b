/** Ledger exactness: the append-only ledger always says what the stored rows say. */
module Ledger {
  import opened Basics
  import opened Schema
  import opened Quota
  import opened Protocol
  import opened Changes

  function StoredWeight(db: Db, u: UserId): nat -> nat {
    (i: nat) =>
      if i in db.versions && IsStored(db.versions[i]) && Owned(db, db.versions[i], u)
      then db.versions[i].size else 0
  }

  /** The declared sizes of the account's uploaded, verifying and published rows. */
  function StoredSizes(db: Db, u: UserId): nat {
    SumUpTo(db.nextVersion, StoredWeight(db, u))
  }

  function AnyStoredWeight(db: Db): nat -> nat {
    (i: nat) => if i in db.versions && IsStored(db.versions[i]) then db.versions[i].size else 0
  }

  function AllStoredSizes(db: Db): nat {
    SumUpTo(db.nextVersion, AnyStoredWeight(db))
  }

  /** How many entries of the ledger are about one version. */
  function EntriesFor(ledger: seq<Entry>, i: VersionId): nat {
    if ledger == [] then 0 else
      EntriesFor(ledger[..|ledger| - 1], i) + if ledger[|ledger| - 1].version == i then 1 else 0
  }

  ghost predicate BalancesAgree(db: Db) {
    && (forall u :: StoredBytes(db.ledger, u) == StoredSizes(db, u))
    && TotalStored(db.ledger) == AllStoredSizes(db)
  }

  ghost predicate OneEntryPerStoredRow(db: Db) {
    && (forall i :: EntriesFor(db.ledger, i) == if i in db.versions && IsStored(db.versions[i]) then 1 else 0)
    && (forall e | e in db.ledger ::
          e.version in db.versions && IsStored(db.versions[e.version]) && e.reason == CommitReason
          && e.delta == db.versions[e.version].size && Owned(db, db.versions[e.version], e.user))
  }

  ghost predicate Exact(db: Db) {
    BalancesAgree(db) && OneEntryPerStoredRow(db)
  }

  /** A change that is no charge touches no stored row, except to move it on. */
  lemma QuietRow(cfg: Config, db: Db, now: Time, c: Change, i: VersionId)
    requires Tidy(db, now) && Allowed(cfg, db, now, c) && !c.Charge?
    ensures var db1 := Apply(cfg, db, now, c);
      && db1.ledger == db.ledger && db.nextVersion <= db1.nextVersion <= db.nextVersion + 1
      && (i in db1.versions && IsStored(db1.versions[i]) <==> i in db.versions && IsStored(db.versions[i]))
      && (i in db.versions && IsStored(db.versions[i]) ==>
            && db1.versions[i].size == db.versions[i].size && db1.versions[i].model == db.versions[i].model
            && db1.versions[i].expiresAt == db.versions[i].expiresAt)
  {
  }

  lemma QuietWeights(cfg: Config, db: Db, now: Time, c: Change, u: UserId, i: nat)
    requires Tidy(db, now) && Allowed(cfg, db, now, c) && !c.Charge?
    ensures var db1 := Apply(cfg, db, now, c);
      StoredWeight(db1, u)(i) == StoredWeight(db, u)(i) && AnyStoredWeight(db1)(i) == AnyStoredWeight(db)(i)
  {
    QuietRow(cfg, db, now, c, i);
    if i in db.versions && IsStored(db.versions[i]) {
      KeptRow(cfg, db, now, c, i);
    }
  }

  /** A change that is no charge keeps the ledger and every stored row's share of the sums. */
  lemma QuietChange(cfg: Config, db: Db, now: Time, c: Change, u: UserId)
    requires Tidy(db, now) && Allowed(cfg, db, now, c) && !c.Charge?
    ensures var db1 := Apply(cfg, db, now, c);
      db1.ledger == db.ledger && StoredSizes(db1, u) == StoredSizes(db, u) && AllStoredSizes(db1) == AllStoredSizes(db)
  {
    var db1 := Apply(cfg, db, now, c);
    forall i: nat
      ensures StoredWeight(db1, u)(i) == StoredWeight(db, u)(i) && AnyStoredWeight(db1)(i) == AnyStoredWeight(db)(i)
    {
      QuietWeights(cfg, db, now, c, u, i);
    }
    QuietRow(cfg, db, now, c, db.nextVersion);
    SumSame(db.nextVersion, StoredWeight(db1, u), StoredWeight(db, u));
    SumSame(db.nextVersion, AnyStoredWeight(db1), AnyStoredWeight(db));
  }

  lemma ChargeChange(cfg: Config, db: Db, now: Time, c: Change, u: UserId)
    requires Tidy(db, now) && Allowed(cfg, db, now, c) && c.Charge?
    ensures var db1 := Apply(cfg, db, now, c);
      && StoredSizes(db1, u) == StoredSizes(db, u) + (if u == c.u then db.versions[c.id].size else 0)
      && AllStoredSizes(db1) == AllStoredSizes(db) + db.versions[c.id].size
  {
    var db1 := Apply(cfg, db, now, c);
    SumPoint(db.nextVersion, StoredWeight(db, u), StoredWeight(db1, u), c.id);
    SumPoint(db.nextVersion, AnyStoredWeight(db), AnyStoredWeight(db1), c.id);
  }

  lemma ChangeBalances(cfg: Config, db: Db, now: Time, c: Change)
    requires Tidy(db, now) && Allowed(cfg, db, now, c) && BalancesAgree(db)
    ensures BalancesAgree(Apply(cfg, db, now, c))
  {
    var db1 := Apply(cfg, db, now, c);
    forall u
      ensures StoredBytes(db1.ledger, u) == StoredSizes(db1, u) && TotalStored(db1.ledger) == AllStoredSizes(db1)
    {
      if c.Charge? {
        ChargeChange(cfg, db, now, c, u);
        AppendEntry(db.ledger, db1.ledger[|db.ledger|]);
      } else {
        QuietChange(cfg, db, now, c, u);
      }
    }
    assert StoredBytes(db1.ledger, 0) == StoredSizes(db1, 0);
  }

  lemma ChangeEntries(cfg: Config, db: Db, now: Time, c: Change)
    requires Tidy(db, now) && Allowed(cfg, db, now, c) && OneEntryPerStoredRow(db)
    ensures OneEntryPerStoredRow(Apply(cfg, db, now, c))
  {
    var db1 := Apply(cfg, db, now, c);
    if c.Charge? {
      ChargeEntries(cfg, db, now, c);
    } else {
      forall i: nat
        ensures i in db1.versions && IsStored(db1.versions[i]) <==> i in db.versions && IsStored(db.versions[i])
      {
        QuietRow(cfg, db, now, c, i);
      }
      forall e | e in db1.ledger
        ensures db1.versions[e.version].size == db.versions[e.version].size
          && Owned(db1, db1.versions[e.version], e.user)
      {
        QuietRow(cfg, db, now, c, e.version);
      }
    }
  }

  lemma ChargeEntries(cfg: Config, db: Db, now: Time, c: Change)
    requires Tidy(db, now) && Allowed(cfg, db, now, c) && OneEntryPerStoredRow(db) && c.Charge?
    ensures OneEntryPerStoredRow(Apply(cfg, db, now, c))
  {
    var db1 := Apply(cfg, db, now, c);
    var e := db1.ledger[|db.ledger|];
    assert db1.ledger == db.ledger + [e] && db1.ledger[..|db.ledger|] == db.ledger;
    forall f | f in db1.ledger
      ensures f.version in db1.versions && IsStored(db1.versions[f.version]) && f.reason == CommitReason
        && f.delta == db1.versions[f.version].size && Owned(db1, db1.versions[f.version], f.user)
    {
      assert f == e || (f in db.ledger && f.version != c.id);
    }
  }

  lemma {:induction false} ChangesExact(cfg: Config, db: Db, now: Time, cs: seq<Change>)
    requires AllAllowed(cfg, db, now, cs) && Exact(db)
    ensures Exact(ApplyAll(cfg, db, now, cs)) && db.ledger <= ApplyAll(cfg, db, now, cs).ledger
    decreases |cs|
  {
    if cs != [] {
      ChangeBalances(cfg, db, now, cs[0]);
      ChangeEntries(cfg, db, now, cs[0]);
      ChangesExact(cfg, Apply(cfg, db, now, cs[0]), now, cs[1..]);
    }
  }

  lemma {:induction false} RunExact(env: Env, w: World, actions: seq<Action>)
    requires Steady(w) && Matched(env, w) && Exact(w.db)
    ensures Exact(Run(env, w, actions).db) && w.db.ledger <= Run(env, w, actions).db.ledger
    decreases |actions|
  {
    if actions != [] {
      ActionIsChanges(env, w, actions[0]);
      ChangesExact(env.cfg, w.db, w.now, ActionChanges(env, w, actions[0]));
      StepSteady(env, w, actions[0]);
      RunExact(env, Step(env, w, actions[0]), actions[1..]);
    }
  }

  /** From empty tables, after any actions in any order, with crashes anywhere: each balance is the
      summed size of the account's stored rows, the service's total is the sum over all of them,
      and each stored row has one commit entry while a reservation has none. */
  lemma LedgerIsExact(env: Env, users: map<UserId, User>, t: Time, actions: seq<Action>, u: UserId, i: VersionId)
    ensures var db := Run(env, Start(users, t), actions).db;
      && StoredBytes(db.ledger, u) == StoredSizes(db, u)
      && TotalStored(db.ledger) == AllStoredSizes(db)
      && EntriesFor(db.ledger, i) == (if i in db.versions && IsStored(db.versions[i]) then 1 else 0)
  {
    RunExact(env, Start(users, t), actions);
  }

  /** Entries accumulate: no action, in any reachable state, drops or alters one. */
  lemma LedgerOnlyGrows(env: Env, users: map<UserId, User>, t: Time, before: seq<Action>, after: seq<Action>)
    ensures Run(env, Start(users, t), before).db.ledger <= Run(env, Start(users, t), before + after).db.ledger
  {
    RunJoin(env, Start(users, t), before, after);
    RunSteady(env, Start(users, t), before);
    RunExact(env, Start(users, t), before);
    RunExact(env, Run(env, Start(users, t), before), after);
  }
}
