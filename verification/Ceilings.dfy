/** Admission control over whole runs: unique names, count ceilings and the sliding upload window. */
module Ceilings {
  import opened Basics
  import opened Schema
  import opened Quota
  import opened Figures
  import opened Intent
  import opened Protocol
  import opened Changes

  ghost predicate ModelsUnique(db: Db) {
    forall i, j | i in db.models && j in db.models
      && db.models[i].owner == db.models[j].owner && db.models[i].slug == db.models[j].slug :: i == j
  }

  ghost predicate VersionsUnique(db: Db) {
    forall i, j | i in db.versions && j in db.versions
      && db.versions[i].model == db.versions[j].model && db.versions[i].name == db.versions[j].name :: i == j
  }

  /** One model per owner and slug, and one version per model and name. */
  ghost predicate NamesUnique(db: Db) {
    ModelsUnique(db) && VersionsUnique(db)
  }

  ghost predicate CountsHeld(cfg: Config, db: Db) {
    && (forall u :: ModelCount(db, u) <= Max(0, cfg.maxModels))
    && (forall m | m in db.models :: VersionCount(db, m) <= Max(0, cfg.maxVersions))
  }

  function DayWeight(db: Db, u: UserId, from: Time): nat -> nat {
    (i: nat) =>
      if i in db.versions && Owned(db, db.versions[i], u) && from <= db.versions[i].createdAt <= from + DAY
      then 1 else 0
  }

  /** The account's surviving version rows created in the day that starts at `from`, ends included. */
  function CreatedInDay(db: Db, u: UserId, from: Time): nat {
    SumUpTo(db.nextVersion, DayWeight(db, u, from))
  }

  ghost predicate WindowsHeld(cfg: Config, db: Db) {
    forall u, from :: CreatedInDay(db, u, from) <= Max(0, cfg.maxUploads)
  }

  lemma ChangeModelNames(cfg: Config, db: Db, now: Time, c: Change)
    requires Tidy(db, now) && Allowed(cfg, db, now, c) && ModelsUnique(db)
    ensures ModelsUnique(Apply(cfg, db, now, c))
  {
  }

  lemma ChangeVersionNames(cfg: Config, db: Db, now: Time, c: Change)
    requires Tidy(db, now) && Allowed(cfg, db, now, c) && VersionsUnique(db)
    ensures VersionsUnique(Apply(cfg, db, now, c))
  {
    var db1 := Apply(cfg, db, now, c);
    forall i | i in db1.versions && i < db.nextVersion
      ensures i in db.versions && db1.versions[i].model == db.versions[i].model
        && db1.versions[i].name == db.versions[i].name
    {
      KeptRow(cfg, db, now, c, i);
    }
  }

  lemma ChangeModelCount(cfg: Config, db: Db, now: Time, c: Change, u: UserId)
    requires Tidy(db, now) && Allowed(cfg, db, now, c) && ModelCount(db, u) <= Max(0, cfg.maxModels)
    ensures ModelCount(Apply(cfg, db, now, c), u) <= Max(0, cfg.maxModels)
  {
    var db1 := Apply(cfg, db, now, c);
    SumSame(db.nextModel, ModelWeight(db1, u), ModelWeight(db, u));
  }

  lemma ChangeVersionCount(cfg: Config, db: Db, now: Time, c: Change, m: ModelId)
    requires Tidy(db, now) && Allowed(cfg, db, now, c)
    requires m in db.models ==> VersionCount(db, m) <= Max(0, cfg.maxVersions)
    ensures m in Apply(cfg, db, now, c).models ==> VersionCount(Apply(cfg, db, now, c), m) <= Max(0, cfg.maxVersions)
  {
    var db1 := Apply(cfg, db, now, c);
    forall i: nat | i < db.nextVersion ensures VersionWeight(db1, m)(i) <= VersionWeight(db, m)(i) {
      WeightInModel(cfg, db, now, c, m, i);
    }
    SumBelow(db.nextVersion, VersionWeight(db1, m), VersionWeight(db, m));
    if m !in db.models {
      FreshCount(db, now, m);
    }
    assert VersionCount(db1, m) <= VersionCount(db, m) + if c.NewSlot? && c.m == m then 1 else 0 by {
      NewCounted(cfg, db, now, c, m);
    }
  }

  /** Only a new slot of the model makes it count one more. */
  lemma NewCounted(cfg: Config, db: Db, now: Time, c: Change, m: ModelId)
    requires Tidy(db, now) && Allowed(cfg, db, now, c)
    ensures var db1 := Apply(cfg, db, now, c);
      VersionCount(db1, m)
        == SumUpTo(db.nextVersion, VersionWeight(db1, m)) + if c.NewSlot? && c.m == m then 1 else 0
  {
    if c.NewSlot? {
      assert VersionWeight(Apply(cfg, db, now, c), m)(db.nextVersion) == if c.m == m then 1 else 0;
    } else {
      assert Apply(cfg, db, now, c).nextVersion == db.nextVersion;
    }
  }

  lemma WeightInModel(cfg: Config, db: Db, now: Time, c: Change, m: ModelId, i: nat)
    requires Tidy(db, now) && Allowed(cfg, db, now, c) && i < db.nextVersion
    ensures VersionWeight(Apply(cfg, db, now, c), m)(i) <= VersionWeight(db, m)(i)
  {
    if i in Apply(cfg, db, now, c).versions {
      KeptRow(cfg, db, now, c, i);
    }
  }

  /** A model that is not there has no versions. */
  lemma FreshCount(db: Db, now: Time, m: ModelId)
    requires Tidy(db, now) && m !in db.models
    ensures VersionCount(db, m) == 0
  {
    SumZero(db.nextVersion, VersionWeight(db, m));
  }

  lemma WeightInDay(cfg: Config, db: Db, now: Time, c: Change, u: UserId, from: Time, i: nat)
    requires Tidy(db, now) && Allowed(cfg, db, now, c) && i < db.nextVersion
    ensures DayWeight(Apply(cfg, db, now, c), u, from)(i) <= DayWeight(db, u, from)(i)
  {
    if i in Apply(cfg, db, now, c).versions {
      KeptRow(cfg, db, now, c, i);
    }
  }

  /** Rows are created in the order of the clock, so of a day that is still running the ceiling's
      own count, which starts a day before now, misses nothing. */
  lemma DayIsSince(db: Db, u: UserId, from: Time, now: Time)
    requires from <= now <= from + DAY
    ensures CreatedInDay(db, u, from) <= CountSince(db, u, now - DAY)
  {
    SumBelow(db.nextVersion, DayWeight(db, u, from), SinceWeight(db, u, now - DAY));
  }

  lemma SlotInDay(db: Db, m: ModelId, req: Request, now: Time, expires: Time, u: UserId, from: Time)
    requires Tidy(db, now) && m in db.models
    ensures var added := if db.models[m].owner == u && from <= now <= from + DAY then 1 else 0;
      CreatedInDay(WithSlot(db, m, req, now, expires), u, from) == CreatedInDay(db, u, from) + added
  {
    SumSame(db.nextVersion, DayWeight(WithSlot(db, m, req, now, expires), u, from), DayWeight(db, u, from));
  }

  /** The check looks only at the day that ends now. It bounds every other day because rows are
      created in the order of the clock: a window that holds the new row holds nothing later. */
  lemma ChangeWindow(cfg: Config, db: Db, now: Time, c: Change, u: UserId, from: Time)
    requires Tidy(db, now) && Allowed(cfg, db, now, c)
    requires CreatedInDay(db, u, from) <= Max(0, cfg.maxUploads)
    ensures CreatedInDay(Apply(cfg, db, now, c), u, from) <= Max(0, cfg.maxUploads)
  {
    if c.NewSlot? {
      SlotInDay(db, c.m, c.req, now, c.expires, u, from);
      if from <= now <= from + DAY {
        DayIsSince(db, u, from, now);
      }
    } else {
      forall i: nat | i < db.nextVersion
        ensures DayWeight(Apply(cfg, db, now, c), u, from)(i) <= DayWeight(db, u, from)(i) {
        WeightInDay(cfg, db, now, c, u, from, i);
      }
      SumBelow(db.nextVersion, DayWeight(Apply(cfg, db, now, c), u, from), DayWeight(db, u, from));
    }
  }

  ghost predicate Admitted(cfg: Config, db: Db) {
    NamesUnique(db) && CountsHeld(cfg, db) && WindowsHeld(cfg, db)
  }

  lemma {:induction false} ChangesAdmitted(cfg: Config, db: Db, now: Time, cs: seq<Change>)
    requires AllAllowed(cfg, db, now, cs) && Admitted(cfg, db)
    ensures Admitted(cfg, ApplyAll(cfg, db, now, cs))
    decreases |cs|
  {
    if cs != [] {
      var db1 := Apply(cfg, db, now, cs[0]);
      ChangeModelNames(cfg, db, now, cs[0]);
      ChangeVersionNames(cfg, db, now, cs[0]);
      forall u ensures ModelCount(db1, u) <= Max(0, cfg.maxModels) {
        ChangeModelCount(cfg, db, now, cs[0], u);
      }
      forall m | m in db1.models ensures VersionCount(db1, m) <= Max(0, cfg.maxVersions) {
        ChangeVersionCount(cfg, db, now, cs[0], m);
      }
      forall u, from ensures CreatedInDay(db1, u, from) <= Max(0, cfg.maxUploads) {
        ChangeWindow(cfg, db, now, cs[0], u, from);
      }
      ChangesAdmitted(cfg, db1, now, cs[1..]);
    }
  }

  lemma StepAdmitted(env: Env, w: World, a: Action)
    requires Steady(w) && Matched(env, w) && Admitted(env.cfg, w.db)
    ensures Admitted(env.cfg, Step(env, w, a).db)
  {
    ActionIsChanges(env, w, a);
    ChangesAdmitted(env.cfg, w.db, w.now, ActionChanges(env, w, a));
  }

  lemma {:induction false} RunAdmitted(env: Env, w: World, actions: seq<Action>)
    requires Steady(w) && Matched(env, w) && Admitted(env.cfg, w.db)
    ensures Admitted(env.cfg, Run(env, w, actions).db)
    decreases |actions|
  {
    if actions != [] {
      StepAdmitted(env, w, actions[0]);
      StepSteady(env, w, actions[0]);
      RunAdmitted(env, Step(env, w, actions[0]), actions[1..]);
    }
  }

  /** The version rows of an account's models created in the day that starts at `from`, ends included. */
  function StartedInDay(db: Db, u: UserId, from: Time): set<VersionId> {
    set i | i in StartedSince(db, u, from) && db.versions[i].createdAt <= from + 86_400_000_000
  }

  lemma DayCounted(db: Db, now: Time, u: UserId, from: Time)
    requires Tidy(db, now)
    ensures CreatedInDay(db, u, from) == |StartedInDay(db, u, from)|
  {
    SumIsCount(db.nextVersion, DayWeight(db, u, from), StartedInDay(db, u, from));
  }

  /** For every account and every day, not only the day that ends now, at most `maxUploads` of the
      version rows created in it survive, through any mix of reservations, deletions, crashes and
      clock advances. */
  lemma DailyWindow(env: Env, users: map<UserId, User>, t: Time, actions: seq<Action>, u: UserId, from: Time)
    ensures |StartedInDay(Run(env, Start(users, t), actions).db, u, from)| <= Max(0, env.cfg.maxUploads)
  {
    var w := Run(env, Start(users, t), actions);
    RunAdmitted(env, Start(users, t), actions);
    RunSteady(env, Start(users, t), actions);
    DayCounted(w.db, w.now, u, from);
  }

  /** In every reachable state names are unique, no account has more models and no model more versions
      than is allowed. */
  lemma CeilingsHold(env: Env, users: map<UserId, User>, t: Time, actions: seq<Action>, u: UserId, m: ModelId)
    ensures var db := Run(env, Start(users, t), actions).db;
      && NamesUnique(db)
      && |ModelsOf(db, u)| <= Max(0, env.cfg.maxModels)
      && |VersionsOf(db, m)| <= Max(0, env.cfg.maxVersions)
  {
    var w := Run(env, Start(users, t), actions);
    RunAdmitted(env, Start(users, t), actions);
    RunSteady(env, Start(users, t), actions);
    ModelsCounted(w.db, w.now, u);
    VersionsCounted(w.db, w.now, m);
    if m !in w.db.models {
      FreshCount(w.db, w.now, m);
    }
  }

  /** Refusing leaves nothing behind, even without a rollback, in exactly these cases: it does
      leave a model row behind when every check passed, the model had to be created, and the
      service is configured to hold no versions at all. */
  lemma RefusalLeavesNothing(db: Db, now: Time, free: int, u: UserId, req: Request, cfg: Config)
    requires Tidy(db, now) && u in db.users && Reserve(db, now, free, u, req, cfg).result.Err?
    ensures Reserve(db, now, free, u, req, cfg).db == db <==>
      !( && cfg.maxVersions <= 0
         && CheckRequest(db, now, free, u, req, cfg).None?
         && FindModel(db.models, db.nextModel, u, req.slug).None?
         && |ModelsOf(db, u)| < cfg.maxModels)
  {
    ModelsCounted(db, now, u);
    var found := FindModel(db.models, db.nextModel, u, req.slug);
    if CheckRequest(db, now, free, u, req, cfg).Some? {
    } else if found.Some? {
      assert Reserve(db, now, free, u, req, cfg) == OpenSlot(db, found.value, now, req, cfg);
    } else if ModelCount(db, u) < cfg.maxModels {
      assert Reserve(db, now, free, u, req, cfg) == OpenSlot(WithModel(db, u, req.slug), db.nextModel, now, req, cfg);
      FreshModel(db, now, u, req.slug);
      FreshSlot(db, now, u, req, cfg);
    }
  }

  /** In a model just created only the version ceiling can refuse. */
  lemma FreshSlot(db: Db, now: Time, u: UserId, req: Request, cfg: Config)
    requires Tidy(db, now) && VersionCount(WithModel(db, u, req.slug), db.nextModel) == 0
    ensures var reply := OpenSlot(WithModel(db, u, req.slug), db.nextModel, now, req, cfg);
      && (reply.result.Err? <==> cfg.maxVersions <= 0)
      && (reply.result.Err? ==> reply.db == WithModel(db, u, req.slug))
    ensures WithModel(db, u, req.slug) != db
  {
    assert !NameUsed(WithModel(db, u, req.slug), db.nextModel, req.name);
    assert db.nextModel !in db.models;
  }
}
