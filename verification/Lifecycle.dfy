/** A version only ever moves forward, its bytes are fixed once uploaded, and only a publish step
    makes it visible. */
module LifecycleRuns {
  import opened Basics
  import opened Schema
  import opened Protocol
  import opened Changes
  import opened Ceilings
  import opened Allowance
  import opened CrashSafety
  import opened Catalog

  function Rank(s: Lifecycle): nat {
    match s
    case Reserved => 0
    case Uploaded => 1
    case Verifying => 2
    case Published => 2
    case Rejected => 3
    case Deleted => 4
  }

  /** What later states may make of a row: what it is never changes, where it is only advances. */
  predicate Follows(v: Version, v1: Version) {
    && v1.model == v.model && v1.name == v.name && v1.sha256 == v.sha256 && v1.size == v.size
    && v1.createdAt == v.createdAt && v1.expiresAt == v.expiresAt
    && (v1.state == v.state || Rank(v.state) < Rank(v1.state))
    && (IsStored(v) ==> v1.objectKey == v.objectKey && IsStored(v1))
    && (v.state == Published ==> v1 == v)
  }

  /** Among the identifiers already given out: no row comes back, no stored row goes. */
  ghost predicate RowsFollow(db: Db, db1: Db) {
    && db.nextVersion <= db1.nextVersion
    && (forall i | i in db1.versions && i < db.nextVersion :: i in db.versions
          && Follows(db.versions[i], db1.versions[i]))
    && (forall i | i in db.versions && IsStored(db.versions[i]) :: i in db1.versions)
  }

  lemma ChangeFollows(cfg: Config, db: Db, now: Time, c: Change)
    requires Tidy(db, now) && Allowed(cfg, db, now, c)
    ensures RowsFollow(db, Apply(cfg, db, now, c))
  {
    var db1 := Apply(cfg, db, now, c);
    forall i | i in db1.versions && i < db.nextVersion
      ensures i in db.versions && Follows(db.versions[i], db1.versions[i])
    {
      KeptRow(cfg, db, now, c, i);
      StateFollows(cfg, db, now, c, i);
    }
    forall i | i in db.versions && IsStored(db.versions[i]) ensures i in db1.versions {
      ChangeStored(cfg, db, now, c, i);
    }
  }

  lemma StateFollows(cfg: Config, db: Db, now: Time, c: Change, i: VersionId)
    requires Tidy(db, now) && Allowed(cfg, db, now, c) && i in db.versions && i in Apply(cfg, db, now, c).versions
    ensures var v, v1 := db.versions[i], Apply(cfg, db, now, c).versions[i];
      v1 == v || (v.state == Reserved && v1.state == Uploaded)
        || (v.state == Uploaded && IsStored(v1) && v1.objectKey == v.objectKey && v1.state != Uploaded)
  {
  }

  lemma FollowOn(a: Db, b: Db, c: Db)
    requires RowsFollow(a, b) && RowsFollow(b, c)
    requires forall i | i in a.versions :: i < a.nextVersion
    ensures RowsFollow(a, c)
  {
  }

  lemma {:induction false} ChangesFollow(cfg: Config, db: Db, now: Time, cs: seq<Change>)
    requires AllAllowed(cfg, db, now, cs)
    ensures RowsFollow(db, ApplyAll(cfg, db, now, cs))
    decreases |cs|
  {
    if cs != [] {
      var db1 := Apply(cfg, db, now, cs[0]);
      ChangeFollows(cfg, db, now, cs[0]);
      ChangesFollow(cfg, db1, now, cs[1..]);
      FollowOn(db, db1, ApplyAll(cfg, db, now, cs));
    }
  }

  lemma {:induction false} RunFollows(env: Env, w: World, actions: seq<Action>)
    requires Steady(w) && Matched(env, w)
    ensures RowsFollow(w.db, Run(env, w, actions).db)
    decreases |actions|
  {
    if actions != [] {
      var w1 := Step(env, w, actions[0]);
      ActionIsChanges(env, w, actions[0]);
      ChangesFollow(env.cfg, w.db, w.now, ActionChanges(env, w, actions[0]));
      StepSteady(env, w, actions[0]);
      RunFollows(env, w1, actions[1..]);
      FollowOn(w.db, w1.db, Run(env, w, actions).db);
    }
  }

  /** Between any two moments of any run: an identifier that has no row gets none, a row that is
      still there has only advanced, and an uploaded row stays for good, with the digest, the size
      and the key it had. */
  lemma VersionsOnlyMoveForward(env: Env, users: map<UserId, User>, t: Time, before: seq<Action>, after: seq<Action>)
    ensures RowsFollow(Run(env, Start(users, t), before).db, Run(env, Start(users, t), before + after).db)
  {
    RunJoin(env, Start(users, t), before, after);
    RunSteady(env, Start(users, t), before);
    RunFollows(env, Run(env, Start(users, t), before), after);
  }

  // ----- visibility -----

  /** A version becomes listed by its owner's publish step on an uploaded row, where the deployment
      does not verify, and by nothing else; and such a step does list it. */
  lemma StepLists(env: Env, w: World, a: Action, i: VersionId)
    requires Steady(w) && Matched(env, w)
    ensures IsListed(Step(env, w, a).db, i) && !IsListed(w.db, i) <==>
      && a.Show? && a.id == i && !env.cfg.requireVerification
      && i in w.db.versions && w.db.versions[i].state == Uploaded && Owned(w.db, w.db.versions[i], a.u)
  {
    if IsListed(Step(env, w, a).db, i) && !IsListed(w.db, i) {
      ActionIsChanges(env, w, a);
      ChangesModels(env.cfg, w.db, w.now, ActionChanges(env, w, a));
      StepPublishes(env, w, a, i);
    }
  }

  lemma StepPublishes(env: Env, w: World, a: Action, i: VersionId)
    requires i in Step(env, w, a).db.versions && Step(env, w, a).db.versions[i].state == Published
    requires i in w.db.versions ==> w.db.versions[i].state != Published
    ensures a.Show? && a.id == i && !env.cfg.requireVerification
    ensures i in w.db.versions && w.db.versions[i].state == Uploaded && Owned(w.db, w.db.versions[i], a.u)
  {
    if a.Ask? && a.u in w.db.users {
      AskedRows(env, w, a);
    }
  }

  lemma {:induction false} ChangesModels(cfg: Config, db: Db, now: Time, cs: seq<Change>)
    requires AllAllowed(cfg, db, now, cs)
    ensures var db1 := ApplyAll(cfg, db, now, cs);
      && db1.users == db.users && db.models.Keys <= db1.models.Keys
      && forall m | m in db.models :: db1.models[m] == db.models[m]
    decreases |cs|
  {
    if cs != [] {
      ChangesModels(cfg, Apply(cfg, db, now, cs[0]), now, cs[1..]);
    }
  }

  lemma {:induction false} RunModels(env: Env, w: World, actions: seq<Action>)
    requires Steady(w) && Matched(env, w)
    ensures var db1 := Run(env, w, actions).db;
      db1.users == w.db.users && forall m | m in w.db.models :: m in db1.models && db1.models[m] == w.db.models[m]
    decreases |actions|
  {
    if actions != [] {
      ActionIsChanges(env, w, actions[0]);
      ChangesModels(env.cfg, w.db, w.now, ActionChanges(env, w, actions[0]));
      StepSteady(env, w, actions[0]);
      RunModels(env, Step(env, w, actions[0]), actions[1..]);
    }
  }

  /** What is listed stays listed, as the very row it was, whatever happens afterwards. */
  lemma ListedForGood(env: Env, users: map<UserId, User>, t: Time, before: seq<Action>, after: seq<Action>,
                      i: VersionId)
    requires IsListed(Run(env, Start(users, t), before).db, i)
    ensures var earlier, later := Run(env, Start(users, t), before).db, Run(env, Start(users, t), before + after).db;
      IsListed(later, i) && later.versions[i] == earlier.versions[i]
  {
    RunJoin(env, Start(users, t), before, after);
    RunSteady(env, Start(users, t), before);
    RunModels(env, Run(env, Start(users, t), before), after);
    VersionsOnlyMoveForward(env, users, t, before, after);
  }

  lemma {:induction false} RunLists(env: Env, w: World, actions: seq<Action>, i: VersionId)
    requires Steady(w) && Matched(env, w)
    requires IsListed(Run(env, w, actions).db, i) && !IsListed(w.db, i)
    ensures (exists a | a in actions :: a.Show? && a.id == i) && !env.cfg.requireVerification
    decreases |actions|
  {
    var w1 := Step(env, w, actions[0]);
    if IsListed(w1.db, i) {
      StepLists(env, w, actions[0], i);
      assert actions[0] in actions;
    } else {
      StepSteady(env, w, actions[0]);
      RunLists(env, w1, actions[1..], i);
      var a :| a in actions[1..] && a.Show? && a.id == i;
      assert a in actions;
    }
  }

  /** Listed only after a publish step; nothing is ever listed while verification is required; and
      no label claims a check: everything this code can reach is `unchecked`. */
  lemma VisibilityIsEarned(env: Env, users: map<UserId, User>, t: Time, actions: seq<Action>, i: VersionId)
    ensures var db := Run(env, Start(users, t), actions).db;
      && (IsListed(db, i) ==> !env.cfg.requireVerification && exists a | a in actions :: a.Show? && a.id == i)
      && (i in db.versions ==> LabelFor(db.versions[i]) == Unchecked)
  {
    RunSteady(env, Start(users, t), actions);
    if IsListed(Run(env, Start(users, t), actions).db, i) {
      RunLists(env, Start(users, t), actions, i);
    }
  }

  /** The query for one version never has to choose: where handles are unique, at most one row
      matches. */
  lemma OneVersionIsUnique(env: Env, users: map<UserId, User>, t: Time, actions: seq<Action>, handle: string,
                           slug: string, name: string)
    requires forall u, x | u in users && x in users && users[u].handle == users[x].handle :: u == x
    ensures var db := Run(env, Start(users, t), actions).db;
      forall i, j | i in Matching(db, handle, slug, name) && j in Matching(db, handle, slug, name) :: i == j
  {
    CeilingsHold(env, users, t, actions, 0, 0);
    RunSteady(env, Start(users, t), actions);
    RunUsers(env, Start(users, t), actions);
  }

  /** And a listed version is found: under its owner's handle, its model's name and its own name the
      query selects it and nothing else; under anything else it does not select it. */
  lemma ListedIsFound(env: Env, users: map<UserId, User>, t: Time, actions: seq<Action>, i: VersionId,
                      handle: string, slug: string, name: string)
    requires forall u, x | u in users && x in users && users[u].handle == users[x].handle :: u == x
    ensures var db := Run(env, Start(users, t), actions).db;
      IsListed(db, i) ==>
        var v := db.versions[i];
        var m := db.models[v.model];
        && Matching(db, db.users[m.owner].handle, m.slug, v.name) == {i}
        && (i in Matching(db, handle, slug, name) <==>
              handle == db.users[m.owner].handle && slug == m.slug && name == v.name)
  {
    var db := Run(env, Start(users, t), actions).db;
    if IsListed(db, i) {
      var v := db.versions[i];
      var m := db.models[v.model];
      OneVersionIsUnique(env, users, t, actions, db.users[m.owner].handle, m.slug, v.name);
      assert i in Matching(db, db.users[m.owner].handle, m.slug, v.name);
    }
  }

  /** What is listed needs all of it: a model that is active and public, and a published version. What
      is said of a version claims a check only for a published one whose report passed. */
  lemma HiddenIsNotListed(db: Db, i: VersionId)
    requires i in db.versions && db.versions[i].model in db.models
    requires db.models[db.versions[i].model].owner in db.users
    ensures i in Listed(db) <==>
      && db.models[db.versions[i].model].state == Active && db.models[db.versions[i].model].visibility == Public
      && db.versions[i].state == Published
    ensures i !in Listed(db) ==> forall h, s, n :: i !in Matching(db, h, s, n)
    ensures LabelFor(db.versions[i]) == MachineChecked <==>
      db.versions[i].state == Published && db.versions[i].verification == Some(Report(Some(true)))
  {
  }
}
