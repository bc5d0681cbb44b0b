/** Running the janitor more often. Two runs that differ in sweeps only are compared step by step; which
    outcomes, usage, footprint and listing agree, and exactly what can make them differ. */
module JanitorRuns {
  import opened Basics
  import opened Schema
  import opened Keys
  import opened Quota
  import opened Storage
  import opened Intent
  import opened Receiving
  import opened Publishing
  import opened Janitor
  import opened Protocol
  import opened Changes
  import opened CrashSafety
  import opened Streaming
  import opened Catalog
  import opened Ceilings
  import opened Operations
  import opened Rescues
  import opened LifecycleRuns
  import opened Allowance

  lemma UpdateOutside<V>(s: map<VersionId, V>, m: set<VersionId>, i: VersionId, v: V)
    requires i !in m
    ensures (s - m)[i := v] == s[i := v] - m
  {
  }

  lemma RemoveBoth<V>(s: map<VersionId, V>, m: set<VersionId>, r: set<VersionId>)
    ensures s - m - r == s - r - m && s - m - (r - m) == s - r - m && s - m - r == s - (m + r)
  {
  }

  function CleanedDb(db: Db, m: set<VersionId>): Db {
    db.(versions := db.versions - m)
  }

  /** The same world without some rows and their staging files. */
  function Cleaned(w: World, m: set<VersionId>): World {
    w.(db := CleanedDb(w.db, m), volume := w.volume.(staging := w.volume.staging - m))
  }

  /** Identifiers of expired reservations that no transfer holds, or of rows that are gone. */
  ghost predicate Dead(w: World, m: set<VersionId>) {
    forall i | i in m ::
      i < w.db.nextVersion && i !in w.inflight && (i in w.db.versions ==> IsExpired(w.db.versions[i], w.now))
  }

  lemma CleanedUsage(w: World, m: set<VersionId>, u: UserId, limit: int)
    requires Dead(w, m)
    ensures var b := Cleaned(w, m);
      && UsageFor(b.db, u, limit, b.now) == UsageFor(w.db, u, limit, w.now)
      && TotalStored(b.db.ledger) == TotalStored(w.db.ledger) && Listed(b.db) == Listed(w.db)
  {
    var b := Cleaned(w, m);
    SumSame(w.db.nextVersion, PendingWeight(b.db, u, b.now), PendingWeight(w.db, u, w.now));
  }

  lemma CleanedCounts(db: Db, m: set<VersionId>, u: UserId, since: Time, x: ModelId, name: string)
    ensures var db1 := CleanedDb(db, m);
      && CountSince(db1, u, since) <= CountSince(db, u, since) && VersionCount(db1, x) <= VersionCount(db, x)
      && ModelCount(db1, u) == ModelCount(db, u) && (NameUsed(db1, x, name) ==> NameUsed(db, x, name))
  {
    var db1 := CleanedDb(db, m);
    SumBelow(db.nextVersion, SinceWeight(db1, u, since), SinceWeight(db, u, since));
    SumBelow(db.nextVersion, VersionWeight(db1, x), VersionWeight(db, x));
    SumSame(db.nextModel, ModelWeight(db1, u), ModelWeight(db, u));
  }

  lemma CleanedRow(db: Db, m: set<VersionId>, x: ModelId, now: Time, req: Request, expires: Time)
    requires db.nextVersion !in m
    ensures WithSlot(CleanedDb(db, m), x, req, now, expires) == CleanedDb(WithSlot(db, x, req, now, expires), m)
  {
    UpdateOutside(db.versions, m, db.nextVersion, WithSlot(db, x, req, now, expires).versions[db.nextVersion]);
  }

  lemma SlotOpens(db: Db, x: ModelId, now: Time, req: Request, cfg: Config)
    ensures var expires := now + cfg.reservationTtl * SECOND;
      OpenSlot(db, x, now, req, cfg).result.Ok? ==>
        OpenSlot(db, x, now, req, cfg)
          == Reply(WithSlot(db, x, req, now, expires), Ok(Reservation(db.nextVersion, x, expires, req.size)))
    ensures OpenSlot(db, x, now, req, cfg).result.Ok? <==>
      VersionCount(db, x) < cfg.maxVersions && !NameUsed(db, x, req.name)
  {
  }

  lemma CleanedSlot(db: Db, m: set<VersionId>, x: ModelId, now: Time, req: Request, cfg: Config)
    requires db.nextVersion !in m && OpenSlot(db, x, now, req, cfg).result.Ok?
    ensures OpenSlot(CleanedDb(db, m), x, now, req, cfg)
         == Reply(CleanedDb(OpenSlot(db, x, now, req, cfg).db, m), OpenSlot(db, x, now, req, cfg).result)
  {
    var db1 := CleanedDb(db, m);
    CleanedCounts(db, m, 0, 0, x, req.name);
    SlotOpens(db, x, now, req, cfg);
    SlotOpens(db1, x, now, req, cfg);
    assert OpenSlot(db1, x, now, req, cfg).result.Ok?;
    CleanedRow(db, m, x, now, req, now + cfg.reservationTtl * SECOND);
  }

  /** A request that passes the first checks passes them in the cleaner world. */
  lemma CleanedRequest(w: World, m: set<VersionId>, u: UserId, req: Request, free: int, cfg: Config)
    requires Dead(w, m) && u in w.db.users && CheckRequest(w.db, w.now, free, u, req, cfg).None?
    ensures CheckRequest(CleanedDb(w.db, m), w.now, free, u, req, cfg).None?
  {
    CleanedUsage(w, m, u, w.db.users[u].storageLimit);
    CleanedCounts(w.db, m, u, w.now - DAY, 0, "");
  }

  /** What was granted without the extra sweeps is granted with them, as the same slot. */
  lemma CleanedAsk(env: Env, w: World, m: set<VersionId>, u: UserId, req: Request, free: int)
    requires Dead(w, m) && u in w.db.users && Reserve(w.db, w.now, free, u, req, env.cfg).result.Ok?
    ensures var out := Reserve(w.db, w.now, free, u, req, env.cfg);
      Reserve(CleanedDb(w.db, m), w.now, free, u, req, env.cfg) == Reply(CleanedDb(out.db, m), out.result)
  {
    CleanedRequest(w, m, u, req, free, env.cfg);
    CleanedCounts(w.db, m, u, 0, 0, "");
    var found := FindModel(w.db.models, w.db.nextModel, u, req.slug);
    if found.Some? {
      CleanedSlot(w.db, m, found.value, w.now, req, env.cfg);
    } else {
      assert WithModel(CleanedDb(w.db, m), u, req.slug) == CleanedDb(WithModel(w.db, u, req.slug), m);
      CleanedSlot(WithModel(w.db, u, req.slug), m, w.db.nextModel, w.now, req, env.cfg);
    }
  }

  /** Every reservation that a sweep at this moment would make grantable is grantable already. */
  ghost predicate Settled(env: Env, w: World, a: Action) {
    a.Ask? && a.u in w.db.users && Grantable(SweptDb(w.db, w.now), w.now, a.free, a.u, a.req, env.cfg) ==>
      Grantable(w.db, w.now, a.free, a.u, a.req, env.cfg)
  }

  /** Sweeping what is left of a cleaner world leaves what sweeping the world leaves. */
  lemma SweptAfterCleaned(w: World, m: set<VersionId>)
    requires Dead(w, m)
    ensures SweptDb(CleanedDb(w.db, m), w.now) == SweptDb(w.db, w.now)
  {
    var e := Expired(CleanedDb(w.db, m), w.now);
    assert forall i | i in w.db.versions :: i in m + e <==> i in Expired(w.db, w.now);
    RemoveBoth(w.db.versions, m, e);
    assert w.db.versions - (m + e) == w.db.versions - Expired(w.db, w.now);
  }

  /** Refused after a full sweep, refused after any part of one. */
  lemma CleanedRefusal(env: Env, w: World, m: set<VersionId>, u: UserId, req: Request, free: int)
    requires Dead(w, m) && Tidy(w.db, w.now) && NamesUnique(w.db) && u in w.db.users
    requires Reserve(w.db, w.now, free, u, req, env.cfg).result.Err?
    requires Grantable(SweptDb(w.db, w.now), w.now, free, u, req, env.cfg) ==>
      Grantable(w.db, w.now, free, u, req, env.cfg)
    ensures Reserve(CleanedDb(w.db, m), w.now, free, u, req, env.cfg).result.Err?
  {
    var db := CleanedDb(w.db, m);
    GrantedExactly(w.db, w.now, free, u, req, env.cfg);
    SweptAfterCleaned(w, m);
    SweepRescuesExactly(db, w.now, free, u, req, env.cfg);
    SweptWellFormed(w.db, w.now);
    GrantedExactly(SweptDb(w.db, w.now), w.now, free, u, req, env.cfg);
  }

  /** Where the service is configured to hold versions, or holds none, a refusal changes no table
      that matters here. */
  ghost predicate Roomy(env: Env, w: World) {
    0 < env.cfg.maxVersions || w.db.versions == map[]
  }

  lemma CleanedRefusedTables(env: Env, w: World, m: set<VersionId>, u: UserId, req: Request, free: int)
    requires Tidy(w.db, w.now) && u in w.db.users && Roomy(env, w)
    requires Reserve(w.db, w.now, free, u, req, env.cfg).result.Err?
    requires Reserve(CleanedDb(w.db, m), w.now, free, u, req, env.cfg).result.Err?
    ensures Reserve(CleanedDb(w.db, m), w.now, free, u, req, env.cfg).db
         == CleanedDb(Reserve(w.db, w.now, free, u, req, env.cfg).db, m)
  {
    if 0 < env.cfg.maxVersions {
      RefusalLeavesNothing(w.db, w.now, free, u, req, env.cfg);
      RefusalLeavesNothing(CleanedDb(w.db, m), w.now, free, u, req, env.cfg);
    } else {
      NothingToClean(w.db, m);
      RefusedVersions(w.db, w.now, free, u, req, env.cfg);
      NothingToClean(Reserve(w.db, w.now, free, u, req, env.cfg).db, m);
    }
  }

  lemma NothingToClean(db: Db, m: set<VersionId>)
    requires db.versions == map[]
    ensures CleanedDb(db, m) == db
  {
    assert db.versions - m == db.versions;
  }

  lemma RefusedVersions(db: Db, now: Time, free: int, u: UserId, req: Request, cfg: Config)
    requires u in db.users && Reserve(db, now, free, u, req, cfg).result.Err?
    ensures Reserve(db, now, free, u, req, cfg).db.versions == db.versions
  {
  }

  /** A configuration that allows no versions never gets any. */
  lemma AdmittedIsRoomy(env: Env, w: World)
    requires Tidy(w.db, w.now) && Admitted(env.cfg, w.db)
    ensures Roomy(env, w)
  {
    if env.cfg.maxVersions <= 0 && w.db.versions != map[] {
      var i :| i in w.db.versions;
      RowIsCounted(w.db, w.now, i);
    }
  }

  lemma RowIsCounted(db: Db, now: Time, i: VersionId)
    requires Tidy(db, now) && i in db.versions
    ensures 1 <= VersionCount(db, db.versions[i].model)
  {
    SumAtLeast(db.nextVersion, VersionWeight(db, db.versions[i].model), i);
  }

  /** For one reservation the condition is exact: a sweep just before it changes its outcome if and
      only if it does not hold. */
  lemma SettledExactly(env: Env, w: World, a: Action)
    requires Tidy(w.db, w.now) && NamesUnique(w.db) && a.Ask?
    ensures Settled(env, w, a) <==> (Succeeds(env, Step(env, w, SweepNow), a) <==> Succeeds(env, w, a))
  {
    if a.u in w.db.users {
      SweepRescuesExactly(w.db, w.now, a.free, a.u, a.req, env.cfg);
      SweptWellFormed(w.db, w.now);
      GrantedExactly(w.db, w.now, a.free, a.u, a.req, env.cfg);
      GrantedExactly(SweptDb(w.db, w.now), w.now, a.free, a.u, a.req, env.cfg);
    }
  }

  /** The caller gets what was asked for. */
  predicate Succeeds(env: Env, w: World, a: Action) {
    match a
    case Ask(_, _, _, _) => Granted(env, w, a)
    case Upload(id, u, chunks, _) =>
      id !in w.inflight && Receive(env.hash, w.db, w.volume, w.now, id, u, chunks).result.Ok?
    case Begin(id, u) => id !in w.inflight && ReservedSlot(w.db, id, u, w.now).Ok?
    case Commit(id) => InPhase(w, id, Placed) && id in w.db.versions
    case Show(id, u) => Publish(w.db, w.now, id, u, env.cfg).1.Ok?
    case _ => true
  }

  lemma CleanedUpload(env: Env, w: World, m: set<VersionId>, x: Action)
    requires Dead(w, m) && x.Upload?
    ensures Step(env, Cleaned(w, m), x) == Cleaned(Step(env, w, x), m)
    ensures Succeeds(env, Cleaned(w, m), x) <==> Succeeds(env, w, x)
  {
    var b := Cleaned(w, m);
    if x.id in w.inflight || x.id in m || ReservedSlot(w.db, x.id, x.u, w.now).Err? {
      assert Step(env, w, x) == w && Step(env, b, x) == b;
    } else {
      var bytes := Concat(x.chunks);
      var v := w.db.versions[x.id];
      UpdateOutside(w.db.versions, m, x.id, v.(objectKey := ObjectKey(env.hash(bytes)), state := Uploaded));
      UpdateOutside(w.volume.staging, m, x.id, bytes);
      RemoveBoth(w.db.versions, m, {x.id});
      RemoveBoth(w.volume.staging, m, {x.id});
      RemoveBoth(w.volume.staging[x.id := bytes], m, {x.id});
      CleanedReceive(env, w, m, x.id, x.u, x.chunks);
    }
  }

  lemma CleanedReceive(env: Env, w: World, m: set<VersionId>, id: VersionId, u: UserId, chunks: seq<Bytes>)
    requires id !in m && ReservedSlot(w.db, id, u, w.now).Ok?
    ensures var out := Receive(env.hash, w.db, w.volume, w.now, id, u, chunks);
      var vol := w.volume.(staging := w.volume.staging - m);
      Receive(env.hash, CleanedDb(w.db, m), vol, w.now, id, u, chunks)
        == Outcome(CleanedDb(out.db, m), out.volume.(staging := out.volume.staging - m), out.result)
  {
    var bytes := Concat(chunks);
    var v := w.db.versions[id];
    UpdateOutside(w.db.versions, m, id, v.(objectKey := ObjectKey(env.hash(bytes)), state := Uploaded));
    UpdateOutside(w.volume.staging, m, id, bytes);
    RemoveBoth(w.db.versions, m, {id});
    RemoveBoth(w.volume.staging, m, {id});
    RemoveBoth(w.volume.staging[id := bytes], m, {id});
  }

  lemma CleanedWhole(env: Env, w: World, m: set<VersionId>, x: Action)
    requires Dead(w, m) && (x.Show? || x.SweepNow? || x.Tick? || x.Crash?)
    ensures Step(env, Cleaned(w, m), x) == Cleaned(Step(env, w, x), m)
    ensures Succeeds(env, Cleaned(w, m), x) <==> Succeeds(env, w, x)
  {
    var b := Cleaned(w, m);
    if x.SweepNow? {
      var e := Expired(w.db, w.now);
      assert Expired(b.db, b.now) == e - m;
      RemoveBoth(w.db.versions, m, e);
      RemoveBoth(w.volume.staging, m, e);
    } else if x.Show? && x.id !in m && x.id in w.db.versions {
      UpdateOutside(w.db.versions, m, x.id, Shown(w.db.versions[x.id], env.cfg.requireVerification, w.now));
    } else if x.Crash? {
      assert Torn(b, x.torn) == Torn(w, x.torn) - m;
    }
  }

  lemma CleanedBegin(env: Env, w: World, m: set<VersionId>, x: Action)
    requires Dead(w, m) && x.Begin?
    ensures Step(env, Cleaned(w, m), x) == Cleaned(Step(env, w, x), m)
    ensures Succeeds(env, Cleaned(w, m), x) <==> Succeeds(env, w, x)
  {
    if x.id !in m {
      UpdateOutside(w.volume.staging, m, x.id, []);
    }
  }

  /** The steps of a transfer: the transfer's own row and staging file are not missing. */
  lemma CleanedTransfer(env: Env, w: World, m: set<VersionId>, x: Action)
    requires Dead(w, m)
    requires x.Write? || x.Sync? || x.Verify? || x.Probe? || x.Place? || x.Commit? || x.Hangup?
    ensures Step(env, Cleaned(w, m), x) == Cleaned(Step(env, w, x), m)
    ensures Succeeds(env, Cleaned(w, m), x) <==> Succeeds(env, w, x)
  {
    if x.id in w.inflight {
      if x.Write? {
        CleanedWrite(env, w, m, x.id, x.chunk);
      } else if x.Verify? {
        CleanedVerify(env, w, m, x.id, x.layer);
      } else if x.Commit? {
        CleanedCommit(env, w, m, x.id);
      } else {
        RemoveBoth(w.volume.staging, m, {x.id});
      }
    } else {
      assert Step(env, w, x) == w by {
        assert w.inflight - {x.id} == w.inflight;
      }
      assert Step(env, Cleaned(w, m), x) == Cleaned(w, m) by {
        assert w.inflight - {x.id} == w.inflight;
      }
    }
  }

  lemma CleanedWrite(env: Env, w: World, m: set<VersionId>, id: VersionId, chunk: Bytes)
    requires Dead(w, m) && id in w.inflight
    ensures StepWrite(Cleaned(w, m), id, chunk) == Cleaned(StepWrite(w, id, chunk), m)
  {
    RemoveBoth(w.volume.staging, m, {id});
    UpdateOutside(w.volume.staging, m, id, w.inflight[id].written + chunk);
  }

  lemma CleanedVerify(env: Env, w: World, m: set<VersionId>, id: VersionId, layer: Layer)
    requires Dead(w, m) && id in w.inflight
    ensures StepVerify(env, Cleaned(w, m), id, layer) == Cleaned(StepVerify(env, w, id, layer), m)
  {
    RemoveBoth(w.db.versions, m, {id});
    RemoveBoth(w.volume.staging, m, {id});
  }

  lemma CleanedCommit(env: Env, w: World, m: set<VersionId>, id: VersionId)
    requires Dead(w, m) && id in w.inflight
    ensures StepCommit(env, Cleaned(w, m), id) == Cleaned(StepCommit(env, w, id), m)
    ensures Succeeds(env, Cleaned(w, m), Commit(id)) <==> Succeeds(env, w, Commit(id))
  {
    if id in w.db.versions {
      UpdateOutside(w.db.versions, m, id,
        w.db.versions[id].(objectKey := ObjectKey(env.hash(w.inflight[id].written)), state := Uploaded));
    }
  }

  lemma CleanedReserve(env: Env, w: World, m: set<VersionId>, x: Action)
    requires Dead(w, m) && Tidy(w.db, w.now) && NamesUnique(w.db) && Roomy(env, w) && Settled(env, w, x) && x.Ask?
    ensures Step(env, Cleaned(w, m), x) == Cleaned(Step(env, w, x), m)
    ensures Succeeds(env, Cleaned(w, m), x) <==> Succeeds(env, w, x)
  {
    if Succeeds(env, w, x) {
      CleanedAsk(env, w, m, x.u, x.req, x.free);
    } else if x.u in w.db.users {
      CleanedRefusal(env, w, m, x.u, x.req, x.free);
      CleanedRefusedTables(env, w, m, x.u, x.req, x.free);
    }
  }

  /** Every action does the same to a world and to a cleaner one, but for a reservation that only a
      sweep makes grantable. */
  lemma CleanedStep(env: Env, w: World, m: set<VersionId>, x: Action)
    requires Dead(w, m) && Tidy(w.db, w.now) && NamesUnique(w.db) && Roomy(env, w) && Settled(env, w, x)
    ensures Step(env, Cleaned(w, m), x) == Cleaned(Step(env, w, x), m)
    ensures Succeeds(env, Cleaned(w, m), x) <==> Succeeds(env, w, x)
  {
    if x.Ask? {
      CleanedReserve(env, w, m, x);
    } else if x.Upload? {
      CleanedUpload(env, w, m, x);
    } else if x.Show? || x.SweepNow? || x.Tick? || x.Crash? {
      CleanedWhole(env, w, m, x);
    } else if x.Begin? {
      CleanedBegin(env, w, m, x);
    } else {
      CleanedTransfer(env, w, m, x);
    }
  }

  lemma StepDead(env: Env, w: World, m: set<VersionId>, x: Action)
    requires Steady(w) && Matched(env, w) && Dead(w, m)
    ensures Dead(Step(env, w, x), m)
  {
    var w1 := Step(env, w, x);
    StepRows(env, w, x);
    StepSteady(env, w, x);
    forall i | i in m
      ensures i !in w1.inflight && (i in w1.db.versions ==> IsExpired(w1.db.versions[i], w1.now))
    {
      DeadRow(env, w, x, i);
    }
  }

  lemma DeadRow(env: Env, w: World, x: Action, i: VersionId)
    requires Steady(w) && Matched(env, w) && i < w.db.nextVersion && i !in w.inflight
    requires i in w.db.versions ==> IsExpired(w.db.versions[i], w.now)
    ensures i !in Step(env, w, x).inflight
    ensures i in Step(env, w, x).db.versions ==>
      i in w.db.versions && IsExpired(Step(env, w, x).db.versions[i], Step(env, w, x).now)
  {
    if x.Ask? && x.u in w.db.users {
      AskedKeeps(env, w, x, i);
    } else if !x.Ask? {
      DeadRowStep(env, w, x, i);
    }
  }

  /** No step takes up an expired reservation that no transfer holds. */
  lemma DeadRowStep(env: Env, w: World, x: Action, i: VersionId)
    requires !x.Ask? && i !in w.inflight && (i in w.db.versions ==> IsExpired(w.db.versions[i], w.now))
    ensures var w1 := Step(env, w, x);
      && i !in w1.inflight && w.now <= w1.now
      && (i in w1.db.versions ==> i in w.db.versions && w1.db.versions[i] == w.db.versions[i])
  {
    if x.Upload? && x.id == i {
      assert ReservedSlot(w.db, i, x.u, w.now).Err?;
    }
  }

  lemma AskedKeeps(env: Env, w: World, x: Action, i: VersionId)
    requires x.Ask? && x.u in w.db.users && i < w.db.nextVersion
    ensures i in Step(env, w, x).db.versions <==> i in w.db.versions
    ensures i in w.db.versions ==> Step(env, w, x).db.versions[i] == w.db.versions[i]
  {
    var found := FindModel(w.db.models, w.db.nextModel, x.u, x.req.slug);
    if found.Some? {
      SlotKeeps(w.db, found.value, w.now, x.req, env.cfg, i);
    } else {
      SlotKeeps(WithModel(w.db, x.u, x.req.slug), w.db.nextModel, w.now, x.req, env.cfg, i);
    }
  }

  lemma SlotKeeps(db: Db, m: ModelId, now: Time, req: Request, cfg: Config, i: VersionId)
    requires i < db.nextVersion
    ensures i in OpenSlot(db, m, now, req, cfg).db.versions <==> i in db.versions
    ensures i in db.versions ==> OpenSlot(db, m, now, req, cfg).db.versions[i] == db.versions[i]
  {
  }

  /** No transfer in flight has outlived its reservation. */
  predicate Spares(w: World) {
    forall i | i in w.inflight && i in w.db.versions :: !IsExpired(w.db.versions[i], w.now)
  }

  /** One more sweep, where it spares every transfer, only widens what is missing. */
  lemma CleanedSweep(env: Env, w: World, m: set<VersionId>)
    requires Steady(w) && Dead(w, m) && Spares(Cleaned(w, m))
    ensures var more := m + Expired(Cleaned(w, m).db, w.now);
      Dead(w, more) && Step(env, Cleaned(w, m), SweepNow) == Cleaned(w, more)
  {
    var e := Expired(Cleaned(w, m).db, w.now);
    RemoveBoth(w.db.versions, m, e);
    RemoveBoth(w.volume.staging, m, e);
    assert forall i | i in e :: i in Cleaned(w, m).db.versions && Cleaned(w, m).db.versions[i] == w.db.versions[i];
  }

  // ----- runs with extra sweeps -----

  /** The actions that are not marked as extra. */
  function Without(actions: seq<Action>, extra: seq<bool>): seq<Action>
    requires |extra| == |actions|
    decreases |actions|
  {
    if actions == [] then []
    else (if extra[0] then [] else [actions[0]]) + Without(actions[1..], extra[1..])
  }

  /** Every extra action is a sweep that finds no transfer which has outlived its reservation. */
  predicate ExtraSweeps(env: Env, w: World, actions: seq<Action>, extra: seq<bool>)
    requires |extra| == |actions|
    decreases |actions|
  {
    actions == [] ||
    ((extra[0] ==> actions[0] == SweepNow && Spares(w))
     && ExtraSweeps(env, Step(env, w, actions[0]), actions[1..], extra[1..]))
  }

  ghost predicate AllSettled(env: Env, w: World, actions: seq<Action>)
    decreases |actions|
  {
    actions == [] ||
    (Settled(env, w, actions[0]) && AllSettled(env, Step(env, w, actions[0]), actions[1..]))
  }

  function Successes(env: Env, w: World, actions: seq<Action>): seq<bool>
    decreases |actions|
  {
    if actions == [] then [] else
      [Succeeds(env, w, actions[0])] + Successes(env, Step(env, w, actions[0]), actions[1..])
  }

  /** The outcomes of the actions that are not extra. */
  function SuccessesOf(env: Env, w: World, actions: seq<Action>, extra: seq<bool>): seq<bool>
    requires |extra| == |actions|
    decreases |actions|
  {
    if actions == [] then [] else
      (if extra[0] then [] else [Succeeds(env, w, actions[0])])
      + SuccessesOf(env, Step(env, w, actions[0]), actions[1..], extra[1..])
  }

  lemma {:induction false} ExtraSweepsClean(env: Env, w: World, m: set<VersionId>, actions: seq<Action>,
                                            extra: seq<bool>)
    returns (more: set<VersionId>)
    requires |extra| == |actions| && ExtraSweeps(env, Cleaned(w, m), actions, extra)
    requires Steady(w) && Matched(env, w) && Admitted(env.cfg, w.db) && Dead(w, m)
    requires AllSettled(env, w, Without(actions, extra))
    ensures var plain := Run(env, w, Without(actions, extra));
      Dead(plain, more) && Run(env, Cleaned(w, m), actions) == Cleaned(plain, more)
    ensures Successes(env, w, Without(actions, extra)) == SuccessesOf(env, Cleaned(w, m), actions, extra)
    decreases |actions|
  {
    if actions == [] {
      more := m;
    } else {
      var rest := Without(actions[1..], extra[1..]);
      if extra[0] {
        CleanedSweep(env, w, m);
        assert Without(actions, extra) == rest;
        more := ExtraSweepsClean(env, w, m + Expired(Cleaned(w, m).db, w.now), actions[1..], extra[1..]);
      } else {
        assert Without(actions, extra)[1..] == rest;
        AdmittedIsRoomy(env, w);
        CleanedStep(env, w, m, actions[0]);
        StepAdmitted(env, w, actions[0]);
        StepSteady(env, w, actions[0]);
        StepDead(env, w, m, actions[0]);
        more := ExtraSweepsClean(env, Step(env, w, actions[0]), m, actions[1..], extra[1..]);
      }
    }
  }

  /** For every run from empty tables in which no reservation was refused that a sweep at that moment
      would have made grantable, and every way of inserting further sweeps that find no overdue
      transfer: every operation has the outcome it had, and
      every account's usage, the service's total and the listing end up the same. */
  lemma JanitorIsInvisible(env: Env, users: map<UserId, User>, t: Time, actions: seq<Action>, extra: seq<bool>,
                           u: UserId, limit: int)
    requires |extra| == |actions| && ExtraSweeps(env, Start(users, t), actions, extra)
    requires AllSettled(env, Start(users, t), Without(actions, extra))
    ensures var plain := Run(env, Start(users, t), Without(actions, extra));
      var swept := Run(env, Start(users, t), actions);
      && UsageFor(swept.db, u, limit, swept.now) == UsageFor(plain.db, u, limit, plain.now)
      && TotalStored(swept.db.ledger) == TotalStored(plain.db.ledger)
      && Listed(swept.db) == Listed(plain.db)
      && swept.volume.artifacts == plain.volume.artifacts
      && SuccessesOf(env, Start(users, t), actions, extra) == Successes(env, Start(users, t), Without(actions, extra))
  {
    var s := Start(users, t);
    assert Cleaned(s, {}) == s;
    var more := ExtraSweepsClean(env, s, {}, actions, extra);
    CleanedUsage(Run(env, s, Without(actions, extra)), more, u, limit);
  }

  /** Where every receive is one step, extra sweeps need no condition. */
  lemma {:induction false} WholeRunsSpare(env: Env, w: World, actions: seq<Action>, extra: seq<bool>)
    requires |extra| == |actions| && w.inflight == map[]
    requires forall k | 0 <= k < |actions| :: IsWhole(actions[k]) && (extra[k] ==> actions[k] == SweepNow)
    ensures ExtraSweeps(env, w, actions, extra)
    decreases |actions|
  {
    if actions != [] {
      assert Step(env, w, actions[0]).inflight == map[];
      WholeRunsSpare(env, Step(env, w, actions[0]), actions[1..], extra[1..]);
    }
  }

  // ----- a transfer that has outlived its reservation -----

  /** Sending the rest of the stream would complete what the reservation described. */
  predicate IsRest(env: Env, t: Transfer, chunks: seq<Bytes>) {
    var bytes := t.written + Concat(chunks);
    |bytes| == t.size && env.hash(bytes) == t.sha256 && (!t.phase.Writing? ==> chunks == [])
  }

  lemma WritingLands(env: Env, w: World, id: VersionId, chunks: seq<Bytes>, layer: Layer)
    requires Good(env, w) && InPhase(w, id, Writing) && id in w.db.versions && IsRest(env, w.inflight[id], chunks)
    ensures IsStoredIn(Run(env, w, Writes(id, chunks) + Finish(id, layer)).db, id)
  {
    assert TransferOnDisk(env, w, id);
    RunJoin(env, w, Writes(id, chunks), Finish(id, layer));
    WritesLand(env, w, id, chunks);
    FinishLands(env, Run(env, w, Writes(id, chunks)), id, layer);
  }

  predicate IsStoredIn(db: Db, id: VersionId) {
    id in db.versions && IsStored(db.versions[id])
  }

  lemma PlacingLands(env: Env, w: World, id: VersionId)
    requires id in w.db.versions && id in w.inflight
    requires InPhase(w, id, Dropping) || InPhase(w, id, Placed) || (InPhase(w, id, Renaming) && id in w.volume.staging)
    ensures IsStoredIn(StepCommit(env, StepPlace(env, w, id), id).db, id)
  {
    assert InPhase(StepPlace(env, w, id), id, Placed) && id in StepPlace(env, w, id).db.versions;
  }

  lemma ProbingLands(env: Env, w: World, id: VersionId)
    requires id in w.db.versions && id in w.inflight && !w.inflight[id].phase.Writing? && !w.inflight[id].phase.Synced?
    requires !w.inflight[id].phase.Placed? ==> id in w.volume.staging
    ensures IsStoredIn(StepCommit(env, StepPlace(env, StepProbe(env, w, id), id), id).db, id)
  {
    PlacingLands(env, StepProbe(env, w, id), id);
  }

  lemma SyncedLands(env: Env, w: World, id: VersionId, layer: Layer)
    requires Good(env, w) && id in w.inflight && !InPhase(w, id, Writing) && id in w.db.versions
    requires IsRest(env, w.inflight[id], [])
    ensures IsStoredIn(Run(env, w, Finish(id, layer)).db, id)
  {
    assert TransferOnDisk(env, w, id);
    assert w.inflight[id].written + Concat([]) == w.inflight[id].written;
    RunFinish(env, w, id, layer);
    var w2 := StepVerify(env, StepSync(w, id), id, layer);
    assert w2.db == w.db && w2.volume == w.volume && id in w2.inflight;
    ProbingLands(env, w2, id);
  }

  /** The first condition is needed, wherever a transfer has got to. One that has outlived its
      reservation and is about to complete it ends in a stored row if nothing intervenes; after a
      sweep it never does, whatever follows. */
  lemma SweepEndsOverdueTransfer(env: Env, w: World, id: VersionId, chunks: seq<Bytes>, layer: Layer,
                                 after: seq<Action>)
    requires Good(env, w) && id in w.inflight && id in w.db.versions && IsExpired(w.db.versions[id], w.now)
    requires IsRest(env, w.inflight[id], chunks)
    ensures IsStoredIn(Run(env, w, Writes(id, chunks) + Finish(id, layer)).db, id)
    ensures id !in Run(env, w, [SweepNow] + after).db.versions
  {
    if InPhase(w, id, Writing) {
      WritingLands(env, w, id, chunks, layer);
    } else {
      assert Writes(id, chunks) + Finish(id, layer) == Finish(id, layer);
      SyncedLands(env, w, id, layer);
    }
    SweptStaysAway(env, w, id, after);
  }

  lemma SweptStaysAway(env: Env, w: World, id: VersionId, after: seq<Action>)
    requires Steady(w) && Matched(env, w) && id in w.db.versions && IsExpired(w.db.versions[id], w.now)
    ensures id !in Run(env, w, [SweepNow] + after).db.versions
  {
    assert ([SweepNow] + after)[1..] == after;
    StepSteady(env, w, SweepNow);
    RunFollows(env, Step(env, w, SweepNow), after);
  }
}
