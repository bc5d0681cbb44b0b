/** Crash safety of staging and promotion, over every interleaving of transfers and crashes. */
module CrashSafety {
  import opened Schema
  import opened Keys
  import opened Storage
  import opened Intent
  import opened Protocol
  import opened Changes
  import opened Streaming

  /** No two of these byte strings share a digest. */
  ghost predicate NoCollision(hash: Hash, bs: set<Bytes>) {
    forall a, b | a in bs && b in bs && hash(a) == hash(b) :: a == b
  }

  /** Every artifact lies under its own digest, and is a stream that was received to its end. */
  ghost predicate KeysHonest(env: Env, w: World) {
    forall k | k in w.volume.artifacts ::
      k == ObjectKey(env.hash(w.volume.artifacts[k])) && w.volume.artifacts[k] in w.measured
  }

  /** What each transfer finds on the volume. */
  ghost predicate TransferOnDisk(env: Env, w: World, id: VersionId)
    requires id in w.inflight
  {
    var t := w.inflight[id];
    && (!t.phase.Placed? && id in w.volume.staging ==> w.volume.staging[id] == t.written)
    && (!t.phase.Placed? && id in w.db.versions ==> id in w.volume.staging)
    && (!t.phase.Writing? ==> t.written in w.measured)
    && (t.phase.Dropping? || t.phase.Placed? ==> ObjectKey(env.hash(t.written)) in w.volume.artifacts)
  }

  ghost predicate TransfersOnDisk(env: Env, w: World) {
    forall id | id in w.inflight :: TransferOnDisk(env, w, id)
  }

  /** A stored row's digest and size were measured together on one stream, and its object exists. */
  ghost predicate RowBacked(env: Env, v: Version, vol: Volume, measured: set<Bytes>) {
    && v.objectKey in vol.artifacts
    && exists b | b in measured :: env.hash(b) == v.sha256 && |b| == v.size
  }

  ghost predicate RowsBacked(env: Env, w: World) {
    forall i | i in w.db.versions && IsStored(w.db.versions[i]) ::
      RowBacked(env, w.db.versions[i], w.volume, w.measured)
  }

  /** No staging file is longer than the reservation it is for. */
  ghost predicate StagingBounded(w: World) {
    forall i | i in w.volume.staging ::
      i < w.db.nextVersion && (i in w.db.versions ==> |w.volume.staging[i]| <= w.db.versions[i].size)
  }

  ghost predicate Durable(env: Env, w: World) {
    KeysHonest(env, w) && TransfersOnDisk(env, w) && RowsBacked(env, w) && StagingBounded(w)
  }

  ghost predicate Good(env: Env, w: World) {
    Steady(w) && Matched(env, w) && Durable(env, w)
  }

  // ----- one step -----

  lemma KeepKeys(env: Env, w: World, a: Action)
    requires Steady(w) && KeysHonest(env, w) && TransfersOnDisk(env, w) && !a.Upload?
    ensures KeysHonest(env, Step(env, w, a))
    ensures w.volume.artifacts.Keys <= Step(env, w, a).volume.artifacts.Keys && w.measured <= Step(env, w, a).measured
  {
    ArtifactsAfter(env, w, a);
    if a.Place? && InPhase(w, a.id, Renaming) {
      assert TransferOnDisk(env, w, a.id);
    }
  }

  /** Only a rename adds an artifact, and only a stream received to its end is measured. */
  lemma ArtifactsAfter(env: Env, w: World, a: Action)
    requires !a.Upload?
    ensures w.measured <= Step(env, w, a).measured
    ensures var after := Step(env, w, a).volume.artifacts;
      if a.Place? && InPhase(w, a.id, Renaming) && a.id in w.volume.staging then
        after == w.volume.artifacts[ObjectKey(env.hash(w.inflight[a.id].written)) := w.volume.staging[a.id]]
      else after == w.volume.artifacts
  {
  }

  /** The tables lose or keep the rows of transfers; they never get them back. */
  lemma {:induction false} ChangesRows(cfg: Config, db: Db, now: Time, cs: seq<Change>)
    requires AllAllowed(cfg, db, now, cs)
    ensures var db1 := ApplyAll(cfg, db, now, cs);
      && db.nextVersion <= db1.nextVersion
      && (forall i | i in db1.versions && i < db.nextVersion :: i in db.versions
            && db1.versions[i].size == db.versions[i].size)
    decreases |cs|
  {
    if cs != [] {
      ChangeRows(cfg, db, now, cs[0]);
      ChangesRows(cfg, Apply(cfg, db, now, cs[0]), now, cs[1..]);
    }
  }

  lemma ChangeRows(cfg: Config, db: Db, now: Time, c: Change)
    requires Tidy(db, now) && Allowed(cfg, db, now, c)
    ensures var db1 := Apply(cfg, db, now, c);
      && db.nextVersion <= db1.nextVersion
      && (forall i | i in db1.versions && i < db.nextVersion :: i in db.versions
            && db1.versions[i].size == db.versions[i].size)
  {
  }

  lemma StepRows(env: Env, w: World, a: Action)
    requires Steady(w) && Matched(env, w)
    ensures var db1 := Step(env, w, a).db;
      && w.db.nextVersion <= db1.nextVersion
      && (forall i | i in db1.versions && i < w.db.nextVersion :: i in w.db.versions
            && db1.versions[i].size == w.db.versions[i].size)
  {
    ActionIsChanges(env, w, a);
    ChangesRows(env.cfg, w.db, w.now, ActionChanges(env, w, a));
  }

  /** An action of another upload, or of none, leaves a transfer's part of the volume alone. */
  lemma KeepOtherTransfer(env: Env, w: World, a: Action, id: VersionId)
    requires Good(env, w) && !a.Upload? && id in w.inflight && id in Step(env, w, a).inflight
    requires Step(env, w, a).inflight[id] == w.inflight[id]
    ensures TransferOnDisk(env, Step(env, w, a), id)
  {
    StepRows(env, w, a);
    KeepKeys(env, w, a);
    assert TransferOnDisk(env, w, id);
    if !w.inflight[id].phase.Placed? {
      StagingKept(env, w, a, id);
    }
  }

  lemma StagingKept(env: Env, w: World, a: Action, id: VersionId)
    requires Steady(w) && !a.Upload? && id in w.inflight && id in Step(env, w, a).inflight
    requires Step(env, w, a).inflight[id] == w.inflight[id] && !w.inflight[id].phase.Placed?
    ensures var w1 := Step(env, w, a);
      && (id in w1.volume.staging ==>
            id in w.volume.staging && (w.volume.staging[id] == w.inflight[id].written ==>
              w1.volume.staging[id] == w.inflight[id].written))
      && (id in w1.db.versions && id in w.volume.staging ==> id in w1.volume.staging)
  {
  }

  lemma KeepOwnTransfer(env: Env, w: World, a: Action, id: VersionId)
    requires Good(env, w) && !a.Upload? && id in Step(env, w, a).inflight
    requires id !in w.inflight || Step(env, w, a).inflight[id] != w.inflight[id]
    ensures TransferOnDisk(env, Step(env, w, a), id)
  {
    assert a.Begin? || a.Write? || a.Sync? || a.Verify? || a.Probe? || a.Place?;
    if id in w.inflight {
      assert TransferOnDisk(env, w, id);
    }
  }

  lemma KeepTransfer(env: Env, w: World, a: Action, id: VersionId)
    requires Good(env, w) && !a.Upload? && id in Step(env, w, a).inflight
    ensures TransferOnDisk(env, Step(env, w, a), id)
  {
    if id in w.inflight && Step(env, w, a).inflight[id] == w.inflight[id] {
      KeepOtherTransfer(env, w, a, id);
    } else {
      KeepOwnTransfer(env, w, a, id);
    }
  }

  lemma KeepStaging(env: Env, w: World, a: Action)
    requires Good(env, w) && !a.Upload?
    ensures StagingBounded(Step(env, w, a))
  {
    var w1 := Step(env, w, a);
    StepRows(env, w, a);
    forall i | i in w1.volume.staging
      ensures i < w1.db.nextVersion && (i in w1.db.versions ==> |w1.volume.staging[i]| <= w1.db.versions[i].size)
    {
      StagedAfter(env, w, a, i);
    }
  }

  /** A staging file is new and empty, or holds no more than it did, or no more than its transfer may write. */
  lemma StagedAfter(env: Env, w: World, a: Action, i: VersionId)
    requires !a.Upload? && i in Step(env, w, a).volume.staging
    ensures i in w.volume.staging || i in w.db.versions
    ensures var b := Step(env, w, a).volume.staging[i];
      || b == []
      || (i in w.volume.staging && |b| <= |w.volume.staging[i]|)
      || (i in w.volume.staging && i in w.inflight && |b| <= w.inflight[i].size)
  {
  }

  lemma KeepRows(env: Env, w: World, a: Action)
    requires Good(env, w) && !a.Upload?
    ensures RowsBacked(env, Step(env, w, a))
  {
    var w1 := Step(env, w, a);
    KeepKeys(env, w, a);
    forall i | i in w1.db.versions && IsStored(w1.db.versions[i])
      ensures RowBacked(env, w1.db.versions[i], w1.volume, w1.measured)
    {
      if i in w.db.versions && IsStored(w.db.versions[i]) {
        assert RowBacked(env, w.db.versions[i], w.volume, w.measured);
        StepRow(env, w, a, i);
      } else {
        NewlyStored(env, w, a, i);
        assert TransferOnDisk(env, w, i);
      }
    }
  }

  /** A stored row keeps what identifies its bytes. */
  lemma {:induction false} ChangesStored(cfg: Config, db: Db, now: Time, cs: seq<Change>, i: VersionId)
    requires AllAllowed(cfg, db, now, cs) && i in db.versions && IsStored(db.versions[i])
    ensures var db1 := ApplyAll(cfg, db, now, cs);
      && i in db1.versions && IsStored(db1.versions[i])
      && db1.versions[i].sha256 == db.versions[i].sha256 && db1.versions[i].size == db.versions[i].size
      && db1.versions[i].objectKey == db.versions[i].objectKey
    decreases |cs|
  {
    if cs != [] {
      ChangeStored(cfg, db, now, cs[0], i);
      ChangesStored(cfg, Apply(cfg, db, now, cs[0]), now, cs[1..], i);
    }
  }

  lemma ChangeStored(cfg: Config, db: Db, now: Time, c: Change, i: VersionId)
    requires Tidy(db, now) && Allowed(cfg, db, now, c) && i in db.versions && IsStored(db.versions[i])
    ensures var db1 := Apply(cfg, db, now, c);
      && i in db1.versions && IsStored(db1.versions[i])
      && db1.versions[i].sha256 == db.versions[i].sha256 && db1.versions[i].size == db.versions[i].size
      && db1.versions[i].objectKey == db.versions[i].objectKey
  {
  }

  lemma StepRow(env: Env, w: World, a: Action, i: VersionId)
    requires Steady(w) && Matched(env, w) && i in w.db.versions && IsStored(w.db.versions[i])
    ensures var db1 := Step(env, w, a).db;
      && i in db1.versions && IsStored(db1.versions[i])
      && db1.versions[i].sha256 == w.db.versions[i].sha256 && db1.versions[i].size == w.db.versions[i].size
      && db1.versions[i].objectKey == w.db.versions[i].objectKey
  {
    ActionIsChanges(env, w, a);
    ChangesStored(env.cfg, w.db, w.now, ActionChanges(env, w, a), i);
  }

  /** A row becomes a stored one only by the commit of its own transfer. */
  lemma NewlyStored(env: Env, w: World, a: Action, i: VersionId)
    requires Steady(w) && Matched(env, w) && !a.Upload?
    requires i in Step(env, w, a).db.versions && IsStored(Step(env, w, a).db.versions[i])
    requires !(i in w.db.versions && IsStored(w.db.versions[i]))
    ensures a == Commit(i) && InPhase(w, i, Placed) && i in w.db.versions
  {
    if a.Ask? && a.u in w.db.users {
      AskedRows(env, w, a);
    }
  }

  lemma SlotRows(db: Db, m: ModelId, now: Time, req: Request, cfg: Config)
    ensures forall i | i in OpenSlot(db, m, now, req, cfg).db.versions ::
      (i in db.versions && OpenSlot(db, m, now, req, cfg).db.versions[i] == db.versions[i])
      || OpenSlot(db, m, now, req, cfg).db.versions[i].state == Reserved
  {
  }

  lemma AskedRows(env: Env, w: World, a: Action)
    requires a.Ask? && a.u in w.db.users
    ensures forall i | i in Step(env, w, a).db.versions ::
      (i in w.db.versions && Step(env, w, a).db.versions[i] == w.db.versions[i])
        || Step(env, w, a).db.versions[i].state == Reserved
  {
    var found := FindModel(w.db.models, w.db.nextModel, a.u, a.req.slug);
    if found.Some? {
      SlotRows(w.db, found.value, w.now, a.req, env.cfg);
    } else {
      SlotRows(WithModel(w.db, a.u, a.req.slug), w.db.nextModel, w.now, a.req, env.cfg);
    }
  }

  lemma KeepSmall(env: Env, w: World, a: Action)
    requires Good(env, w) && !a.Upload?
    ensures Good(env, Step(env, w, a))
  {
    StepSteady(env, w, a);
    KeepKeys(env, w, a);
    KeepStaging(env, w, a);
    KeepRows(env, w, a);
    forall id | id in Step(env, w, a).inflight ensures TransferOnDisk(env, Step(env, w, a), id) {
      KeepTransfer(env, w, a, id);
    }
  }

  // ----- runs -----

  lemma {:induction false} RunSmall(env: Env, w: World, actions: seq<Action>)
    requires Good(env, w) && forall a | a in actions :: !a.Upload?
    ensures Good(env, Run(env, w, actions))
    decreases |actions|
  {
    if actions != [] {
      KeepSmall(env, w, actions[0]);
      RunSmall(env, Step(env, w, actions[0]), actions[1..]);
    }
  }

  lemma {:induction false} WritesSmall(id: VersionId, chunks: seq<Bytes>)
    ensures forall a | a in Writes(id, chunks) :: a.Write? && a.id == id
    decreases |chunks|
  {
    if chunks != [] {
      WritesSmall(id, chunks[1..]);
    }
  }

  /** A receive in one step keeps the invariant because its small steps do. */
  lemma KeepGood(env: Env, w: World, a: Action)
    requires Good(env, w)
    ensures Good(env, Step(env, w, a))
  {
    if a.Upload? && a.id !in w.inflight {
      UploadIsScript(env, w, a.id, a.u, a.chunks, a.layer);
      WritesSmall(a.id, a.chunks);
      RunSmall(env, w, Script(a.id, a.u, a.chunks, a.layer));
    } else if !a.Upload? {
      KeepSmall(env, w, a);
    }
  }

  lemma {:induction false} RunGood(env: Env, w: World, actions: seq<Action>)
    requires Good(env, w)
    ensures Good(env, Run(env, w, actions))
    decreases |actions|
  {
    if actions != [] {
      KeepGood(env, w, actions[0]);
      RunGood(env, Step(env, w, actions[0]), actions[1..]);
    }
  }

  /** In every reachable state, through crashes at any point and any interleaving of transfers:
      each uploaded, verifying or published row has an object at its key, with exactly its digest;
      and exactly its size, given that no two received streams collide. */
  lemma StoredRowsHaveTheirBytes(env: Env, users: map<UserId, User>, t: Time, actions: seq<Action>, i: VersionId)
    ensures var w := Run(env, Start(users, t), actions);
      i in w.db.versions && IsStored(w.db.versions[i]) ==>
        var v := w.db.versions[i];
        && v.objectKey in w.volume.artifacts
        && env.hash(w.volume.artifacts[v.objectKey]) == v.sha256
        && (NoCollision(env.hash, w.measured) ==> |w.volume.artifacts[v.objectKey]| == v.size)
  {
    var w := Run(env, Start(users, t), actions);
    RunGood(env, Start(users, t), actions);
    if i in w.db.versions && IsStored(w.db.versions[i]) {
      var v := w.db.versions[i];
      assert RowBacked(env, v, w.volume, w.measured);
      KeyNamesDigest(env.hash(w.volume.artifacts[v.objectKey]), v.sha256);
    }
  }

  /** No final key ever holds a partial stream, or bytes with another digest; and no staging file
      ever holds more than was reserved for it. */
  lemma FinalKeysAreHonest(env: Env, users: map<UserId, User>, t: Time, actions: seq<Action>)
    ensures var w := Run(env, Start(users, t), actions);
      && (forall k | k in w.volume.artifacts ::
            w.volume.artifacts[k] in w.measured && k == ObjectKey(env.hash(w.volume.artifacts[k])))
      && (forall i | i in w.volume.staging && i in w.db.versions ::
            |w.volume.staging[i]| <= w.db.versions[i].size)
  {
    RunGood(env, Start(users, t), actions);
  }

  /** Once an object is stored it stays, byte for byte, whatever happens afterwards. */
  lemma ObjectsNeverChange(env: Env, users: map<UserId, User>, t: Time, before: seq<Action>, after: seq<Action>,
                           k: string)
    requires var w := Run(env, Start(users, t), before + after); NoCollision(env.hash, w.measured)
    requires k in Run(env, Start(users, t), before).volume.artifacts
    ensures var w := Run(env, Start(users, t), before + after);
      k in w.volume.artifacts && w.volume.artifacts[k] == Run(env, Start(users, t), before).volume.artifacts[k]
  {
    var w0 := Run(env, Start(users, t), before);
    var w := Run(env, Start(users, t), before + after);
    RunJoin(env, Start(users, t), before, after);
    RunGood(env, Start(users, t), before);
    RunGood(env, w0, after);
    RunGrows(env, w0, after);
    KeyNamesDigest(env.hash(w0.volume.artifacts[k]), env.hash(w.volume.artifacts[k]));
  }

  lemma StepGrows(env: Env, w: World, a: Action)
    requires Good(env, w)
    ensures w.volume.artifacts.Keys <= Step(env, w, a).volume.artifacts.Keys && w.measured <= Step(env, w, a).measured
  {
    if !a.Upload? {
      KeepKeys(env, w, a);
    }
  }

  lemma {:induction false} RunGrows(env: Env, w: World, actions: seq<Action>)
    requires Good(env, w)
    ensures w.volume.artifacts.Keys <= Run(env, w, actions).volume.artifacts.Keys
      && w.measured <= Run(env, w, actions).measured
    decreases |actions|
  {
    if actions != [] {
      StepGrows(env, w, actions[0]);
      KeepGood(env, w, actions[0]);
      RunGrows(env, Step(env, w, actions[0]), actions[1..]);
    }
  }
}
