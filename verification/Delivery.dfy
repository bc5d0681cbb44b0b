/** What a receive means to its caller, on either layer and over the rest of the run: the bytes that
    were acknowledged are the bytes that are kept, and what a refusal leaves behind. */
module Delivery {
  import opened Basics
  import opened Schema
  import opened Keys
  import opened Storage
  import opened Intent
  import opened Receiving
  import opened Protocol
  import opened Changes
  import opened Ceilings
  import opened CrashSafety
  import opened Operations
  import opened Publishing
  import opened JanitorRuns
  import opened LifecycleRuns

  /** A stored row's object is, for the rest of the run, the stream whose digest the row holds. */
  lemma StoredIsKept(env: Env, w: World, i: VersionId, bytes: Bytes, after: seq<Action>)
    requires Good(env, w) && i in w.db.versions && IsStored(w.db.versions[i])
    requires bytes in w.measured && env.hash(bytes) == w.db.versions[i].sha256
    requires NoCollision(env.hash, Run(env, w, after).measured)
    ensures Serves(Run(env, w, after), i, bytes)
  {
    var end := Run(env, w, after);
    RunGood(env, w, after);
    RunGrows(env, w, after);
    RunFollows(env, w, after);
    var v := end.db.versions[i];
    assert RowBacked(env, v, end.volume, end.measured);
    KeyNamesDigest(env.hash(end.volume.artifacts[v.objectKey]), v.sha256);
  }

  /** The version has its bytes on disk, and they are these. */
  predicate Serves(w: World, i: VersionId, bytes: Bytes) {
    && i in w.db.versions && IsStored(w.db.versions[i])
    && w.db.versions[i].objectKey in w.volume.artifacts && w.volume.artifacts[w.db.versions[i].objectKey] == bytes
  }

  /** The round trip. A transfer whose commit goes through, however it was interleaved and wherever
      its object came from: from then on, whatever follows and wherever it crashes, the version
      serves exactly what the transfer wrote. */
  lemma CommittedIsServed(env: Env, users: map<UserId, User>, t: Time, before: seq<Action>, after: seq<Action>,
                          id: VersionId)
    requires InPhase(Run(env, Start(users, t), before), id, Placed)
      && id in Run(env, Start(users, t), before).db.versions
    requires NoCollision(env.hash, Run(env, Start(users, t), before + ([Commit(id)] + after)).measured)
    ensures Serves(Run(env, Start(users, t), before + ([Commit(id)] + after)), id,
                   Run(env, Start(users, t), before).inflight[id].written)
  {
    var w := Run(env, Start(users, t), before);
    var w1 := Step(env, w, Commit(id));
    RunJoin(env, Start(users, t), before, [Commit(id)] + after);
    assert ([Commit(id)] + after)[1..] == after;
    RunGood(env, Start(users, t), before);
    KeepGood(env, w, Commit(id));
    assert TransferOnDisk(env, w, id);
    StoredIsKept(env, w1, id, w.inflight[id].written, after);
  }

  /** A commit ends its transfer either way. When the row has been taken away meanwhile it is void: no
      table and no object changes, so nothing is charged. */
  lemma CommitEnds(env: Env, w: World, id: VersionId)
    requires InPhase(w, id, Placed)
    ensures var w1 := Step(env, w, Commit(id));
      && id !in w1.inflight && w1.volume == w.volume
      && (id !in w.db.versions ==> w1.db == w.db)
      && (id in w.db.versions ==> |w1.db.ledger| == |w.db.ledger| + 1)
  {
  }

  /** The same of a receive in one step. */
  lemma SentIsServed(env: Env, users: map<UserId, User>, t: Time, before: seq<Action>, after: seq<Action>,
                     id: VersionId, u: UserId, chunks: seq<Bytes>, layer: Layer)
    requires var w := Run(env, Start(users, t), before);
      id !in w.inflight && Receive(env.hash, w.db, w.volume, w.now, id, u, chunks).result.Ok?
    requires NoCollision(env.hash, Run(env, Start(users, t),
      before + ([Upload(id, u, chunks, layer)] + after)).measured)
    ensures Serves(Run(env, Start(users, t), before + ([Upload(id, u, chunks, layer)] + after)), id, Concat(chunks))
  {
    var w := Run(env, Start(users, t), before);
    var a := Upload(id, u, chunks, layer);
    RunJoin(env, Start(users, t), before, [a] + after);
    assert ([a] + after)[1..] == after;
    RunGood(env, Start(users, t), before);
    KeepGood(env, w, a);
    StoredIsKept(env, Step(env, w, a), id, Concat(chunks), after);
  }

  /** A refused receive on an open slot, through the whole step: no object, no charge, nothing
      staged. The name is free again exactly when the caller keeps the session and the bytes were
      measured; a request that is rolled back, or a stream that was cut off, leaves it taken. The
      refusal tells which: it is over the reservation's size exactly when the stream was cut off. */
  lemma RefusedUpload(env: Env, w: World, id: VersionId, u: UserId, chunks: seq<Bytes>, layer: Layer)
    requires NamesUnique(w.db) && id !in w.inflight && ReservedSlot(w.db, id, u, w.now).Ok?
    requires Receive(env.hash, w.db, w.volume, w.now, id, u, chunks).result.Err?
    ensures var v, w1 := w.db.versions[id], Step(env, w, Upload(id, u, chunks, layer));
      var why := Receive(env.hash, w.db, w.volume, w.now, id, u, chunks).result.error;
      && w1.volume.artifacts == w.volume.artifacts && w1.db.ledger == w.db.ledger && id !in w1.volume.staging
      && (NameUsed(w1.db, v.model, v.name) <==> layer.RequestLayer? || |Concat(chunks)| > v.size)
      && (NameUsed(w1.db, v.model, v.name) <==> layer.RequestLayer? || why.PastReservation?)
      && (id in w1.db.versions <==> NameUsed(w1.db, v.model, v.name))
      && forall i | i in w.db.versions && i != id :: i in w1.db.versions && w1.db.versions[i] == w.db.versions[i]
  {
    var v, w1 := w.db.versions[id], Step(env, w, Upload(id, u, chunks, layer));
    ReceiveRefusalIsTrue(env.hash, w.db, w.volume, w.now, id, u, chunks);
    if layer.RequestLayer? || |Concat(chunks)| > v.size {
      assert w1.db == w.db;
      assert NameUsed(w.db, v.model, v.name);
    } else {
      assert w1.db.versions == w.db.versions - {id};
    }
  }

  // ----- publishing what was received -----

  /** An uploaded row changes by its owner's publish step only. */
  lemma UploadedStays(env: Env, w: World, a: Action, id: VersionId, u: UserId)
    requires Steady(w) && id in w.db.versions && w.db.versions[id].state == Uploaded
    requires Owned(w.db, w.db.versions[id], u) && a != Show(id, u)
    ensures id in Step(env, w, a).db.versions && Step(env, w, a).db.versions[id] == w.db.versions[id]
  {
    if a.Ask? && a.u in w.db.users {
      AskedKeeps(env, w, a, id);
    }
  }

  lemma {:induction false} StaysUploaded(env: Env, w: World, actions: seq<Action>, id: VersionId, u: UserId)
    requires Steady(w) && Matched(env, w)
    requires id in w.db.versions && w.db.versions[id].state == Uploaded && Owned(w.db, w.db.versions[id], u)
    requires Show(id, u) !in actions
    ensures var db := Run(env, w, actions).db;
      id in db.versions && db.versions[id] == w.db.versions[id] && Owned(db, db.versions[id], u)
    decreases |actions|
  {
    if actions != [] {
      assert actions[0] in actions;
      UploadedStays(env, w, actions[0], id, u);
      StepSteady(env, w, actions[0]);
      ActionIsChanges(env, w, actions[0]);
      ChangesModels(env.cfg, w.db, w.now, ActionChanges(env, w, actions[0]));
      StaysUploaded(env, Step(env, w, actions[0]), actions[1..], id, u);
    }
  }

  /** What a publish step made of a row is what it stays, and nobody publishes it again. */
  lemma ShownStays(env: Env, w: World, after: seq<Action>, id: VersionId, u: UserId)
    requires Steady(w) && Matched(env, w) && id in w.db.versions && Owned(w.db, w.db.versions[id], u)
    requires w.db.versions[id].state == Verifying || w.db.versions[id].state == Published
    ensures var end := Run(env, w, after);
      && id in end.db.versions && end.db.versions[id] == w.db.versions[id]
      && forall x :: Publish(end.db, end.now, id, x, env.cfg).1
           == if x == u then Err(NotReceived(end.db.versions[id].state)) else Err(NoSuchUpload)
  {
    var end := Run(env, w, after);
    RunFollows(env, w, after);
    RunModels(env, w, after);
    RunSteady(env, w, after);
    assert IsRow(w.db.versions[id]) && IsRow(end.db.versions[id]);
    forall x ensures Publish(end.db, end.now, id, x, env.cfg).1
        == if x == u then Err(NotReceived(end.db.versions[id].state)) else Err(NoSuchUpload)
    {
      PublishedExactly(end.db, end.now, id, x, env.cfg);
    }
  }

  /** Published once. What was received can be published by its owner however long that takes, at
      whatever else goes on; the step moves the row on as the deployment is configured; and from then
      on the row stays as it is and nobody, its owner included, publishes it again. */
  lemma PublishedOnce(env: Env, users: map<UserId, User>, t: Time, before: seq<Action>, waiting: seq<Action>,
                      after: seq<Action>, id: VersionId, u: UserId)
    requires var db := Run(env, Start(users, t), before).db;
      id in db.versions && db.versions[id].state == Uploaded && Owned(db, db.versions[id], u)
    requires Show(id, u) !in waiting
    ensures var v, w1 := Run(env, Start(users, t), before).db.versions[id], Run(env, Start(users, t), before + waiting);
      var end := Run(env, Start(users, t), before + waiting + ([Show(id, u)] + after));
      && Publish(w1.db, w1.now, id, u, env.cfg).1 == Ok(id)
      && id in end.db.versions && end.db.versions[id] == Shown(v, env.cfg.requireVerification, w1.now)
      && forall x :: Publish(end.db, end.now, id, x, env.cfg).1
           == if x == u then Err(NotReceived(end.db.versions[id].state)) else Err(NoSuchUpload)
  {
    var w, w1 := Run(env, Start(users, t), before), Run(env, Start(users, t), before + waiting);
    var w2 := Step(env, w1, Show(id, u));
    RunJoin(env, Start(users, t), before, waiting);
    RunJoin(env, Start(users, t), before + waiting, [Show(id, u)] + after);
    assert ([Show(id, u)] + after)[1..] == after;
    RunSteady(env, Start(users, t), before);
    RunSteady(env, w, waiting);
    StaysUploaded(env, w, waiting, id, u);
    PublishedExactly(w1.db, w1.now, id, u, env.cfg);
    StepSteady(env, w1, Show(id, u));
    ShownStays(env, w2, after, id, u);
  }
}
