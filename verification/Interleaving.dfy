/** Concurrent transfers of different uploads do not interfere. */
module Interleaving {
  import opened Basics
  import opened Schema
  import opened Keys
  import opened Storage
  import opened Intent
  import opened Receiving
  import opened Janitor
  import opened Protocol
  import opened Changes
  import opened CrashSafety
  import opened JanitorRuns

  /** All that concerns one upload: its row and owner, its ledger entries, its transfer and its
      staging file. Which of the two ways its file goes to its place is not told apart. */
  datatype View =
    | Absent
    | Present(row: Version, owner: Option<UserId>, entries: seq<Entry>, transfer: Option<Transfer>,
      staged: Option<Bytes>)

  function EntriesOf(ledger: seq<Entry>, id: VersionId): seq<Entry> {
    if ledger == [] then [] else
      var last := ledger[|ledger| - 1];
      EntriesOf(ledger[..|ledger| - 1], id) + if last.version == id then [last] else []
  }

  function TransferOf(w: World, id: VersionId): Option<Transfer> {
    if id !in w.inflight then None
    else if w.inflight[id].phase.Dropping? then Some(w.inflight[id].(phase := Renaming))
    else Some(w.inflight[id])
  }

  function OwnerOf(db: Db, v: Version): Option<UserId> {
    if v.model in db.models then Some(db.models[v.model].owner) else None
  }

  function ViewOf(w: World, id: VersionId): View {
    if id !in w.db.versions then Absent else
      Present(w.db.versions[id], OwnerOf(w.db, w.db.versions[id]), EntriesOf(w.db.ledger, id),
              TransferOf(w, id), if id in w.volume.staging then Some(w.volume.staging[id]) else None)
  }

  /** The actions that are about this upload, or about the whole service. */
  predicate Concerns(a: Action, id: VersionId) {
    match a
    case Ask(_, _, _, _) => false
    case SweepNow => true
    case Tick(_) => true
    case Crash(_) => true
    case _ => a.id == id
  }

  function Own(actions: seq<Action>, id: VersionId): seq<Action>
    decreases |actions|
  {
    if actions == [] then []
    else (if Concerns(actions[0], id) then [actions[0]] else []) + Own(actions[1..], id)
  }

  lemma EntriesAppend(ledger: seq<Entry>, e: Entry, id: VersionId)
    ensures EntriesOf(ledger + [e], id) == EntriesOf(ledger, id) + if e.version == id then [e] else []
  {
    assert (ledger + [e])[..|ledger|] == ledger;
  }

  // ----- actions about something else -----

  lemma SlotTables(db: Db, m: ModelId, now: Time, req: Request, cfg: Config)
    ensures var db1 := OpenSlot(db, m, now, req, cfg).db; db1.ledger == db.ledger && db1.models == db.models
  {
  }

  lemma ForeignAsk(env: Env, w: World, a: Action, id: VersionId)
    requires Tidy(w.db, w.now) && a.Ask? && id < w.db.nextVersion
    ensures ViewOf(Step(env, w, a), id) == ViewOf(w, id)
  {
    if a.u in w.db.users {
      AskedKeeps(env, w, a, id);
      AskedTables(env, w, a);
    }
  }

  lemma AskedTables(env: Env, w: World, a: Action)
    requires Tidy(w.db, w.now) && a.Ask?
    ensures var db1 := Step(env, w, a).db;
      db1.ledger == w.db.ledger && forall m | m in w.db.models :: m in db1.models && db1.models[m] == w.db.models[m]
  {
    if a.u in w.db.users {
      var found := FindModel(w.db.models, w.db.nextModel, a.u, a.req.slug);
      if found.Some? {
        SlotTables(w.db, found.value, w.now, a.req, env.cfg);
      } else {
        assert w.db.nextModel !in w.db.models;
        SlotTables(WithModel(w.db, a.u, a.req.slug), w.db.nextModel, w.now, a.req, env.cfg);
      }
    }
  }

  lemma ForeignUpload(env: Env, w: World, a: Action, id: VersionId)
    requires a.Upload? && a.id != id
    ensures ViewOf(Step(env, w, a), id) == ViewOf(w, id)
  {
    var out := Receive(env.hash, w.db, w.volume, w.now, a.id, a.u, a.chunks);
    ForeignReceive(env, w, a.u, a.chunks, a.id, id);
    assert Step(env, w, a).db == w.db || Step(env, w, a).db == out.db;
    assert Step(env, w, a).volume == w.volume || Step(env, w, a).volume == out.volume;
    assert Step(env, w, a).inflight == w.inflight;
  }

  lemma ForeignReceive(env: Env, w: World, u: UserId, chunks: seq<Bytes>, x: VersionId, id: VersionId)
    requires x != id
    ensures var out := Receive(env.hash, w.db, w.volume, w.now, x, u, chunks);
      && out.db.models == w.db.models && EntriesOf(out.db.ledger, id) == EntriesOf(w.db.ledger, id)
      && (id in out.db.versions <==> id in w.db.versions)
      && (id in w.db.versions ==> out.db.versions[id] == w.db.versions[id])
      && (id in out.volume.staging <==> id in w.volume.staging)
      && (id in w.volume.staging ==> out.volume.staging[id] == w.volume.staging[id])
  {
    var out := Receive(env.hash, w.db, w.volume, w.now, x, u, chunks);
    if out.result.Ok? {
      EntriesAppend(w.db.ledger, Entry(u, x, |Concat(chunks)|, CommitReason, w.now), id);
    }
  }

  lemma ForeignSmall(env: Env, w: World, a: Action, id: VersionId)
    requires !a.Ask? && !a.Upload? && !Concerns(a, id)
    ensures ViewOf(Step(env, w, a), id) == ViewOf(w, id)
  {
    ForeignFiles(env, w, a, id);
    ForeignTables(env, w, a, id);
  }

  lemma ForeignFiles(env: Env, w: World, a: Action, id: VersionId)
    requires !a.Ask? && !a.Upload? && !Concerns(a, id)
    ensures var w1 := Step(env, w, a);
      && TransferOf(w1, id) == TransferOf(w, id)
      && (id in w1.volume.staging <==> id in w.volume.staging)
      && (id in w.volume.staging ==> w1.volume.staging[id] == w.volume.staging[id])
  {
  }

  lemma ForeignTables(env: Env, w: World, a: Action, id: VersionId)
    requires !a.Ask? && !a.Upload? && !Concerns(a, id)
    ensures var db1 := Step(env, w, a).db;
      && db1.models == w.db.models && EntriesOf(db1.ledger, id) == EntriesOf(w.db.ledger, id)
      && (id in db1.versions <==> id in w.db.versions)
      && (id in w.db.versions ==> db1.versions[id] == w.db.versions[id])
  {
    ForeignLedger(env, w, a, id);
    ForeignRow(env, w, a, id);
  }

  lemma ForeignRow(env: Env, w: World, a: Action, id: VersionId)
    requires !a.Ask? && !a.Upload? && !Concerns(a, id)
    ensures var db1 := Step(env, w, a).db;
      && db1.models == w.db.models
      && (id in db1.versions <==> id in w.db.versions)
      && (id in w.db.versions ==> db1.versions[id] == w.db.versions[id])
  {
  }

  lemma ForeignLedger(env: Env, w: World, a: Action, id: VersionId)
    requires !a.Ask? && !a.Upload? && !Concerns(a, id)
    ensures EntriesOf(Step(env, w, a).db.ledger, id) == EntriesOf(w.db.ledger, id)
  {
    if a.Commit? {
      ForeignCommit(env, w, a.id, id);
    } else {
      assert Step(env, w, a).db.ledger == w.db.ledger;
    }
  }

  lemma ForeignCommit(env: Env, w: World, x: VersionId, id: VersionId)
    requires x != id
    ensures EntriesOf(StepCommit(env, w, x).db.ledger, id) == EntriesOf(w.db.ledger, id)
  {
    if InPhase(w, x, Placed) && x in w.db.versions {
      var t := w.inflight[x];
      EntriesAppend(w.db.ledger, Entry(t.user, x, |t.written|, CommitReason, w.now), id);
    }
  }

  lemma Foreign(env: Env, w: World, a: Action, id: VersionId)
    requires Good(env, w) && id < w.db.nextVersion && !Concerns(a, id)
    ensures Good(env, Step(env, w, a)) && id < Step(env, w, a).db.nextVersion
    ensures ViewOf(Step(env, w, a), id) == ViewOf(w, id) && Step(env, w, a).now == w.now
  {
    KeepGood(env, w, a);
    StepRows(env, w, a);
    if a.Ask? {
      ForeignAsk(env, w, a, id);
    } else if a.Upload? {
      ForeignUpload(env, w, a, id);
    } else {
      ForeignSmall(env, w, a, id);
    }
  }

  // ----- actions about the upload -----

  /** Two worlds that show the same of one upload at the same time. */
  ghost predicate Alike(env: Env, w: World, x: World, id: VersionId) {
    && Good(env, w) && Good(env, x) && w.now == x.now
    && id < w.db.nextVersion && id < x.db.nextVersion && ViewOf(w, id) == ViewOf(x, id)
  }

  lemma GoneStays(env: Env, w: World, a: Action, id: VersionId)
    requires Good(env, w) && id < w.db.nextVersion && id !in w.db.versions
    ensures id !in Step(env, w, a).db.versions
  {
    StepRows(env, w, a);
  }

  /** A transfer whose row is there finds its staging file. */
  lemma StagedOfTransfer(env: Env, w: World, id: VersionId)
    requires Good(env, w) && id in w.inflight && id in w.db.versions && !w.inflight[id].phase.Placed?
    ensures id in w.volume.staging && w.volume.staging[id] == w.inflight[id].written
  {
    assert TransferOnDisk(env, w, id);
  }

  ghost predicate Same(w: World, x: World, id: VersionId) {
    id in w.db.versions && ViewOf(w, id) == ViewOf(x, id)
  }

  lemma OwnGlobal(env: Env, w: World, x: World, a: Action, id: VersionId)
    requires Same(w, x, id) && w.now == x.now && (a.SweepNow? || a.Tick? || a.Crash?)
    ensures ViewOf(Step(env, w, a), id) == ViewOf(Step(env, x, a), id)
  {
    if a.SweepNow? {
      assert id in Expired(w.db, w.now) <==> id in Expired(x.db, x.now);
    }
  }

  lemma OwnTransfer(env: Env, w: World, x: World, a: Action, id: VersionId)
    requires Same(w, x, id) && w.now == x.now && Concerns(a, id) && (a.Hangup? || a.Show?)
    ensures ViewOf(Step(env, w, a), id) == ViewOf(Step(env, x, a), id)
  {
    assert TransferOf(w, id) == TransferOf(x, id);
  }

  lemma OwnSync(w: World, x: World, id: VersionId)
    requires Same(w, x, id)
    ensures ViewOf(StepSync(w, id), id) == ViewOf(StepSync(x, id), id)
  {
    assert TransferOf(w, id) == TransferOf(x, id);
  }

  lemma OwnBegin(w: World, x: World, id: VersionId, u: UserId)
    requires Same(w, x, id) && w.now == x.now
    ensures ViewOf(StepBegin(w, id, u), id) == ViewOf(StepBegin(x, id, u), id)
  {
    assert TransferOf(w, id) == TransferOf(x, id);
  }

  lemma OwnWrite(w: World, x: World, id: VersionId, chunk: Bytes)
    requires Same(w, x, id)
    ensures ViewOf(StepWrite(w, id, chunk), id) == ViewOf(StepWrite(x, id, chunk), id)
  {
    assert TransferOf(w, id) == TransferOf(x, id);
  }

  lemma OwnVerify(env: Env, w: World, x: World, id: VersionId, layer: Layer)
    requires Same(w, x, id)
    ensures ViewOf(StepVerify(env, w, id, layer), id) == ViewOf(StepVerify(env, x, id, layer), id)
  {
    assert TransferOf(w, id) == TransferOf(x, id);
    if InPhase(w, id, Synced) {
      VerifiedView(env, w, id, layer);
      VerifiedView(env, x, id, layer);
    }
  }

  /** What the check leaves of an upload: verified, or its transfer and file gone, and its row with
      them where the session is kept. */
  lemma VerifiedView(env: Env, w: World, id: VersionId, layer: Layer)
    requires id in w.db.versions && InPhase(w, id, Synced)
    ensures var v, t, entries := w.db.versions[id], w.inflight[id], EntriesOf(w.db.ledger, id);
      ViewOf(StepVerify(env, w, id, layer), id) ==
        if CheckMeasured(t.size, t.sha256, StoredBlob(env.hash(t.written), |t.written|)).None? then
          Present(v, OwnerOf(w.db, v), entries, Some(t.(phase := Verified)),
                  if id in w.volume.staging then Some(w.volume.staging[id]) else None)
        else if layer.SessionLayer? then Absent
        else Present(v, OwnerOf(w.db, v), entries, None, None)
  {
  }

  lemma OwnProbe(env: Env, w: World, x: World, id: VersionId)
    requires Same(w, x, id)
    ensures ViewOf(StepProbe(env, w, id), id) == ViewOf(StepProbe(env, x, id), id)
  {
    assert TransferOf(w, id) == TransferOf(x, id);
  }

  lemma OwnPlace(env: Env, w: World, x: World, id: VersionId)
    requires Same(w, x, id)
    requires id in w.inflight && !w.inflight[id].phase.Placed? ==> id in w.volume.staging && id in x.volume.staging
    ensures ViewOf(Step(env, w, Place(id)), id) == ViewOf(Step(env, x, Place(id)), id)
  {
    assert TransferOf(w, id) == TransferOf(x, id);
    if TransferOf(w, id).Some? && TransferOf(w, id).value.phase.Renaming? {
      PlacedView(env, w, id);
      PlacedView(env, x, id);
    }
  }

  /** Dropped or renamed, the staging file is gone and the transfer is done with the volume. */
  lemma PlacedView(env: Env, w: World, id: VersionId)
    requires id in w.db.versions && id in w.volume.staging && (InPhase(w, id, Dropping) || InPhase(w, id, Renaming))
    ensures var v := w.db.versions[id];
      ViewOf(Step(env, w, Place(id)), id)
        == Present(v, OwnerOf(w.db, v), EntriesOf(w.db.ledger, id), Some(w.inflight[id].(phase := Placed)), None)
  {
  }

  lemma CommitView(env: Env, w: World, id: VersionId)
    requires id in w.db.versions && InPhase(w, id, Placed)
    ensures var v, t := w.db.versions[id], w.inflight[id];
      var key := ObjectKey(env.hash(t.written));
      var e := Entry(t.user, id, |t.written|, CommitReason, w.now);
      ViewOf(Step(env, w, Commit(id)), id)
        == ViewOf(w, id).(row := v.(objectKey := key, state := Uploaded),
          entries := EntriesOf(w.db.ledger, id) + [e], transfer := None)
  {
    var t := w.inflight[id];
    EntriesAppend(w.db.ledger, Entry(t.user, id, |t.written|, CommitReason, w.now), id);
  }

  lemma OwnCommit(env: Env, w: World, x: World, id: VersionId)
    requires Same(w, x, id) && w.now == x.now
    ensures ViewOf(Step(env, w, Commit(id)), id) == ViewOf(Step(env, x, Commit(id)), id)
  {
    assert TransferOf(w, id) == TransferOf(x, id);
    if InPhase(w, id, Placed) {
      CommitView(env, w, id);
      CommitView(env, x, id);
    }
  }

  lemma OwnUpload(env: Env, w: World, x: World, a: Action, id: VersionId)
    requires Same(w, x, id) && w.now == x.now && a.Upload? && a.id == id
    ensures ViewOf(Step(env, w, a), id) == ViewOf(Step(env, x, a), id)
  {
    var w1, x1 := Step(env, w, a), Step(env, x, a);
    assert TransferOf(w, id) == TransferOf(x, id);
    assert ReservedSlot(w.db, id, a.u, w.now) == ReservedSlot(x.db, id, a.u, x.now);
    if ReservedSlot(w.db, id, a.u, w.now).Ok? {
      OwnReceive(env, w, x, a.u, a.chunks, id);
      assert w1.inflight == w.inflight && x1.inflight == x.inflight;
    }
  }

  /** What a receive leaves of its own row, entries and staging file depends on nothing else. */
  lemma OwnReceive(env: Env, w: World, x: World, u: UserId, chunks: seq<Bytes>, id: VersionId)
    requires Same(w, x, id) && w.now == x.now && ReservedSlot(w.db, id, u, w.now).Ok?
    ensures var a, b := Receive(env.hash, w.db, w.volume, w.now, id, u, chunks),
      Receive(env.hash, x.db, x.volume, x.now, id, u, chunks);
      && a.result == b.result && id !in a.volume.staging && id !in b.volume.staging
      && (id in a.db.versions <==> id in b.db.versions)
      && (id in a.db.versions ==>
            && a.db.versions[id] == b.db.versions[id] && EntriesOf(a.db.ledger, id) == EntriesOf(b.db.ledger, id)
            && a.db.models == w.db.models && b.db.models == x.db.models
            && a.db.versions[id].model == w.db.versions[id].model)
  {
    var a, b := Receive(env.hash, w.db, w.volume, w.now, id, u, chunks),
      Receive(env.hash, x.db, x.volume, x.now, id, u, chunks);
    if a.result.Ok? {
      EntriesAppend(w.db.ledger, a.db.ledger[|w.db.ledger|], id);
      EntriesAppend(x.db.ledger, b.db.ledger[|x.db.ledger|], id);
    }
  }

  lemma OwnView(env: Env, w: World, x: World, a: Action, id: VersionId)
    requires Same(w, x, id) && w.now == x.now && Concerns(a, id)
    requires id in w.inflight && !w.inflight[id].phase.Placed? ==> id in w.volume.staging && id in x.volume.staging
    ensures ViewOf(Step(env, w, a), id) == ViewOf(Step(env, x, a), id)
  {
    if a.SweepNow? || a.Tick? || a.Crash? {
      OwnGlobal(env, w, x, a, id);
    } else if a.Place? {
      OwnPlace(env, w, x, id);
    } else if a.Commit? {
      OwnCommit(env, w, x, id);
    } else if a.Upload? {
      OwnUpload(env, w, x, a, id);
    } else if a.Sync? {
      OwnSync(w, x, id);
    } else if a.Verify? {
      OwnVerify(env, w, x, id, a.layer);
    } else if a.Probe? {
      OwnProbe(env, w, x, id);
    } else if a.Begin? {
      OwnBegin(w, x, id, a.u);
    } else if a.Write? {
      OwnWrite(w, x, id, a.chunk);
    } else {
      OwnTransfer(env, w, x, a, id);
    }
  }

  lemma OwnClock(env: Env, w: World, x: World, a: Action)
    requires w.now == x.now
    ensures Step(env, w, a).now == Step(env, x, a).now
  {
  }

  lemma OwnStep(env: Env, w: World, x: World, a: Action, id: VersionId)
    requires Alike(env, w, x, id) && Concerns(a, id)
    ensures Alike(env, Step(env, w, a), Step(env, x, a), id)
  {
    KeepGood(env, w, a);
    KeepGood(env, x, a);
    StepRows(env, w, a);
    StepRows(env, x, a);
    OwnClock(env, w, x, a);
    OwnViewStep(env, w, x, a, id);
  }

  lemma OwnViewStep(env: Env, w: World, x: World, a: Action, id: VersionId)
    requires Alike(env, w, x, id) && Concerns(a, id)
    ensures ViewOf(Step(env, w, a), id) == ViewOf(Step(env, x, a), id)
  {
    if id !in w.db.versions {
      GoneStays(env, w, a, id);
      GoneStays(env, x, a, id);
    } else {
      assert TransferOf(w, id) == TransferOf(x, id);
      if id in w.inflight && !w.inflight[id].phase.Placed? {
        StagedOfTransfer(env, w, id);
        StagedOfTransfer(env, x, id);
      }
      OwnView(env, w, x, a, id);
    }
  }

  lemma {:induction false} OthersDoNotMatter(env: Env, w: World, x: World, actions: seq<Action>, id: VersionId)
    requires Alike(env, w, x, id)
    ensures Alike(env, Run(env, w, actions), Run(env, x, Own(actions, id)), id)
    decreases |actions|
  {
    if actions != [] {
      var a := actions[0];
      if Concerns(a, id) {
        assert Own(actions, id)[1..] == Own(actions[1..], id);
        OwnStep(env, w, x, a, id);
        OthersDoNotMatter(env, Step(env, w, a), Step(env, x, a), actions[1..], id);
      } else {
        assert Own(actions, id) == Own(actions[1..], id);
        Foreign(env, w, a, id);
        OthersDoNotMatter(env, Step(env, w, a), x, actions[1..], id);
      }
    }
  }

  /** From any reachable state, whatever the other accounts and uploads do in between, two uploads
      of the same digest racing for one key included: an upload ends with the row, the ledger
      entries, the transfer and the staging file it would have ended with alone. */
  lemma TransfersDoNotInterfere(env: Env, users: map<UserId, User>, t: Time, before: seq<Action>,
                                actions: seq<Action>, id: VersionId)
    requires id < Run(env, Start(users, t), before).db.nextVersion
    ensures var w := Run(env, Start(users, t), before);
      ViewOf(Run(env, w, actions), id) == ViewOf(Run(env, w, Own(actions, id)), id)
  {
    var w := Run(env, Start(users, t), before);
    RunGood(env, Start(users, t), before);
    OthersDoNotMatter(env, w, w, actions, id);
  }
}
