/** The service as a state machine: the operations of the upload flow as atomic actions, and the
    receive phase also in its smallest steps, interleaved with everything else and with crashes.

    Assumed of the environment: the clock does not go back, `reserve` and `sweep` run as serialised
    transactions, and at most one transfer is in flight for one upload. */
module Protocol {
  import opened Schema
  import opened Keys
  import opened Storage
  import opened Intent
  import opened Receiving
  import opened Publishing
  import opened Janitor

  datatype Env = Env(cfg: Config, hash: Hash)

  /** Where one transfer is: still writing; flushed to disk; measured and found right; about to drop
      or to rename its staging file, according to the existence test; or done with the volume. */
  datatype Phase = Writing | Synced | Verified | Dropping | Renaming | Placed

  /** A PUT in flight. `size` and `sha256` are the row it read when it began; `written` is what the
      open file handle holds, even when the staging path has been unlinked meanwhile. */
  datatype Transfer = Transfer(user: UserId, size: Size, sha256: string, written: Bytes, phase: Phase)

  /** `measured` records every byte string ever hashed to its end. */
  datatype World = World(
    db: Db,
    volume: Volume,
    now: Time,
    inflight: map<VersionId, Transfer>,
    measured: set<Bytes>)

  datatype Action =
    | Ask(u: UserId, req: Request, free: int, layer: Layer)
    | Upload(id: VersionId, u: UserId, chunks: seq<Bytes>, layer: Layer)
    | Begin(id: VersionId, u: UserId)
    | Write(id: VersionId, chunk: Bytes)
    | Sync(id: VersionId)
    | Verify(id: VersionId, layer: Layer)
    | Probe(id: VersionId)
    | Place(id: VersionId)
    | Commit(id: VersionId)
    | Hangup(id: VersionId)
    | Show(id: VersionId, u: UserId)
    | SweepNow
    | Tick(d: nat)
    | Crash(torn: map<VersionId, nat>)

  function Start(users: map<UserId, User>, t: Time): World {
    World(Db(users, map[], map[], [], 0, 0), Volume(map[], map[]), t, map[], {})
  }

  predicate InPhase(w: World, id: VersionId, phase: Phase) {
    id in w.inflight && w.inflight[id].phase == phase
  }

  function Moved(w: World, id: VersionId, phase: Phase): World
    requires id in w.inflight
  {
    w.(inflight := w.inflight[id := w.inflight[id].(phase := phase)])
  }

  function Ended(w: World, id: VersionId): World {
    w.(inflight := w.inflight - {id})
  }

  // ----- the receive phase, step by step -----

  function StepBegin(w: World, id: VersionId, u: UserId): World {
    var slot := ReservedSlot(w.db, id, u, w.now);
    if id in w.inflight || slot.Err? then w
    else w.(volume := w.volume.(staging := w.volume.staging[id := []]),
            inflight := w.inflight[id := Transfer(u, slot.value.size, slot.value.sha256, [], Writing)])
  }

  /** Past the cap the transfer is refused and its staging file dropped. The bytes go to the open
      handle: an unlinked staging file does not reappear. */
  function StepWrite(w: World, id: VersionId, chunk: Bytes): World {
    if !InPhase(w, id, Writing) then w else
      var t := w.inflight[id];
      var written := t.written + chunk;
      if |written| > t.size then Ended(w.(volume := DiscardAt(w.volume, id)), id)
      else
        var staging := if id in w.volume.staging then w.volume.staging[id := written] else w.volume.staging;
        w.(volume := w.volume.(staging := staging), inflight := w.inflight[id := t.(written := written)])
  }

  function StepSync(w: World, id: VersionId): World {
    if !InPhase(w, id, Writing) then w
    else Moved(w.(measured := w.measured + {w.inflight[id].written}), id, Synced)
  }

  function StepVerify(env: Env, w: World, id: VersionId, layer: Layer): World {
    if !InPhase(w, id, Synced) then w else
      var t := w.inflight[id];
      if CheckMeasured(t.size, t.sha256, StoredBlob(env.hash(t.written), |t.written|)).None? then
        Moved(w, id, Verified)
      else
        var db := if layer.SessionLayer? then Abandoned(w.db, id) else w.db;
        Ended(w.(db := db, volume := DiscardAt(w.volume, id)), id)
  }

  function StepProbe(env: Env, w: World, id: VersionId): World {
    if !InPhase(w, id, Verified) then w else
      var key := ObjectKey(env.hash(w.inflight[id].written));
      Moved(w, id, if key in w.volume.artifacts then Dropping else Renaming)
  }

  /** Dropping a missing file is no error; renaming one is, and ends the transfer. The rename
      replaces whatever another transfer put under the key since the existence test. */
  function StepPlace(env: Env, w: World, id: VersionId): World {
    if InPhase(w, id, Dropping) then
      Moved(w.(volume := DiscardAt(w.volume, id)), id, Placed)
    else if !InPhase(w, id, Renaming) then w
    else if id !in w.volume.staging then Ended(w, id)
    else
      var key := ObjectKey(env.hash(w.inflight[id].written));
      Moved(w.(volume := Volume(w.volume.staging - {id}, w.volume.artifacts[key := w.volume.staging[id]])), id, Placed)
  }

  /** The flush updates the row it read at the beginning; when that row is gone the flush fails. */
  function StepCommit(env: Env, w: World, id: VersionId): World {
    if !InPhase(w, id, Placed) then w
    else if id !in w.db.versions then Ended(w, id)
    else
      var t := w.inflight[id];
      Ended(w.(db := Charged(w.db, id, t.user, ObjectKey(env.hash(t.written)), |t.written|, w.now)), id)
  }

  /** The request is cut short, at any point before its commit: files stay as they are. */
  function StepHangup(w: World, id: VersionId): World {
    Ended(w, id)
  }

  // ----- whole operations -----

  /** The whole receive phase in one go. A refusal leaves the session's tables as the layer says. */
  function StepUpload(env: Env, w: World, id: VersionId, u: UserId, chunks: seq<Bytes>, layer: Layer): World {
    var slot := ReservedSlot(w.db, id, u, w.now);
    if id in w.inflight || slot.Err? then w else
      var out := Receive(env.hash, w.db, w.volume, w.now, id, u, chunks);
      var ended := |Concat(chunks)| <= slot.value.size;
      w.(db := if out.result.Err? && layer.RequestLayer? then w.db else out.db,
         volume := out.volume,
         measured := if ended then w.measured + {Concat(chunks)} else w.measured)
  }

  function StepSweep(w: World): World {
    w.(db := SweptDb(w.db, w.now), volume := SweptVolume(w.volume, w.db, w.now))
  }

  /** A staging file that was not yet flushed may lose its end. */
  function Torn(w: World, torn: map<VersionId, nat>): map<VersionId, Bytes> {
    map i | i in w.volume.staging ::
      if InPhase(w, i, Writing) && i in torn && torn[i] <= |w.volume.staging[i]|
      then w.volume.staging[i][..torn[i]] else w.volume.staging[i]
  }

  /** Every uncommitted transaction is gone; the volume stays. */
  function StepCrash(w: World, torn: map<VersionId, nat>): World {
    w.(volume := w.volume.(staging := Torn(w, torn)), inflight := map[])
  }

  function Asked(env: Env, w: World, u: UserId, req: Request, free: int): Reply
    requires u in w.db.users
  {
    Reserve(w.db, w.now, free, u, req, env.cfg)
  }

  /** A refusal leaves the session's tables as the layer says. */
  function StepAsk(env: Env, w: World, u: UserId, req: Request, free: int, layer: Layer): World {
    if u !in w.db.users then w else
      var reply := Asked(env, w, u, req, free);
      if reply.result.Err? && layer.RequestLayer? then w else w.(db := reply.db)
  }

  function Step(env: Env, w: World, a: Action): World {
    match a
    case Ask(u, req, free, layer) => StepAsk(env, w, u, req, free, layer)
    case Upload(id, u, chunks, layer) => StepUpload(env, w, id, u, chunks, layer)
    case Begin(id, u) => StepBegin(w, id, u)
    case Write(id, chunk) => StepWrite(w, id, chunk)
    case Sync(id) => StepSync(w, id)
    case Verify(id, layer) => StepVerify(env, w, id, layer)
    case Probe(id) => StepProbe(env, w, id)
    case Place(id) => StepPlace(env, w, id)
    case Commit(id) => StepCommit(env, w, id)
    case Hangup(id) => StepHangup(w, id)
    case Show(id, u) => w.(db := Publish(w.db, w.now, id, u, env.cfg).0)
    case SweepNow => StepSweep(w)
    case Tick(d) => w.(now := w.now + d)
    case Crash(torn) => StepCrash(w, torn)
  }

  function Run(env: Env, w: World, actions: seq<Action>): World
    decreases |actions|
  {
    if actions == [] then w else Run(env, Step(env, w, actions[0]), actions[1..])
  }

  lemma {:induction false} RunJoin(env: Env, w: World, a: seq<Action>, b: seq<Action>)
    ensures Run(env, w, a + b) == Run(env, Run(env, w, a), b)
    decreases |a|
  {
    if a == [] {
      assert a + b == b;
    } else {
      assert (a + b)[1..] == a[1..] + b;
      RunJoin(env, Step(env, w, a[0]), a[1..], b);
    }
  }
}
