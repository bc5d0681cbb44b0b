/** The five ways in which the upload flow ever changes the tables, what each of its checks has
    established by then, and which of them every action of the service amounts to. */
module Changes {
  import opened Basics
  import opened Schema
  import opened Keys
  import opened Quota
  import opened Intent
  import opened Receiving
  import opened Publishing
  import opened Janitor
  import opened Protocol

  datatype Change =
    | NewModel(u: UserId, slug: string)
    | NewSlot(m: ModelId, req: Request, expires: Time)
    | Charge(id: VersionId, u: UserId)
    | Drop(ids: set<VersionId>)
    | Reveal(id: VersionId, verify: bool)

  // ----- well-formed tables -----

  predicate IsRow(v: Version) {
    && IsSha256(v.sha256)
    && (v.publishedAt.Some? <==> v.state == Published)
    && (v.verification.Some? ==> v.state == Published && v.verification.value.passed.None?)
    && (v.state == Reserved || IsStored(v))
    && (v.state == Reserved ==> v.objectKey == "")
    && (IsStored(v) ==> v.objectKey == ObjectKey(v.sha256))
    && v.expiresAt.Some?
  }

  ghost predicate Tidy(db: Db, now: Time) {
    && (forall i | i in db.models ::
          i < db.nextModel && db.models[i].owner in db.users
          && db.models[i].visibility == Public && db.models[i].state == Active)
    && (forall i | i in db.versions ::
          i < db.nextVersion && db.versions[i].model in db.models
          && db.versions[i].createdAt <= now && IsRow(db.versions[i]))
  }

  /** What holds when the flow makes the change, for every account and model it could concern. */
  ghost predicate Allowed(cfg: Config, db: Db, now: Time, c: Change) {
    match c
    case NewModel(u, slug) =>
      && u in db.users && ModelCount(db, u) < cfg.maxModels
      && (forall i | i in db.models :: db.models[i].owner != u || db.models[i].slug != slug)
    case NewSlot(m, req, expires) =>
      && m in db.models && IsSha256(req.sha256) && !NameUsed(db, m, req.name)
      && VersionCount(db, m) < cfg.maxVersions
      && var u := db.models[m].owner;
      && u in db.users && CountSince(db, u, now - DAY) < cfg.maxUploads
      && StoredBytes(db.ledger, u) + PendingBytes(db, u, now) + req.size <= db.users[u].storageLimit
      && TotalStored(db.ledger) + req.size <= cfg.footprintCap
    case Charge(id, u) =>
      id in db.versions && db.versions[id].state == Reserved && Owned(db, db.versions[id], u)
    case Drop(ids) =>
      forall i | i in ids :: i in db.versions && db.versions[i].state == Reserved
    case Reveal(id, _) =>
      id in db.versions && db.versions[id].state == Uploaded
  }

  ghost function Apply(cfg: Config, db: Db, now: Time, c: Change): Db
    requires Tidy(db, now) && Allowed(cfg, db, now, c)
  {
    match c
    case NewModel(u, slug) => WithModel(db, u, slug)
    case NewSlot(m, req, expires) => WithSlot(db, m, req, now, expires)
    case Charge(id, u) => Charged(db, id, u, ObjectKey(db.versions[id].sha256), db.versions[id].size, now)
    case Drop(ids) => db.(versions := db.versions - ids)
    case Reveal(id, verify) => db.(versions := db.versions[id := Shown(db.versions[id], verify, now)])
  }

  lemma ApplyTidy(cfg: Config, db: Db, now: Time, c: Change)
    requires Tidy(db, now) && Allowed(cfg, db, now, c)
    ensures Tidy(Apply(cfg, db, now, c), now)
  {
    match c
    case NewModel(u, slug) =>
    case NewSlot(m, req, expires) =>
    case Charge(id, u) =>
    case Drop(ids) =>
    case Reveal(id, verify) =>
  }

  /** A row that survives a change keeps everything but its state, its key and its publication. */
  lemma KeptRow(cfg: Config, db: Db, now: Time, c: Change, i: VersionId)
    requires Tidy(db, now) && Allowed(cfg, db, now, c)
    requires i < db.nextVersion && i in Apply(cfg, db, now, c).versions
    ensures i in db.versions && db.versions[i].model in db.models
    ensures var v, v1 := db.versions[i], Apply(cfg, db, now, c).versions[i];
      v1 == v.(objectKey := v1.objectKey, state := v1.state, verification := v1.verification,
        publishedAt := v1.publishedAt)
    ensures forall u ::
      Owned(Apply(cfg, db, now, c), Apply(cfg, db, now, c).versions[i], u) == Owned(db, db.versions[i], u)
  {
  }

  /** A row that is still reserved was not touched. */
  lemma KeptReserved(cfg: Config, db: Db, now: Time, c: Change, i: VersionId)
    requires Tidy(db, now) && Allowed(cfg, db, now, c)
    requires i < db.nextVersion && i in Apply(cfg, db, now, c).versions
    requires Apply(cfg, db, now, c).versions[i].state == Reserved
    ensures i in db.versions && Apply(cfg, db, now, c).versions[i] == db.versions[i]
  {
  }

  /** Several changes in a row, each allowed when it is made. */
  ghost predicate AllAllowed(cfg: Config, db: Db, now: Time, cs: seq<Change>)
    decreases |cs|
  {
    Tidy(db, now) &&
    (cs != [] ==>
       Allowed(cfg, db, now, cs[0]) && AllAllowed(cfg, Apply(cfg, db, now, cs[0]), now, cs[1..]))
  }

  ghost function ApplyAll(cfg: Config, db: Db, now: Time, cs: seq<Change>): Db
    requires AllAllowed(cfg, db, now, cs)
    decreases |cs|
  {
    if cs == [] then db else ApplyAll(cfg, Apply(cfg, db, now, cs[0]), now, cs[1..])
  }

  /** An invariant of the tables that every allowed change keeps. */
  lemma {:induction false} AllTidy(cfg: Config, db: Db, now: Time, cs: seq<Change>)
    requires AllAllowed(cfg, db, now, cs)
    ensures Tidy(ApplyAll(cfg, db, now, cs), now)
    decreases |cs|
  {
    if cs != [] {
      AllTidy(cfg, Apply(cfg, db, now, cs[0]), now, cs[1..]);
    }
  }

  lemma One(cfg: Config, db: Db, now: Time, c: Change)
    requires Tidy(db, now) && Allowed(cfg, db, now, c)
    ensures AllAllowed(cfg, db, now, [c]) && ApplyAll(cfg, db, now, [c]) == Apply(cfg, db, now, c)
  {
    ApplyTidy(cfg, db, now, c);
    var db1 := Apply(cfg, db, now, c);
    assert AllAllowed(cfg, db1, now, []);
    assert [c][1..] == [];
  }

  lemma Two(cfg: Config, db: Db, now: Time, c: Change, d: Change)
    requires Tidy(db, now) && Allowed(cfg, db, now, c) && Allowed(cfg, Apply(cfg, db, now, c), now, d)
    requires Tidy(Apply(cfg, db, now, c), now)
    ensures AllAllowed(cfg, db, now, [c, d])
    ensures ApplyAll(cfg, db, now, [c, d]) == Apply(cfg, Apply(cfg, db, now, c), now, d)
  {
    One(cfg, Apply(cfg, db, now, c), now, d);
    assert [c, d][1..] == [d];
  }

  // ----- phase one -----

  ghost function ReserveChanges(db: Db, now: Time, free: int, u: UserId, req: Request, cfg: Config): seq<Change>
    requires u in db.users
  {
    var found := FindModel(db.models, db.nextModel, u, req.slug);
    var reply := Reserve(db, now, free, u, req, cfg);
    var expires := now + cfg.reservationTtl * SECOND;
    (if CheckRequest(db, now, free, u, req, cfg).None? && found.None? && ModelCount(db, u) < cfg.maxModels
     then [NewModel(u, req.slug)] else [])
    + (if reply.result.Ok? then [NewSlot(reply.result.value.model, req, expires)] else [])
  }

  /** A model that has just been created has no versions, and changes no count or sum. */
  lemma FreshModel(db: Db, now: Time, u: UserId, slug: string)
    requires Tidy(db, now) && u in db.users
    ensures var db1 := WithModel(db, u, slug);
      && VersionCount(db1, db.nextModel) == 0
      && (forall m | m in db.models :: VersionCount(db1, m) == VersionCount(db, m))
      && (forall x, s :: CountSince(db1, x, s) == CountSince(db, x, s))
      && (forall x :: PendingBytes(db1, x, now) == PendingBytes(db, x, now))
  {
    var db1 := WithModel(db, u, slug);
    SumZero(db.nextVersion, VersionWeight(db1, db.nextModel));
    forall m | m in db.models ensures VersionCount(db1, m) == VersionCount(db, m) {
      SumSame(db.nextVersion, VersionWeight(db1, m), VersionWeight(db, m));
    }
    forall x, s ensures CountSince(db1, x, s) == CountSince(db, x, s) {
      SumSame(db.nextVersion, SinceWeight(db1, x, s), SinceWeight(db, x, s));
    }
    forall x ensures PendingBytes(db1, x, now) == PendingBytes(db, x, now) {
      SumSame(db.nextVersion, PendingWeight(db1, x, now), PendingWeight(db, x, now));
    }
  }

  lemma SlotIsChange(db: Db, m: ModelId, now: Time, req: Request, cfg: Config)
    requires Tidy(db, now) && m in db.models && IsSha256(req.sha256)
    requires var u := db.models[m].owner;
      && u in db.users && CountSince(db, u, now - DAY) < cfg.maxUploads
      && UsageFor(db, u, db.users[u].storageLimit, now).CanFit(req.size)
      && TotalStored(db.ledger) + req.size <= cfg.footprintCap
    ensures var reply := OpenSlot(db, m, now, req, cfg);
      var c := NewSlot(m, req, now + cfg.reservationTtl * SECOND);
      if reply.result.Ok? then
        reply.result.value.model == m && Allowed(cfg, db, now, c) && reply.db == Apply(cfg, db, now, c)
      else reply.db == db
  {
  }

  lemma ReserveIsChanges(db: Db, now: Time, free: int, u: UserId, req: Request, cfg: Config)
    requires Tidy(db, now) && u in db.users
    ensures var cs := ReserveChanges(db, now, free, u, req, cfg);
      AllAllowed(cfg, db, now, cs) && Reserve(db, now, free, u, req, cfg).db == ApplyAll(cfg, db, now, cs)
  {
    var cs := ReserveChanges(db, now, free, u, req, cfg);
    var found := FindModel(db.models, db.nextModel, u, req.slug);
    var expires := now + cfg.reservationTtl * SECOND;
    if CheckRequest(db, now, free, u, req, cfg).Some? {
      assert cs == [];
    } else if found.Some? {
      KnownModelIsChanges(db, now, free, u, req, cfg);
    } else if ModelCount(db, u) < cfg.maxModels {
      NewModelIsChanges(db, now, free, u, req, cfg);
    }
  }

  lemma KnownModelIsChanges(db: Db, now: Time, free: int, u: UserId, req: Request, cfg: Config)
    requires Tidy(db, now) && u in db.users && CheckRequest(db, now, free, u, req, cfg).None?
    requires FindModel(db.models, db.nextModel, u, req.slug).Some?
    ensures var cs := ReserveChanges(db, now, free, u, req, cfg);
      AllAllowed(cfg, db, now, cs) && Reserve(db, now, free, u, req, cfg).db == ApplyAll(cfg, db, now, cs)
  {
    var m := FindModel(db.models, db.nextModel, u, req.slug).value;
    var c := NewSlot(m, req, now + cfg.reservationTtl * SECOND);
    SlotIsChange(db, m, now, req, cfg);
    var cs := ReserveChanges(db, now, free, u, req, cfg);
    if OpenSlot(db, m, now, req, cfg).result.Ok? {
      assert cs == [c];
      One(cfg, db, now, c);
    } else {
      assert cs == [];
    }
  }

  lemma NewModelIsChanges(db: Db, now: Time, free: int, u: UserId, req: Request, cfg: Config)
    requires Tidy(db, now) && u in db.users && CheckRequest(db, now, free, u, req, cfg).None?
    requires FindModel(db.models, db.nextModel, u, req.slug).None? && ModelCount(db, u) < cfg.maxModels
    ensures var cs := ReserveChanges(db, now, free, u, req, cfg);
      AllAllowed(cfg, db, now, cs) && Reserve(db, now, free, u, req, cfg).db == ApplyAll(cfg, db, now, cs)
  {
    var c := NewModel(u, req.slug);
    var d := NewSlot(db.nextModel, req, now + cfg.reservationTtl * SECOND);
    var reply := OpenSlot(WithModel(db, u, req.slug), db.nextModel, now, req, cfg);
    assert Reserve(db, now, free, u, req, cfg) == reply;
    NewSlotIsChange(db, now, free, u, req, cfg);
    assert ReserveChanges(db, now, free, u, req, cfg) == if reply.result.Ok? then [c, d] else [c];
    if reply.result.Ok? {
      Two(cfg, db, now, c, d);
    } else {
      One(cfg, db, now, c);
    }
  }

  /** The slot in a model that was created for it. */
  lemma NewSlotIsChange(db: Db, now: Time, free: int, u: UserId, req: Request, cfg: Config)
    requires Tidy(db, now) && u in db.users && CheckRequest(db, now, free, u, req, cfg).None?
    requires FindModel(db.models, db.nextModel, u, req.slug).None? && ModelCount(db, u) < cfg.maxModels
    ensures var db1 := WithModel(db, u, req.slug);
      var reply := OpenSlot(db1, db.nextModel, now, req, cfg);
      var d := NewSlot(db.nextModel, req, now + cfg.reservationTtl * SECOND);
      && Allowed(cfg, db, now, NewModel(u, req.slug)) && Tidy(db1, now)
      && if reply.result.Ok? then
           reply.result.value.model == db.nextModel && Allowed(cfg, db1, now, d) && reply.db == Apply(cfg, db1, now, d)
         else reply.db == db1
  {
    FreshModel(db, now, u, req.slug);
    ApplyTidy(cfg, db, now, NewModel(u, req.slug));
    SlotIsChange(WithModel(db, u, req.slug), db.nextModel, now, req, cfg);
  }

  // ----- every action -----

  /** A transfer's row, as long as it is there, is still the reservation the transfer read. */
  ghost predicate Backed(db: Db, inflight: map<VersionId, Transfer>) {
    forall i | i in inflight ::
      && i < db.nextVersion
      && |inflight[i].written| <= inflight[i].size
      && (i in db.versions ==>
            && db.versions[i].state == Reserved
            && db.versions[i].size == inflight[i].size
            && db.versions[i].sha256 == inflight[i].sha256
            && Owned(db, db.versions[i], inflight[i].user))
  }

  ghost predicate Steady(w: World) {
    Tidy(w.db, w.now) && Backed(w.db, w.inflight)
  }

  /** From the check onwards the transfer holds what the reservation described. */
  ghost predicate Matched(env: Env, w: World) {
    forall i | i in w.inflight && !w.inflight[i].phase.Writing? && !w.inflight[i].phase.Synced? ::
      var t := w.inflight[i];
      env.hash(t.written) == t.sha256 && |t.written| == t.size
  }

  ghost function ActionChanges(env: Env, w: World, a: Action): seq<Change> {
    match a
    case Ask(u, req, free, layer) =>
      if u !in w.db.users || (Asked(env, w, u, req, free).result.Err? && layer.RequestLayer?) then []
      else ReserveChanges(w.db, w.now, free, u, req, env.cfg)
    case Upload(id, u, chunks, layer) =>
      var out := Receive(env.hash, w.db, w.volume, w.now, id, u, chunks);
      if id in w.inflight then []
      else if out.result.Ok? then [Charge(id, u)]
      else if layer.SessionLayer? && out.db != w.db then [Drop({id})] else []
    case Verify(id, layer) =>
      if InPhase(w, id, Synced) && id in w.db.versions && layer.SessionLayer?
         && !InPhase(StepVerify(env, w, id, layer), id, Verified)
      then [Drop({id})] else []
    case Commit(id) =>
      if InPhase(w, id, Placed) && id in w.db.versions then [Charge(id, w.inflight[id].user)] else []
    case Show(id, u) =>
      if Publish(w.db, w.now, id, u, env.cfg).1.Ok? then [Reveal(id, env.cfg.requireVerification)] else []
    case SweepNow => [Drop(Expired(w.db, w.now))]
    case _ => []
  }

  lemma UploadIsChanges(env: Env, w: World, id: VersionId, u: UserId, chunks: seq<Bytes>, layer: Layer)
    requires Steady(w)
    ensures var a := Upload(id, u, chunks, layer);
      IsChanges(env, w, StepUpload(env, w, id, u, chunks, layer).db, ActionChanges(env, w, a))
  {
    var cs := ActionChanges(env, w, Upload(id, u, chunks, layer));
    if cs != [] {
      assert cs == [cs[0]];
      One(env.cfg, w.db, w.now, cs[0]);
    }
  }

  lemma VerifyIsChanges(env: Env, w: World, id: VersionId, layer: Layer)
    requires Steady(w)
    ensures IsChanges(env, w, StepVerify(env, w, id, layer).db, ActionChanges(env, w, Verify(id, layer)))
  {
    var cs := ActionChanges(env, w, Verify(id, layer));
    if cs != [] {
      assert cs == [Drop({id})];
      One(env.cfg, w.db, w.now, Drop({id}));
    } else if id !in w.db.versions {
      assert w.db.versions - {id} == w.db.versions;
    }
  }

  lemma CommitIsChanges(env: Env, w: World, id: VersionId)
    requires Steady(w) && Matched(env, w)
    ensures IsChanges(env, w, StepCommit(env, w, id).db, ActionChanges(env, w, Commit(id)))
  {
    var cs := ActionChanges(env, w, Commit(id));
    if cs != [] {
      assert cs == [Charge(id, w.inflight[id].user)];
      One(env.cfg, w.db, w.now, cs[0]);
    }
  }

  lemma ShowIsChanges(env: Env, w: World, id: VersionId, u: UserId)
    requires Steady(w)
    ensures IsChanges(env, w, Publish(w.db, w.now, id, u, env.cfg).0, ActionChanges(env, w, Show(id, u)))
  {
    var cs := ActionChanges(env, w, Show(id, u));
    if cs != [] {
      assert cs == [Reveal(id, env.cfg.requireVerification)];
      One(env.cfg, w.db, w.now, cs[0]);
    }
  }

  ghost predicate IsChanges(env: Env, w: World, db: Db, cs: seq<Change>) {
    AllAllowed(env.cfg, w.db, w.now, cs) && db == ApplyAll(env.cfg, w.db, w.now, cs)
  }

  /** What an action does to the tables is a sequence of allowed changes. */
  lemma ActionIsChanges(env: Env, w: World, a: Action)
    requires Steady(w) && Matched(env, w)
    ensures var cs := ActionChanges(env, w, a);
      AllAllowed(env.cfg, w.db, w.now, cs) && Step(env, w, a).db == ApplyAll(env.cfg, w.db, w.now, cs)
  {
    assert IsChanges(env, w, Step(env, w, a).db, ActionChanges(env, w, a)) by {
      match a
      case Ask(u, req, free, layer) =>
        if u in w.db.users {
          ReserveIsChanges(w.db, w.now, free, u, req, env.cfg);
        }
      case Upload(id, u, chunks, layer) => UploadIsChanges(env, w, id, u, chunks, layer);
      case Verify(id, layer) => VerifyIsChanges(env, w, id, layer);
      case Commit(id) => CommitIsChanges(env, w, id);
      case Show(id, u) => ShowIsChanges(env, w, id, u);
      case SweepNow => One(env.cfg, w.db, w.now, Drop(Expired(w.db, w.now)));
      case _ =>
    }
  }

  lemma ChangeBacked(cfg: Config, db: Db, now: Time, c: Change, inflight: map<VersionId, Transfer>)
    requires Tidy(db, now) && Allowed(cfg, db, now, c) && Backed(db, inflight)
    ensures Backed(Apply(cfg, db, now, c), if c.Charge? then inflight - {c.id} else inflight)
  {
  }

  lemma {:induction false} ChangesBacked(cfg: Config, db: Db, now: Time, cs: seq<Change>,
                                         inflight: map<VersionId, Transfer>)
    requires AllAllowed(cfg, db, now, cs) && Backed(db, inflight)
    requires forall c | c in cs && c.Charge? :: c.id !in inflight
    ensures Backed(ApplyAll(cfg, db, now, cs), inflight)
    decreases |cs|
  {
    if cs != [] {
      ChangeBacked(cfg, db, now, cs[0], inflight);
      assert cs[0].Charge? ==> inflight - {cs[0].id} == inflight;
      ChangesBacked(cfg, Apply(cfg, db, now, cs[0]), now, cs[1..], inflight);
    }
  }

  /** A transfer that is still there moved on without taking another row, or more bytes than it may. */
  lemma KeptTransfer(env: Env, w: World, a: Action, i: VersionId)
    requires i in Step(env, w, a).inflight && !(a.Begin? && a.id == i)
    ensures i in w.inflight
    ensures var t, t1 := w.inflight[i], Step(env, w, a).inflight[i];
      && t1 == t.(written := t1.written, phase := t1.phase)
      && (|t.written| <= t.size ==> |t1.written| <= t1.size)
  {
  }

  lemma BegunTransfer(w: World, id: VersionId, u: UserId)
    requires Steady(w)
    ensures Backed(w.db, StepBegin(w, id, u).inflight)
  {
  }

  lemma StepTransfers(env: Env, w: World, a: Action)
    requires Steady(w)
    ensures Backed(w.db, Step(env, w, a).inflight)
  {
    if a.Begin? {
      BegunTransfer(w, a.id, a.u);
    } else {
      forall i | i in Step(env, w, a).inflight
        ensures i in w.inflight && Backed(w.db, map[i := Step(env, w, a).inflight[i]])
      {
        KeptTransfer(env, w, a, i);
      }
      BackedEach(w.db, Step(env, w, a).inflight);
    }
  }

  lemma BackedEach(db: Db, inflight: map<VersionId, Transfer>)
    requires forall i | i in inflight :: Backed(db, map[i := inflight[i]])
    ensures Backed(db, inflight)
  {
    forall i | i in inflight ensures i in map[i := inflight[i]] {}
  }

  lemma StepMatched(env: Env, w: World, a: Action)
    requires Matched(env, w)
    ensures Matched(env, Step(env, w, a))
  {
    if a.Verify? {
      assert Matched(env, StepVerify(env, w, a.id, a.layer));
    }
  }

  lemma StepCharges(env: Env, w: World, a: Action)
    ensures forall c | c in ActionChanges(env, w, a) && c.Charge? :: c.id !in Step(env, w, a).inflight
  {
    if a.Ask? {
    } else if a.Upload? {
      assert Step(env, w, a).inflight == w.inflight;
    }
  }

  lemma TidyLater(db: Db, now: Time, later: Time)
    requires Tidy(db, now) && now <= later
    ensures Tidy(db, later)
  {
  }

  lemma ClockForward(env: Env, w: World, a: Action)
    ensures Step(env, w, a).now >= w.now
  {
  }

  lemma StepSteady(env: Env, w: World, a: Action)
    requires Steady(w) && Matched(env, w)
    ensures Steady(Step(env, w, a)) && Matched(env, Step(env, w, a))
  {
    var w1 := Step(env, w, a);
    var cs := ActionChanges(env, w, a);
    ActionIsChanges(env, w, a);
    assert Tidy(w1.db, w1.now) by {
      AllTidy(env.cfg, w.db, w.now, cs);
      ClockForward(env, w, a);
      TidyLater(w1.db, w.now, w1.now);
    }
    assert Backed(w1.db, w1.inflight) by {
      StepTransfers(env, w, a);
      StepCharges(env, w, a);
      ChangesBacked(env.cfg, w.db, w.now, cs, w1.inflight);
    }
    StepMatched(env, w, a);
  }

  lemma {:induction false} RunSteady(env: Env, w: World, actions: seq<Action>)
    requires Steady(w) && Matched(env, w)
    ensures Steady(Run(env, w, actions)) && Matched(env, Run(env, w, actions))
    decreases |actions|
  {
    if actions != [] {
      StepSteady(env, w, actions[0]);
      RunSteady(env, Step(env, w, actions[0]), actions[1..]);
    }
  }
}
