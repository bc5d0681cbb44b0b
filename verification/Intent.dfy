/** Admission. `Reserve` is the whole of phase one as a function of the tables; `ReserveSlot` performs
    the same checks and inserts one after the other on a session, and is proved equal to it. */
module Intent {
  import opened Basics
  import opened Schema
  import opened Keys
  import opened Quota
  import opened Tables

  datatype Request = Request(slug: string, name: string, sha256: string, size: Size)

  datatype Reservation = Reservation(upload: VersionId, model: ModelId, expiresAt: Time, size: Size)

  datatype Reply = Reply(db: Db, result: Result<Reservation, Refusal>)

  function CheckPublisher(user: User, cfg: Config): Option<Refusal> {
    if !user.emailVerified then Some(EmailUnverified)
    else if cfg.openGate || user.canPublish then None
    else Some(InviteOnly)
  }

  /** Every refusal decided before the model is looked up, in order. `free` is the free space the
      volume reports. */
  function CheckRequest(db: Db, now: Time, free: int, u: UserId, req: Request, cfg: Config): Option<Refusal>
    requires u in db.users
  {
    var user := db.users[u];
    var usage := UsageFor(db, u, user.storageLimit, now);
    var today := CountSince(db, u, now - DAY);
    var total := TotalStored(db.ledger);
    if CheckPublisher(user, cfg).Some? then CheckPublisher(user, cfg)
    else if !IsSha256(req.sha256) then Some(NotADigest)
    else if req.size > cfg.maxArtifact then Some(ArtifactTooLarge(cfg.maxArtifact, req.size))
    else if today >= cfg.maxUploads then Some(DailyLimit(cfg.maxUploads, today))
    else if !usage.CanFit(req.size) then
      Some(NoAllowance(usage.limitBytes, usage.usedBytes, usage.reservedBytes, usage.AvailableBytes(), req.size))
    else if total + req.size > cfg.footprintCap then Some(FootprintFull(cfg.footprintCap, total))
    else if free - req.size < cfg.freeFloor then Some(LowSpace(free, cfg.freeFloor))
    else None
  }

  /** The named model of one owner, among the identifiers below `n`. */
  function FindModel(models: map<ModelId, Model>, n: nat, u: UserId, slug: string): (r: Option<ModelId>)
    ensures r.Some? ==> r.value < n && r.value in models && models[r.value].owner == u && models[r.value].slug == slug
    ensures r.None? ==> forall i: nat | i < n && i in models :: models[i].owner != u || models[i].slug != slug
  {
    if n == 0 then None
    else if n - 1 in models && models[n - 1].owner == u && models[n - 1].slug == slug then Some(n - 1)
    else FindModel(models, n - 1, u, slug)
  }

  predicate NameUsed(db: Db, m: ModelId, name: string) {
    exists i | i in db.versions :: db.versions[i].model == m && db.versions[i].name == name
  }

  function WithModel(db: Db, u: UserId, slug: string): Db {
    db.(models := db.models[db.nextModel := Model(u, slug, Public, Active)], nextModel := db.nextModel + 1)
  }

  function WithSlot(db: Db, m: ModelId, req: Request, now: Time, expires: Time): Db {
    var row := Version(m, req.name, req.sha256, req.size, "", Reserved, None, now, None, Some(expires));
    db.(versions := db.versions[db.nextVersion := row], nextVersion := db.nextVersion + 1)
  }

  /** What follows once the model is known: the version ceiling, the version name, the slot. */
  function OpenSlot(db: Db, m: ModelId, now: Time, req: Request, cfg: Config): Reply {
    var count := VersionCount(db, m);
    var expires := now + cfg.reservationTtl * SECOND;
    if count >= cfg.maxVersions then Reply(db, Err(TooManyVersions(cfg.maxVersions, count)))
    else if NameUsed(db, m, req.name) then Reply(db, Err(NameTaken))
    else Reply(WithSlot(db, m, req, now, expires), Ok(Reservation(db.nextVersion, m, expires, req.size)))
  }

  /** Phase one as a whole, as one atomic step on the tables. */
  function Reserve(db: Db, now: Time, free: int, u: UserId, req: Request, cfg: Config): Reply
    requires u in db.users
  {
    var refused := CheckRequest(db, now, free, u, req, cfg);
    if refused.Some? then Reply(db, Err(refused.value)) else
      var found := FindModel(db.models, db.nextModel, u, req.slug);
      if found.Some? then OpenSlot(db, found.value, now, req, cfg)
      else if ModelCount(db, u) >= cfg.maxModels then
        Reply(db, Err(TooManyModels(cfg.maxModels, ModelCount(db, u))))
      else OpenSlot(WithModel(db, u, req.slug), db.nextModel, now, req, cfg)
  }

  method ReserveSlot(session: Session, now: Time, free: int, u: UserId, req: Request, cfg: Config)
    returns (r: Result<Reservation, Refusal>)
    requires u in session.users
    modifies session
    ensures Reply(session.View(), r) == Reserve(old(session.View()), now, free, u, req, cfg)
  {
    var refused := CheckRequest(session.View(), now, free, u, req, cfg);
    if refused.Some? {
      return Err(refused.value);
    }
    var m: ModelId;
    var found := FindModel(session.models, session.nextModel, u, req.slug);
    if found.Some? {
      m := found.value;
    } else {
      var count := ModelCount(session.View(), u);
      if count >= cfg.maxModels {
        return Err(TooManyModels(cfg.maxModels, count));
      }
      m := session.AddModel(Model(u, req.slug, Public, Active));
    }
    var held := VersionCount(session.View(), m);
    if held >= cfg.maxVersions {
      return Err(TooManyVersions(cfg.maxVersions, held));
    }
    if NameUsed(session.View(), m, req.name) {
      return Err(NameTaken);
    }
    var expires := now + cfg.reservationTtl * SECOND;
    var id := session.AddVersion(
      Version(m, req.name, req.sha256, req.size, "", Reserved, None, now, None, Some(expires)));
    r := Ok(Reservation(id, m, expires, req.size));
  }
}
