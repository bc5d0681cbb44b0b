/** What one call of each phase does, in the caller's terms: when it succeeds, what it changes, and
    that it changes nothing else. */
module Operations {
  import opened Basics
  import opened Schema
  import opened Keys
  import opened Quota
  import opened Figures
  import opened Storage
  import opened Intent
  import opened Receiving
  import opened Publishing
  import opened Janitor
  import opened Changes
  import opened Ledger
  import opened Ceilings
  import opened Allowance
  import opened LifecycleRuns

  // ----- reserve -----

  predicate MayPublish(user: User, cfg: Config) {
    user.emailVerified && (cfg.openGate || user.canPublish)
  }

  predicate HasRoom(db: Db, now: Time, free: int, u: UserId, size: int, cfg: Config)
    requires u in db.users
  {
    && size <= cfg.maxArtifact
    && |StartedSince(db, u, now - 86_400_000_000)| < cfg.maxUploads
    && StoredBytes(db.ledger, u) + PendingBytes(db, u, now) + size <= db.users[u].storageLimit
    && TotalStored(db.ledger) + size <= cfg.footprintCap
    && cfg.freeFloor <= free - size
  }

  predicate IsNamed(db: Db, m: ModelId, u: UserId, slug: string) {
    m in db.models && db.models[m].owner == u && db.models[m].slug == slug
  }

  /** The named model can take one more version of this name, or can be created and take one. */
  ghost predicate HasPlace(db: Db, u: UserId, req: Request, cfg: Config) {
    && (forall m | IsNamed(db, m, u, req.slug) ::
          |VersionsOf(db, m)| < cfg.maxVersions && !NameUsed(db, m, req.name))
    && ((forall m | m in db.models :: !IsNamed(db, m, u, req.slug)) ==>
          |ModelsOf(db, u)| < cfg.maxModels && 0 < cfg.maxVersions)
  }

  /** Every guard of phase one, in no order. */
  ghost predicate Grantable(db: Db, now: Time, free: int, u: UserId, req: Request, cfg: Config)
    requires u in db.users
  {
    && MayPublish(db.users[u], cfg) && IsSha256(req.sha256)
    && HasRoom(db, now, free, u, req.size, cfg) && HasPlace(db, u, req, cfg)
  }

  lemma FirstChecks(db: Db, now: Time, free: int, u: UserId, req: Request, cfg: Config)
    requires Tidy(db, now) && u in db.users
    ensures CheckRequest(db, now, free, u, req, cfg).None? <==>
      MayPublish(db.users[u], cfg) && IsSha256(req.sha256) && HasRoom(db, now, free, u, req.size, cfg)
  {
    StartedCounted(db, now, u, now - DAY);
  }

  lemma PlaceChecks(db: Db, now: Time, free: int, u: UserId, req: Request, cfg: Config)
    requires Tidy(db, now) && NamesUnique(db) && u in db.users && CheckRequest(db, now, free, u, req, cfg).None?
    ensures Reserve(db, now, free, u, req, cfg).result.Ok? <==> HasPlace(db, u, req, cfg)
  {
    var found := FindModel(db.models, db.nextModel, u, req.slug);
    if found.Some? {
      assert IsNamed(db, found.value, u, req.slug);
      assert forall m | IsNamed(db, m, u, req.slug) :: m == found.value;
      VersionsCounted(db, now, found.value);
    } else {
      ModelsCounted(db, now, u);
      FreshModel(db, now, u, req.slug);
      assert forall m | m in db.models :: !IsNamed(db, m, u, req.slug);
      assert !NameUsed(WithModel(db, u, req.slug), db.nextModel, req.name);
    }
  }

  /** A slot is granted exactly to an account that may publish, for a well-formed digest, with room
      under every limit and a place for the version; whatever the order of the checks. */
  lemma GrantedExactly(db: Db, now: Time, free: int, u: UserId, req: Request, cfg: Config)
    requires Tidy(db, now) && NamesUnique(db) && u in db.users
    ensures Reserve(db, now, free, u, req, cfg).result.Ok? <==> Grantable(db, now, free, u, req, cfg)
  {
    FirstChecks(db, now, free, u, req, cfg);
    if CheckRequest(db, now, free, u, req, cfg).None? {
      PlaceChecks(db, now, free, u, req, cfg);
    }
  }

  /** What a refusal of the first checks says is so, with the figures it reports. */
  ghost predicate FirstTrue(db: Db, now: Time, free: int, u: UserId, req: Request, cfg: Config, why: Refusal)
    requires u in db.users
  {
    match why
    case EmailUnverified => !db.users[u].emailVerified
    case InviteOnly => db.users[u].emailVerified && !MayPublish(db.users[u], cfg)
    case NotADigest => !IsSha256(req.sha256)
    case ArtifactTooLarge(limit, requested) => limit == cfg.maxArtifact < requested == req.size
    case DailyLimit(limit, current) =>
      limit == cfg.maxUploads <= current == |StartedSince(db, u, now - 86_400_000_000)|
    case NoAllowance(limit, used, pending, available, requested) =>
      && limit == db.users[u].storageLimit && used == StoredBytes(db.ledger, u) && pending == PendingBytes(db, u, now)
      && available == Max(0, limit - used - pending) && available < requested == req.size
    case FootprintFull(limit, stored) => limit == cfg.footprintCap < stored + req.size
      && stored == TotalStored(db.ledger)
    case LowSpace(room, floor) => room == free && floor == cfg.freeFloor && free < floor + req.size
    case _ => false
  }

  ghost predicate PlaceTrue(db: Db, u: UserId, req: Request, cfg: Config, why: Refusal) {
    match why
    case TooManyModels(limit, current) =>
      limit == cfg.maxModels <= current == |ModelsOf(db, u)|
        && (forall m | m in db.models :: !IsNamed(db, m, u, req.slug))
    case TooManyVersions(limit, current) =>
      && limit == cfg.maxVersions <= current
      && (forall m | IsNamed(db, m, u, req.slug) :: current == |VersionsOf(db, m)|)
      && ((forall m | m in db.models :: !IsNamed(db, m, u, req.slug)) ==> current == 0)
    case NameTaken => exists m | IsNamed(db, m, u, req.slug) :: NameUsed(db, m, req.name)
    case _ => false
  }

  /** A refused reservation is refused for a reason that is true, with true figures; and the limits
      on models, versions and names are reported only for a request that passes everything else. */
  lemma RefusalIsTrue(db: Db, now: Time, free: int, u: UserId, req: Request, cfg: Config)
    requires Tidy(db, now) && NamesUnique(db) && u in db.users && Reserve(db, now, free, u, req, cfg).result.Err?
    ensures var why := Reserve(db, now, free, u, req, cfg).result.error;
      || FirstTrue(db, now, free, u, req, cfg, why)
      || (MayPublish(db.users[u], cfg) && IsSha256(req.sha256) && HasRoom(db, now, free, u, req.size, cfg)
          && PlaceTrue(db, u, req, cfg, why))
  {
    FirstChecks(db, now, free, u, req, cfg);
    if CheckRequest(db, now, free, u, req, cfg).Some? {
      FirstRefusalIsTrue(db, now, free, u, req, cfg);
    } else {
      PlaceRefusalIsTrue(db, now, free, u, req, cfg);
    }
  }

  lemma FirstRefusalIsTrue(db: Db, now: Time, free: int, u: UserId, req: Request, cfg: Config)
    requires Tidy(db, now) && u in db.users && CheckRequest(db, now, free, u, req, cfg).Some?
    ensures FirstTrue(db, now, free, u, req, cfg, CheckRequest(db, now, free, u, req, cfg).value)
  {
    StartedCounted(db, now, u, now - DAY);
  }

  lemma PlaceRefusalIsTrue(db: Db, now: Time, free: int, u: UserId, req: Request, cfg: Config)
    requires Tidy(db, now) && NamesUnique(db) && u in db.users
    requires CheckRequest(db, now, free, u, req, cfg).None? && Reserve(db, now, free, u, req, cfg).result.Err?
    ensures PlaceTrue(db, u, req, cfg, Reserve(db, now, free, u, req, cfg).result.error)
  {
    var found := FindModel(db.models, db.nextModel, u, req.slug);
    if found.Some? {
      assert IsNamed(db, found.value, u, req.slug);
      assert forall m | IsNamed(db, m, u, req.slug) :: m == found.value;
      VersionsCounted(db, now, found.value);
    } else {
      ModelsCounted(db, now, u);
      assert forall m | m in db.models :: !IsNamed(db, m, u, req.slug);
      FreshModel(db, now, u, req.slug);
      FreshSlot(db, now, u, req, cfg);
    }
  }

  /** A first publish that passes everything before is refused over the number of models exactly when
      the account has as many as it may; a further version over the number of versions likewise. */
  lemma CeilingRefusals(db: Db, now: Time, free: int, u: UserId, req: Request, cfg: Config)
    requires Tidy(db, now) && NamesUnique(db) && u in db.users
    requires MayPublish(db.users[u], cfg) && IsSha256(req.sha256) && HasRoom(db, now, free, u, req.size, cfg)
    ensures var result := Reserve(db, now, free, u, req, cfg).result;
      && ((forall m | m in db.models :: !IsNamed(db, m, u, req.slug)) ==>
            (result == Err(TooManyModels(cfg.maxModels, |ModelsOf(db, u)|)) <==> cfg.maxModels <= |ModelsOf(db, u)|))
      && (forall m | IsNamed(db, m, u, req.slug) ::
            result == Err(TooManyVersions(cfg.maxVersions, |VersionsOf(db, m)|))
            <==> cfg.maxVersions <= |VersionsOf(db, m)|)
  {
    FirstChecks(db, now, free, u, req, cfg);
    ModelsCounted(db, now, u);
    var found := FindModel(db.models, db.nextModel, u, req.slug);
    if found.Some? {
      assert IsNamed(db, found.value, u, req.slug);
      VersionsCounted(db, now, found.value);
    }
  }

  /** The place of each refusal in the order of the checks. */
  function Rank(why: Refusal): nat {
    match why
    case EmailUnverified => 0
    case InviteOnly => 1
    case NotADigest => 2
    case ArtifactTooLarge(_, _) => 3
    case DailyLimit(_, _) => 4
    case NoAllowance(_, _, _, _, _) => 5
    case FootprintFull(_, _) => 6
    case LowSpace(_, _) => 7
    case TooManyModels(_, _) => 8
    case TooManyVersions(_, _) => 9
    case _ => 10
  }

  /** The guards in that order. */
  ghost predicate Passes(db: Db, now: Time, free: int, u: UserId, req: Request, cfg: Config, k: nat)
    requires u in db.users
  {
    match k
    case 0 => db.users[u].emailVerified
    case 1 => cfg.openGate || db.users[u].canPublish
    case 2 => IsSha256(req.sha256)
    case 3 => req.size <= cfg.maxArtifact
    case 4 => |StartedSince(db, u, now - 86_400_000_000)| < cfg.maxUploads
    case 5 => StoredBytes(db.ledger, u) + PendingBytes(db, u, now) + req.size <= db.users[u].storageLimit
    case 6 => TotalStored(db.ledger) + req.size <= cfg.footprintCap
    case 7 => cfg.freeFloor <= free - req.size
    case 8 => (exists m :: IsNamed(db, m, u, req.slug)) || |ModelsOf(db, u)| < cfg.maxModels
    case 9 =>
      && (forall m | IsNamed(db, m, u, req.slug) :: |VersionsOf(db, m)| < cfg.maxVersions)
      && ((forall m | m in db.models :: !IsNamed(db, m, u, req.slug)) ==> 0 < cfg.maxVersions)
    case _ => forall m | IsNamed(db, m, u, req.slug) :: !NameUsed(db, m, req.name)
  }

  /** Which refusal wins: the first guard that fails, in a fixed order, whatever else fails. */
  lemma FirstFailureWins(db: Db, now: Time, free: int, u: UserId, req: Request, cfg: Config)
    requires Tidy(db, now) && NamesUnique(db) && u in db.users && Reserve(db, now, free, u, req, cfg).result.Err?
    ensures var r := Rank(Reserve(db, now, free, u, req, cfg).result.error);
      && !Passes(db, now, free, u, req, cfg, r)
      && forall k: nat | k < r :: Passes(db, now, free, u, req, cfg, k)
  {
    if CheckRequest(db, now, free, u, req, cfg).Some? {
      FirstFailureEarly(db, now, free, u, req, cfg);
    } else {
      FirstChecks(db, now, free, u, req, cfg);
      PlaceFailureLate(db, now, free, u, req, cfg);
    }
  }

  lemma FirstFailureEarly(db: Db, now: Time, free: int, u: UserId, req: Request, cfg: Config)
    requires Tidy(db, now) && u in db.users && CheckRequest(db, now, free, u, req, cfg).Some?
    ensures var r := Rank(CheckRequest(db, now, free, u, req, cfg).value);
      && !Passes(db, now, free, u, req, cfg, r)
      && forall k: nat | k < r :: Passes(db, now, free, u, req, cfg, k)
  {
    StartedCounted(db, now, u, now - DAY);
  }

  lemma PlaceFailureLate(db: Db, now: Time, free: int, u: UserId, req: Request, cfg: Config)
    requires Tidy(db, now) && NamesUnique(db) && u in db.users && CheckRequest(db, now, free, u, req, cfg).None?
    requires Reserve(db, now, free, u, req, cfg).result.Err?
    requires MayPublish(db.users[u], cfg) && IsSha256(req.sha256) && HasRoom(db, now, free, u, req.size, cfg)
    ensures var r := Rank(Reserve(db, now, free, u, req, cfg).result.error);
      && 8 <= r && !Passes(db, now, free, u, req, cfg, r)
      && forall k: nat | 8 <= k < r :: Passes(db, now, free, u, req, cfg, k)
  {
    if FindModel(db.models, db.nextModel, u, req.slug).Some? {
      KnownFailureLate(db, now, free, u, req, cfg);
    } else {
      NewFailureLate(db, now, free, u, req, cfg);
    }
  }

  lemma KnownFailureLate(db: Db, now: Time, free: int, u: UserId, req: Request, cfg: Config)
    requires Tidy(db, now) && NamesUnique(db) && u in db.users && CheckRequest(db, now, free, u, req, cfg).None?
    requires FindModel(db.models, db.nextModel, u, req.slug).Some?
    requires Reserve(db, now, free, u, req, cfg).result.Err?
    ensures var r := Rank(Reserve(db, now, free, u, req, cfg).result.error);
      && 9 <= r <= 10 && !Passes(db, now, free, u, req, cfg, r) && Passes(db, now, free, u, req, cfg, 8)
      && (r == 10 ==> Passes(db, now, free, u, req, cfg, 9))
  {
    var m := FindModel(db.models, db.nextModel, u, req.slug).value;
    assert Reserve(db, now, free, u, req, cfg) == OpenSlot(db, m, now, req, cfg);
    assert IsNamed(db, m, u, req.slug);
    VersionsCounted(db, now, m);
    SlotFailure(db, now, free, m, u, req, cfg);
  }

  lemma SlotFailure(db: Db, now: Time, free: int, m: ModelId, u: UserId, req: Request, cfg: Config)
    requires NamesUnique(db) && u in db.users && IsNamed(db, m, u, req.slug)
    requires VersionCount(db, m) == |VersionsOf(db, m)| && OpenSlot(db, m, now, req, cfg).result.Err?
    ensures var r := Rank(OpenSlot(db, m, now, req, cfg).result.error);
      && 9 <= r <= 10 && !Passes(db, now, free, u, req, cfg, r) && Passes(db, now, free, u, req, cfg, 8)
      && (r == 10 ==> Passes(db, now, free, u, req, cfg, 9))
  {
    assert forall n | IsNamed(db, n, u, req.slug) :: n == m;
  }

  lemma NewFailureLate(db: Db, now: Time, free: int, u: UserId, req: Request, cfg: Config)
    requires Tidy(db, now) && u in db.users && CheckRequest(db, now, free, u, req, cfg).None?
    requires FindModel(db.models, db.nextModel, u, req.slug).None?
    requires Reserve(db, now, free, u, req, cfg).result.Err?
    ensures var r := Rank(Reserve(db, now, free, u, req, cfg).result.error);
      && 8 <= r <= 9 && !Passes(db, now, free, u, req, cfg, r)
      && (r == 9 ==> Passes(db, now, free, u, req, cfg, 8))
  {
    assert forall m :: !IsNamed(db, m, u, req.slug);
    ModelsCounted(db, now, u);
    FreshModel(db, now, u, req.slug);
    FreshSlot(db, now, u, req, cfg);
  }

  lemma SlotChanges(db: Db, m: ModelId, now: Time, req: Request, cfg: Config)
    requires OpenSlot(db, m, now, req, cfg).result.Ok?
    ensures var (db1, slot) := (OpenSlot(db, m, now, req, cfg).db, OpenSlot(db, m, now, req, cfg).result.value);
      && slot.upload == db.nextVersion && slot.model == m && slot.size == req.size
      && db1 == db.(versions := db1.versions, nextVersion := db1.nextVersion)
      && db1.versions.Keys == db.versions.Keys + {slot.upload}
      && (forall i | i in db.versions && i != slot.upload :: db1.versions[i] == db.versions[i])
      && var v := db1.versions[slot.upload];
         v.state == Reserved && v.model == m && v.name == req.name && v.sha256 == req.sha256 && v.size == req.size
         && v.createdAt == now && v.expiresAt == Some(slot.expiresAt)
  {
  }

  /** What a granted slot adds: one reserved row under the named model, owned by the caller, holding
      what was asked for until it expires. Every other row, every ledger entry and every account
      stays as it was, and at most the named model is new. */
  lemma GrantAddsOneRow(db: Db, now: Time, free: int, u: UserId, req: Request, cfg: Config)
    requires Tidy(db, now) && u in db.users && Reserve(db, now, free, u, req, cfg).result.Ok?
    ensures AddsOneRow(db, Reserve(db, now, free, u, req, cfg).db, Reserve(db, now, free, u, req, cfg).result.value,
                       now, u, req, cfg)
  {
    var found := FindModel(db.models, db.nextModel, u, req.slug);
    if found.Some? {
      assert Reserve(db, now, free, u, req, cfg) == OpenSlot(db, found.value, now, req, cfg);
      SlotAdds(db, db, found.value, now, u, req, cfg);
    } else {
      var db1 := WithModel(db, u, req.slug);
      assert Reserve(db, now, free, u, req, cfg) == OpenSlot(db1, db.nextModel, now, req, cfg);
      SlotAdds(db, db1, db.nextModel, now, u, req, cfg);
    }
  }

  ghost predicate AddsOneRow(db: Db, db1: Db, slot: Reservation, now: Time, u: UserId, req: Request, cfg: Config) {
    && slot.upload !in db.versions && slot.size == req.size
    && slot.expiresAt == now + cfg.reservationTtl * 1_000_000
    && db1.ledger == db.ledger && db1.users == db.users
    && db1.versions.Keys == db.versions.Keys + {slot.upload}
    && (forall i | i in db.versions :: db1.versions[i] == db.versions[i])
    && (forall m | m in db.models :: m in db1.models && db1.models[m] == db.models[m])
    && db1.models.Keys <= db.models.Keys + {slot.model} && IsNamed(db1, slot.model, u, req.slug)
    && db1.models[slot.model].visibility == Public && db1.models[slot.model].state == Active
    && db1.versions[slot.upload]
         == Version(slot.model, req.name, req.sha256, req.size, "", Reserved, None, now, None, Some(slot.expiresAt))
  }

  lemma SlotAdds(db: Db, db1: Db, m: ModelId, now: Time, u: UserId, req: Request, cfg: Config)
    requires Tidy(db, now) && (db1 == db || (db1 == WithModel(db, u, req.slug) && m == db.nextModel))
    requires IsNamed(db1, m, u, req.slug) && OpenSlot(db1, m, now, req, cfg).result.Ok?
    ensures AddsOneRow(db, OpenSlot(db1, m, now, req, cfg).db, OpenSlot(db1, m, now, req, cfg).result.value,
                       now, u, req, cfg)
  {
    SlotChanges(db1, m, now, req, cfg);
  }

  lemma AddedRow(db: Db, db1: Db, now: Time, x: UserId)
    requires Tidy(db, now) && db1.nextVersion == db.nextVersion + 1
    requires forall i | i in db.versions :: i in db1.versions && db1.versions[i] == db.versions[i]
    requires forall i | i in db1.versions && i != db.nextVersion :: i in db.versions
    requires forall m | m in db.models :: m in db1.models && db1.models[m] == db.models[m]
    ensures PendingBytes(db1, x, now) == PendingBytes(db, x, now) + PendingWeight(db1, x, now)(db.nextVersion)
  {
    SumSame(db.nextVersion, PendingWeight(db1, x, now), PendingWeight(db, x, now));
  }

  /** A grant moves the account's pending bytes by the reserved size and its used bytes not at all. */
  lemma GrantHoldsAllowance(db: Db, now: Time, free: int, u: UserId, req: Request, cfg: Config, x: UserId, limit: int)
    requires Tidy(db, now) && u in db.users && Reserve(db, now, free, u, req, cfg).result.Ok? && 0 < cfg.reservationTtl
    ensures var before, after := UsageFor(db, x, limit, now),
      UsageFor(Reserve(db, now, free, u, req, cfg).db, x, limit, now);
      after == before.(reservedBytes := before.reservedBytes + if x == u then req.size else 0)
  {
    var out := Reserve(db, now, free, u, req, cfg);
    GrantAddsOneRow(db, now, free, u, req, cfg);
    NextIsNew(db, now, free, u, req, cfg);
    AddedRow(db, out.db, now, x);
    assert 0 < cfg.reservationTtl * SECOND;
  }

  lemma NextIsNew(db: Db, now: Time, free: int, u: UserId, req: Request, cfg: Config)
    requires u in db.users && Reserve(db, now, free, u, req, cfg).result.Ok?
    ensures var out := Reserve(db, now, free, u, req, cfg);
      out.result.value.upload == db.nextVersion && out.db.nextVersion == db.nextVersion + 1
  {
  }

  // ----- receive -----

  /** A receive succeeds exactly on the caller's own unexpired reservation and the declared bytes. */
  lemma ReceivedExactly(hash: Hash, db: Db, vol: Volume, now: Time, id: VersionId, u: UserId, chunks: seq<Bytes>)
    ensures Receive(hash, db, vol, now, id, u, chunks).result.Ok? <==>
      && id in db.versions && Owned(db, db.versions[id], u) && db.versions[id].state == Reserved
      && (db.versions[id].expiresAt.Some? ==> now < db.versions[id].expiresAt.value)
      && |Concat(chunks)| == db.versions[id].size && hash(Concat(chunks)) == db.versions[id].sha256
  {
  }

  /** A refused receive says what was wrong, and a caller cannot tell a stranger's upload from none.
      Bytes that fall short are reported before a digest is compared. */
  lemma ReceiveRefusalIsTrue(hash: Hash, db: Db, vol: Volume, now: Time, id: VersionId, u: UserId, chunks: seq<Bytes>)
    requires Receive(hash, db, vol, now, id, u, chunks).result.Err?
    ensures var mine := id in db.versions && Owned(db, db.versions[id], u);
      var why := Receive(hash, db, vol, now, id, u, chunks).result.error;
      if !mine then why == NoSuchUpload else
        var v := db.versions[id];
        match why
        case NotAwaitingBytes(state) => state == v.state != Reserved
        case ReservationExpired => IsExpired(v, now)
        case PastReservation(limit) => v.state == Reserved && limit == v.size < |Concat(chunks)|
        case WrongSize(reserved, received) => v.state == Reserved && |Concat(chunks)| == received < reserved == v.size
        case WrongDigest(declared, measured) =>
          v.state == Reserved && |Concat(chunks)| == v.size && hash(Concat(chunks)) == measured != declared == v.sha256
        case _ => false
  {
  }

  /** What it leaves on success: the row uploaded and one entry for its bytes; the object under its
      digest, which is the bytes just received unless the key was already there; and every other
      row, object and staging file as it was. */
  lemma ReceiveStores(hash: Hash, db: Db, vol: Volume, now: Time, id: VersionId, u: UserId, chunks: seq<Bytes>)
    requires Receive(hash, db, vol, now, id, u, chunks).result.Ok?
    ensures var out := Receive(hash, db, vol, now, id, u, chunks);
      var key := ObjectKey(hash(Concat(chunks)));
      && out.db == db.(versions := db.versions[id := db.versions[id].(objectKey := key, state := Uploaded)],
                       ledger := db.ledger + [Entry(u, id, |Concat(chunks)|, CommitReason, now)])
      && out.volume.artifacts == (if key in vol.artifacts then vol.artifacts else vol.artifacts[key := Concat(chunks)])
      && out.volume.staging == vol.staging - {id}
  {
    var bytes := Concat(chunks);
    assert vol.staging[id := bytes] - {id} == vol.staging - {id};
  }

  /** What a refusal leaves in a session that is kept: nothing on disk, no object and no charge in any
      case; the row is gone when the bytes were measured and found wrong, which frees its name, and
      kept otherwise. */
  lemma ReceiveRefuses(hash: Hash, db: Db, vol: Volume, now: Time, id: VersionId, u: UserId, chunks: seq<Bytes>)
    requires Receive(hash, db, vol, now, id, u, chunks).result.Err? && NamesUnique(db)
    ensures var out := Receive(hash, db, vol, now, id, u, chunks);
      var slot := ReservedSlot(db, id, u, now);
      && out.volume.artifacts == vol.artifacts && out.db.ledger == db.ledger && out.db.models == db.models
      && (slot.Err? ==> out.db == db && out.volume == vol)
      && (slot.Ok? ==> out.volume.staging == vol.staging - {id})
      && (slot.Ok? && |Concat(chunks)| > slot.value.size ==> out.db == db)
      && (slot.Ok? && |Concat(chunks)| <= slot.value.size ==>
            out.db.versions == db.versions - {id} && !NameUsed(out.db, slot.value.model, slot.value.name))
  {
    var bytes := Concat(chunks);
    assert vol.staging[id := bytes] - {id} == vol.staging - {id};
  }

  /** A successful receive turns pending bytes into used ones, and moves nothing else. */
  lemma ReceiveMovesAllowance(hash: Hash, db: Db, vol: Volume, now: Time, id: VersionId, u: UserId,
                              chunks: seq<Bytes>, x: UserId, limit: int)
    requires Tidy(db, now) && OneEntryPerStoredRow(db) && Receive(hash, db, vol, now, id, u, chunks).result.Ok?
    ensures var before := UsageFor(db, x, limit, now);
      var after := UsageFor(Receive(hash, db, vol, now, id, u, chunks).db, x, limit, now);
      var moved := if x == u then |Concat(chunks)| else 0;
      after.usedBytes == before.usedBytes + moved && after.reservedBytes + moved == before.reservedBytes
  {
    ReceivedExactly(hash, db, vol, now, id, u, chunks);
    ReceiveStores(hash, db, vol, now, id, u, chunks);
    var cfg := Config(0, 0, 0, 0, 0, 0, 0, false, false);
    ChargeSums(cfg, db, now, Charge(id, u), x);
    AppendEntry(db.ledger, Entry(u, id, |Concat(chunks)|, CommitReason, now));
  }

  // ----- publish and sweep -----

  /** Publishing moves the caller's own uploaded row one stage on, and nothing else. */
  lemma PublishedExactly(db: Db, now: Time, id: VersionId, u: UserId, cfg: Config)
    ensures var (db1, r) := Publish(db, now, id, u, cfg);
      && (r.Ok? <==> id in db.versions && Owned(db, db.versions[id], u) && db.versions[id].state == Uploaded)
      && (r.Err? ==> db1 == db)
      && (!(id in db.versions && Owned(db, db.versions[id], u)) ==> r == Err(NoSuchUpload))
      && (id in db.versions && Owned(db, db.versions[id], u) && db.versions[id].state != Uploaded ==>
            r == Err(NotReceived(db.versions[id].state)))
      && (r.Ok? ==>
            && db1.versions.Keys == db.versions.Keys && db1.ledger == db.ledger && db1.models == db.models
            && (forall i | i in db.versions && i != id :: db1.versions[i] == db.versions[i])
            && db1.versions[id].state == (if cfg.requireVerification then Verifying else Published)
            && db1.versions[id].publishedAt
                 == (if cfg.requireVerification then db.versions[id].publishedAt else Some(now))
            && db1.versions[id].verification
                 == (if cfg.requireVerification then db.versions[id].verification else Some(Report(None)))
            && Follows(db.versions[id], db1.versions[id]))
  {
  }

  /** After a sweep no expired reservation is left, and nothing but expired reservations and their
      staging files is gone; sweeping again does nothing. */
  lemma SweepExactly(db: Db, vol: Volume, now: Time)
    ensures var db1, vol1 := SweptDb(db, now), SweptVolume(vol, db, now);
      && (forall i :: i in db1.versions <==> i in db.versions && !IsExpired(db.versions[i], now))
      && (forall i | i in db1.versions :: db1.versions[i] == db.versions[i])
      && (forall i :: i in vol1.staging <==> i in vol.staging && !(i in db.versions && IsExpired(db.versions[i], now)))
      && vol1.artifacts == vol.artifacts && Expired(db1, now) == {}
      && SweptDb(db1, now) == db1 && SweptVolume(vol1, db1, now) == vol1
  {
    var db1, vol1 := SweptDb(db, now), SweptVolume(vol, db, now);
    assert Expired(db1, now) == {};
    assert db1.versions - {} == db1.versions && vol1.staging - {} == vol1.staging;
  }
}
