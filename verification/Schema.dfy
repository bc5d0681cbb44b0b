/** The tables the upload flow works on. A row's identifier is a number handed out once and never
    again, which is all that is used of a UUID. */
module Schema {
  import opened Basics

  newtype byte = x: int | 0 <= x < 256
  type Bytes = seq<byte>

  /** Microseconds: the resolution of a stored timestamp. */
  type Time = int

  const SECOND: int := 1_000_000
  const DAY: int := 86_400 * SECOND

  type UserId = nat
  type ModelId = nat
  type VersionId = nat

  /** A declared size is refused by the request body unless it is positive. */
  type Size = n: int | 0 < n witness 1

  datatype Lifecycle = Reserved | Uploaded | Verifying | Published | Rejected | Deleted

  datatype ModelState = Active | Hidden | Takedown

  datatype Visibility = Public | Private

  datatype Report = Report(passed: Option<bool>)

  datatype User = User(handle: string, emailVerified: bool, canPublish: bool, storageLimit: int)

  datatype Model = Model(owner: UserId, slug: string, visibility: Visibility, state: ModelState)

  datatype Version = Version(
    model: ModelId,
    name: string,
    sha256: string,
    size: Size,
    objectKey: string,
    state: Lifecycle,
    verification: Option<Report>,
    createdAt: Time,
    publishedAt: Option<Time>,
    expiresAt: Option<Time>)

  datatype Reason = CommitReason | DeleteReason | AdminAdjust

  datatype Entry = Entry(user: UserId, version: VersionId, delta: int, reason: Reason, createdAt: Time)

  /** Rows by identifier; every identifier ever handed out is below the matching counter. */
  datatype Db = Db(
    users: map<UserId, User>,
    models: map<ModelId, Model>,
    versions: map<VersionId, Version>,
    ledger: seq<Entry>,
    nextModel: nat,
    nextVersion: nat)

  datatype Config = Config(
    footprintCap: int,
    freeFloor: int,
    maxArtifact: int,
    maxModels: int,
    maxVersions: int,
    maxUploads: int,
    reservationTtl: int,
    openGate: bool,
    requireVerification: bool)

  datatype Refusal =
    | EmailUnverified
    | InviteOnly
    | NotADigest
    | ArtifactTooLarge(limit: int, requested: int)
    | DailyLimit(limit: int, current: nat)
    | NoAllowance(limit: int, used: int, pending: nat, available: nat, requested: int)
    | FootprintFull(limit: int, stored: int)
    | LowSpace(free: int, floor: int)
    | TooManyModels(limit: int, current: nat)
    | TooManyVersions(limit: int, current: nat)
    | NameTaken
    | NoSuchUpload
    | NotAwaitingBytes(state: Lifecycle)
    | ReservationExpired
    | PastReservation(limit: int)
    | WrongSize(reserved: int, received: int)
    | WrongDigest(declared: string, measured: string)
    | NotReceived(state: Lifecycle)

  /** An exception either reaches a caller that keeps the session, or ends a request, which rolls
      the session back. Files are not rolled back. */
  datatype Layer = SessionLayer | RequestLayer

  /** The join of a version with the model it belongs to, restricted to one owner. */
  predicate Owned(db: Db, v: Version, u: UserId) {
    v.model in db.models && db.models[v.model].owner == u
  }

  /** Bytes are on disk, through one of the states this flow reaches. */
  predicate IsStored(v: Version) {
    v.state == Uploaded || v.state == Verifying || v.state == Published
  }

  predicate IsLive(v: Version, now: Time) {
    v.state == Reserved && v.expiresAt.Some? && v.expiresAt.value > now
  }

  predicate IsExpired(v: Version, now: Time) {
    v.state == Reserved && v.expiresAt.Some? && v.expiresAt.value <= now
  }
}
