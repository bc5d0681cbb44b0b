/** What a sweep can change for a reservation, and when it does: for every state of the tables, not
    only for a run. */
module Rescues {
  import opened Basics
  import opened Schema
  import opened Keys
  import opened Quota
  import opened Figures
  import opened Intent
  import opened Janitor
  import opened Changes
  import opened Ceilings
  import opened Operations

  /** The account's expired reservations that the daily count still counts. */
  function StaleSince(db: Db, now: Time, u: UserId, since: Time): set<VersionId> {
    set i | i in StartedSince(db, u, since) && IsExpired(db.versions[i], now)
  }

  /** The model's expired reservations. */
  function StaleOf(db: Db, now: Time, m: ModelId): set<VersionId> {
    set i | i in VersionsOf(db, m) && IsExpired(db.versions[i], now)
  }

  predicate StaleName(db: Db, now: Time, m: ModelId, name: string) {
    exists i | i in db.versions :: IsExpired(db.versions[i], now) && db.versions[i].model == m
      && db.versions[i].name == name
  }

  /** The three things a sweep moves, each by exactly its expired reservations. */
  lemma SweptCounts(db: Db, now: Time, u: UserId, since: Time, m: ModelId, name: string)
    ensures var swept := SweptDb(db, now);
      && |StartedSince(db, u, since)| == |StartedSince(swept, u, since)| + |StaleSince(db, now, u, since)|
      && |VersionsOf(db, m)| == |VersionsOf(swept, m)| + |StaleOf(db, now, m)|
      && (NameUsed(db, m, name) <==> NameUsed(swept, m, name) || StaleName(db, now, m, name))
  {
    var swept := SweptDb(db, now);
    assert StartedSince(db, u, since) == StartedSince(swept, u, since) + StaleSince(db, now, u, since);
    assert StartedSince(swept, u, since) !! StaleSince(db, now, u, since);
    assert VersionsOf(db, m) == VersionsOf(swept, m) + StaleOf(db, now, m);
    assert VersionsOf(swept, m) !! StaleOf(db, now, m);
    SweptNames(db, now, m, name);
  }

  lemma SweptNames(db: Db, now: Time, m: ModelId, name: string)
    ensures NameUsed(db, m, name) <==> NameUsed(SweptDb(db, now), m, name) || StaleName(db, now, m, name)
  {
    var swept := SweptDb(db, now);
    if NameUsed(db, m, name) {
      var i :| i in db.versions && db.versions[i].model == m && db.versions[i].name == name;
      assert IsExpired(db.versions[i], now) || i in swept.versions;
    }
    if NameUsed(swept, m, name) {
      var i :| i in swept.versions && swept.versions[i].model == m && swept.versions[i].name == name;
      assert i in db.versions && db.versions[i] == swept.versions[i];
    }
  }

  /** What it does not move. */
  lemma SweptRest(db: Db, now: Time, u: UserId)
    ensures var swept := SweptDb(db, now);
      && swept.users == db.users && swept.models == db.models && swept.ledger == db.ledger
      && ModelsOf(swept, u) == ModelsOf(db, u) && PendingBytes(swept, u, now) == PendingBytes(db, u, now)
  {
    var swept := SweptDb(db, now);
    SumSame(db.nextVersion, PendingWeight(swept, u, now), PendingWeight(db, u, now));
  }

  /** The account's uploads of the last day, without and with expired reservations only. */
  function FreshToday(db: Db, now: Time, u: UserId): nat {
    |StartedSince(SweptDb(db, now), u, now - 86_400_000_000)|
  }

  function StaleToday(db: Db, now: Time, u: UserId): nat {
    |StaleSince(db, now, u, now - 86_400_000_000)|
  }

  lemma SweptWellFormed(db: Db, now: Time)
    requires Tidy(db, now) && NamesUnique(db)
    ensures Tidy(SweptDb(db, now), now) && NamesUnique(SweptDb(db, now))
  {
  }

  /** Expired reservations, and nothing else, stand in the way: they fill the account's day, or the
      model, or one of them holds the name. */
  ghost predicate HeldUp(db: Db, now: Time, u: UserId, req: Request, cfg: Config) {
    || cfg.maxUploads <= FreshToday(db, now, u) + StaleToday(db, now, u)
    || (exists m | IsNamed(db, m, u, req.slug) ::
          cfg.maxVersions <= |VersionsOf(SweptDb(db, now), m)| + |StaleOf(db, now, m)|)
    || (exists m | IsNamed(db, m, u, req.slug) :: StaleName(db, now, m, req.name))
  }

  lemma RoomAfterSweep(db: Db, now: Time, free: int, u: UserId, size: int, cfg: Config)
    requires u in db.users
    ensures HasRoom(db, now, free, u, size, cfg) <==>
      && HasRoom(SweptDb(db, now), now, free, u, size, cfg)
      && FreshToday(db, now, u) + StaleToday(db, now, u) < cfg.maxUploads
  {
    SweptCounts(db, now, u, now - DAY, 0, "");
    SweptRest(db, now, u);
  }

  lemma PlaceAfterSweep(db: Db, now: Time, u: UserId, req: Request, cfg: Config)
    ensures HasPlace(db, u, req, cfg) <==>
      && HasPlace(SweptDb(db, now), u, req, cfg)
      && (forall m | IsNamed(db, m, u, req.slug) ::
            |VersionsOf(SweptDb(db, now), m)| + |StaleOf(db, now, m)| < cfg.maxVersions
              && !StaleName(db, now, m, req.name))
  {
    var swept := SweptDb(db, now);
    SweptRest(db, now, u);
    assert forall m :: IsNamed(swept, m, u, req.slug) <==> IsNamed(db, m, u, req.slug);
    forall m | IsNamed(db, m, u, req.slug)
      ensures |VersionsOf(db, m)| == |VersionsOf(swept, m)| + |StaleOf(db, now, m)|
      ensures NameUsed(db, m, req.name) <==> NameUsed(swept, m, req.name) || StaleName(db, now, m, req.name)
    {
      SweptCounts(db, now, u, 0, m, req.name);
    }
  }

  /** A request is grantable exactly when it is after a sweep and no expired reservation is in its way. */
  lemma GrantableBeforeSweep(db: Db, now: Time, free: int, u: UserId, req: Request, cfg: Config)
    requires u in db.users
    ensures Grantable(db, now, free, u, req, cfg) <==>
      Grantable(SweptDb(db, now), now, free, u, req, cfg) && !HeldUp(db, now, u, req, cfg)
  {
    RoomAfterSweep(db, now, free, u, req.size, cfg);
    PlaceAfterSweep(db, now, u, req, cfg);
  }

  /** Exactly when a sweep changes the answer to a reservation: it never takes a grant away, and it
      turns a refusal into a grant if and only if publisher, digest, room and place are all right
      once the expired reservations are gone, and one of them fills the day, the model or the name. */
  lemma SweepRescuesExactly(db: Db, now: Time, free: int, u: UserId, req: Request, cfg: Config)
    requires Tidy(db, now) && NamesUnique(db) && u in db.users
    ensures var before, after := Reserve(db, now, free, u, req, cfg), Reserve(SweptDb(db, now), now, free, u, req, cfg);
      && (before.result.Ok? ==> after.result == before.result)
      && (before.result.Err? && after.result.Ok? <==>
            Grantable(SweptDb(db, now), now, free, u, req, cfg) && HeldUp(db, now, u, req, cfg))
  {
    var swept := SweptDb(db, now);
    SweptWellFormed(db, now);
    GrantedExactly(db, now, free, u, req, cfg);
    GrantedExactly(swept, now, free, u, req, cfg);
    GrantableBeforeSweep(db, now, free, u, req, cfg);
    if Reserve(db, now, free, u, req, cfg).result.Ok? {
      SlotNumbers(db, now, free, u, req, cfg);
      SlotNumbers(swept, now, free, u, req, cfg);
    }
  }

  /** The slot that is granted is determined by the models and the counters alone. */
  lemma SlotNumbers(db: Db, now: Time, free: int, u: UserId, req: Request, cfg: Config)
    requires u in db.users && Reserve(db, now, free, u, req, cfg).result.Ok?
    ensures var found := FindModel(db.models, db.nextModel, u, req.slug);
      Reserve(db, now, free, u, req, cfg).result.value
        == Reservation(db.nextVersion, if found.Some? then found.value else db.nextModel,
                       now + cfg.reservationTtl * SECOND, req.size)
  {
  }

  /** The same in terms of the guards before and after: it is room or place that fails before. */
  lemma RescueByGuards(db: Db, now: Time, free: int, u: UserId, req: Request, cfg: Config)
    requires Tidy(db, now) && NamesUnique(db) && u in db.users
    ensures
      var swept := SweptDb(db, now);
      Reserve(db, now, free, u, req, cfg).result.Err? && Reserve(swept, now, free, u, req, cfg).result.Ok? <==>
        && MayPublish(db.users[u], cfg) && IsSha256(req.sha256)
        && HasRoom(swept, now, free, u, req.size, cfg) && HasPlace(swept, u, req, cfg)
        && !(HasRoom(db, now, free, u, req.size, cfg) && HasPlace(db, u, req, cfg))
  {
    SweptWellFormed(db, now);
    GrantedExactly(db, now, free, u, req, cfg);
    GrantedExactly(SweptDb(db, now), now, free, u, req, cfg);
  }

  ghost predicate DayRescued(db: Db, now: Time, u: UserId, cfg: Config, limit: int, current: nat) {
    && current == FreshToday(db, now, u) + StaleToday(db, now, u)
    && limit == cfg.maxUploads <= current && 0 < StaleToday(db, now, u)
  }

  ghost predicate ModelRescued(db: Db, now: Time, m: ModelId, cfg: Config, limit: int, current: nat) {
    && current == |VersionsOf(SweptDb(db, now), m)| + |StaleOf(db, now, m)|
    && limit == cfg.maxVersions <= current && 0 < |StaleOf(db, now, m)|
  }

  lemma FirstRescued(db: Db, now: Time, free: int, u: UserId, req: Request, cfg: Config, why: Refusal)
    requires u in db.users && FirstTrue(db, now, free, u, req, cfg, why)
    requires Grantable(SweptDb(db, now), now, free, u, req, cfg)
    ensures why.DailyLimit? && DayRescued(db, now, u, cfg, why.limit, why.current)
  {
    SweptCounts(db, now, u, now - DAY, 0, "");
    SweptRest(db, now, u);
  }

  lemma PlaceRescued(db: Db, now: Time, free: int, u: UserId, req: Request, cfg: Config, why: Refusal)
    requires u in db.users && NamesUnique(db) && PlaceTrue(db, u, req, cfg, why)
    requires HasPlace(SweptDb(db, now), u, req, cfg)
    ensures why.TooManyVersions? || why.NameTaken?
    ensures why.TooManyVersions? ==>
      exists m | IsNamed(db, m, u, req.slug) :: ModelRescued(db, now, m, cfg, why.limit, why.current)
    ensures why.NameTaken? ==> exists m | IsNamed(db, m, u, req.slug) :: StaleName(db, now, m, req.name)
  {
    var swept := SweptDb(db, now);
    SweptRest(db, now, u);
    assert forall m :: IsNamed(swept, m, u, req.slug) <==> IsNamed(db, m, u, req.slug);
    if m :| IsNamed(db, m, u, req.slug) {
      SweptCounts(db, now, u, 0, m, req.name);
      assert IsNamed(swept, m, u, req.slug);
      assert why.TooManyVersions? ==> ModelRescued(db, now, m, cfg, why.limit, why.current);
    }
  }

  /** What the refusal that a sweep undoes says: one of the three, truly, and with an expired
      reservation behind it. */
  lemma RescuedRefusal(db: Db, now: Time, free: int, u: UserId, req: Request, cfg: Config)
    requires Tidy(db, now) && NamesUnique(db) && u in db.users
    requires Reserve(db, now, free, u, req, cfg).result.Err?
    requires Reserve(SweptDb(db, now), now, free, u, req, cfg).result.Ok?
    ensures match Reserve(db, now, free, u, req, cfg).result.error
      case DailyLimit(limit, current) => DayRescued(db, now, u, cfg, limit, current)
      case TooManyVersions(limit, current) =>
        exists m | IsNamed(db, m, u, req.slug) :: ModelRescued(db, now, m, cfg, limit, current)
      case NameTaken => exists m | IsNamed(db, m, u, req.slug) :: StaleName(db, now, m, req.name)
      case _ => false
  {
    var why := Reserve(db, now, free, u, req, cfg).result.error;
    SweptWellFormed(db, now);
    GrantedExactly(SweptDb(db, now), now, free, u, req, cfg);
    RefusalIsTrue(db, now, free, u, req, cfg);
    if FirstTrue(db, now, free, u, req, cfg, why) {
      FirstRescued(db, now, free, u, req, cfg, why);
    } else {
      PlaceRescued(db, now, free, u, req, cfg, why);
    }
  }
}
