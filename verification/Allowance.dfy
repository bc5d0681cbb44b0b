/** What the account's allowance and the service's footprint cap guarantee over whole runs. */
module Allowance {
  import opened Basics
  import opened Schema
  import opened Quota
  import opened Receiving
  import opened Protocol
  import opened Changes
  import opened Ledger

  /** The row was charged at or after the instant its reservation expired. */
  ghost predicate IsLate(db: Db, i: VersionId) {
    i in db.versions && IsStored(db.versions[i]) && db.versions[i].expiresAt.Some? &&
    exists e | e in db.ledger :: e.version == i && db.versions[i].expiresAt.value <= e.createdAt
  }

  ghost function LateWeight(db: Db, u: UserId): nat -> nat {
    (i: nat) => if IsLate(db, i) && Owned(db, db.versions[i], u) then db.versions[i].size else 0
  }

  /** Bytes of the account charged by transfers that finished after their reservation expired. */
  ghost function LateBytes(db: Db, u: UserId): nat {
    SumUpTo(db.nextVersion, LateWeight(db, u))
  }

  ghost function AnyLateWeight(db: Db): nat -> nat {
    (i: nat) => if IsLate(db, i) then db.versions[i].size else 0
  }

  ghost function AllLateBytes(db: Db): nat {
    SumUpTo(db.nextVersion, AnyLateWeight(db))
  }

  function AnyPendingWeight(db: Db, now: Time): nat -> nat {
    (i: nat) => if i in db.versions && IsLive(db.versions[i], now) then db.versions[i].size else 0
  }

  /** What all accounts together have pending. */
  function AllPendingBytes(db: Db, now: Time): nat {
    SumUpTo(db.nextVersion, AnyPendingWeight(db, now))
  }

  ghost predicate AllowanceHeld(db: Db, now: Time) {
    forall u | u in db.users ::
      StoredBytes(db.ledger, u) + PendingBytes(db, u, now) <= Max(0, db.users[u].storageLimit) + LateBytes(db, u)
  }

  ghost predicate FootprintHeld(cfg: Config, db: Db, now: Time, peak: nat) {
    TotalStored(db.ledger) + AllPendingBytes(db, now) <= Max(0, cfg.footprintCap) + peak + AllLateBytes(db)
  }

  // ----- the sums under each change -----

  lemma QuietLate(cfg: Config, db: Db, now: Time, c: Change, i: VersionId)
    requires Tidy(db, now) && Allowed(cfg, db, now, c) && !c.Charge?
    ensures IsLate(Apply(cfg, db, now, c), i) <==> IsLate(db, i)
  {
    QuietRow(cfg, db, now, c, i);
  }

  lemma QuietLateRow(cfg: Config, db: Db, now: Time, c: Change, u: UserId, i: nat)
    requires Tidy(db, now) && Allowed(cfg, db, now, c) && !c.Charge?
    ensures var db1 := Apply(cfg, db, now, c);
      LateWeight(db1, u)(i) == LateWeight(db, u)(i) && AnyLateWeight(db1)(i) == AnyLateWeight(db)(i)
  {
    QuietLate(cfg, db, now, c, i);
    QuietWeights(cfg, db, now, c, u, i);
    if IsLate(db, i) {
      assert StoredWeight(db, u)(i) == LateWeight(db, u)(i);
    }
  }

  lemma QuietLateSums(cfg: Config, db: Db, now: Time, c: Change, u: UserId)
    requires Tidy(db, now) && Allowed(cfg, db, now, c) && !c.Charge?
    ensures var db1 := Apply(cfg, db, now, c);
      LateBytes(db1, u) == LateBytes(db, u) && AllLateBytes(db1) == AllLateBytes(db)
  {
    var db1 := Apply(cfg, db, now, c);
    forall i: nat
      ensures LateWeight(db1, u)(i) == LateWeight(db, u)(i) && AnyLateWeight(db1)(i) == AnyLateWeight(db)(i)
    {
      QuietLateRow(cfg, db, now, c, u, i);
    }
    assert !IsLate(db, db.nextVersion);
    QuietCounter(cfg, db, now, c);
    SameLateSums(db, db1, u);
  }

  lemma QuietCounter(cfg: Config, db: Db, now: Time, c: Change)
    requires Tidy(db, now) && Allowed(cfg, db, now, c)
    ensures db.nextVersion <= Apply(cfg, db, now, c).nextVersion <= db.nextVersion + 1
  {
  }

  lemma SameLateSums(db: Db, db1: Db, u: UserId)
    requires forall i: nat ::
      LateWeight(db1, u)(i) == LateWeight(db, u)(i) && AnyLateWeight(db1)(i) == AnyLateWeight(db)(i)
    requires db.nextVersion <= db1.nextVersion <= db.nextVersion + 1 && !IsLate(db, db.nextVersion)
    ensures LateBytes(db1, u) == LateBytes(db, u) && AllLateBytes(db1) == AllLateBytes(db)
  {
    SumSame(db.nextVersion, LateWeight(db1, u), LateWeight(db, u));
    SumSame(db.nextVersion, AnyLateWeight(db1), AnyLateWeight(db));
  }

  /** A charge turns pending bytes into used ones; when nothing was pending any more, it is late. */
  lemma ChargeSums(cfg: Config, db: Db, now: Time, c: Change, u: UserId)
    requires Tidy(db, now) && Allowed(cfg, db, now, c) && c.Charge? && OneEntryPerStoredRow(db)
    ensures var db1 := Apply(cfg, db, now, c);
      var size := db.versions[c.id].size;
      var live := IsLive(db.versions[c.id], now);
      && PendingBytes(db1, u, now) + (if live && u == c.u then size else 0) == PendingBytes(db, u, now)
      && LateBytes(db1, u) == LateBytes(db, u) + (if !live && u == c.u then size else 0)
  {
    var db1 := Apply(cfg, db, now, c);
    ChargeLate(cfg, db, now, c);
    SumPoint(db.nextVersion, PendingWeight(db, u, now), PendingWeight(db1, u, now), c.id);
    SumPoint(db.nextVersion, LateWeight(db, u), LateWeight(db1, u), c.id);
  }

  lemma ChargeAllSums(cfg: Config, db: Db, now: Time, c: Change)
    requires Tidy(db, now) && Allowed(cfg, db, now, c) && c.Charge? && OneEntryPerStoredRow(db)
    ensures var db1 := Apply(cfg, db, now, c);
      var size := db.versions[c.id].size;
      var live := IsLive(db.versions[c.id], now);
      && AllPendingBytes(db1, now) + (if live then size else 0) == AllPendingBytes(db, now)
      && AllLateBytes(db1) == AllLateBytes(db) + (if !live then size else 0)
  {
    var db1 := Apply(cfg, db, now, c);
    ChargeLate(cfg, db, now, c);
    SumPoint(db.nextVersion, AnyPendingWeight(db, now), AnyPendingWeight(db1, now), c.id);
    SumPoint(db.nextVersion, AnyLateWeight(db), AnyLateWeight(db1), c.id);
  }

  lemma ChargeLate(cfg: Config, db: Db, now: Time, c: Change)
    requires Tidy(db, now) && Allowed(cfg, db, now, c) && c.Charge? && OneEntryPerStoredRow(db)
    ensures var db1 := Apply(cfg, db, now, c);
      && !IsLate(db, c.id) && (IsLate(db1, c.id) <==> !IsLive(db.versions[c.id], now))
      && forall i | i != c.id :: IsLate(db1, i) <==> IsLate(db, i)
  {
    var db1 := Apply(cfg, db, now, c);
    var e := db1.ledger[|db.ledger|];
    assert db1.ledger == db.ledger + [e];
    assert e in db1.ledger;
    assert forall x | x in db1.ledger :: x in db.ledger || x == e;
    assert forall x | x in db.ledger :: x in db1.ledger && x.version != c.id;
  }

  /** No change but a new slot makes a row pending. */
  lemma QuietPending(cfg: Config, db: Db, now: Time, c: Change, u: UserId, i: VersionId)
    requires Tidy(db, now) && Allowed(cfg, db, now, c) && !c.Charge? && i < db.nextVersion
    ensures var db1 := Apply(cfg, db, now, c);
      && PendingWeight(db1, u, now)(i) <= PendingWeight(db, u, now)(i)
      && AnyPendingWeight(db1, now)(i) <= AnyPendingWeight(db, now)(i)
  {
    var db1 := Apply(cfg, db, now, c);
    if i in db1.versions && db1.versions[i].state == Reserved {
      KeptReserved(cfg, db, now, c, i);
      KeptRow(cfg, db, now, c, i);
      SamePending(db, db1, now, u, i);
    }
  }

  lemma SamePending(db: Db, db1: Db, now: Time, u: UserId, i: VersionId)
    requires i in db.versions && i in db1.versions && db1.versions[i] == db.versions[i]
    requires Owned(db1, db1.versions[i], u) == Owned(db, db.versions[i], u)
    ensures PendingWeight(db1, u, now)(i) == PendingWeight(db, u, now)(i)
    ensures AnyPendingWeight(db1, now)(i) == AnyPendingWeight(db, now)(i)
  {
  }

  lemma PendingChange(cfg: Config, db: Db, now: Time, c: Change, u: UserId)
    requires Tidy(db, now) && Allowed(cfg, db, now, c) && !c.Charge?
    ensures var db1 := Apply(cfg, db, now, c);
      && PendingBytes(db1, u, now) <= PendingBytes(db, u, now)
           + (if c.NewSlot? && db.models[c.m].owner == u then c.req.size else 0)
      && AllPendingBytes(db1, now) <= AllPendingBytes(db, now) + (if c.NewSlot? then c.req.size else 0)
  {
    var db1 := Apply(cfg, db, now, c);
    forall i: nat | i < db.nextVersion
      ensures PendingWeight(db1, u, now)(i) <= PendingWeight(db, u, now)(i)
      ensures AnyPendingWeight(db1, now)(i) <= AnyPendingWeight(db, now)(i)
    {
      QuietPending(cfg, db, now, c, u, i);
    }
    SumBelow(db.nextVersion, PendingWeight(db1, u, now), PendingWeight(db, u, now));
    SumBelow(db.nextVersion, AnyPendingWeight(db1, now), AnyPendingWeight(db, now));
    if c.NewSlot? {
      assert db1.nextVersion == db.nextVersion + 1;
    } else {
      assert db1.nextVersion == db.nextVersion;
    }
  }

  lemma ChangeAllowance(cfg: Config, db: Db, now: Time, c: Change)
    requires Tidy(db, now) && Allowed(cfg, db, now, c) && OneEntryPerStoredRow(db) && AllowanceHeld(db, now)
    ensures AllowanceHeld(Apply(cfg, db, now, c), now)
  {
    var db1 := Apply(cfg, db, now, c);
    forall u | u in db1.users
      ensures StoredBytes(db1.ledger, u) + PendingBytes(db1, u, now)
           <= Max(0, db1.users[u].storageLimit) + LateBytes(db1, u)
    {
      if c.Charge? {
        ChargeSums(cfg, db, now, c, u);
        AppendEntry(db.ledger, db1.ledger[|db.ledger|]);
      } else {
        QuietRow(cfg, db, now, c, 0);
        QuietLateSums(cfg, db, now, c, u);
        PendingChange(cfg, db, now, c, u);
      }
    }
  }

  lemma ChangeFootprint(cfg: Config, db: Db, now: Time, c: Change, peak: nat)
    requires Tidy(db, now) && Allowed(cfg, db, now, c) && OneEntryPerStoredRow(db) && FootprintHeld(cfg, db, now, peak)
    requires c.NewSlot? ==> AllPendingBytes(db, now) <= peak
    ensures FootprintHeld(cfg, Apply(cfg, db, now, c), now, peak)
  {
    var db1 := Apply(cfg, db, now, c);
    if c.Charge? {
      ChargeAllSums(cfg, db, now, c);
      AppendEntry(db.ledger, db1.ledger[|db.ledger|]);
    } else {
      QuietRow(cfg, db, now, c, 0);
      QuietLateSums(cfg, db, now, c, 0);
      PendingChange(cfg, db, now, c, 0);
    }
  }

  // ----- runs -----

  lemma {:induction false} ChangesHeld(cfg: Config, db: Db, now: Time, cs: seq<Change>, peak: nat)
    requires AllAllowed(cfg, db, now, cs) && Exact(db) && AllowanceHeld(db, now) && FootprintHeld(cfg, db, now, peak)
    requires (exists c | c in cs :: c.NewSlot?) ==> AllPendingBytes(db, now) <= peak
    requires |cs| <= 1 || (|cs| == 2 && cs[0].NewModel?)
    ensures AllowanceHeld(ApplyAll(cfg, db, now, cs), now) && FootprintHeld(cfg, ApplyAll(cfg, db, now, cs), now, peak)
    decreases |cs|
  {
    if cs != [] {
      var db1 := Apply(cfg, db, now, cs[0]);
      ChangeAllowance(cfg, db, now, cs[0]);
      ChangeFootprint(cfg, db, now, cs[0], peak);
      ChangeBalances(cfg, db, now, cs[0]);
      ChangeEntries(cfg, db, now, cs[0]);
      PendingChanges(cfg, db, now, cs[0]);
      assert forall c | c in cs[1..] :: c in cs;
      ChangesHeld(cfg, db1, now, cs[1..], peak);
    }
  }

  lemma PendingChanges(cfg: Config, db: Db, now: Time, c: Change)
    requires Tidy(db, now) && Allowed(cfg, db, now, c)
    ensures c.NewModel? ==> AllPendingBytes(Apply(cfg, db, now, c), now) == AllPendingBytes(db, now)
  {
    if c.NewModel? {
      SumSame(db.nextVersion, AnyPendingWeight(Apply(cfg, db, now, c), now), AnyPendingWeight(db, now));
    }
  }

  predicate Granted(env: Env, w: World, a: Action) {
    a.Ask? && a.u in w.db.users && Asked(env, w, a.u, a.req, a.free).result.Ok?
  }

  /** The largest amount that was pending, across all accounts, at any moment a slot was granted. */
  function PeakOverlap(env: Env, w: World, actions: seq<Action>): nat
    decreases |actions|
  {
    if actions == [] then 0 else
      Max(if Granted(env, w, actions[0]) then AllPendingBytes(w.db, w.now) else 0,
          PeakOverlap(env, Step(env, w, actions[0]), actions[1..]))
  }

  lemma TickHeld(cfg: Config, db: Db, now: Time, later: Time, peak: nat)
    requires now <= later && AllowanceHeld(db, now) && FootprintHeld(cfg, db, now, peak)
    ensures AllowanceHeld(db, later) && FootprintHeld(cfg, db, later, peak)
  {
    SumBelow(db.nextVersion, AnyPendingWeight(db, later), AnyPendingWeight(db, now));
    forall u | u in db.users
      ensures StoredBytes(db.ledger, u) + PendingBytes(db, u, later)
           <= Max(0, db.users[u].storageLimit) + LateBytes(db, u)
    {
      SumBelow(db.nextVersion, PendingWeight(db, u, later), PendingWeight(db, u, now));
    }
  }

  lemma ActionShape(env: Env, w: World, a: Action)
    ensures var cs := ActionChanges(env, w, a);
      && (|cs| <= 1 || (|cs| == 2 && cs[0].NewModel?))
      && ((exists c | c in cs :: c.NewSlot?) ==> Granted(env, w, a))
  {
  }

  lemma StepHeld(env: Env, w: World, a: Action, peak: nat)
    requires Steady(w) && Matched(env, w) && Exact(w.db)
    requires AllowanceHeld(w.db, w.now) && FootprintHeld(env.cfg, w.db, w.now, peak)
    requires Granted(env, w, a) ==> AllPendingBytes(w.db, w.now) <= peak
    ensures var w1 := Step(env, w, a);
      AllowanceHeld(w1.db, w1.now) && FootprintHeld(env.cfg, w1.db, w1.now, peak)
  {
    ActionIsChanges(env, w, a);
    ActionShape(env, w, a);
    var cs := ActionChanges(env, w, a);
    ChangesHeld(env.cfg, w.db, w.now, cs, peak);
    ClockForward(env, w, a);
    TickHeld(env.cfg, Step(env, w, a).db, w.now, Step(env, w, a).now, peak);
  }

  lemma {:induction false} RunHeld(env: Env, w: World, actions: seq<Action>, peak: nat)
    requires Steady(w) && Matched(env, w) && Exact(w.db)
    requires AllowanceHeld(w.db, w.now) && FootprintHeld(env.cfg, w.db, w.now, peak)
    requires PeakOverlap(env, w, actions) <= peak
    ensures var w1 := Run(env, w, actions);
      AllowanceHeld(w1.db, w1.now) && FootprintHeld(env.cfg, w1.db, w1.now, peak)
    decreases |actions|
  {
    if actions != [] {
      StepHeld(env, w, actions[0], peak);
      StepSteady(env, w, actions[0]);
      ActionIsChanges(env, w, actions[0]);
      ChangesExact(env.cfg, w.db, w.now, ActionChanges(env, w, actions[0]));
      RunHeld(env, Step(env, w, actions[0]), actions[1..], peak);
    }
  }

  lemma RunFromStart(env: Env, users: map<UserId, User>, t: Time, actions: seq<Action>)
    ensures var w := Run(env, Start(users, t), actions);
      AllowanceHeld(w.db, w.now) && FootprintHeld(env.cfg, w.db, w.now, PeakOverlap(env, Start(users, t), actions))
  {
    RunHeld(env, Start(users, t), actions, PeakOverlap(env, Start(users, t), actions));
  }

  /** Whatever is interleaved and wherever it crashes: used and live pending bytes stay within the
      account's limit, up to what slow transfers charged after their reservation had expired. */
  lemma AllowanceBound(env: Env, users: map<UserId, User>, t: Time, actions: seq<Action>, u: UserId)
    requires u in users
    ensures var w := Run(env, Start(users, t), actions);
      StoredBytes(w.db.ledger, u) + PendingBytes(w.db, u, w.now) <= Max(0, users[u].storageLimit) + LateBytes(w.db, u)
  {
    RunFromStart(env, users, t, actions);
    RunUsers(env, Start(users, t), actions);
  }

  /** The service's total and everything still pending stay within the cap plus the most that any
      grant overlapped, again up to late charges. */
  lemma FootprintBound(env: Env, users: map<UserId, User>, t: Time, actions: seq<Action>)
    ensures var w := Run(env, Start(users, t), actions);
      TotalStored(w.db.ledger) + AllPendingBytes(w.db, w.now)
        <= Max(0, env.cfg.footprintCap) + PeakOverlap(env, Start(users, t), actions) + AllLateBytes(w.db)
  {
    RunFromStart(env, users, t, actions);
  }

  lemma {:induction false} ChangesUsers(cfg: Config, db: Db, now: Time, cs: seq<Change>)
    requires AllAllowed(cfg, db, now, cs)
    ensures ApplyAll(cfg, db, now, cs).users == db.users
    decreases |cs|
  {
    if cs != [] {
      ChangesUsers(cfg, Apply(cfg, db, now, cs[0]), now, cs[1..]);
    }
  }

  lemma {:induction false} RunUsers(env: Env, w: World, actions: seq<Action>)
    requires Steady(w) && Matched(env, w)
    ensures Run(env, w, actions).db.users == w.db.users
    decreases |actions|
  {
    if actions != [] {
      ActionIsChanges(env, w, actions[0]);
      ChangesUsers(env.cfg, w.db, w.now, ActionChanges(env, w, actions[0]));
      StepSteady(env, w, actions[0]);
      RunUsers(env, Step(env, w, actions[0]), actions[1..]);
    }
  }

  // ----- runs in which every receive is one step -----

  predicate IsWhole(a: Action) {
    a.Ask? || a.Upload? || a.Show? || a.SweepNow? || a.Tick? || a.Crash?
  }

  ghost predicate NoneLate(db: Db) {
    forall i :: !IsLate(db, i)
  }

  lemma {:induction false} ChangesPunctual(cfg: Config, db: Db, now: Time, cs: seq<Change>)
    requires AllAllowed(cfg, db, now, cs) && Exact(db) && NoneLate(db)
    requires forall c | c in cs && c.Charge? :: |cs| == 1 && IsLive(db.versions[c.id], now)
    ensures NoneLate(ApplyAll(cfg, db, now, cs))
    decreases |cs|
  {
    if cs != [] {
      if cs[0].Charge? {
        ChargeLate(cfg, db, now, cs[0]);
        assert cs[1..] == [];
      } else {
        forall i ensures !IsLate(Apply(cfg, db, now, cs[0]), i) {
          QuietLate(cfg, db, now, cs[0], i);
        }
      }
      ChangeBalances(cfg, db, now, cs[0]);
      ChangeEntries(cfg, db, now, cs[0]);
      ChangesPunctual(cfg, Apply(cfg, db, now, cs[0]), now, cs[1..]);
    }
  }

  /** A receive in one step charges only what its check has just found unexpired. */
  lemma WholeStepPunctual(env: Env, w: World, a: Action)
    requires Steady(w) && w.inflight == map[] && IsWhole(a)
    ensures Step(env, w, a).inflight == map[]
    ensures var cs := ActionChanges(env, w, a);
      forall c | c in cs && c.Charge? :: |cs| == 1 && c.id in w.db.versions && IsLive(w.db.versions[c.id], w.now)
  {
    if a.Upload? {
      assert ActionChanges(env, w, a) != [] && ActionChanges(env, w, a)[0].Charge? ==>
          ReservedSlot(w.db, a.id, a.u, w.now).Ok?;
    }
  }

  lemma {:induction false} WholeRunPunctual(env: Env, w: World, actions: seq<Action>)
    requires Steady(w) && Matched(env, w) && Exact(w.db) && NoneLate(w.db) && w.inflight == map[]
    requires forall a | a in actions :: IsWhole(a)
    ensures NoneLate(Run(env, w, actions).db) && Run(env, w, actions).inflight == map[]
    decreases |actions|
  {
    if actions != [] {
      var cs := ActionChanges(env, w, actions[0]);
      ActionIsChanges(env, w, actions[0]);
      WholeStepPunctual(env, w, actions[0]);
      ChangesPunctual(env.cfg, w.db, w.now, cs);
      ChangesExact(env.cfg, w.db, w.now, cs);
      StepSteady(env, w, actions[0]);
      WholeRunPunctual(env, Step(env, w, actions[0]), actions[1..]);
    }
  }

  lemma NoLateBytes(db: Db, u: UserId)
    requires NoneLate(db)
    ensures LateBytes(db, u) == 0 && AllLateBytes(db) == 0
  {
    SumZero(db.nextVersion, LateWeight(db, u));
    SumZero(db.nextVersion, AnyLateWeight(db));
  }

  /** When every receive is one step the allowance holds outright, and the footprint is bounded by
      the cap and the overlap alone: by the cap itself when no grant overlaps a live reservation. */
  lemma WholeRunBounds(env: Env, users: map<UserId, User>, t: Time, actions: seq<Action>, u: UserId)
    requires u in users && forall a | a in actions :: IsWhole(a)
    ensures var w := Run(env, Start(users, t), actions);
      && StoredBytes(w.db.ledger, u) + PendingBytes(w.db, u, w.now) <= Max(0, users[u].storageLimit)
      && TotalStored(w.db.ledger) + AllPendingBytes(w.db, w.now)
           <= Max(0, env.cfg.footprintCap) + PeakOverlap(env, Start(users, t), actions)
  {
    var w := Run(env, Start(users, t), actions);
    AllowanceBound(env, users, t, actions, u);
    FootprintBound(env, users, t, actions);
    WholeRunPunctual(env, Start(users, t), actions);
    NoLateBytes(w.db, u);
  }
}
