/** Concrete runs that show why the bounds carry the terms they carry. */
module Witnesses {
  import opened Basics
  import opened Schema
  import opened Keys
  import opened Quota
  import opened Storage
  import opened Intent
  import opened Receiving
  import opened Janitor
  import opened Protocol
  import opened Allowance
  import opened Conservation

  function Zeros(): (s: Sha256) {
    seq(64, _ => '0')
  }

  /** Every stream has the same digest: no run below depends on what a digest is. */
  function Flat(): Hash {
    (b: Bytes) => Zeros()
  }

  function Bounded(cap: int, versions: int, uploads: int): Env {
    Env(Config(cap, 0, 1, 5, versions, uploads, 10, true, false), Flat())
  }

  function Settings(cap: int): Env {
    Bounded(cap, 5, 5)
  }

  function Publisher(limit: int): map<UserId, User> {
    map[0 := User("a", true, true, limit)]
  }

  function OneByte(name: string): Request {
    Request("m", name, Zeros(), 1)
  }

  function Row(name: string, key: string, state: Lifecycle, at: Time): Version {
    Version(0, name, Zeros(), 1, key, state, None, at, None, Some(at + 10 * SECOND))
  }

  function Records(limit: int, versions: map<VersionId, Version>, ledger: seq<Entry>, next: nat): Db {
    Db(Publisher(limit), map[0 := Model(0, "m", Public, Active)], versions, ledger, 1, next)
  }

  function Key(): string {
    ObjectKey(Zeros())
  }

  function World1(limit: int): World {
    World(Records(limit, map[0 := Row("1", "", Reserved, 0)], [], 1), Volume(map[], map[]), 0, map[], {})
  }

  lemma FirstAsk(env: Env, cap: int, versions: int, uploads: int, limit: int)
    requires cap >= 1 && limit >= 1 && versions >= 1 && uploads >= 1 && env == Bounded(cap, versions, uploads)
    ensures Step(env, Start(Publisher(limit), 0), Ask(0, OneByte("1"), 1, RequestLayer)) == World1(limit)
    ensures Granted(env, Start(Publisher(limit), 0), Ask(0, OneByte("1"), 1, RequestLayer))
  {
  }

  lemma Three(env: Env, w: World, a: Action, b: Action, c: Action)
    ensures Run(env, w, [a, b, c]) == Step(env, Step(env, Step(env, w, a), b), c)
  {
    assert [a, b, c][1..] == [b, c] && [b, c][1..] == [c] && [c][1..] == [];
    assert Run(env, w, [a, b, c]) == Run(env, Step(env, w, a), [b, c]);
    assert Run(env, Step(env, w, a), [b, c]) == Run(env, Step(env, Step(env, w, a), b), [c]);
  }

  // ----- overlapping grants -----

  function TwoReserved(): World {
    World(Records(2, map[0 := Row("1", "", Reserved, 0), 1 := Row("2", "", Reserved, 0)], [], 2),
          Volume(map[], map[]), 0, map[], {})
  }

  lemma SecondAsk()
    ensures Step(Settings(1), World1(2), Ask(0, OneByte("2"), 1, RequestLayer)) == TwoReserved()
  {
    var w := World1(2);
    assert CountSince(w.db, 0, 0 - DAY) <= 1 && PendingBytes(w.db, 0, 0) == 1 && VersionCount(w.db, 0) == 1;
    assert FindModel(w.db.models, 1, 0, "m") == Some(0);
    assert !NameUsed(w.db, 0, "2");
  }

  function FirstStored(): World {
    World(Records(2, map[0 := Row("1", Key(), Uploaded, 0), 1 := Row("2", "", Reserved, 0)],
                 [Entry(0, 0, 1, CommitReason, 0)], 2),
          Volume(map[], map[Key() := [7]]), 0, map[], {[7]})
  }

  lemma OneChunk()
    ensures Concat([[7 as byte]]) == [7]
  {
    assert [[7 as byte]][..0] == [];
  }

  lemma FirstUpload()
    ensures Step(Settings(1), TwoReserved(), Upload(0, 0, [[7]], RequestLayer)) == FirstStored()
  {
    OneChunk();
    var w := Step(Settings(1), TwoReserved(), Upload(0, 0, [[7]], RequestLayer));
    assert w.volume.staging == map[];
    assert w.db.versions == FirstStored().db.versions;
  }

  lemma SecondUpload()
    ensures TotalStored(Step(Settings(1), FirstStored(), Upload(1, 0, [[7]], RequestLayer)).db.ledger) == 2
  {
    OneChunk();
    var e := Entry(0, 1, 1, CommitReason, 0);
    assert Step(Settings(1), FirstStored(), Upload(1, 0, [[7]], RequestLayer)).db.ledger
      == FirstStored().db.ledger + [e];
    AppendEntry(FirstStored().db.ledger, e);
    AppendEntry([], Entry(0, 0, 1, CommitReason, 0));
  }

  /** The cap alone is no bound, even when every receive is one step: with room for one byte, two
      reservations of one byte are both granted, and both are charged. */
  lemma OverlappingGrantsPassTheCap()
    ensures var env := Settings(1);
      var actions := [Ask(0, OneByte("1"), 1, RequestLayer), Ask(0, OneByte("2"), 1, RequestLayer)]
                     + [Upload(0, 0, [[7]], RequestLayer), Upload(1, 0, [[7]], RequestLayer)];
      && TotalStored(Run(env, Start(Publisher(2), 0), actions).db.ledger) == 2 > env.cfg.footprintCap
  {
    var env := Settings(1);
    var first := [Ask(0, OneByte("1"), 1, RequestLayer), Ask(0, OneByte("2"), 1, RequestLayer)];
    var second := [Upload(0, 0, [[7]], RequestLayer), Upload(1, 0, [[7]], RequestLayer)];
    RunJoin(env, Start(Publisher(2), 0), first, second);
    FirstAsk(env, 1, 5, 5, 2);
    SecondAsk();
    FirstUpload();
    SecondUpload();
    assert first[1..][1..] == [] && second[1..][1..] == [];
    assert Run(env, Start(Publisher(2), 0), first) == Run(env, World1(2), first[1..]);
    assert Run(env, World1(2), first[1..]) == Run(env, TwoReserved(), []);
    assert Run(env, TwoReserved(), second) == Run(env, FirstStored(), second[1..]);
  }

  // ----- a transfer that outlives its reservation -----

  function Holding(phase: Phase): Transfer {
    Transfer(0, 1, Zeros(), [7], phase)
  }

  function LateWorld(limit: int): World {
    World(Records(limit, map[0 := Row("1", "", Reserved, 0)], [], 1), Volume(map[0 := [7]], map[]),
          10 * SECOND, map[0 := Holding(Synced)], {[7]})
  }

  lemma LateTransfer()
    ensures Run(Settings(9), World1(1), [Begin(0, 0), Write(0, [7]), Sync(0)] + [Tick(10 * SECOND)]) == LateWorld(1)
  {
    var env := Settings(9);
    RunJoin(env, World1(1), [Begin(0, 0), Write(0, [7]), Sync(0)], [Tick(10 * SECOND)]);
    Three(env, World1(1), Begin(0, 0), Write(0, [7]), Sync(0));
    var w := Run(env, World1(1), [Begin(0, 0), Write(0, [7]), Sync(0)]);
    assert [] + [7 as byte] == [7];
    assert w == LateWorld(1).(now := 0);
    assert Run(env, w, [Tick(10 * SECOND)]) == Run(env, Step(env, w, Tick(10 * SECOND)), []);
  }

  function SecondHeld(): World {
    var rows := map[0 := Row("1", "", Reserved, 0), 1 := Row("2", "", Reserved, 10 * SECOND)];
    LateWorld(1).(db := Records(1, rows, [], 2))
  }

  lemma AskAfterExpiry()
    ensures Step(Settings(9), LateWorld(1), Ask(0, OneByte("2"), 1, RequestLayer)) == SecondHeld()
  {
    var w := LateWorld(1);
    assert CountSince(w.db, 0, w.now - DAY) <= 1 && PendingBytes(w.db, 0, w.now) == 0 && VersionCount(w.db, 0) == 1;
    assert FindModel(w.db.models, 1, 0, "m") == Some(0);
    assert !NameUsed(w.db, 0, "2");
  }

  lemma LateCommit()
    ensures var w := Run(Settings(9), SecondHeld(), [Verify(0, RequestLayer), Probe(0), Place(0)] + [Commit(0)]);
      w.db == Charged(SecondHeld().db, 0, 0, Key(), 1, 10 * SECOND) && w.now == 10 * SECOND
  {
    var env := Settings(9);
    RunJoin(env, SecondHeld(), [Verify(0, RequestLayer), Probe(0), Place(0)], [Commit(0)]);
    Three(env, SecondHeld(), Verify(0, RequestLayer), Probe(0), Place(0));
    var w1 := Step(env, SecondHeld(), Verify(0, RequestLayer));
    assert w1 == SecondHeld().(inflight := map[0 := Holding(Verified)]);
    var w2 := Step(env, w1, Probe(0));
    assert w2 == SecondHeld().(inflight := map[0 := Holding(Renaming)]);
    var w3 := Step(env, w2, Place(0));
    assert InPhase(w3, 0, Placed) && w3.inflight[0] == Holding(Placed) && w3.db == SecondHeld().db;
    assert Run(env, w3, [Commit(0)]) == Run(env, Step(env, w3, Commit(0)), []);
  }

  /** One byte is sent in time, but checked and committed only after the reservation has expired and
      another one has been granted. */
  function Dawdling(): seq<Action> {
    [Ask(0, OneByte("1"), 1, RequestLayer)] + ([Begin(0, 0), Write(0, [7]), Sync(0)] + [Tick(10 * SECOND)])
    + [Ask(0, OneByte("2"), 1, RequestLayer)] + ([Verify(0, RequestLayer), Probe(0), Place(0)] + [Commit(0)])
  }

  function LateLedger(): seq<Entry> {
    [] + [Entry(0, 0, 1, CommitReason, 10 * SECOND)]
  }

  lemma DawdlingEnds()
    ensures var w := Run(Settings(9), Start(Publisher(1), 0), Dawdling());
      && w.db == Charged(SecondHeld().db, 0, 0, Key(), 1, 10 * SECOND) && w.now == 10 * SECOND
  {
    var env, s := Settings(9), Start(Publisher(1), 0);
    var a1 := [Ask(0, OneByte("1"), 1, RequestLayer)];
    var a2 := [Begin(0, 0), Write(0, [7]), Sync(0)] + [Tick(10 * SECOND)];
    var a3 := [Ask(0, OneByte("2"), 1, RequestLayer)];
    var a4 := [Verify(0, RequestLayer), Probe(0), Place(0)] + [Commit(0)];
    RunJoin(env, s, a1 + a2 + a3, a4);
    RunJoin(env, s, a1 + a2, a3);
    RunJoin(env, s, a1, a2);
    FirstAsk(env, 9, 5, 5, 1);
    assert Run(env, s, a1) == Run(env, World1(1), []);
    LateTransfer();
    AskAfterExpiry();
    assert Run(env, LateWorld(1), a3) == Run(env, SecondHeld(), []);
    LateCommit();
  }

  lemma LateSums()
    ensures var db := Charged(SecondHeld().db, 0, 0, Key(), 1, 10 * SECOND);
      StoredBytes(db.ledger, 0) == 1 && PendingBytes(db, 0, 10 * SECOND) == 1
  {
    AppendEntry([], Entry(0, 0, 1, CommitReason, 10 * SECOND));
    assert Charged(SecondHeld().db, 0, 0, Key(), 1, 10 * SECOND).ledger == LateLedger();
  }

  /** The limit alone is no bound once transfers take time: expiry is looked at only when a receive
      begins, so with an allowance of one byte the account ends with one byte used and one held. */
  lemma LateTransferPassesTheLimit()
    ensures var w := Run(Settings(9), Start(Publisher(1), 0), Dawdling());
      StoredBytes(w.db.ledger, 0) + PendingBytes(w.db, 0, w.now) == 2 > Publisher(1)[0].storageLimit
  {
    DawdlingEnds();
    LateSums();
  }

  // ----- refusals that a sweep undoes -----

  function Stale(): World {
    World1(9).(now := 10 * SECOND)
  }

  /** One reservation, and nothing sent until it has expired. */
  function Abandoning(): seq<Action> {
    [Ask(0, OneByte("1"), 1, RequestLayer), Tick(10 * SECOND)]
  }

  lemma BecomesStale(env: Env, versions: int, uploads: int)
    requires versions >= 1 && uploads >= 1 && env == Bounded(9, versions, uploads)
    ensures Run(env, Start(Publisher(9), 0), Abandoning()) == Stale()
  {
    var actions := Abandoning();
    FirstAsk(env, 9, versions, uploads, 9);
    assert actions[1..] == [Tick(10 * SECOND)] && actions[1..][1..] == [];
    assert Run(env, Start(Publisher(9), 0), actions) == Run(env, World1(9), actions[1..]);
    assert Run(env, World1(9), actions[1..]) == Run(env, Stale(), []);
  }

  lemma StaleCounts()
    ensures var w := Stale();
      && CountSince(w.db, 0, w.now - DAY) == 1 && PendingBytes(w.db, 0, w.now) == 0 && VersionCount(w.db, 0) == 1
      && FindModel(w.db.models, 1, 0, "m") == Some(0) && NameUsed(w.db, 0, "1") && !NameUsed(w.db, 0, "2")
  {
    var w := Stale();
    assert w.db.versions[0].model == 0 && w.db.versions[0].name == "1";
    assert VersionWeight(w.db, 0)(0) == 1 && SinceWeight(w.db, 0, w.now - DAY)(0) == 1;
  }

  function Swept(): World {
    Stale().(db := Records(9, map[], [], 1))
  }

  lemma StaleSwept(env: Env)
    ensures Step(env, Stale(), SweepNow) == Swept()
  {
    assert Expired(Stale().db, Stale().now) == {0};
    assert Stale().db.versions - {0} == map[];
  }

  lemma SweptCountsNone()
    ensures var w := Swept();
      && CountSince(w.db, 0, w.now - DAY) == 0 && PendingBytes(w.db, 0, w.now) == 0 && VersionCount(w.db, 0) == 0
      && FindModel(w.db.models, 1, 0, "m") == Some(0)
  {
  }

  lemma GrantedOnceSwept(env: Env, versions: int, uploads: int, name: string)
    requires versions >= 1 && uploads >= 1 && env == Bounded(9, versions, uploads)
    ensures Granted(env, Step(env, Stale(), SweepNow), Ask(0, OneByte(name), 1, RequestLayer))
  {
    StaleSwept(env);
    SweptCountsNone();
  }

  /** In a reachable state the very same request is refused, for the reason given, and granted after
      a sweep. */
  ghost predicate Rescued(env: Env, name: string, why: Refusal) {
    var w := Run(env, Start(Publisher(9), 0), Abandoning());
    && Asked(env, w, 0, OneByte(name), 1).result == Err(why)
    && Granted(env, Step(env, w, SweepNow), Ask(0, OneByte(name), 1, RequestLayer))
  }

  /** A version name that only an expired reservation holds. */
  lemma SweepFreesAName()
    ensures Rescued(Bounded(9, 5, 5), "1", NameTaken)
  {
    BecomesStale(Bounded(9, 5, 5), 5, 5);
    StaleCounts();
    GrantedOnceSwept(Bounded(9, 5, 5), 5, 5, "1");
  }

  /** A day that an expired reservation fills, where one upload a day is allowed. */
  lemma SweepFreesADay()
    ensures Rescued(Bounded(9, 5, 1), "2", DailyLimit(1, 1))
  {
    BecomesStale(Bounded(9, 5, 1), 5, 1);
    StaleCounts();
    GrantedOnceSwept(Bounded(9, 5, 1), 5, 1, "2");
  }

  /** A model that an expired reservation fills, where one version is allowed. */
  lemma SweepFreesAPlace()
    ensures Rescued(Bounded(9, 1, 5), "2", TooManyVersions(1, 1))
  {
    BecomesStale(Bounded(9, 1, 5), 1, 5);
    StaleCounts();
    GrantedOnceSwept(Bounded(9, 1, 5), 1, 5, "2");
  }

  // ----- an object that nobody pays for -----

  /** A transfer that gets as far as its rename; then the request is cut short, the reservation
      expires and is swept. */
  function Orphaning(): seq<Action> {
    [Ask(0, OneByte("1"), 1, RequestLayer)]
    + ([Begin(0, 0), Write(0, [7]), Sync(0)]
       + ([Verify(0, RequestLayer), Probe(0), Place(0)] + [Hangup(0), Tick(10 * SECOND), SweepNow]))
  }

  function Sent(): World {
    World1(9).(volume := Volume(map[0 := [7]], map[]), inflight := map[0 := Holding(Synced)], measured := {[7]})
  }

  function Renamed(): World {
    World1(9).(volume := Volume(map[], map[Key() := [7]]), inflight := map[0 := Holding(Placed)], measured := {[7]})
  }

  function Orphaned(): World {
    Renamed().(db := Records(9, map[], [], 1), inflight := map[], now := 10 * SECOND)
  }

  lemma SendsOne(env: Env)
    requires env == Settings(9)
    ensures Run(env, World1(9), [Begin(0, 0), Write(0, [7]), Sync(0)]) == Sent()
  {
    Three(env, World1(9), Begin(0, 0), Write(0, [7]), Sync(0));
    assert [] + [7 as byte] == [7];
  }

  lemma RenamesOne(env: Env)
    requires env == Settings(9)
    ensures Run(env, Sent(), [Verify(0, RequestLayer), Probe(0), Place(0)]) == Renamed()
  {
    Three(env, Sent(), Verify(0, RequestLayer), Probe(0), Place(0));
    var w1 := Step(env, Sent(), Verify(0, RequestLayer));
    assert w1 == Sent().(inflight := map[0 := Holding(Verified)]);
    var w2 := Step(env, w1, Probe(0));
    assert w2 == Sent().(inflight := map[0 := Holding(Renaming)]);
    assert w2.volume.staging - {0} == map[];
  }

  lemma LosesOne(env: Env)
    requires env == Settings(9)
    ensures Run(env, Renamed(), [Hangup(0), Tick(10 * SECOND), SweepNow]) == Orphaned()
  {
    Three(env, Renamed(), Hangup(0), Tick(10 * SECOND), SweepNow);
    var w1 := Renamed().(inflight := map[], now := 10 * SECOND);
    assert Renamed().inflight - {0} == map[];
    assert Step(env, Step(env, Renamed(), Hangup(0)), Tick(10 * SECOND)) == w1;
    assert Expired(w1.db, w1.now) == {0};
    assert w1.db.versions - {0} == map[] && w1.volume.staging - {0} == map[];
  }

  /** A hang-up between the rename and the commit leaves an object that no row and no ledger entry
      knows of, even after the reservation is swept. No limit ever counts it, and nothing in the
      flow deletes it. */
  lemma HangupOrphansAnObject()
    ensures var w := Run(Settings(9), Start(Publisher(9), 0), Orphaning());
      && w.volume.artifacts == map[Key() := [7]] && OrphanBytes(w.db, w.volume.artifacts) == 1
      && w.db.versions == map[] && w.db.ledger == [] && w.inflight == map[] && w.volume.staging == map[]
  {
    var env, s := Settings(9), Start(Publisher(9), 0);
    var a1 := [Ask(0, OneByte("1"), 1, RequestLayer)];
    var a2 := [Begin(0, 0), Write(0, [7]), Sync(0)];
    var a3 := [Verify(0, RequestLayer), Probe(0), Place(0)];
    var a4 := [Hangup(0), Tick(10 * SECOND), SweepNow];
    RunJoin(env, s, a1, a2 + (a3 + a4));
    RunJoin(env, World1(9), a2, a3 + a4);
    RunJoin(env, Sent(), a3, a4);
    FirstAsk(env, 9, 5, 5, 9);
    assert Run(env, s, a1) == Run(env, World1(9), []);
    SendsOne(env);
    RenamesOne(env);
    LosesOne(env);
    OrphanCounted(Orphaned().db, Orphaned().volume.artifacts);
  }

  lemma OrphanCounted(db: Db, artifacts: map<string, Bytes>)
    requires db.versions == map[] && artifacts == map[Key() := [7]]
    ensures OrphanBytes(db, artifacts) == 1
  {
    SumZero(db.nextVersion, RefWeight(db, Key()));
    SumTake(artifacts.Keys, OrphanWeight(db, artifacts), Key());
    assert artifacts.Keys - {Key()} == {};
  }

  // ----- refusals that leave something behind -----

  function Ones(): (s: Sha256) {
    seq(64, _ => '1')
  }

  function Misdeclared(): Request {
    Request("m", "1", Ones(), 1)
  }

  /** Over HTTP a wrong digest keeps the name taken; in a session that is kept it frees it. */
  lemma WrongDigestKeepsTheName()
    ensures var env := Settings(9);
      var w := Step(env, Start(Publisher(9), 0), Ask(0, Misdeclared(), 1, RequestLayer));
      && Receive(env.hash, w.db, w.volume, w.now, 0, 0, [[7]]).result == Err(WrongDigest(Ones(), Zeros()))
      && NameUsed(Step(env, w, Upload(0, 0, [[7]], RequestLayer)).db, 0, "1")
      && !NameUsed(Step(env, w, Upload(0, 0, [[7]], SessionLayer)).db, 0, "1")
  {
    var env := Settings(9);
    var w := Step(env, Start(Publisher(9), 0), Ask(0, Misdeclared(), 1, RequestLayer));
    var row := Version(0, "1", Ones(), 1, "", Reserved, None, 0, None, Some(10 * SECOND));
    OneChunk();
    assert Ones()[0] != Zeros()[0];
    assert w == World1(9).(db := Records(9, map[0 := row], [], 1));
    assert w.db.versions[0] == row;
    assert Step(env, w, Upload(0, 0, [[7]], RequestLayer)).db == w.db;
    assert Step(env, w, Upload(0, 0, [[7]], SessionLayer)).db.versions == map[];
  }

  /** Where no versions are allowed, the first reservation is refused and leaves its model in a
      session that is kept; over HTTP it leaves nothing. */
  lemma RefusalLeavesAModel()
    ensures var env, s := Bounded(9, 0, 5), Start(Publisher(9), 0);
      && Asked(env, s, 0, OneByte("1"), 1).result == Err(TooManyVersions(0, 0))
      && Step(env, s, Ask(0, OneByte("1"), 1, SessionLayer)).db.models == map[0 := Model(0, "m", Public, Active)]
      && Step(env, s, Ask(0, OneByte("1"), 1, RequestLayer)) == s
  {
  }

  // ----- one model too many -----

  /** Where one model is allowed, a second is refused, with the figures; from empty tables. */
  lemma SecondModelIsRefused()
    ensures var env := Settings(9).(cfg := Settings(9).cfg.(maxModels := 1));
      var w := Run(env, Start(Publisher(9), 0), [Ask(0, OneByte("1"), 1, RequestLayer)]);
      && Granted(env, Start(Publisher(9), 0), Ask(0, OneByte("1"), 1, RequestLayer))
      && Asked(env, w, 0, OneByte("1").(slug := "b"), 1).result == Err(TooManyModels(1, 1))
  {
    var env := Settings(9).(cfg := Settings(9).cfg.(maxModels := 1));
    var a := Ask(0, OneByte("1"), 1, RequestLayer);
    var w := World1(9);
    assert Step(env, Start(Publisher(9), 0), a) == w;
    assert [a][1..] == [];
    assert Run(env, Start(Publisher(9), 0), [a]) == Run(env, w, []);
    assert CountSince(w.db, 0, 0 - DAY) <= 1 && PendingBytes(w.db, 0, 0) == 1;
    assert FindModel(w.db.models, 1, 0, "b") == None;
    assert ModelWeight(w.db, 0)(0) == 1 && ModelCount(w.db, 0) == 1;
  }
}
