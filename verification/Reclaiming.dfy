/** What the janitor is for: disk. Which staging files there can be, and which of them a sweep leaves. */
module Reclaiming {
  import opened Schema
  import opened Protocol
  import opened Changes
  import opened JanitorRuns

  predicate IsReserved(db: Db, i: VersionId) {
    i in db.versions && db.versions[i].state == Reserved
  }

  /** Each staging file belongs to a row that is still reserved, and a placed transfer has none. */
  ghost predicate Housed(w: World) {
    && (forall i | i in w.volume.staging :: IsReserved(w.db, i))
    && (forall i :: InPhase(w, i, Placed) ==> i !in w.volume.staging)
  }

  /** A row that is reserved stays so, but for its own commit, receive, refusal or sweep. */
  lemma ReservedStays(env: Env, w: World, a: Action, i: VersionId)
    requires Steady(w) && i in Step(env, w, a).volume.staging && i in w.volume.staging && IsReserved(w.db, i)
    requires InPhase(w, i, Placed) ==> i !in w.volume.staging
    ensures IsReserved(Step(env, w, a).db, i)
  {
    if a.Ask? && a.u in w.db.users {
      AskedKeeps(env, w, a, i);
    } else if a.Upload? {
      ReceiveTakesFile(env, w, a, i);
    } else if !a.Ask? {
      FileTakesRow(env, w, a, i);
    }
  }

  lemma ReceiveTakesFile(env: Env, w: World, a: Action, i: VersionId)
    requires a.Upload? && i in Step(env, w, a).volume.staging && i in w.volume.staging && IsReserved(w.db, i)
    ensures IsReserved(Step(env, w, a).db, i)
  {
  }

  /** What takes a reserved row away takes its staging file too. */
  lemma FileTakesRow(env: Env, w: World, a: Action, i: VersionId)
    requires !a.Ask? && !a.Upload? && i in Step(env, w, a).volume.staging && i in w.volume.staging
    requires IsReserved(w.db, i) && !InPhase(w, i, Placed)
    ensures IsReserved(Step(env, w, a).db, i)
  {
  }

  /** A staging file appears only when a transfer begins on a reserved row. */
  lemma StagedAnew(env: Env, w: World, a: Action, i: VersionId)
    requires i in Step(env, w, a).volume.staging && i !in w.volume.staging
    ensures a.Begin? && IsReserved(Step(env, w, a).db, i)
  {
  }

  lemma PlacedHasNone(env: Env, w: World, a: Action, i: VersionId)
    requires InPhase(Step(env, w, a), i, Placed)
    requires InPhase(w, i, Placed) ==> i !in w.volume.staging
    ensures i !in Step(env, w, a).volume.staging
  {
  }

  lemma KeepHoused(env: Env, w: World, a: Action)
    requires Steady(w) && Housed(w)
    ensures Housed(Step(env, w, a))
  {
    var w1 := Step(env, w, a);
    forall i | i in w1.volume.staging ensures IsReserved(w1.db, i) {
      if i in w.volume.staging {
        ReservedStays(env, w, a, i);
      } else {
        StagedAnew(env, w, a, i);
      }
    }
    forall i | InPhase(w1, i, Placed) ensures i !in w1.volume.staging {
      PlacedHasNone(env, w, a, i);
    }
  }

  lemma {:induction false} RunHoused(env: Env, w: World, actions: seq<Action>)
    requires Steady(w) && Matched(env, w) && Housed(w)
    ensures Housed(Run(env, w, actions))
    decreases |actions|
  {
    if actions != [] {
      KeepHoused(env, w, actions[0]);
      StepSteady(env, w, actions[0]);
      RunHoused(env, Step(env, w, actions[0]), actions[1..]);
    }
  }

  /** In every run, crashes and abandoned transfers included: each staging file belongs to a row that
      is still reserved; after a sweep, to a reservation that has not expired; so a sweep once all
      reservations have expired leaves no staging file at all. */
  lemma SweepReclaims(env: Env, users: map<UserId, User>, t: Time, actions: seq<Action>)
    ensures var w := Run(env, Start(users, t), actions);
      var swept := Step(env, w, SweepNow);
      && (forall i | i in w.volume.staging :: IsReserved(w.db, i))
      && (forall i | i in swept.volume.staging :: i in swept.db.versions && IsLive(swept.db.versions[i], w.now))
      && ((forall i | IsReserved(w.db, i) :: IsExpired(w.db.versions[i], w.now)) ==> swept.volume.staging == map[])
  {
    var w := Run(env, Start(users, t), actions);
    var swept := Step(env, w, SweepNow);
    RunSteady(env, Start(users, t), actions);
    RunHoused(env, Start(users, t), actions);
    forall i | i in swept.volume.staging ensures i in swept.db.versions && IsLive(swept.db.versions[i], w.now) {
      assert IsReserved(w.db, i) && IsRow(w.db.versions[i]);
    }
    if forall i | IsReserved(w.db, i) :: IsExpired(w.db.versions[i], w.now) {
      assert forall i :: i !in swept.volume.staging;
    }
  }
}
