/** Deduplicated bytes against charged bytes: one object, each owner charged for it. */
module Conservation {
  import opened Basics
  import opened Schema
  import opened Keys
  import opened Quota
  import opened Protocol
  import opened Changes
  import opened Ledger
  import opened Allowance
  import opened CrashSafety
  import opened JanitorRuns

  function RefWeight(db: Db, k: string): nat -> nat {
    (i: nat) => if i in db.versions && IsStored(db.versions[i]) && db.versions[i].objectKey == k then 1 else 0
  }

  /** How many stored rows point at a key. */
  function Refs(db: Db, k: string): nat {
    SumUpTo(db.nextVersion, RefWeight(db, k))
  }

  ghost function ObjectBytes(artifacts: map<string, Bytes>): string -> nat {
    (k: string) => if k in artifacts then |artifacts[k]| else 0
  }

  /** What the artifact store really holds. */
  ghost function ArtifactBytes(artifacts: map<string, Bytes>): nat {
    SumOver(artifacts.Keys, ObjectBytes(artifacts))
  }

  /** An object's bytes counted once for each of the rows below `n` that point at it. */
  ghost function ChargedFor(db: Db, n: nat, artifacts: map<string, Bytes>): string -> nat {
    (k: string) => if k in artifacts then |artifacts[k]| * SumUpTo(n, RefWeight(db, k)) else 0
  }

  ghost predicate RowsMeasured(db: Db, artifacts: map<string, Bytes>) {
    forall i | i in db.versions && IsStored(db.versions[i]) ::
      db.versions[i].objectKey in artifacts && |artifacts[db.versions[i].objectKey]| == db.versions[i].size
  }

  ghost predicate NoSharedDigest(db: Db) {
    forall i, j | i in db.versions && j in db.versions && IsStored(db.versions[i]) && IsStored(db.versions[j])
      && db.versions[i].sha256 == db.versions[j].sha256 :: i == j
  }

  ghost predicate HasStoredRow(db: Db, k: string) {
    exists i | i in db.versions :: IsStored(db.versions[i]) && db.versions[i].objectKey == k
  }

  ghost predicate NoOrphans(db: Db, artifacts: map<string, Bytes>) {
    forall k | k in artifacts :: HasStoredRow(db, k)
  }

  /** Summing over rows and summing over keys count the same bytes. */
  lemma {:induction false} RowsAgainstKeys(db: Db, n: nat, artifacts: map<string, Bytes>)
    requires RowsMeasured(db, artifacts)
    ensures SumUpTo(n, AnyStoredWeight(db)) == SumOver(artifacts.Keys, ChargedFor(db, n, artifacts))
  {
    if n == 0 {
      NothingCharged(artifacts.Keys, ChargedFor(db, 0, artifacts));
    } else {
      var m: nat := n - 1;
      RowsAgainstKeys(db, m, artifacts);
      if m in db.versions && IsStored(db.versions[m]) {
        RowAgainstKey(db, m, artifacts);
      } else {
        NoRowAgainstKeys(db, m, artifacts);
      }
    }
  }

  lemma NoRowAgainstKeys(db: Db, n: nat, artifacts: map<string, Bytes>)
    requires n !in db.versions || !IsStored(db.versions[n])
    ensures SumOver(artifacts.Keys, ChargedFor(db, n + 1, artifacts))
      == SumOver(artifacts.Keys, ChargedFor(db, n, artifacts))
  {
    var f, g := ChargedFor(db, n + 1, artifacts), ChargedFor(db, n, artifacts);
    forall k | k in artifacts.Keys ensures f(k) == g(k) {
      assert RefWeight(db, k)(n) == 0;
    }
    SumOverSame(artifacts.Keys, f, g);
  }

  /** One more stored row adds its bytes at its own key, and nothing anywhere else. */
  lemma RowAgainstKey(db: Db, n: nat, artifacts: map<string, Bytes>)
    requires RowsMeasured(db, artifacts) && n in db.versions && IsStored(db.versions[n])
    ensures SumOver(artifacts.Keys, ChargedFor(db, n + 1, artifacts))
         == SumOver(artifacts.Keys, ChargedFor(db, n, artifacts)) + db.versions[n].size
  {
    var f, g := ChargedFor(db, n + 1, artifacts), ChargedFor(db, n, artifacts);
    var key := db.versions[n].objectKey;
    forall k | k in artifacts.Keys - {key} ensures f(k) == g(k) {
      assert RefWeight(db, k)(n) == 0;
    }
    assert f(key) == g(key) + |artifacts[key]| by {
      assert RefWeight(db, key)(n) == 1;
      OneMore(|artifacts[key]|, SumUpTo(n, RefWeight(db, key)));
    }
    SumTake(artifacts.Keys, f, key);
    SumTake(artifacts.Keys, g, key);
    SumOverSame(artifacts.Keys - {key}, f, g);
  }

  lemma OneMore(bytes: nat, refs: nat)
    ensures bytes * (refs + 1) == bytes * refs + bytes
  {
  }

  lemma {:induction false} NothingCharged(s: set<string>, f: string -> nat)
    requires forall k | k in s :: f(k) == 0
    ensures SumOver(s, f) == 0
    decreases s
  {
    if s != {} {
      var k :| k in s;
      SumTake(s, f, k);
      NothingCharged(s - {k}, f);
    }
  }

  /** What the digests say of the rows of a reachable state. */
  lemma RowsAreMeasured(env: Env, users: map<UserId, User>, t: Time, actions: seq<Action>)
    requires NoCollision(env.hash, Run(env, Start(users, t), actions).measured)
    ensures var w := Run(env, Start(users, t), actions); RowsMeasured(w.db, w.volume.artifacts)
  {
    var w := Run(env, Start(users, t), actions);
    forall i | i in w.db.versions && IsStored(w.db.versions[i])
      ensures w.db.versions[i].objectKey in w.volume.artifacts
      ensures |w.volume.artifacts[w.db.versions[i].objectKey]| == w.db.versions[i].size
    {
      StoredRowsHaveTheirBytes(env, users, t, actions, i);
    }
  }

  /** Conservation, in every reachable state, crashes and objects nobody refers to included: the
      ledger total is the bytes of every stored object, each counted once for every stored row
      that points at it. */
  lemma LedgerIsObjectsTimesRefs(env: Env, users: map<UserId, User>, t: Time, actions: seq<Action>)
    requires NoCollision(env.hash, Run(env, Start(users, t), actions).measured)
    ensures var w := Run(env, Start(users, t), actions);
      TotalStored(w.db.ledger)
        == SumOver(w.volume.artifacts.Keys, ChargedFor(w.db, w.db.nextVersion, w.volume.artifacts))
  {
    var w := Run(env, Start(users, t), actions);
    RowsAreMeasured(env, users, t, actions);
    LedgerIsExact(env, users, t, actions, 0, 0);
    RowsAgainstKeys(w.db, w.db.nextVersion, w.volume.artifacts);
  }

  // ----- deduplication -----

  lemma RefsAtLeast(db: Db, k: string, i: VersionId)
    requires i < db.nextVersion && i in db.versions && IsStored(db.versions[i]) && db.versions[i].objectKey == k
    ensures 1 <= Refs(db, k)
  {
    SumAtLeast(db.nextVersion, RefWeight(db, k), i);
  }

  lemma {:induction false} TwoRefs(n: nat, f: nat -> nat, i: nat, j: nat)
    requires i < j < n && f(i) == 1 && f(j) == 1
    ensures 2 <= SumUpTo(n, f)
  {
    if j == n - 1 {
      SumAtLeast(n - 1, f, i);
    } else {
      TwoRefs(n - 1, f, i, j);
    }
  }

  lemma {:induction false} OneRef(n: nat, f: nat -> nat, i: nat)
    requires forall j: nat | j < n :: f(j) == if j == i then 1 else 0
    ensures SumUpTo(n, f) == if i < n then 1 else 0
  {
    if n > 0 {
      OneRef(n - 1, f, i);
    }
  }

  ghost function OrphanWeight(db: Db, artifacts: map<string, Bytes>): string -> nat {
    (k: string) => if k in artifacts && Refs(db, k) == 0 then |artifacts[k]| else 0
  }

  /** Bytes of objects that no stored row points at. */
  ghost function OrphanBytes(db: Db, artifacts: map<string, Bytes>): nat {
    SumOver(artifacts.Keys, OrphanWeight(db, artifacts))
  }

  /** No object is referred to twice exactly when no two stored rows share a digest. */
  lemma SharedMeansTwice(db: Db, now: Time, artifacts: map<string, Bytes>)
    requires Tidy(db, now) && RowsMeasured(db, artifacts)
    ensures NoSharedDigest(db) <==> forall k | k in artifacts :: Refs(db, k) <= 1
  {
    if NoSharedDigest(db) {
      forall k | k in artifacts ensures Refs(db, k) <= 1 {
        if i :| i in db.versions && IsStored(db.versions[i]) && db.versions[i].objectKey == k {
          Unshared(db, now, i);
        } else {
          SumZero(db.nextVersion, RefWeight(db, k));
        }
      }
    } else {
      var i, j :| i in db.versions && j in db.versions && IsStored(db.versions[i]) && IsStored(db.versions[j])
        && db.versions[i].sha256 == db.versions[j].sha256 && i < j;
      var k := db.versions[i].objectKey;
      TwoRefs(db.nextVersion, RefWeight(db, k), i, j);
      assert k in artifacts && Refs(db, k) > 1;
    }
  }

  lemma Unshared(db: Db, now: Time, i: VersionId)
    requires Tidy(db, now) && NoSharedDigest(db) && i in db.versions && IsStored(db.versions[i])
    ensures Refs(db, db.versions[i].objectKey) == 1
  {
    var k := db.versions[i].objectKey;
    forall j: nat | j < db.nextVersion ensures RefWeight(db, k)(j) == if j == i then 1 else 0 {
      if j in db.versions && IsStored(db.versions[j]) {
        assert IsRow(db.versions[i]) && IsRow(db.versions[j]);
        KeyNamesDigest(db.versions[i].sha256, db.versions[j].sha256);
      }
    }
    OneRef(db.nextVersion, RefWeight(db, k), i);
  }

  lemma OnceEach(bytes: nat, refs: nat)
    requires 0 < bytes && 1 <= refs
    ensures bytes <= bytes * refs && (bytes == bytes * refs <==> refs == 1)
  {
    assert bytes * refs == bytes + bytes * (refs - 1);
    if refs > 1 {
      assert 0 < bytes * (refs - 1);
    }
  }

  ghost function Accounted(db: Db, artifacts: map<string, Bytes>): string -> nat {
    var charged, orphaned := ChargedFor(db, db.nextVersion, artifacts), OrphanWeight(db, artifacts);
    (k: string) => charged(k) + orphaned(k)
  }

  lemma ObjectAgainstCharge(db: Db, now: Time, artifacts: map<string, Bytes>, k: string)
    requires Tidy(db, now) && RowsMeasured(db, artifacts) && k in artifacts
    ensures var f, g := ObjectBytes(artifacts), Accounted(db, artifacts);
      f(k) <= g(k) && (f(k) == g(k) <==> Refs(db, k) <= 1)
  {
    if i :| i in db.versions && IsStored(db.versions[i]) && db.versions[i].objectKey == k {
      RefsAtLeast(db, k, i);
      OnceEach(|artifacts[k]|, Refs(db, k));
    } else {
      SumZero(db.nextVersion, RefWeight(db, k));
      NoneCharged(|artifacts[k]|, Refs(db, k));
    }
  }

  lemma NoneCharged(bytes: nat, refs: nat)
    requires refs == 0
    ensures bytes * refs == 0
  {
  }

  lemma {:induction false} SumOverBoth(s: set<string>, f: string -> nat, g: string -> nat, h: string -> nat)
    requires forall k | k in s :: h(k) == f(k) + g(k)
    ensures SumOver(s, h) == SumOver(s, f) + SumOver(s, g)
    decreases s
  {
    if s != {} {
      var k :| k in s;
      SumTake(s, f, k);
      SumTake(s, g, k);
      SumTake(s, h, k);
      SumOverBoth(s - {k}, f, g, h);
    }
  }

  /** In every reachable state, crashes included: the store holds at most what was charged and what
      was orphaned, and exactly that if and only if no two stored rows share a digest. */
  lemma Deduplication(env: Env, users: map<UserId, User>, t: Time, actions: seq<Action>)
    requires NoCollision(env.hash, Run(env, Start(users, t), actions).measured)
    ensures var w := Run(env, Start(users, t), actions);
      var accounted := TotalStored(w.db.ledger) + OrphanBytes(w.db, w.volume.artifacts);
      && ArtifactBytes(w.volume.artifacts) <= accounted
      && (ArtifactBytes(w.volume.artifacts) == accounted <==> NoSharedDigest(w.db))
  {
    var w := Run(env, Start(users, t), actions);
    RowsAreMeasured(env, users, t, actions);
    LedgerIsObjectsTimesRefs(env, users, t, actions);
    RunSteady(env, Start(users, t), actions);
    StoreAgainstCharge(w.db, w.now, w.volume.artifacts);
  }

  lemma StoreAgainstCharge(db: Db, now: Time, artifacts: map<string, Bytes>)
    requires Tidy(db, now) && RowsMeasured(db, artifacts)
    ensures var charged := SumOver(artifacts.Keys, ChargedFor(db, db.nextVersion, artifacts));
      var accounted := charged + OrphanBytes(db, artifacts);
      && ArtifactBytes(artifacts) <= accounted
      && (ArtifactBytes(artifacts) == accounted <==> NoSharedDigest(db))
  {
    var f, g := ObjectBytes(artifacts), Accounted(db, artifacts);
    SumOverBoth(artifacts.Keys, ChargedFor(db, db.nextVersion, artifacts), OrphanWeight(db, artifacts), g);
    forall k | k in artifacts.Keys ensures f(k) <= g(k) && (f(k) == g(k) <==> Refs(db, k) <= 1) {
      ObjectAgainstCharge(db, now, artifacts, k);
    }
    SumOverBelow(artifacts.Keys, f, g);
    SharedMeansTwice(db, now, artifacts);
  }

  /** The disk itself: in every reachable state the store holds at most the cap and the most that any
      grant overlapped, and beyond that only late charges and orphans. Nothing bounds the orphans. */
  lemma DiskBound(env: Env, users: map<UserId, User>, t: Time, actions: seq<Action>)
    requires NoCollision(env.hash, Run(env, Start(users, t), actions).measured)
    ensures var w := Run(env, Start(users, t), actions);
      ArtifactBytes(w.volume.artifacts) + AllPendingBytes(w.db, w.now)
        <= Max(0, env.cfg.footprintCap) + PeakOverlap(env, Start(users, t), actions)
           + AllLateBytes(w.db) + OrphanBytes(w.db, w.volume.artifacts)
  {
    Deduplication(env, users, t, actions);
    FootprintBound(env, users, t, actions);
  }

  lemma NothingOrphaned(db: Db, now: Time, artifacts: map<string, Bytes>)
    requires Tidy(db, now) && NoOrphans(db, artifacts)
    ensures OrphanBytes(db, artifacts) == 0
  {
    forall k | k in artifacts.Keys ensures OrphanWeight(db, artifacts)(k) == 0 {
      assert HasStoredRow(db, k);
      var i :| i in db.versions && IsStored(db.versions[i]) && db.versions[i].objectKey == k;
      RefsAtLeast(db, k, i);
    }
    NothingCharged(artifacts.Keys, OrphanWeight(db, artifacts));
  }

  lemma KeepOwners(env: Env, w: World, a: Action)
    requires Steady(w) && Matched(env, w) && w.inflight == map[] && IsWhole(a) && NoOrphans(w.db, w.volume.artifacts)
    ensures NoOrphans(Step(env, w, a).db, Step(env, w, a).volume.artifacts)
  {
    var w1 := Step(env, w, a);
    forall k | k in w1.volume.artifacts ensures HasStoredRow(w1.db, k) {
      if k in w.volume.artifacts {
        assert HasStoredRow(w.db, k);
        var i :| i in w.db.versions && IsStored(w.db.versions[i]) && w.db.versions[i].objectKey == k;
        StepRow(env, w, a, i);
        assert IsStored(w1.db.versions[i]);
      } else {
        assert a.Upload? && IsStored(w1.db.versions[a.id]);
      }
    }
  }

  lemma {:induction false} RunOwners(env: Env, w: World, actions: seq<Action>)
    requires Steady(w) && Matched(env, w) && w.inflight == map[] && NoOrphans(w.db, w.volume.artifacts)
    requires forall a | a in actions :: IsWhole(a)
    ensures NoOrphans(Run(env, w, actions).db, Run(env, w, actions).volume.artifacts)
    decreases |actions|
  {
    if actions != [] {
      KeepOwners(env, w, actions[0]);
      StepSteady(env, w, actions[0]);
      WholeStepPunctual(env, w, actions[0]);
      RunOwners(env, Step(env, w, actions[0]), actions[1..]);
    }
  }

  /** Receives that nothing interrupts never orphan an object. */
  lemma WholeRunHasNoOrphans(env: Env, users: map<UserId, User>, t: Time, actions: seq<Action>)
    requires forall a | a in actions :: IsWhole(a)
    ensures var w := Run(env, Start(users, t), actions); NoOrphans(w.db, w.volume.artifacts)
  {
    RunOwners(env, Start(users, t), actions);
  }

  // ----- orphans under interleaving -----

  /** Nothing is cut short: no crash, no hang-up, and no sweep that takes a transfer's row away. */
  predicate IsTended(w: World, a: Action) {
    !a.Crash? && !a.Hangup? && (a.SweepNow? ==> Spares(w))
  }

  predicate Tended(env: Env, w: World, actions: seq<Action>)
    decreases |actions|
  {
    actions == [] || (IsTended(w, actions[0]) && Tended(env, Step(env, w, actions[0]), actions[1..]))
  }

  /** A transfer that is about to commit will make a row that points at the key. */
  predicate IsAwaited(env: Env, w: World, k: string, id: VersionId) {
    InPhase(w, id, Placed) && id in w.db.versions && ObjectKey(env.hash(w.inflight[id].written)) == k
  }

  ghost predicate Claimed(env: Env, w: World, k: string) {
    HasStoredRow(w.db, k) || exists id :: IsAwaited(env, w, k, id)
  }

  ghost predicate AllClaimed(env: Env, w: World) {
    && (forall id | id in w.inflight :: id in w.db.versions)
    && (forall k | k in w.volume.artifacts :: Claimed(env, w, k))
  }

  /** A transfer that goes on keeps its row; only a failed check drops both. */
  lemma RowsKept(env: Env, w: World, a: Action, id: VersionId)
    requires Steady(w) && IsTended(w, a) && id in Step(env, w, a).inflight
    requires id in w.inflight ==> id in w.db.versions
    ensures id in Step(env, w, a).db.versions
  {
    if a.Ask? && a.u in w.db.users {
      AskedKeeps(env, w, a, id);
    }
  }

  lemma AwaitedKept(env: Env, w: World, a: Action, k: string, id: VersionId)
    requires Steady(w) && IsTended(w, a) && IsAwaited(env, w, k, id)
    ensures Claimed(env, Step(env, w, a), k)
  {
    var w1 := Step(env, w, a);
    if a == Commit(id) {
      assert IsStored(w1.db.versions[id]) && w1.db.versions[id].objectKey == k;
    } else {
      AwaitedStays(env, w, a, k, id);
      RowsKept(env, w, a, id);
      assert IsAwaited(env, w1, k, id);
    }
  }

  lemma AwaitedStays(env: Env, w: World, a: Action, k: string, id: VersionId)
    requires IsTended(w, a) && IsAwaited(env, w, k, id) && a != Commit(id)
    ensures InPhase(Step(env, w, a), id, Placed) && Step(env, w, a).inflight[id] == w.inflight[id]
  {
  }

  /** A key that appears is the one of the transfer or the receive that put it there. */
  lemma NewKeyClaimed(env: Env, w: World, a: Action, k: string)
    requires AllClaimed(env, w) && IsTended(w, a) && k in Step(env, w, a).volume.artifacts && k !in w.volume.artifacts
    ensures Claimed(env, Step(env, w, a), k)
  {
    var w1 := Step(env, w, a);
    if a.Upload? {
      assert IsStored(w1.db.versions[a.id]) && w1.db.versions[a.id].objectKey == k;
    } else {
      ArtifactsAfter(env, w, a);
      assert IsAwaited(env, w1, k, a.id);
    }
  }

  lemma KeepClaims(env: Env, w: World, a: Action)
    requires Steady(w) && Matched(env, w) && AllClaimed(env, w) && IsTended(w, a)
    ensures AllClaimed(env, Step(env, w, a))
  {
    var w1 := Step(env, w, a);
    forall id | id in w1.inflight ensures id in w1.db.versions {
      RowsKept(env, w, a, id);
    }
    forall k | k in w1.volume.artifacts ensures Claimed(env, w1, k) {
      if k !in w.volume.artifacts {
        NewKeyClaimed(env, w, a, k);
      } else if HasStoredRow(w.db, k) {
        var i :| i in w.db.versions && IsStored(w.db.versions[i]) && w.db.versions[i].objectKey == k;
        StepRow(env, w, a, i);
        assert HasStoredRow(w1.db, k);
      } else {
        var id :| IsAwaited(env, w, k, id);
        AwaitedKept(env, w, a, k, id);
      }
    }
  }

  lemma {:induction false} RunClaims(env: Env, w: World, actions: seq<Action>)
    requires Steady(w) && Matched(env, w) && AllClaimed(env, w) && Tended(env, w, actions)
    ensures AllClaimed(env, Run(env, w, actions))
    decreases |actions|
  {
    if actions != [] {
      KeepClaims(env, w, actions[0]);
      StepSteady(env, w, actions[0]);
      RunClaims(env, Step(env, w, actions[0]), actions[1..]);
    }
  }

  /** However transfers are interleaved, two of one digest racing included: while nothing is cut
      short, every object has a stored row or a transfer that is about to commit one; so none is an
      orphan between commits. */
  lemma TendedRunHasNoOrphans(env: Env, users: map<UserId, User>, t: Time, actions: seq<Action>)
    requires Tended(env, Start(users, t), actions)
    ensures var w := Run(env, Start(users, t), actions);
      && (forall k | k in w.volume.artifacts :: HasStoredRow(w.db, k) || exists id :: IsAwaited(env, w, k, id))
      && ((forall id :: !InPhase(w, id, Placed)) ==> NoOrphans(w.db, w.volume.artifacts))
  {
    var w := Run(env, Start(users, t), actions);
    RunClaims(env, Start(users, t), actions);
    forall k | k in w.volume.artifacts ensures HasStoredRow(w.db, k) || exists id :: IsAwaited(env, w, k, id) {
      assert Claimed(env, w, k);
    }
    if forall id :: !InPhase(w, id, Placed) {
      forall k | k in w.volume.artifacts ensures HasStoredRow(w.db, k) {
        assert forall id :: !IsAwaited(env, w, k, id);
      }
    }
  }

  /** So in every such state the store holds at most what was charged, and exactly that if and only
      if no two stored rows share a digest. */
  lemma TendedDeduplication(env: Env, users: map<UserId, User>, t: Time, actions: seq<Action>)
    requires NoCollision(env.hash, Run(env, Start(users, t), actions).measured)
    requires Tended(env, Start(users, t), actions)
    requires forall id :: !InPhase(Run(env, Start(users, t), actions), id, Placed)
    ensures var w := Run(env, Start(users, t), actions);
      && ArtifactBytes(w.volume.artifacts) <= TotalStored(w.db.ledger)
      && (ArtifactBytes(w.volume.artifacts) == TotalStored(w.db.ledger) <==> NoSharedDigest(w.db))
  {
    var w := Run(env, Start(users, t), actions);
    TendedRunHasNoOrphans(env, users, t, actions);
    Deduplication(env, users, t, actions);
    RunSteady(env, Start(users, t), actions);
    NothingOrphaned(w.db, w.now, w.volume.artifacts);
  }
}
