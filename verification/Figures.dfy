/** The counts that admission compares, said without the sums that compute them: how many rows there
    are. */
module Figures {
  import opened Basics
  import opened Schema
  import opened Quota
  import opened Changes

  function ModelsOf(db: Db, u: UserId): set<ModelId> {
    set m | m in db.models && db.models[m].owner == u
  }

  function VersionsOf(db: Db, m: ModelId): set<VersionId> {
    set i | i in db.versions && db.versions[i].model == m
  }

  /** The version rows of an account's models that were created at `from` or later. */
  function StartedSince(db: Db, u: UserId, from: Time): set<VersionId> {
    set i | i in db.versions && db.versions[i].model in db.models
      && db.models[db.versions[i].model].owner == u && from <= db.versions[i].createdAt
  }

  /** A sum of ones counts the indices that carry one. */
  lemma {:induction false} SumIsCount(n: nat, f: nat -> nat, s: set<nat>)
    requires forall i: nat | i < n :: f(i) == if i in s then 1 else 0
    requires forall i | i in s :: i < n
    ensures SumUpTo(n, f) == |s|
  {
    if n == 0 {
      assert s == {};
    } else {
      var m: nat := n - 1;
      SumIsCount(m, f, s - {m});
      assert s == if m in s then (s - {m}) + {m} else s - {m};
    }
  }

  lemma ModelsCounted(db: Db, now: Time, u: UserId)
    requires Tidy(db, now)
    ensures ModelCount(db, u) == |ModelsOf(db, u)|
  {
    SumIsCount(db.nextModel, ModelWeight(db, u), ModelsOf(db, u));
  }

  lemma VersionsCounted(db: Db, now: Time, m: ModelId)
    requires Tidy(db, now)
    ensures VersionCount(db, m) == |VersionsOf(db, m)|
  {
    SumIsCount(db.nextVersion, VersionWeight(db, m), VersionsOf(db, m));
  }

  lemma StartedCounted(db: Db, now: Time, u: UserId, from: Time)
    requires Tidy(db, now)
    ensures CountSince(db, u, from) == |StartedSince(db, u, from)|
  {
    SumIsCount(db.nextVersion, SinceWeight(db, u, from), StartedSince(db, u, from));
  }
}
