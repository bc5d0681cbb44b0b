/** Every figure that admission compares: sums over the ledger and over the rows, and counts of rows. */
module Quota {
  import opened Basics
  import opened Schema

  // ----- usage -----

  /** The balance of the ledger entries that belong to `u`. */
  function StoredBytes(ledger: seq<Entry>, u: UserId): int {
    if ledger == [] then 0 else
      var last := ledger[|ledger| - 1];
      StoredBytes(ledger[..|ledger| - 1], u) + if last.user == u then last.delta else 0
  }

  function PendingWeight(db: Db, u: UserId, now: Time): nat -> nat {
    (i: nat) =>
      if i in db.versions && Owned(db, db.versions[i], u) && IsLive(db.versions[i], now)
      then db.versions[i].size else 0
  }

  /** The sizes of the account's live reservations. */
  function PendingBytes(db: Db, u: UserId, now: Time): nat {
    SumUpTo(db.nextVersion, PendingWeight(db, u, now))
  }

  datatype Usage = Usage(usedBytes: int, reservedBytes: nat, limitBytes: int) {
    function AvailableBytes(): nat {
      Max(0, limitBytes - usedBytes - reservedBytes)
    }

    predicate CanFit(size: int) {
      size <= AvailableBytes()
    }
  }

  function UsageFor(db: Db, u: UserId, limit: int, now: Time): Usage {
    Usage(StoredBytes(db.ledger, u), PendingBytes(db, u, now), limit)
  }

  // ----- count ceilings -----

  function ModelWeight(db: Db, u: UserId): nat -> nat {
    (i: nat) => if i in db.models && db.models[i].owner == u then 1 else 0
  }

  function ModelCount(db: Db, u: UserId): nat {
    SumUpTo(db.nextModel, ModelWeight(db, u))
  }

  function VersionWeight(db: Db, m: ModelId): nat -> nat {
    (i: nat) => if i in db.versions && db.versions[i].model == m then 1 else 0
  }

  function VersionCount(db: Db, m: ModelId): nat {
    SumUpTo(db.nextVersion, VersionWeight(db, m))
  }

  function SinceWeight(db: Db, u: UserId, since: Time): nat -> nat {
    (i: nat) =>
      if i in db.versions && Owned(db, db.versions[i], u) && since <= db.versions[i].createdAt
      then 1 else 0
  }

  function CountSince(db: Db, u: UserId, since: Time): nat {
    SumUpTo(db.nextVersion, SinceWeight(db, u, since))
  }

  // ----- the host's own limits -----

  /** The sum of all entries, whoever they belong to. */
  function TotalStored(ledger: seq<Entry>): int {
    if ledger == [] then 0 else TotalStored(ledger[..|ledger| - 1]) + ledger[|ledger| - 1].delta
  }

  lemma AppendEntry(ledger: seq<Entry>, e: Entry)
    ensures TotalStored(ledger + [e]) == TotalStored(ledger) + e.delta
    ensures forall u ::
      StoredBytes(ledger + [e], u) == StoredBytes(ledger, u) + if e.user == u then e.delta else 0
  {
    assert (ledger + [e])[..|ledger|] == ledger;
  }
}
