/** Receiving. `Receive` is phase two as a function of tables, volume and stream, with nothing in
    between; `ReceiveBytes` works on a session and a storage, and is proved equal to it. */
module Receiving {
  import opened Basics
  import opened Schema
  import opened Keys
  import opened Storage
  import opened Tables

  /** The row that bytes may still be sent for, or which of the three refusals applies. */
  function ReservedSlot(db: Db, id: VersionId, u: UserId, now: Time): Result<Version, Refusal> {
    if id !in db.versions || !Owned(db, db.versions[id], u) then Err(NoSuchUpload) else
      var v := db.versions[id];
      if v.state != Reserved then Err(NotAwaitingBytes(v.state))
      else if v.expiresAt.Some? && v.expiresAt.value <= now then Err(ReservationExpired)
      else Ok(v)
  }

  /** Length first, then digest: what makes a measured stream the wrong one. */
  function CheckMeasured(size: int, sha256: string, blob: StoredBlob): Option<Refusal> {
    if blob.size != size then Some(WrongSize(size, blob.size))
    else if blob.sha256 != sha256 then Some(WrongDigest(sha256, blob.sha256))
    else None
  }

  /** The row becomes an uploaded one and the ledger is charged what was measured. */
  function Charged(db: Db, id: VersionId, u: UserId, key: string, size: nat, now: Time): Db
    requires id in db.versions
  {
    db.(versions := db.versions[id := db.versions[id].(objectKey := key, state := Uploaded)],
        ledger := db.ledger + [Entry(u, id, size, CommitReason, now)])
  }

  function Abandoned(db: Db, id: VersionId): Db {
    db.(versions := db.versions - {id})
  }

  datatype Outcome = Outcome(db: Db, volume: Volume, result: Result<VersionId, Refusal>)

  /** The whole of phase two, with nothing in between: what it leaves in the session and on disk. */
  function Receive(hash: Hash, db: Db, vol: Volume, now: Time, id: VersionId, u: UserId, chunks: seq<Bytes>): Outcome {
    var slot := ReservedSlot(db, id, u, now);
    if slot.Err? then Outcome(db, vol, Err(slot.error)) else
      var v := slot.value;
      var blob := Staged(hash, chunks, v.size);
      var vol1 := StageAt(vol, id, chunks, v.size);
      if blob.Err? then Outcome(db, vol1, Err(blob.error)) else
        var wrong := CheckMeasured(v.size, v.sha256, blob.value);
        if wrong.Some? then Outcome(Abandoned(db, id), DiscardAt(vol1, id), Err(wrong.value))
        else
          Outcome(Charged(db, id, u, ObjectKey(blob.value.sha256), blob.value.size, now),
                  PromoteAt(vol1, id, blob.value.sha256),
                  Ok(id))
  }

  method ReceiveBytes(session: Session, storage: VolumeStorage, now: Time, id: VersionId, u: UserId, chunks: seq<Bytes>)
    returns (r: Result<VersionId, Refusal>)
    modifies session, storage
    ensures Outcome(session.View(), storage.View(), r)
         == Receive(storage.hash, old(session.View()), old(storage.View()), now, id, u, chunks)
  {
    var slot := ReservedSlot(session.View(), id, u, now);
    if slot.Err? {
      return Err(slot.error);
    }
    var v := slot.value;
    var staged := storage.Stage(id, chunks, v.size);
    if staged.Err? {
      return Err(staged.error);
    }
    var blob := staged.value;
    var wrong := CheckMeasured(v.size, v.sha256, blob);
    if wrong.Some? {
      storage.Discard(id);
      session.DeleteVersion(id);
      return Err(wrong.value);
    }
    var key := storage.Promote(id, blob.sha256);
    session.versions := session.versions[id := v.(objectKey := key.value, state := Uploaded)];
    session.AddEntry(Entry(u, id, blob.size, CommitReason, now));
    r := Ok(id);
  }
}
