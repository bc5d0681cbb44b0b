/** Publishing. One uploaded row moves to one of two states, as the deployment is configured. */
module Publishing {
  import opened Basics
  import opened Schema
  import opened Tables

  function Shown(v: Version, verify: bool, now: Time): Version {
    if verify then v.(state := Verifying)
    else v.(state := Published, publishedAt := Some(now), verification := Some(Report(None)))
  }

  /** The caller's own row moves on, if it is an uploaded one. */
  function Publish(db: Db, now: Time, id: VersionId, u: UserId, cfg: Config): (Db, Result<VersionId, Refusal>) {
    if id !in db.versions || !Owned(db, db.versions[id], u) then (db, Err(NoSuchUpload))
    else if db.versions[id].state != Uploaded then (db, Err(NotReceived(db.versions[id].state)))
    else
      (db.(versions := db.versions[id := Shown(db.versions[id], cfg.requireVerification, now)]), Ok(id))
  }

  method PublishVersion(session: Session, now: Time, id: VersionId, u: UserId, cfg: Config)
    returns (r: Result<VersionId, Refusal>)
    modifies session
    ensures (session.View(), r) == Publish(old(session.View()), now, id, u, cfg)
  {
    if id !in session.versions || !Owned(session.View(), session.versions[id], u) {
      return Err(NoSuchUpload);
    }
    var v := session.versions[id];
    if v.state != Uploaded {
      return Err(NotReceived(v.state));
    }
    if cfg.requireVerification {
      v := v.(state := Verifying);
    } else {
      v := v.(state := Published);
      v := v.(publishedAt := Some(now));
      v := v.(verification := Some(Report(None)));
    }
    session.versions := session.versions[id := v];
    r := Ok(id);
  }
}
