/** The sweep: which rows it takes, what it leaves, and its loop proved equal to taking them at once. */
module Janitor {
  import opened Schema
  import opened Storage
  import opened Tables

  function Expired(db: Db, now: Time): set<VersionId> {
    set i | i in db.versions && IsExpired(db.versions[i], now)
  }

  function SweptDb(db: Db, now: Time): Db {
    db.(versions := db.versions - Expired(db, now))
  }

  function SweptVolume(vol: Volume, db: Db, now: Time): Volume {
    vol.(staging := vol.staging - Expired(db, now))
  }

  lemma RemoveOne<V>(left: map<VersionId, V>, s: map<VersionId, V>, gone: set<VersionId>, id: VersionId)
    requires left == s - gone
    ensures left - {id} == s - (gone + {id})
  {
  }

  lemma OneFewer(all: set<VersionId>, gone: set<VersionId>, left: set<VersionId>, id: VersionId)
    requires all == gone + left && gone !! left && id in left
    ensures all == (gone + {id}) + (left - {id}) && (gone + {id}) !! (left - {id}) && |left - {id}| + 1 == |left|
  {
  }

  method Sweep(session: Session, storage: VolumeStorage, now: Time) returns (reclaimed: nat)
    modifies session, storage
    ensures session.View() == SweptDb(old(session.View()), now)
    ensures storage.View() == SweptVolume(old(storage.View()), old(session.View()), now)
    ensures reclaimed == |Expired(old(session.View()), now)|
  {
    ghost var all := Expired(session.View(), now);
    var expired := Expired(session.View(), now);
    reclaimed := 0;
    ghost var gone := {};
    while expired != {}
      invariant all == gone + expired && gone !! expired && reclaimed + |expired| == |all|
      invariant session.versions == old(session.versions) - gone
      invariant storage.staging == old(storage.staging) - gone
      invariant session.View() == old(session.View()).(versions := session.versions)
      invariant storage.View() == old(storage.View()).(staging := storage.staging)
      decreases |expired|
    {
      var id :| id in expired;
      RemoveOne(session.versions, old(session.versions), gone, id);
      RemoveOne(storage.staging, old(storage.staging), gone, id);
      OneFewer(all, gone, expired, id);
      storage.Discard(id);
      session.DeleteVersion(id);
      gone := gone + {id};
      expired := expired - {id};
      reclaimed := reclaimed + 1;
    }
    assert gone == all;
  }
}
