/** Which versions anybody can see, which row a query for one selects, and what its label claims. */
module Catalog {
  import opened Basics
  import opened Schema

  datatype Label = MachineChecked | Unchecked

  function LabelFor(v: Version): Label {
    if v.state == Published && v.verification.Some? && v.verification.value.passed == Some(true)
    then MachineChecked else Unchecked
  }

  /** Visible to anybody: an active public model, a published version, an owner that exists. */
  predicate IsListed(db: Db, i: VersionId) {
    i in db.versions && db.versions[i].state == Published && db.versions[i].model in db.models &&
    var m := db.models[db.versions[i].model];
    m.state == Active && m.visibility == Public && m.owner in db.users
  }

  function Listed(db: Db): set<VersionId> {
    set i | i in db.versions && IsListed(db, i)
  }

  /** The rows the query for one version selects. */
  function Matching(db: Db, handle: string, slug: string, name: string): set<VersionId> {
    set i | i in Listed(db)
      && db.users[db.models[db.versions[i].model].owner].handle == handle
      && db.models[db.versions[i].model].slug == slug
      && db.versions[i].name == name
  }
}
