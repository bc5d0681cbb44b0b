/** The database session: the tables as an object whose rows the upload functions add, change and
    delete, and flush. */
module Tables {
  import opened Schema

  class Session {
    var users: map<UserId, User>
    var models: map<ModelId, Model>
    var versions: map<VersionId, Version>
    var ledger: seq<Entry>
    var nextModel: nat
    var nextVersion: nat

    constructor (users: map<UserId, User>)
      ensures View() == Db(users, map[], map[], [], 0, 0)
    {
      this.users := users;
      models, versions, ledger, nextModel, nextVersion := map[], map[], [], 0, 0;
    }

    function View(): Db
      reads this
    {
      Db(users, models, versions, ledger, nextModel, nextVersion)
    }

    method AddModel(row: Model) returns (id: ModelId)
      modifies this
      ensures id == old(nextModel)
      ensures View() == old(View()).(models := old(models)[id := row], nextModel := id + 1)
    {
      id := nextModel;
      models := models[id := row];
      nextModel := nextModel + 1;
    }

    method AddVersion(row: Version) returns (id: VersionId)
      modifies this
      ensures id == old(nextVersion)
      ensures View() == old(View()).(versions := old(versions)[id := row], nextVersion := id + 1)
    {
      id := nextVersion;
      versions := versions[id := row];
      nextVersion := nextVersion + 1;
    }

    method DeleteVersion(id: VersionId)
      modifies this
      ensures View() == old(View()).(versions := old(versions) - {id})
    {
      versions := versions - {id};
    }

    method AddEntry(e: Entry)
      modifies this
      ensures View() == old(View()).(ledger := old(ledger) + [e])
    {
      ledger := ledger + [e];
    }
  }
}
