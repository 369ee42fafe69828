/** The database the routers share, as one object whose tables the request handlers
    update in place. */
module Store {

  import opened Wrappers
  import opened Schema

  class Database {
    var users: map<UserId, User>
    var systems: map<SysKey, SystemRow>
    var planets: map<PlanetKey, PlanetRow>
    var nextUserId: nat
    var nextRowId: nat
    /** The referential action of System.userId, fixed by the schema. */
    const onDelete: OnDelete

    /** The tables as a value. */
    function State(): Tables
      reads this
    {
      Tables(users, systems, planets, nextUserId, nextRowId)
    }

    ghost predicate Valid()
      reads this
    {
      Schema.Valid(State())
    }

    constructor (onDelete: OnDelete)
      ensures Valid() && State() == Empty && this.onDelete == onDelete
    {
      users, systems, planets := map[], map[], map[];
      nextUserId, nextRowId := 0, 0;
      this.onDelete := onDelete;
    }

    /** `prisma.user.create`: returns the id of the new row. */
    method CreateUserRow(email: string, password: string, name: Option<string>,
                         isActive: bool, isAdmin: bool, now: Time) returns (id: UserId)
      modifies this
      ensures id == old(nextUserId)
      ensures State() == CreateUser(old(State()), email, password, name, isActive, isAdmin, now)
    {
      id := nextUserId;
      users := users[id := User(email, password, name, isActive, isAdmin, now)];
      nextUserId := nextUserId + 1;
    }

    /** `prisma.system.create` with nested planet creates. */
    method CreateSystemRow(user: UserId, systemId: string, recRes: bool,
                           seeds: seq<PlanetSeed>, now: Time)
      modifies this
      ensures State() == CreateSystem(old(State()), user, systemId, recRes, seeds, now)
    {
      systems := systems[SysKey(user, systemId) := SystemRow(nextRowId, recRes, now)];
      planets := AddPlanets(planets, nextRowId, seeds);
      nextRowId := nextRowId + 1;
    }
  }
}
