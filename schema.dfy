/** The relational data model behind the server: the User, System and Planet tables as
    in-memory maps, with the two composite unique keys (userId, systemId) and
    (system row, planetId) built into the map keys, and the row operations the Prisma
    client performs on them. */
module Schema {

  import opened Wrappers

  type UserId = nat
  /** The primary key of a System row, which Planet rows refer to. */
  type RowId = nat
  /** A server clock reading (`new Date()`), always supplied by the caller. */
  type Time = int

  datatype User = User(
    email: string,
    password: string,
    name: Option<string>,
    isActive: bool,
    isAdmin: bool,
    createdAt: Time)

  datatype SysKey = SysKey(userId: UserId, systemId: string)
  datatype SystemRow = SystemRow(rowId: RowId, recRes: bool, lastUpdate: Time)
  datatype PlanetKey = PlanetKey(systemRow: RowId, planetId: string)
  datatype PlanetRow = PlanetRow(important: bool, notes: string)

  /** What the database does with a user's systems when the user is deleted. */
  datatype OnDelete = Cascade | Restrict

  datatype Tables = Tables(
    users: map<UserId, User>,
    systems: map<SysKey, SystemRow>,
    planets: map<PlanetKey, PlanetRow>,
    nextUserId: nat,
    nextRowId: nat)

  const Empty := Tables(map[], map[], map[], 0, 0)

  // ----- integrity of the tables -----

  ghost predicate UserIdsIssued(t: Tables) {
    forall id :: id in t.users ==> id < t.nextUserId
  }

  /** The unique constraint on User.email. */
  ghost predicate EmailsUnique(users: map<UserId, User>) {
    forall a, b :: a in users && b in users && users[a].email == users[b].email ==> a == b
  }

  /** The foreign key System.userId -> User.id. */
  ghost predicate SystemsOwned(t: Tables) {
    forall k :: k in t.systems ==> k.userId in t.users
  }

  ghost predicate RowIdsIssued(t: Tables) {
    forall k :: k in t.systems ==> t.systems[k].rowId < t.nextRowId
  }

  /** System.id is a primary key. */
  ghost predicate RowIdsUnique(systems: map<SysKey, SystemRow>) {
    forall k1, k2 :: k1 in systems && k2 in systems && systems[k1].rowId == systems[k2].rowId ==> k1 == k2
  }

  ghost predicate HasRow(systems: map<SysKey, SystemRow>, row: RowId) {
    exists k :: k in systems && systems[k].rowId == row
  }

  /** The foreign key Planet.systemId -> System.id. */
  ghost predicate PlanetsOwned(t: Tables) {
    forall pk :: pk in t.planets ==> HasRow(t.systems, pk.systemRow)
  }

  ghost predicate Valid(t: Tables) {
    && UserIdsIssued(t)
    && EmailsUnique(t.users)
    && SystemsOwned(t)
    && RowIdsIssued(t)
    && RowIdsUnique(t.systems)
    && PlanetsOwned(t)
  }

  lemma EmptyValid()
    ensures Valid(Empty)
  {
  }

  // ----- users -----

  lemma {:induction false} LeastOf(s: set<nat>) returns (m: nat)
    requires s != {}
    ensures m in s && forall x :: x in s ==> m <= x
    decreases |s|
  {
    var x :| x in s;
    var rest := s - {x};
    if rest == {} {
      assert s == {x};
      m := x;
    } else {
      var m' := LeastOf(rest);
      m := if x < m' then x else m';
      forall y | y in s ensures m <= y {
        if y != x {
          assert y in rest;
        }
      }
    }
  }

  lemma HasLeast(s: set<nat>)
    requires s != {}
    ensures exists m :: m in s && forall x :: x in s ==> m <= x
  {
    var m := LeastOf(s);
  }

  /** `prisma.user.findUnique({ where: { email } })`. The unique constraint makes the
      holder unique; without it this still answers deterministically (the least id). */
  function FindByEmail(users: map<UserId, User>, email: string): (r: Option<UserId>)
    ensures r.None? <==> forall id :: id in users ==> users[id].email != email
    ensures r.Some? ==> r.value in users && users[r.value].email == email
    ensures r.Some? ==> forall id :: id in users && users[id].email == email ==> r.value <= id
  {
    var holders := set id | id in users && users[id].email == email;
    if holders == {} then
      assert forall id :: id in users && users[id].email == email ==> id in holders;
      None
    else
      HasLeast(holders);
      var m :| m in holders && forall x :: x in holders ==> m <= x;
      assert forall id :: id in users && users[id].email == email ==> id in holders;
      Some(m)
  }

  /** Under the unique constraint the lookup finds exactly the holder of the email. */
  lemma FindByEmailUnique(users: map<UserId, User>, id: UserId)
    requires EmailsUnique(users) && id in users
    ensures FindByEmail(users, users[id].email) == Some(id)
  {
  }

  /** The lookup depends on the emails only, so changing other fields of an existing
      user never changes its answer. */
  lemma FindByEmailIgnoresOtherFields(users: map<UserId, User>, id: UserId, u: User, email: string)
    requires id in users && u.email == users[id].email
    ensures FindByEmail(users[id := u], email) == FindByEmail(users, email)
  {
    var users' := users[id := u];
    assert forall x :: x in users' <==> x in users;
    assert forall x :: x in users ==> users'[x].email == users[x].email;
  }

  predicate HasAdmin(users: map<UserId, User>) {
    exists id :: id in users && users[id].isAdmin
  }

  /** `prisma.user.create`: a new row under the next fresh id. */
  function CreateUser(t: Tables, email: string, password: string, name: Option<string>,
                      isActive: bool, isAdmin: bool, now: Time): (t': Tables)
    ensures t'.users.Keys == t.users.Keys + {t.nextUserId}
    ensures t'.users[t.nextUserId] == User(email, password, name, isActive, isAdmin, now)
    ensures forall id :: id in t.users && id != t.nextUserId ==> t'.users[id] == t.users[id]
  {
    t.(users := t.users[t.nextUserId := User(email, password, name, isActive, isAdmin, now)],
       nextUserId := t.nextUserId + 1)
  }

  /** Creating a user whose email is not yet taken keeps the tables valid. */
  lemma CreateUserValid(t: Tables, email: string, password: string, name: Option<string>,
                        isActive: bool, isAdmin: bool, now: Time)
    requires Valid(t) && FindByEmail(t.users, email).None?
    ensures Valid(CreateUser(t, email, password, name, isActive, isAdmin, now))
  {
  }

  /** Overwriting the flags (or any field but the email) of an existing user keeps the
      tables valid. */
  lemma UpdateUserValid(t: Tables, id: UserId, u: User)
    requires Valid(t) && id in t.users && u.email == t.users[id].email
    ensures Valid(t.(users := t.users[id := u]))
  {
    var t' := t.(users := t.users[id := u]);
    forall a, b | a in t'.users && b in t'.users && t'.users[a].email == t'.users[b].email
      ensures a == b
    {
      assert t.users[a].email == t'.users[a].email;
      assert t.users[b].email == t'.users[b].email;
    }
  }

  // ----- systems and planets -----

  /** One entry of a nested `planets: { create: [...] }`; absent fields take the
      column defaults (false and the empty text). */
  datatype PlanetSeed = PlanetSeed(planetId: string, important: Option<bool>, notes: Option<string>)

  function SeedRow(s: PlanetSeed): PlanetRow {
    PlanetRow(s.important.GetOr(false), s.notes.GetOr(""))
  }

  predicate Seeded(seeds: seq<PlanetSeed>, planetId: string) {
    exists j :: 0 <= j < |seeds| && seeds[j].planetId == planetId
  }

  /** A nested create with two equal planet ids breaks the (system, planetId) key. */
  predicate DistinctPlanetIds(seeds: seq<PlanetSeed>) {
    forall i, j :: 0 <= i < j < |seeds| ==> seeds[i].planetId != seeds[j].planetId
  }

  lemma SeededPrefix(seeds: seq<PlanetSeed>, planetId: string)
    requires seeds != []
    ensures Seeded(seeds, planetId) <==>
              Seeded(seeds[..|seeds| - 1], planetId) || seeds[|seeds| - 1].planetId == planetId
  {
    var init := seeds[..|seeds| - 1];
    if Seeded(seeds, planetId) {
      var j :| 0 <= j < |seeds| && seeds[j].planetId == planetId;
      if j < |init| {
        assert init[j] == seeds[j];
      }
    }
    if Seeded(init, planetId) {
      var j :| 0 <= j < |init| && init[j].planetId == planetId;
      assert seeds[j] == init[j];
    }
  }

  /** The planet rows of a nested create, all attached to system row `row`. */
  function AddPlanets(planets: map<PlanetKey, PlanetRow>, row: RowId, seeds: seq<PlanetSeed>)
    : (r: map<PlanetKey, PlanetRow>)
    ensures forall pk :: pk in r <==> pk in planets || (pk.systemRow == row && Seeded(seeds, pk.planetId))
    ensures forall pk :: pk in planets && !(pk.systemRow == row && Seeded(seeds, pk.planetId)) ==>
              r[pk] == planets[pk]
  {
    if seeds == [] then planets
    else
      var last := seeds[|seeds| - 1];
      var init := seeds[..|seeds| - 1];
      assert forall id :: Seeded(seeds, id) <==> Seeded(init, id) || last.planetId == id by {
        forall id ensures Seeded(seeds, id) <==> Seeded(init, id) || last.planetId == id {
          SeededPrefix(seeds, id);
        }
      }
      AddPlanets(planets, row, init)[PlanetKey(row, last.planetId) := SeedRow(last)]
  }

  /** With distinct planet ids every seed becomes exactly its own row. */
  lemma {:induction false} AddPlanetsSeedRows(planets: map<PlanetKey, PlanetRow>, row: RowId,
                                              seeds: seq<PlanetSeed>, j: nat)
    requires DistinctPlanetIds(seeds) && j < |seeds|
    ensures AddPlanets(planets, row, seeds)[PlanetKey(row, seeds[j].planetId)] == SeedRow(seeds[j])
  {
    var n := |seeds|;
    var init := seeds[..n - 1];
    if j < n - 1 {
      assert init[j] == seeds[j];
      assert DistinctPlanetIds(init) by {
        forall a, b | 0 <= a < b < |init| ensures init[a].planetId != init[b].planetId {
          assert init[a] == seeds[a] && init[b] == seeds[b];
        }
      }
      AddPlanetsSeedRows(planets, row, init, j);
      assert seeds[j].planetId != seeds[n - 1].planetId;
    }
  }

  /** `prisma.system.create` with nested planets: a new row under the next fresh row id. */
  function CreateSystem(t: Tables, user: UserId, systemId: string, recRes: bool,
                        seeds: seq<PlanetSeed>, now: Time): (t': Tables)
    ensures t'.users == t.users
    ensures t'.systems == t.systems[SysKey(user, systemId) := SystemRow(t.nextRowId, recRes, now)]
    ensures t'.nextRowId == t.nextRowId + 1 && t'.nextUserId == t.nextUserId
  {
    t.(systems := t.systems[SysKey(user, systemId) := SystemRow(t.nextRowId, recRes, now)],
       planets := AddPlanets(t.planets, t.nextRowId, seeds),
       nextRowId := t.nextRowId + 1)
  }

  /** Creating a system that is absent, for a user that exists, keeps the tables valid
      and leaves every existing planet as it was. */
  lemma CreateSystemValid(t: Tables, user: UserId, systemId: string, recRes: bool,
                          seeds: seq<PlanetSeed>, now: Time)
    requires Valid(t) && user in t.users && SysKey(user, systemId) !in t.systems
    ensures Valid(CreateSystem(t, user, systemId, recRes, seeds, now))
    ensures forall pk :: pk in t.planets ==>
              pk in CreateSystem(t, user, systemId, recRes, seeds, now).planets &&
              CreateSystem(t, user, systemId, recRes, seeds, now).planets[pk] == t.planets[pk]
  {
    var t' := CreateSystem(t, user, systemId, recRes, seeds, now);
    var key := SysKey(user, systemId);
    forall pk | pk in t.planets ensures pk.systemRow != t.nextRowId {
      var k :| k in t.systems && t.systems[k].rowId == pk.systemRow;
    }
    forall pk | pk in t'.planets ensures HasRow(t'.systems, pk.systemRow) {
      if pk in t.planets {
        var k :| k in t.systems && t.systems[k].rowId == pk.systemRow;
        assert k != key && k in t'.systems && t'.systems[k].rowId == pk.systemRow;
      } else {
        assert t'.systems[key].rowId == pk.systemRow;
      }
    }
  }

  /** The planets of system row `row`, by planet id. */
  function PlanetsOf(planets: map<PlanetKey, PlanetRow>, row: RowId): (r: map<string, PlanetRow>)
    ensures forall id :: id in r <==> PlanetKey(row, id) in planets
    ensures forall id :: id in r ==> r[id] == planets[PlanetKey(row, id)]
  {
    map pk | pk in planets && pk.systemRow == row :: pk.planetId := planets[pk]
  }

  /** `_count: { systems: true }` of the admin user listing. */
  function SystemCount(systems: map<SysKey, SystemRow>, user: UserId): nat {
    |set k | k in systems && k.userId == user|
  }

  // ----- responses -----

  /** The HTTP status classes the handlers answer with besides 200. */
  datatype Status = BadRequest | Unauthorized | Forbidden | NotFound | ServerError

  /** A JSON response: the success body, or an error status with `{ error }`. */
  datatype Response<T> = Ok(body: T) | Error(status: Status, error: string)

  /** The tables after a request, and the response to it. */
  datatype Step<T> = Step(tables: Tables, response: Response<T>)

  const ServerErrorText := "Serverfehler"
}
