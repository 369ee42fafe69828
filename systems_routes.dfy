/** The tracker store of server/routes/systems.js: every route first runs
    `authenticateToken` and then reads or writes the caller's own System and Planet rows.
    Each handler is a method that takes the shared Database; the function of the same concern
    states what it does to the tables as a value. */
module SystemsRoutes {

  import opened Wrappers
  import opened Text
  import opened Galaxy
  import opened Schema
  import opened TokenAuth
  import opened Store

  /** A system as the routes return it, `include: { planets: true }`. */
  datatype SystemJson = SystemJson(
    rowId: RowId,
    userId: UserId,
    systemId: string,
    recRes: bool,
    lastUpdate: Time,
    planets: map<string, PlanetRow>)

  datatype PlanetJson = PlanetJson(planetId: string, systemRow: RowId, important: bool, notes: string)

  datatype InitJson = InitJson(message: string, count: nat)

  const NotFoundText := "System nicht gefunden"
  const InitializedText := "Systeme erfolgreich initialisiert"
  /** `batchSize` of `/initialize`. */
  const BatchSize: nat := 50

  function SystemJsonOf(t: Tables, key: SysKey): (j: SystemJson)
    requires key in t.systems
    ensures j.userId == key.userId && j.systemId == key.systemId
    ensures j.planets == PlanetsOf(t.planets, t.systems[key].rowId)
  {
    var row := t.systems[key];
    SystemJson(row.rowId, key.userId, key.systemId, row.recRes, row.lastUpdate,
               PlanetsOf(t.planets, row.rowId))
  }

  // ----- GET / -----

  /** `findMany({ where: { userId }, include: { planets: true } })`, by system id. */
  function ListSystems(t: Tables, user: UserId): (r: map<string, SystemJson>)
    ensures forall sid :: sid in r <==> SysKey(user, sid) in t.systems
    ensures forall sid :: sid in r ==> r[sid].userId == user && r[sid].systemId == sid
    ensures forall sid :: sid in r ==> r[sid].planets == PlanetsOf(t.planets, t.systems[SysKey(user, sid)].rowId)
  {
    map k | k in t.systems && k.userId == user :: k.systemId := SystemJsonOf(t, k)
  }

  function GetSystems(t: Tables, header: Option<string>, verify: string -> Option<Claims>)
    : (r: Response<map<string, SystemJson>>)
    ensures r.Ok? <==> Authenticate(header, verify).Authenticated?
    ensures r.Ok? ==> r.body == ListSystems(t, Authenticate(header, verify).user.userId)
  {
    match Authenticate(header, verify)
    case Authenticated(c) => Ok(ListSystems(t, c.userId))
    case _ => Rejection(Authenticate(header, verify))
  }

  // ----- POST / and PATCH /:systemId -----

  /** `update({ data: { recRes, lastUpdate: new Date() } })`: an absent `recRes` leaves
      the column as it is. */
  function Touch(row: SystemRow, recRes: Option<bool>, now: Time): SystemRow {
    row.(recRes := recRes.GetOr(row.recRes), lastUpdate := now)
  }

  function TouchSystem(t: Tables, key: SysKey, recRes: Option<bool>, now: Time): (s: Step<SystemJson>)
    requires key in t.systems
  {
    var t' := t.(systems := t.systems[key := Touch(t.systems[key], recRes, now)]);
    Step(t', Ok(SystemJsonOf(t', key)))
  }

  /** POST `/`: update the caller's system when it exists (ignoring `planets`), create it
      otherwise with `recRes || false` and `planets || []`. The create fails when the
      caller's user row is gone (foreign key) or two planet seeds share an id (unique key). */
  function UpsertSystem(t: Tables, user: UserId, systemId: string, recRes: Option<bool>,
                        seeds: Option<seq<PlanetSeed>>, now: Time): (s: Step<SystemJson>)
    ensures s.tables.users == t.users
    ensures s.response.Ok? ==> SysKey(user, systemId) in s.tables.systems
  {
    var key := SysKey(user, systemId);
    if key in t.systems then TouchSystem(t, key, recRes, now)
    else if user !in t.users || !DistinctPlanetIds(seeds.GetOr([])) then
      Step(t, Error(ServerError, ServerErrorText))
    else
      var t' := CreateSystem(t, user, systemId, recRes.GetOr(false), seeds.GetOr([]), now);
      Step(t', Ok(SystemJsonOf(t', key)))
  }

  /** PATCH `/:systemId`: a plain `update` by the composite key, which throws on a
      missing row, so a missing system answers 500 and not 404. */
  function PatchSystem(t: Tables, user: UserId, systemId: string, recRes: Option<bool>, now: Time)
    : (s: Step<SystemJson>)
    ensures s.response.Ok? <==> SysKey(user, systemId) in t.systems
    ensures s.tables.users == t.users && s.tables.planets == t.planets
    ensures s.tables.systems.Keys == t.systems.Keys
  {
    var key := SysKey(user, systemId);
    if key in t.systems then TouchSystem(t, key, recRes, now)
    else Step(t, Error(ServerError, ServerErrorText))
  }

  /** On an existing key the upsert creates nothing: it sets `recRes` from the body (or
      keeps it), sets `lastUpdate` to now and leaves users and planets alone. */
  lemma UpsertExisting(t: Tables, user: UserId, systemId: string, recRes: Option<bool>,
                       seeds: Option<seq<PlanetSeed>>, now: Time)
    requires SysKey(user, systemId) in t.systems
    ensures var s := UpsertSystem(t, user, systemId, recRes, seeds, now);
            var old_row := t.systems[SysKey(user, systemId)];
            && s.response.Ok?
            && s.tables.systems.Keys == t.systems.Keys
            && s.tables.systems[SysKey(user, systemId)] ==
                 SystemRow(old_row.rowId, recRes.GetOr(old_row.recRes), now)
            && (forall k :: k in t.systems && k != SysKey(user, systemId) ==> s.tables.systems[k] == t.systems[k])
            && s.tables.users == t.users && s.tables.planets == t.planets
            && s.response.body.planets == PlanetsOf(t.planets, old_row.rowId)
  {
  }

  /** On an absent key a successful upsert adds exactly one system, with `recRes || false`,
      and exactly the body's planets (or none). */
  lemma UpsertAbsent(t: Tables, user: UserId, systemId: string, recRes: Option<bool>,
                     seeds: Option<seq<PlanetSeed>>, now: Time)
    requires Valid(t) && SysKey(user, systemId) !in t.systems
    ensures var s := UpsertSystem(t, user, systemId, recRes, seeds, now);
            s.response.Ok? <==> user in t.users && DistinctPlanetIds(seeds.GetOr([]))
    ensures var s := UpsertSystem(t, user, systemId, recRes, seeds, now);
            s.response.Ok? ==>
              && s.tables.systems.Keys == t.systems.Keys + {SysKey(user, systemId)}
              && s.tables.systems[SysKey(user, systemId)].recRes == recRes.GetOr(false)
              && (forall k :: k in t.systems ==> s.tables.systems[k] == t.systems[k])
              && (forall pk :: pk in t.planets ==> pk in s.tables.planets && s.tables.planets[pk] == t.planets[pk])
              && (forall id :: id in s.response.body.planets <==> Seeded(seeds.GetOr([]), id))
    ensures var s := UpsertSystem(t, user, systemId, recRes, seeds, now);
            s.response.Error? ==> s.tables == t
  {
    var s := UpsertSystem(t, user, systemId, recRes, seeds, now);
    if s.response.Ok? {
      var t' := CreateSystem(t, user, systemId, recRes.GetOr(false), seeds.GetOr([]), now);
      CreateSystemValid(t, user, systemId, recRes.GetOr(false), seeds.GetOr([]), now);
      CreatedSystemPlanets(t, user, systemId, recRes.GetOr(false), seeds.GetOr([]), now);
      assert s == Step(t', Ok(SystemJsonOf(t', SysKey(user, systemId))));
    }
  }

  /** The new row owns exactly the seeded planets: no planet of a valid table sits
      under the next row id yet. */
  lemma CreatedSystemPlanets(t: Tables, user: UserId, systemId: string, recRes: bool,
                             seeds: seq<PlanetSeed>, now: Time)
    requires Valid(t)
    ensures var t' := CreateSystem(t, user, systemId, recRes, seeds, now);
            forall id :: id in PlanetsOf(t'.planets, t.nextRowId) <==> Seeded(seeds, id)
  {
    forall pk | pk in t.planets ensures pk.systemRow != t.nextRowId {
      var k :| k in t.systems && t.systems[k].rowId == pk.systemRow;
    }
  }

  /** The body's planet seeds become the new system's planets, field for field. */
  lemma UpsertAbsentPlanets(t: Tables, user: UserId, systemId: string, recRes: Option<bool>,
                            seeds: seq<PlanetSeed>, now: Time, j: nat)
    requires SysKey(user, systemId) !in t.systems && user in t.users
    requires DistinctPlanetIds(seeds) && j < |seeds|
    ensures var s := UpsertSystem(t, user, systemId, recRes, Some(seeds), now);
            s.response.Ok? && s.response.body.planets[seeds[j].planetId] == SeedRow(seeds[j])
  {
    AddPlanetsSeedRows(t.planets, t.nextRowId, seeds, j);
  }

  /** Repeating the upsert leaves one row for the key: the second call finds the row of
      the first, changes nothing but `lastUpdate`, and the timestamp does not go back
      when the clock does not. */
  lemma UpsertTwice(t: Tables, user: UserId, systemId: string, recRes: Option<bool>,
                    seeds: Option<seq<PlanetSeed>>, now1: Time, now2: Time)
    requires Valid(t) && now1 <= now2
    requires UpsertSystem(t, user, systemId, recRes, seeds, now1).response.Ok?
    ensures var s1 := UpsertSystem(t, user, systemId, recRes, seeds, now1);
            var s2 := UpsertSystem(s1.tables, user, systemId, recRes, seeds, now2);
            var key := SysKey(user, systemId);
            && s2.response.Ok?
            && s2.tables.systems.Keys == s1.tables.systems.Keys
            && s2.tables.systems == s1.tables.systems[key := s1.tables.systems[key].(lastUpdate := now2)]
            && s1.tables.systems[key].lastUpdate <= s2.tables.systems[key].lastUpdate
            && s2.tables.planets == s1.tables.planets
  {
    var s1 := UpsertSystem(t, user, systemId, recRes, seeds, now1);
    var key := SysKey(user, systemId);
    if key in t.systems {
      UpsertExisting(t, user, systemId, recRes, seeds, now1);
    } else {
      UpsertAbsent(t, user, systemId, recRes, seeds, now1);
    }
    assert recRes.Some? ==> s1.tables.systems[key].recRes == recRes.value;
    UpsertExisting(s1.tables, user, systemId, recRes, seeds, now2);
  }

  /** PATCH `/:systemId` on a system the caller does not have changes nothing and ends in
      the 500 branch. */
  lemma PatchMissingIsServerError(t: Tables, user: UserId, systemId: string, recRes: Option<bool>, now: Time)
    requires SysKey(user, systemId) !in t.systems
    ensures PatchSystem(t, user, systemId, recRes, now) == Step(t, Error(ServerError, ServerErrorText))
  {
  }

  lemma TouchValid(t: Tables, key: SysKey, recRes: Option<bool>, now: Time)
    requires Valid(t) && key in t.systems
    ensures Valid(TouchSystem(t, key, recRes, now).tables)
  {
    var t' := TouchSystem(t, key, recRes, now).tables;
    forall pk | pk in t'.planets ensures HasRow(t'.systems, pk.systemRow) {
      var k :| k in t.systems && t.systems[k].rowId == pk.systemRow;
      assert t'.systems[k].rowId == pk.systemRow;
    }
  }

  lemma UpsertSystemValid(t: Tables, user: UserId, systemId: string, recRes: Option<bool>,
                          seeds: Option<seq<PlanetSeed>>, now: Time)
    requires Valid(t)
    ensures Valid(UpsertSystem(t, user, systemId, recRes, seeds, now).tables)
  {
    var key := SysKey(user, systemId);
    if key in t.systems {
      TouchValid(t, key, recRes, now);
    } else if user in t.users && DistinctPlanetIds(seeds.GetOr([])) {
      CreateSystemValid(t, user, systemId, recRes.GetOr(false), seeds.GetOr([]), now);
    }
  }

  /** On an existing key PATCH sets `recRes` from the body (or keeps it), stamps
      `lastUpdate` and changes no other row. */
  lemma PatchExisting(t: Tables, user: UserId, systemId: string, recRes: Option<bool>, now: Time)
    requires SysKey(user, systemId) in t.systems
    ensures var s := PatchSystem(t, user, systemId, recRes, now);
            var old_row := t.systems[SysKey(user, systemId)];
            && s.response.Ok?
            && s.tables.systems == t.systems[SysKey(user, systemId) :=
                 SystemRow(old_row.rowId, recRes.GetOr(old_row.recRes), now)]
            && s.tables.users == t.users && s.tables.planets == t.planets
            && s.response.body.planets == PlanetsOf(t.planets, old_row.rowId)
  {
  }

  lemma PatchSystemValid(t: Tables, user: UserId, systemId: string, recRes: Option<bool>, now: Time)
    requires Valid(t)
    ensures Valid(PatchSystem(t, user, systemId, recRes, now).tables)
  {
    if SysKey(user, systemId) in t.systems {
      TouchValid(t, SysKey(user, systemId), recRes, now);
    }
  }

  // ----- PATCH /:systemId/planets/:planetId -----

  /** Find the caller's system (404 if absent), update the planet in place or create it
      with `important || false` and `notes || ''`, then refresh the system's `lastUpdate`. */
  function UpsertPlanet(t: Tables, user: UserId, systemId: string, planetId: string,
                        important: Option<bool>, notes: Option<string>, now: Time): (s: Step<PlanetJson>)
    ensures s.response.Ok? <==> SysKey(user, systemId) in t.systems
    ensures s.tables.users == t.users && s.tables.systems.Keys == t.systems.Keys
    ensures s.response.Ok? ==> s.response.body.planetId == planetId &&
                               s.response.body.systemRow == t.systems[SysKey(user, systemId)].rowId
  {
    var key := SysKey(user, systemId);
    if key !in t.systems then Step(t, Error(NotFound, NotFoundText))
    else
      var row := t.systems[key].rowId;
      var pk := PlanetKey(row, planetId);
      var planet :=
        if pk in t.planets
        then t.planets[pk].(important := important.GetOr(t.planets[pk].important),
                            notes := notes.GetOr(t.planets[pk].notes))
        else PlanetRow(important.GetOr(false), notes.GetOr(""));
      var t' := t.(planets := t.planets[pk := planet],
                   systems := t.systems[key := t.systems[key].(lastUpdate := now)]);
      Step(t', Ok(PlanetJson(planetId, row, planet.important, planet.notes)))
  }

  /** Without the parent system: 404, and no planet and no timestamp is written. */
  lemma UpsertPlanetMissingSystem(t: Tables, user: UserId, systemId: string, planetId: string,
                                  important: Option<bool>, notes: Option<string>, now: Time)
    requires SysKey(user, systemId) !in t.systems
    ensures UpsertPlanet(t, user, systemId, planetId, important, notes, now) ==
            Step(t, Error(NotFound, NotFoundText))
  {
  }

  /** With the parent system the planet is written in place (absent fields kept) or
      created with the defaults, only that planet changes, and the parent's `lastUpdate`
      becomes now. */
  lemma UpsertPlanetEffect(t: Tables, user: UserId, systemId: string, planetId: string,
                           important: Option<bool>, notes: Option<string>, now: Time)
    requires SysKey(user, systemId) in t.systems
    ensures var s := UpsertPlanet(t, user, systemId, planetId, important, notes, now);
            var key := SysKey(user, systemId);
            var pk := PlanetKey(t.systems[key].rowId, planetId);
            && s.response.Ok?
            && s.tables.planets.Keys == t.planets.Keys + {pk}
            && s.tables.planets[pk] ==
                 (if pk in t.planets
                  then PlanetRow(important.GetOr(t.planets[pk].important), notes.GetOr(t.planets[pk].notes))
                  else PlanetRow(important.GetOr(false), notes.GetOr("")))
            && (forall q :: q in t.planets && q != pk ==> s.tables.planets[q] == t.planets[q])
            && s.tables.systems == t.systems[key := t.systems[key].(lastUpdate := now)]
            && s.tables.users == t.users
  {
  }

  lemma UpsertPlanetValid(t: Tables, user: UserId, systemId: string, planetId: string,
                          important: Option<bool>, notes: Option<string>, now: Time)
    requires Valid(t)
    ensures Valid(UpsertPlanet(t, user, systemId, planetId, important, notes, now).tables)
  {
    var key := SysKey(user, systemId);
    if key in t.systems {
      var pk := PlanetKey(t.systems[key].rowId, planetId);
      var planet :=
        if pk in t.planets
        then t.planets[pk].(important := important.GetOr(t.planets[pk].important),
                            notes := notes.GetOr(t.planets[pk].notes))
        else PlanetRow(important.GetOr(false), notes.GetOr(""));
      WritePlanetValid(t, key, pk, planet, now);
    }
  }

  /** Writing a planet under an existing system's row and stamping that system keeps
      the tables valid. */
  lemma WritePlanetValid(t: Tables, key: SysKey, pk: PlanetKey, planet: PlanetRow, now: Time)
    requires Valid(t) && key in t.systems && pk.systemRow == t.systems[key].rowId
    ensures Valid(t.(planets := t.planets[pk := planet],
                     systems := t.systems[key := t.systems[key].(lastUpdate := now)]))
  {
    var t' := t.(planets := t.planets[pk := planet],
                 systems := t.systems[key := t.systems[key].(lastUpdate := now)]);
    forall q | q in t'.planets ensures HasRow(t'.systems, q.systemRow) {
      if q in t.planets {
        var k :| k in t.systems && t.systems[k].rowId == q.systemRow;
        assert t'.systems[k].rowId == q.systemRow;
      } else {
        assert t'.systems[key].rowId == q.systemRow;
      }
    }
  }

  /** A planet edit before the system exists fails with 404; once POST `/` has created
      the system, the same edit succeeds and stamps the system with the later time. */
  lemma PlanetEditNeedsSystem(t: Tables, user: UserId, code: nat, k: nat, now1: Time, now2: Time)
    requires Valid(t) && user in t.users && SysKey(user, SystemCode(code)) !in t.systems
    ensures UpsertPlanet(t, user, SystemCode(code), PlanetCode(code, k), Some(true), Some("scout"), now1).response ==
            Error(NotFound, NotFoundText)
    ensures var s1 := UpsertSystem(t, user, SystemCode(code), None, None, now1);
            var s2 := UpsertPlanet(s1.tables, user, SystemCode(code), PlanetCode(code, k), Some(true), Some("scout"), now2);
            && s1.response.Ok?
            && s2.response == Ok(PlanetJson(PlanetCode(code, k), t.nextRowId, true, "scout"))
            && s2.tables.systems[SysKey(user, SystemCode(code))].lastUpdate == now2
  {
    var s1 := UpsertSystem(t, user, SystemCode(code), None, None, now1);
    assert s1.tables.planets == t.planets;
    forall pk | pk in t.planets ensures pk.systemRow != t.nextRowId {
      var key :| key in t.systems && t.systems[key].rowId == pk.systemRow;
    }
  }

  // ----- POST /initialize -----

  /** The nine planet seeds `555:${i}:${idx + 1}` with `important: false, notes: ''`. */
  function DefaultSeeds(i: nat): (seeds: seq<PlanetSeed>)
    ensures |seeds| == PlanetsPerSystem
    ensures forall k :: 0 <= k < |seeds| ==> seeds[k] == PlanetSeed(PlanetCode(i, k + 1), Some(false), Some(""))
  {
    seq(PlanetsPerSystem, k requires 0 <= k < PlanetsPerSystem => PlanetSeed(PlanetCode(i, k + 1), Some(false), Some("")))
  }

  /** An entry of `systemsToCreate`. */
  datatype Queued = Queued(systemId: string, planets: seq<PlanetSeed>)

  function QueuedFor(i: nat): Queued {
    Queued(SystemCode(i), DefaultSeeds(i))
  }

  function QueueOf(nums: seq<nat>): (q: seq<Queued>)
    ensures |q| == |nums| && forall j :: 0 <= j < |nums| ==> q[j] == QueuedFor(nums[j])
  {
    seq(|nums|, j requires 0 <= j < |nums| => QueuedFor(nums[j]))
  }

  /** The system numbers in [111, hi) the user does not have yet, in ascending order:
      the numbers the scan of `/initialize` queues. */
  function Missing(systems: map<SysKey, SystemRow>, user: UserId, hi: nat): (r: seq<nat>)
    ensures forall j :: 0 <= j < |r| ==> First <= r[j] < hi && SysKey(user, SystemCode(r[j])) !in systems
    ensures forall a, b :: 0 <= a < b < |r| ==> r[a] < r[b]
    ensures forall i :: First <= i < hi && SysKey(user, SystemCode(i)) !in systems ==> i in r
    decreases hi
  {
    if hi <= First then []
    else
      var rest := Missing(systems, user, hi - 1);
      if SysKey(user, SystemCode(hi - 1)) in systems then rest else rest + [hi - 1]
  }

  /** The creates of the batches, one after the other. */
  function CreateAll(t: Tables, user: UserId, q: seq<Queued>, now: Time): (r: Tables)
    ensures r.users == t.users && r.nextUserId == t.nextUserId
    ensures r.nextRowId == t.nextRowId + |q|
    decreases |q|
  {
    if q == [] then t
    else
      var last := q[|q| - 1];
      CreateSystem(CreateAll(t, user, q[..|q| - 1], now), user, last.systemId, false, last.planets, now)
  }

  /** The same creates, stated on the queued numbers. */
  function CreateSystems(t: Tables, user: UserId, nums: seq<nat>, now: Time): (r: Tables)
    ensures r.users == t.users && r.nextUserId == t.nextUserId
    ensures r.nextRowId == t.nextRowId + |nums|
    decreases |nums|
  {
    if nums == [] then t
    else
      var i := nums[|nums| - 1];
      CreateSystem(CreateSystems(t, user, nums[..|nums| - 1], now), user, SystemCode(i), false, DefaultSeeds(i), now)
  }

  /** POST `/initialize`: queue every missing `555:i`, create the queue (failing on the
      first create when the caller's user row is gone) and report how many were queued. */
  function Initialize(t: Tables, user: UserId, now: Time): (s: Step<InitJson>)
    ensures s.tables.users == t.users
    ensures s.response.Error? ==> s.tables == t
    ensures s.response.Ok? ==> s.tables.nextRowId == t.nextRowId + s.response.body.count
  {
    var nums := Missing(t.systems, user, Last + 1);
    if nums != [] && user !in t.users then Step(t, Error(ServerError, ServerErrorText))
    else Step(CreateSystems(t, user, nums, now), Ok(InitJson(InitializedText, |nums|)))
  }

  /** The planets a freshly initialised system `555:i` has: exactly `555:i:1` to
      `555:i:9`, all unmarked and without notes. */
  function DefaultPlanets(i: nat): (m: map<string, PlanetRow>)
    ensures forall id :: id in m <==> exists k :: 1 <= k <= PlanetsPerSystem && id == PlanetCode(i, k)
    ensures forall id :: id in m ==> m[id] == PlanetRow(false, "")
  {
    map k: nat | 1 <= k <= PlanetsPerSystem :: PlanetCode(i, k) := PlanetRow(false, "")
  }

  lemma DefaultSeedsDistinct(i: nat)
    ensures DistinctPlanetIds(DefaultSeeds(i))
  {
    var seeds := DefaultSeeds(i);
    forall a, b | 0 <= a < b < |seeds| ensures seeds[a].planetId != seeds[b].planetId {
      PlanetCodeInjective(i, a + 1, i, b + 1);
    }
  }

  lemma DefaultSeededIds(i: nat, id: string)
    ensures Seeded(DefaultSeeds(i), id) <==> exists k :: 1 <= k <= PlanetsPerSystem && id == PlanetCode(i, k)
  {
    var seeds := DefaultSeeds(i);
    if exists k :: 1 <= k <= PlanetsPerSystem && id == PlanetCode(i, k) {
      var k :| 1 <= k <= PlanetsPerSystem && id == PlanetCode(i, k);
      assert seeds[k - 1].planetId == id;
    }
  }

  /** The system keys of the queued numbers. */
  function QueuedKeys(user: UserId, nums: seq<nat>): (keys: set<SysKey>)
    ensures forall k :: k in keys <==> exists j :: 0 <= j < |nums| && k == SysKey(user, SystemCode(nums[j]))
    decreases |nums|
  {
    if nums == [] then {}
    else
      var init := nums[..|nums| - 1];
      var prev := QueuedKeys(user, init);
      var keys := prev + {SysKey(user, SystemCode(nums[|nums| - 1]))};
      QueuedKeysSnoc(user, nums, init, prev, keys);
      keys
  }

  /** The keys of all but the last number, plus the last one's, are the keys of all. */
  lemma QueuedKeysSnoc(user: UserId, nums: seq<nat>, init: seq<nat>, prev: set<SysKey>, keys: set<SysKey>)
    requires |nums| > 0 && init == nums[..|nums| - 1]
    requires forall k :: k in prev <==> exists j :: 0 <= j < |init| && k == SysKey(user, SystemCode(init[j]))
    requires keys == prev + {SysKey(user, SystemCode(nums[|nums| - 1]))}
    ensures forall k :: k in keys <==> exists j :: 0 <= j < |nums| && k == SysKey(user, SystemCode(nums[j]))
  {
    assert forall j :: 0 <= j < |init| ==> init[j] == nums[j];
  }

  /** `r` keeps every row of `t` and adds planets only under row ids `t` has not issued. */
  ghost predicate Extends(t: Tables, r: Tables) {
    && r.users == t.users
    && t.nextRowId <= r.nextRowId
    && (forall k :: k in t.systems ==> k in r.systems && r.systems[k] == t.systems[k])
    && (forall pk :: pk in t.planets ==> pk in r.planets && r.planets[pk] == t.planets[pk])
    && (forall pk :: pk in r.planets && pk !in t.planets ==> t.nextRowId <= pk.systemRow)
  }

  lemma ExtendsTrans(a: Tables, b: Tables, c: Tables)
    requires Extends(a, b) && Extends(b, c)
    ensures Extends(a, c)
  {
  }

  /** The planets of a row that was issued before stay as they were. */
  lemma ExtendsKeepsPlanetsOf(t: Tables, r: Tables, row: RowId)
    requires Extends(t, r) && row < t.nextRowId
    ensures PlanetsOf(r.planets, row) == PlanetsOf(t.planets, row)
  {
  }

  /** Seeding a fresh row with the default seeds gives it exactly the default planet ids. */
  lemma DefaultSeedsPlanetIds(planets: map<PlanetKey, PlanetRow>, row: RowId, i: nat, id: string)
    requires forall pk :: pk in planets ==> pk.systemRow != row
    ensures id in PlanetsOf(AddPlanets(planets, row, DefaultSeeds(i)), row) <==> id in DefaultPlanets(i)
  {
    DefaultSeededIds(i, id);
  }

  /** Each of them is unmarked and without notes. */
  lemma DefaultSeedsPlanetRow(planets: map<PlanetKey, PlanetRow>, row: RowId, i: nat, id: string)
    requires forall pk :: pk in planets ==> pk.systemRow != row
    requires id in PlanetsOf(AddPlanets(planets, row, DefaultSeeds(i)), row)
    ensures PlanetsOf(AddPlanets(planets, row, DefaultSeeds(i)), row)[id] == PlanetRow(false, "")
  {
    var seeds := DefaultSeeds(i);
    assert Seeded(seeds, id);
    var j :| 0 <= j < |seeds| && seeds[j].planetId == id;
    DefaultSeedsDistinct(i);
    AddPlanetsSeedRows(planets, row, seeds, j);
  }

  /** Seeding a fresh row with the default seeds gives it exactly the default planets. */
  lemma DefaultSeedsPlanets(planets: map<PlanetKey, PlanetRow>, row: RowId, i: nat)
    requires forall pk :: pk in planets ==> pk.systemRow != row
    ensures PlanetsOf(AddPlanets(planets, row, DefaultSeeds(i)), row) == DefaultPlanets(i)
  {
    var ps := PlanetsOf(AddPlanets(planets, row, DefaultSeeds(i)), row);
    var dp := DefaultPlanets(i);
    forall id ensures id in ps <==> id in dp {
      DefaultSeedsPlanetIds(planets, row, i, id);
    }
    forall id | id in ps ensures ps[id] == dp[id] {
      DefaultSeedsPlanetRow(planets, row, i, id);
    }
    SameMap(ps, dp);
  }

  lemma SameMap(a: map<string, PlanetRow>, b: map<string, PlanetRow>)
    requires forall id :: id in a <==> id in b
    requires forall id :: id in a ==> a[id] == b[id]
    ensures a == b
  {
  }

  /** A create under a new key keeps every row there was. */
  lemma CreateSystemExtends(t: Tables, user: UserId, systemId: string, recRes: bool,
                            seeds: seq<PlanetSeed>, now: Time)
    requires Valid(t) && SysKey(user, systemId) !in t.systems
    ensures Extends(t, CreateSystem(t, user, systemId, recRes, seeds, now))
  {
    FreshRow(t);
  }

  /** No planet of valid tables hangs off the next row id. */
  lemma FreshRow(t: Tables)
    requires Valid(t)
    ensures forall pk :: pk in t.planets ==> pk.systemRow != t.nextRowId
  {
    forall pk | pk in t.planets ensures pk.systemRow != t.nextRowId {
      var k :| k in t.systems && t.systems[k].rowId == pk.systemRow;
    }
  }

  /** One create of the batch keeps the tables valid, keeps every row there was and adds
      exactly its key. */
  lemma CreateQueuedFrame(t: Tables, user: UserId, i: nat, now: Time)
    requires Valid(t) && user in t.users && SysKey(user, SystemCode(i)) !in t.systems
    ensures var t' := CreateSystem(t, user, SystemCode(i), false, DefaultSeeds(i), now);
            && Valid(t')
            && Extends(t, t')
            && t'.systems.Keys == t.systems.Keys + {SysKey(user, SystemCode(i))}
  {
    CreateSystemValid(t, user, SystemCode(i), false, DefaultSeeds(i), now);
    CreateSystemExtends(t, user, SystemCode(i), false, DefaultSeeds(i), now);
  }

  /** The system one create of the batch adds: `recRes` false, dated `now`, under the
      next row id, with the nine default planets. */
  lemma CreateQueuedRow(t: Tables, user: UserId, i: nat, now: Time)
    requires Valid(t)
    ensures var t' := CreateSystem(t, user, SystemCode(i), false, DefaultSeeds(i), now);
            && t'.systems[SysKey(user, SystemCode(i))] == SystemRow(t.nextRowId, false, now)
            && PlanetsOf(t'.planets, t.nextRowId) == DefaultPlanets(i)
  {
    FreshRow(t);
    DefaultSeedsPlanets(t.planets, t.nextRowId, i);
  }

  /** The systems of the queue `nums`, present in `r` under the row ids from `base` on,
      with `recRes` false and their nine default planets. */
  ghost predicate Created(r: Tables, user: UserId, nums: seq<nat>, base: RowId, now: Time) {
    forall j :: 0 <= j < |nums| ==>
      && SysKey(user, SystemCode(nums[j])) in r.systems
      && r.systems[SysKey(user, SystemCode(nums[j]))] == SystemRow(base + j, false, now)
      && PlanetsOf(r.planets, base + j) == DefaultPlanets(nums[j])
  }

  /** A queued number's system, looked up by its key. */
  lemma CreatedHas(r: Tables, user: UserId, nums: seq<nat>, base: RowId, now: Time, i: nat)
    requires Created(r, user, nums, base, now) && i in nums
    ensures && SysKey(user, SystemCode(i)) in r.systems
            && var row := r.systems[SysKey(user, SystemCode(i))];
               !row.recRes && row.lastUpdate == now && PlanetsOf(r.planets, row.rowId) == DefaultPlanets(i)
  {
    var j :| 0 <= j < |nums| && nums[j] == i;
  }

  ghost predicate QueueAbsent(t: Tables, user: UserId, nums: seq<nat>) {
    && (forall j :: 0 <= j < |nums| ==> SysKey(user, SystemCode(nums[j])) !in t.systems)
    && (forall a, b :: 0 <= a < b < |nums| ==> nums[a] < nums[b])
  }

  /** One more create at the end of the queue. */
  lemma CreateAllSnoc(t: Tables, user: UserId, q: seq<Queued>, x: Queued, now: Time)
    ensures CreateAll(t, user, q + [x], now) ==
            CreateSystem(CreateAll(t, user, q, now), user, x.systemId, false, x.planets, now)
  {
    assert (q + [x])[..|q|] == q;
  }

  /** Creating `a` and then `b` is creating `a + b`. */
  lemma {:induction false} CreateAllAppend(t: Tables, user: UserId, a: seq<Queued>, b: seq<Queued>, now: Time)
    ensures CreateAll(CreateAll(t, user, a, now), user, b, now) == CreateAll(t, user, a + b, now)
    decreases |b|
  {
    if b != [] {
      var init := b[..|b| - 1];
      var last := b[|b| - 1];
      assert b == init + [last];
      assert a + b == (a + init) + [last];
      CreateAllAppend(t, user, a, init, now);
      CreateAllSnoc(CreateAll(t, user, a, now), user, init, last, now);
      CreateAllSnoc(t, user, a + init, last, now);
    } else {
      assert a + b == a;
    }
  }

  /** Creating one more queued system keeps the ones created before. */
  lemma CreatedSnoc(mid: Tables, r: Tables, user: UserId, init: seq<nat>, i: nat, base: RowId, now: Time)
    requires Created(mid, user, init, base, now) && Extends(mid, r)
    requires mid.nextRowId == base + |init|
    requires SysKey(user, SystemCode(i)) in r.systems
    requires r.systems[SysKey(user, SystemCode(i))] == SystemRow(mid.nextRowId, false, now)
    requires PlanetsOf(r.planets, mid.nextRowId) == DefaultPlanets(i)
    ensures Created(r, user, init + [i], base, now)
  {
    var nums := init + [i];
    forall j | 0 <= j < |nums|
      ensures SysKey(user, SystemCode(nums[j])) in r.systems
      ensures r.systems[SysKey(user, SystemCode(nums[j]))] == SystemRow(base + j, false, now)
      ensures PlanetsOf(r.planets, base + j) == DefaultPlanets(nums[j])
    {
      if j < |init| {
        assert nums[j] == init[j];
        CreatedKept(mid, r, user, init, base, now, j);
      } else {
        assert nums[j] == i;
      }
    }
  }

  /** A system created earlier in the queue is still there, unchanged. */
  lemma CreatedKept(mid: Tables, r: Tables, user: UserId, init: seq<nat>, base: RowId, now: Time, j: nat)
    requires Created(mid, user, init, base, now) && Extends(mid, r)
    requires mid.nextRowId == base + |init| && j < |init|
    ensures SysKey(user, SystemCode(init[j])) in r.systems
    ensures r.systems[SysKey(user, SystemCode(init[j]))] == SystemRow(base + j, false, now)
    ensures PlanetsOf(r.planets, base + j) == DefaultPlanets(init[j])
  {
    var key := SysKey(user, SystemCode(init[j]));
    assert key in mid.systems && mid.systems[key] == SystemRow(base + j, false, now);
    assert PlanetsOf(mid.planets, base + j) == DefaultPlanets(init[j]);
    ExtendsKeepsPlanetsOf(mid, r, base + j);
  }

  /** The queue of `/initialize` creates what `CreateSystems` says. */
  lemma {:induction false} QueueCreatesSystems(t: Tables, user: UserId, nums: seq<nat>, now: Time)
    ensures CreateAll(t, user, QueueOf(nums), now) == CreateSystems(t, user, nums, now)
    decreases |nums|
  {
    if nums != [] {
      var init := nums[..|nums| - 1];
      var i := nums[|nums| - 1];
      assert nums == init + [i];
      QueueOfSnoc(init, i);
      CreateAllSnoc(t, user, QueueOf(init), QueuedFor(i), now);
      QueueCreatesSystems(t, user, init, now);
      CreateSystemsSnoc(t, user, init, i, now);
    }
  }

  lemma QueueOfSnoc(nums: seq<nat>, i: nat)
    ensures QueueOf(nums + [i]) == QueueOf(nums) + [QueuedFor(i)]
  {
  }

  lemma CreateSystemsSnoc(t: Tables, user: UserId, nums: seq<nat>, i: nat, now: Time)
    ensures CreateSystems(t, user, nums + [i], now) ==
            CreateSystem(CreateSystems(t, user, nums, now), user, SystemCode(i), false, DefaultSeeds(i), now)
  {
    assert (nums + [i])[..|nums|] == nums;
  }

  lemma QueueAbsentPrefix(t: Tables, user: UserId, nums: seq<nat>)
    requires QueueAbsent(t, user, nums) && nums != []
    ensures QueueAbsent(t, user, nums[..|nums| - 1])
  {
  }

  /** One step of the induction over the queue: the last number is created on top of
      the tables the rest of the queue produces, and its key is not there yet. */
  lemma CreateSystemsLast(t: Tables, user: UserId, nums: seq<nat>, now: Time)
    requires QueueAbsent(t, user, nums) && nums != []
    ensures var init := nums[..|nums| - 1];
            var i := nums[|nums| - 1];
            && nums == init + [i]
            && QueueAbsent(t, user, init)
            && CreateSystems(t, user, nums, now) ==
               CreateSystem(CreateSystems(t, user, init, now), user, SystemCode(i), false, DefaultSeeds(i), now)
            && SysKey(user, SystemCode(i)) !in t.systems.Keys + QueuedKeys(user, init)
  {
    var init := nums[..|nums| - 1];
    var i := nums[|nums| - 1];
    assert nums == init + [i];
    QueueAbsentPrefix(t, user, nums);
    forall j | 0 <= j < |init| ensures SystemCode(init[j]) != SystemCode(i) {
      SystemCodeInjective(init[j], i);
    }
  }

  /** The queue is created without touching anything that existed, and adds exactly the
      queued keys. */
  lemma {:induction false} CreateSystemsFrame(t: Tables, user: UserId, nums: seq<nat>, now: Time)
    requires Valid(t) && user in t.users && QueueAbsent(t, user, nums)
    ensures var r := CreateSystems(t, user, nums, now);
            && Valid(r)
            && Extends(t, r)
            && r.systems.Keys == t.systems.Keys + QueuedKeys(user, nums)
    decreases |nums|
  {
    if nums != [] {
      var init := nums[..|nums| - 1];
      var i := nums[|nums| - 1];
      CreateSystemsLast(t, user, nums, now);
      CreateSystemsFrame(t, user, init, now);
      var mid := CreateSystems(t, user, init, now);
      CreateQueuedFrame(mid, user, i, now);
      FrameStep(t, mid, CreateSystems(t, user, nums, now), user, init, i);
    }
  }

  /** One step of `CreateSystemsFrame`, on abstract tables. */
  lemma FrameStep(t: Tables, mid: Tables, r: Tables, user: UserId, init: seq<nat>, i: nat)
    requires Extends(t, mid) && mid.systems.Keys == t.systems.Keys + QueuedKeys(user, init)
    requires Extends(mid, r) && r.systems.Keys == mid.systems.Keys + {SysKey(user, SystemCode(i))}
    ensures Extends(t, r) && r.systems.Keys == t.systems.Keys + QueuedKeys(user, init + [i])
  {
    ExtendsTrans(t, mid, r);
    assert (init + [i])[..|init|] == init;
  }

  /** Every queued system appears with `recRes` false under the next fresh row ids, with
      its nine default planets. */
  lemma {:induction false} CreateSystemsCreated(t: Tables, user: UserId, nums: seq<nat>, now: Time)
    requires Valid(t) && user in t.users && QueueAbsent(t, user, nums)
    ensures Created(CreateSystems(t, user, nums, now), user, nums, t.nextRowId, now)
    decreases |nums|
  {
    if nums != [] {
      var init := nums[..|nums| - 1];
      var i := nums[|nums| - 1];
      CreateSystemsLast(t, user, nums, now);
      CreateSystemsFrame(t, user, init, now);
      CreateSystemsCreated(t, user, init, now);
      var mid := CreateSystems(t, user, init, now);
      CreateQueuedFrame(mid, user, i, now);
      CreateQueuedRow(mid, user, i, now);
      CreatedSnoc(mid, CreateSystems(t, user, nums, now), user, init, i, t.nextRowId, now);
    }
  }

  lemma MissingAbsent(t: Tables, user: UserId)
    ensures QueueAbsent(t, user, Missing(t.systems, user, Last + 1))
  {
  }

  /** `/initialize` for an existing user succeeds, reports how many systems it queued,
      keeps the tables valid and keeps every row there was. */
  lemma InitializeKeeps(t: Tables, user: UserId, now: Time)
    requires Valid(t) && user in t.users
    ensures var s := Initialize(t, user, now);
            && s.response == Ok(InitJson(InitializedText, |Missing(t.systems, user, Last + 1)|))
            && Valid(s.tables)
            && Extends(t, s.tables)
  {
    MissingAbsent(t, user);
    CreateSystemsFrame(t, user, Missing(t.systems, user, Last + 1), now);
  }

  /** A queue holding every missing number of the range puts every system of the range
      in place, and adds no key outside the queue. */
  lemma CreateSystemsCovers(t: Tables, user: UserId, nums: seq<nat>, now: Time)
    requires Valid(t) && user in t.users && QueueAbsent(t, user, nums)
    requires forall i :: First <= i <= Last && SysKey(user, SystemCode(i)) !in t.systems ==> i in nums
    requires forall j :: 0 <= j < |nums| ==> First <= nums[j] <= Last
    ensures var r := CreateSystems(t, user, nums, now);
            && (forall i :: First <= i <= Last ==> SysKey(user, SystemCode(i)) in r.systems)
            && (forall k :: k in r.systems && k !in t.systems ==>
                  k.userId == user && exists i :: First <= i <= Last && k.systemId == SystemCode(i))
  {
    CreateSystemsFrame(t, user, nums, now);
    QueuedKeysCover(t.systems, CreateSystems(t, user, nums, now).systems, user, nums);
  }

  /** Adding the keys of a queue that holds every missing number of the range. */
  lemma QueuedKeysCover(before: map<SysKey, SystemRow>, after: map<SysKey, SystemRow>, user: UserId, nums: seq<nat>)
    requires after.Keys == before.Keys + QueuedKeys(user, nums)
    requires forall i :: First <= i <= Last && SysKey(user, SystemCode(i)) !in before ==> i in nums
    requires forall j :: 0 <= j < |nums| ==> First <= nums[j] <= Last
    ensures forall i :: First <= i <= Last ==> SysKey(user, SystemCode(i)) in after
    ensures forall k :: k in after && k !in before ==>
              k.userId == user && exists i :: First <= i <= Last && k.systemId == SystemCode(i)
  {
    forall i | First <= i <= Last ensures SysKey(user, SystemCode(i)) in after {
      if SysKey(user, SystemCode(i)) !in before {
        var j :| 0 <= j < |nums| && nums[j] == i;
        assert SysKey(user, SystemCode(nums[j])) in QueuedKeys(user, nums);
      }
    }
  }

  /** Afterwards the user has every system 555:111 to 555:999, and the only systems added
      are those. */
  lemma InitializeCovers(t: Tables, user: UserId, now: Time)
    requires Valid(t) && user in t.users
    ensures var r := Initialize(t, user, now).tables;
            && (forall i :: First <= i <= Last ==> SysKey(user, SystemCode(i)) in r.systems)
            && (forall k :: k in r.systems && k !in t.systems ==>
                  k.userId == user && exists i :: First <= i <= Last && k.systemId == SystemCode(i))
  {
    MissingAbsent(t, user);
    CreateSystemsCovers(t, user, Missing(t.systems, user, Last + 1), now);
  }

  /** Each queued system gets `recRes` false, the time of the call and exactly the nine
      default planets. */
  lemma CreateSystemsNewSystem(t: Tables, user: UserId, nums: seq<nat>, now: Time, i: nat)
    requires Valid(t) && user in t.users && QueueAbsent(t, user, nums)
    requires i in nums
    ensures var r := CreateSystems(t, user, nums, now);
            && SysKey(user, SystemCode(i)) in r.systems
            && var row := r.systems[SysKey(user, SystemCode(i))];
               !row.recRes && row.lastUpdate == now && PlanetsOf(r.planets, row.rowId) == DefaultPlanets(i)
  {
    CreateSystemsCreated(t, user, nums, now);
    CreatedHas(CreateSystems(t, user, nums, now), user, nums, t.nextRowId, now, i);
  }

  /** Each system `/initialize` adds has `recRes` false, the time of the call, and exactly
      the nine default planets. */
  lemma InitializeNewSystems(t: Tables, user: UserId, now: Time, i: nat)
    requires Valid(t) && user in t.users
    requires First <= i <= Last && SysKey(user, SystemCode(i)) !in t.systems
    ensures var r := Initialize(t, user, now).tables;
            && SysKey(user, SystemCode(i)) in r.systems
            && var row := r.systems[SysKey(user, SystemCode(i))];
               !row.recRes && row.lastUpdate == now && PlanetsOf(r.planets, row.rowId) == DefaultPlanets(i)
  {
    MissingAbsent(t, user);
    CreateSystemsNewSystem(t, user, Missing(t.systems, user, Last + 1), now, i);
  }

  /** After an initialisation every system is there, so an immediate second call queues
      nothing, reports 0 and changes nothing. */
  lemma InitializeTwice(t: Tables, user: UserId, now1: Time, now2: Time)
    requires Valid(t) && user in t.users
    ensures var s1 := Initialize(t, user, now1);
            Initialize(s1.tables, user, now2) == Step(s1.tables, Ok(InitJson(InitializedText, 0)))
  {
    InitializeCovers(t, user, now1);
    var t1 := Initialize(t, user, now1).tables;
    NothingMissing(t1.systems, user, Last + 1);
  }

  /** With every system below `hi` present the scan queues nothing. */
  lemma {:induction false} NothingMissing(systems: map<SysKey, SystemRow>, user: UserId, hi: nat)
    requires forall i :: First <= i < hi ==> SysKey(user, SystemCode(i)) in systems
    ensures Missing(systems, user, hi) == []
    decreases hi
  {
    if hi > First {
      NothingMissing(systems, user, hi - 1);
    }
  }

  /** Nothing missing below `hi` means the whole range is queued. */
  lemma {:induction false} MissingAll(systems: map<SysKey, SystemRow>, user: UserId, hi: nat)
    requires forall k :: k in systems ==> k.userId != user
    requires First <= hi
    ensures |Missing(systems, user, hi)| == hi - First
    decreases hi
  {
    if hi > First {
      MissingAll(systems, user, hi - 1);
    }
  }

  /** For a user without systems `/initialize` reports all 889 systems. */
  lemma InitializeFreshUser(t: Tables, user: UserId, now: Time)
    requires Valid(t) && user in t.users
    requires forall k :: k in t.systems ==> k.userId != user
    ensures Initialize(t, user, now).response == Ok(InitJson(InitializedText, 889))
  {
    MissingAll(t.systems, user, Last + 1);
  }

  // ----- the handlers -----

  /** POST `/`. */
  method PostSystem(db: Database, header: Option<string>, verify: string -> Option<Claims>,
                    systemId: string, recRes: Option<bool>, seeds: Option<seq<PlanetSeed>>, now: Time)
    returns (r: Response<SystemJson>)
    requires db.Valid()
    modifies db
    ensures db.Valid()
    ensures match Authenticate(header, verify)
            case Authenticated(c) =>
              Step(db.State(), r) == UpsertSystem(old(db.State()), c.userId, systemId, recRes, seeds, now)
            case _ => db.State() == old(db.State()) && r == Rejection(Authenticate(header, verify))
  {
    var auth := Authenticate(header, verify);
    if !auth.Authenticated? {
      return Rejection(auth);
    }
    var user := auth.user.userId;
    ghost var t0 := db.State();
    UpsertSystemValid(t0, user, systemId, recRes, seeds, now);
    var key := SysKey(user, systemId);
    if key in db.systems {
      db.systems := db.systems[key := Touch(db.systems[key], recRes, now)];
    } else {
      if user !in db.users || !DistinctPlanetIds(seeds.GetOr([])) {
        return Error(ServerError, ServerErrorText);
      }
      db.CreateSystemRow(user, systemId, recRes.GetOr(false), seeds.GetOr([]), now);
    }
    r := Ok(SystemJsonOf(db.State(), key));
  }

  /** PATCH `/:systemId`. */
  method PatchSystemRoute(db: Database, header: Option<string>, verify: string -> Option<Claims>,
                          systemId: string, recRes: Option<bool>, now: Time)
    returns (r: Response<SystemJson>)
    requires db.Valid()
    modifies db
    ensures db.Valid()
    ensures match Authenticate(header, verify)
            case Authenticated(c) =>
              Step(db.State(), r) == PatchSystem(old(db.State()), c.userId, systemId, recRes, now)
            case _ => db.State() == old(db.State()) && r == Rejection(Authenticate(header, verify))
  {
    var auth := Authenticate(header, verify);
    if !auth.Authenticated? {
      return Rejection(auth);
    }
    var user := auth.user.userId;
    PatchSystemValid(db.State(), user, systemId, recRes, now);
    var key := SysKey(user, systemId);
    if key !in db.systems {
      return Error(ServerError, ServerErrorText);
    }
    db.systems := db.systems[key := Touch(db.systems[key], recRes, now)];
    r := Ok(SystemJsonOf(db.State(), key));
  }

  /** PATCH `/:systemId/planets/:planetId`. */
  method PatchPlanetRoute(db: Database, header: Option<string>, verify: string -> Option<Claims>,
                          systemId: string, planetId: string, important: Option<bool>,
                          notes: Option<string>, now: Time)
    returns (r: Response<PlanetJson>)
    requires db.Valid()
    modifies db
    ensures db.Valid()
    ensures match Authenticate(header, verify)
            case Authenticated(c) =>
              Step(db.State(), r) == UpsertPlanet(old(db.State()), c.userId, systemId, planetId, important, notes, now)
            case _ => db.State() == old(db.State()) && r == Rejection(Authenticate(header, verify))
  {
    var auth := Authenticate(header, verify);
    if !auth.Authenticated? {
      return Rejection(auth);
    }
    var user := auth.user.userId;
    UpsertPlanetValid(db.State(), user, systemId, planetId, important, notes, now);
    var key := SysKey(user, systemId);
    if key !in db.systems {
      return Error(NotFound, NotFoundText);
    }
    var pk := PlanetKey(db.systems[key].rowId, planetId);
    var planet: PlanetRow;
    if pk in db.planets {
      planet := db.planets[pk];
      planet := planet.(important := important.GetOr(planet.important), notes := notes.GetOr(planet.notes));
    } else {
      planet := PlanetRow(important.GetOr(false), notes.GetOr(""));
    }
    db.planets := db.planets[pk := planet];
    db.systems := db.systems[key := db.systems[key].(lastUpdate := now)];
    r := Ok(PlanetJson(planetId, pk.systemRow, planet.important, planet.notes));
  }

  /** The scan of `/initialize`: the missing systems of the caller, in ascending order. */
  method ScanMissing(db: Database, user: UserId) returns (queue: seq<Queued>)
    ensures queue == QueueOf(Missing(db.systems, user, Last + 1))
  {
    var systems := db.systems;
    queue := [];
    for i := First to Last + 1
      invariant queue == QueueOf(Missing(systems, user, i))
    {
      ScanStep(systems, user, i);
      var systemId := SystemCode(i);
      if SysKey(user, systemId) !in systems {
        queue := queue + [Queued(systemId, DefaultSeeds(i))];
      }
    }
  }

  /** One round of the scan: number `i` is queued when the user lacks it. */
  lemma ScanStep(systems: map<SysKey, SystemRow>, user: UserId, i: nat)
    requires First <= i
    ensures SysKey(user, SystemCode(i)) in systems ==>
              QueueOf(Missing(systems, user, i + 1)) == QueueOf(Missing(systems, user, i))
    ensures SysKey(user, SystemCode(i)) !in systems ==>
              QueueOf(Missing(systems, user, i + 1)) == QueueOf(Missing(systems, user, i)) + [Queued(SystemCode(i), DefaultSeeds(i))]
  {
    if SysKey(user, SystemCode(i)) !in systems {
      QueueOfSnoc(Missing(systems, user, i), i);
    }
  }

  /** One batch: its creates one after the other. */
  method CreateBatch(db: Database, user: UserId, batch: seq<Queued>, now: Time)
    modifies db
    ensures db.State() == CreateAll(old(db.State()), user, batch, now)
  {
    ghost var t0 := db.State();
    var j := 0;
    while j < |batch|
      invariant 0 <= j <= |batch|
      invariant db.State() == CreateAll(t0, user, batch[..j], now)
    {
      assert batch[..j + 1] == batch[..j] + [batch[j]];
      CreateAllSnoc(t0, user, batch[..j], batch[j], now);
      db.CreateSystemRow(user, batch[j].systemId, false, batch[j].planets, now);
      j := j + 1;
    }
    assert batch[..|batch|] == batch;
  }

  /** Creating the queue up to `done` and then the next batch is creating the queue up
      to the batch's end. */
  lemma BatchStep(t0: Tables, user: UserId, queue: seq<Queued>, done: nat, end: nat, now: Time)
    requires done <= end <= |queue|
    ensures CreateAll(CreateAll(t0, user, queue[..done], now), user, queue[done..end], now) ==
            CreateAll(t0, user, queue[..end], now)
  {
    CreateAllAppend(t0, user, queue[..done], queue[done..end], now);
    assert queue[..done] + queue[done..end] == queue[..end];
  }

  /** The creates of `/initialize`, `BatchSize` at a time. */
  method CreateQueue(db: Database, user: UserId, queue: seq<Queued>, now: Time)
    modifies db
    ensures db.State() == CreateAll(old(db.State()), user, queue, now)
  {
    ghost var t0 := db.State();
    var done := 0;
    while done < |queue|
      invariant done <= |queue|
      invariant db.State() == CreateAll(t0, user, queue[..done], now)
    {
      var end := if done + BatchSize < |queue| then done + BatchSize else |queue|;
      BatchStep(t0, user, queue, done, end, now);
      CreateBatch(db, user, queue[done..end], now);
      done := end;
    }
    assert queue[..|queue|] == queue;
  }

  /** POST `/initialize`. */
  method InitializeRoute(db: Database, header: Option<string>, verify: string -> Option<Claims>, now: Time)
    returns (r: Response<InitJson>)
    requires db.Valid()
    modifies db
    ensures db.Valid()
    ensures match Authenticate(header, verify)
            case Authenticated(c) => Step(db.State(), r) == Initialize(old(db.State()), c.userId, now)
            case _ => db.State() == old(db.State()) && r == Rejection(Authenticate(header, verify))
  {
    var auth := Authenticate(header, verify);
    if !auth.Authenticated? {
      return Rejection(auth);
    }
    var user := auth.user.userId;
    ghost var t0 := db.State();
    var queue := ScanMissing(db, user);
    QueueCreatesSystems(t0, user, Missing(t0.systems, user, Last + 1), now);
    if user in db.users {
      InitializeKeeps(t0, user, now);
    }
    if queue != [] && user !in db.users {
      // the first create of the first batch violates the foreign key
      return Error(ServerError, ServerErrorText);
    }
    CreateQueue(db, user, queue, now);
    r := Ok(InitJson(InitializedText, |queue|));
  }
}
