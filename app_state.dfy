/** The server-backed client of src/App.jsx: `convertSystemsToState`, which turns the
    systems list the server sends into the object of 889 system views, and the local
    updates `updateSystem` and `updatePlanet`, which run after the server call. */
module AppState {

  import opened Wrappers
  import opened Text
  import opened Galaxy
  import opened Client

  /** A planet as the server's JSON lists it. */
  datatype ServerPlanet = ServerPlanet(planetId: string, important: bool, notes: string)

  /** A system as the server's JSON lists it; `lastUpdate` is an ISO date-time text. */
  datatype ServerSystem = ServerSystem(systemId: string, recRes: bool, lastUpdate: string, planets: seq<ServerPlanet>)

  /** `lastUpdate.split('T')[0]`: the date part of an ISO date-time. */
  function DateOf(iso: string): (d: string)
    ensures 'T' !in d
    ensures 'T' !in iso ==> d == iso
  {
    assert 'T' !in iso ==> Split(iso, 'T') == [iso] by {
      if 'T' !in iso { SplitWithout(iso, 'T'); }
    }
    Split(iso, 'T')[0]
  }

  /** The date part of `date + "T" + time` is `date`. */
  lemma DateOfIso(date: string, time: string)
    requires 'T' !in date
    ensures DateOf(date + "T" + time) == date
  {
    SplitAtFirst(date, 'T', time);
  }

  /** The view of one server system: its planets mapped to id, flag and notes. */
  function ViewOf(s: ServerSystem): (v: SystemView)
    ensures v.id == s.systemId && v.recRes == s.recRes && v.lastUpdate == DateOf(s.lastUpdate)
    ensures |v.planets| == |s.planets|
    ensures forall j :: 0 <= j < |s.planets| ==>
              v.planets[j] == PlanetView(s.planets[j].planetId, s.planets[j].important, s.planets[j].notes)
  {
    SystemView(s.systemId, s.recRes, DateOf(s.lastUpdate),
               seq(|s.planets|, j requires 0 <= j < |s.planets| =>
                 PlanetView(s.planets[j].planetId, s.planets[j].important, s.planets[j].notes)))
  }

  /** The `forEach` over the server list: each system stored under the key of its
      `systemId`, a later one with the same key replacing an earlier one. */
  function FromServer(data: seq<ServerSystem>): (m: Systems)
    ensures forall j :: 0 <= j < |data| ==> KeyOf(data[j].systemId) in m
  {
    if data == [] then map[]
    else
      var last := data[|data| - 1];
      FromServer(data[..|data| - 1])[KeyOf(last.systemId) := ViewOf(last)]
  }

  /** Every key of the object comes from some server system. */
  lemma {:induction false} FromServerKeys(data: seq<ServerSystem>)
    ensures forall k :: k in FromServer(data) ==> exists j :: 0 <= j < |data| && KeyOf(data[j].systemId) == k
  {
    if data != [] {
      var n := |data| - 1;
      var rest := data[..n];
      FromServerKeys(rest);
      forall k | k in FromServer(data)
        ensures exists j :: 0 <= j < |data| && KeyOf(data[j].systemId) == k
      {
        if k != KeyOf(data[n].systemId) {
          assert k in FromServer(rest);
          var j :| 0 <= j < |rest| && KeyOf(rest[j].systemId) == k;
          assert data[j] == rest[j];
        }
      }
    }
  }

  /** The last server system with a given key is the one stored under it. */
  lemma {:induction false} FromServerLatest(data: seq<ServerSystem>, j: nat)
    requires j < |data|
    requires forall l :: j < l < |data| ==> KeyOf(data[l].systemId) != KeyOf(data[j].systemId)
    ensures FromServer(data)[KeyOf(data[j].systemId)] == ViewOf(data[j])
  {
    var n := |data| - 1;
    if j < n {
      var rest := data[..n];
      assert data[j] == rest[j];
      assert forall l :: j < l < |rest| ==> rest[l] == data[l];
      FromServerLatest(rest, j);
    }
  }

  /** The loop `for (let i = 111; i <= 999; i++) if (!systemsObj[i]) ...` after the
      numbers below `i`: each absent key gets the default system. */
  function Fill(m: Systems, today: string, i: nat): Systems
    requires First <= i <= Last + 1
    decreases i
  {
    if i == First then m
    else
      var p := Fill(m, today, i - 1);
      if Key(i - 1) in p then p else p[Key(i - 1) := DefaultSystem(i - 1, today)]
  }

  /** `convertSystemsToState`: the server systems, then defaults for the missing
      numbers. */
  function ConvertSystems(data: seq<ServerSystem>, today: string): (r: Systems)
    ensures forall k :: k in FromServer(data) ==> k in r && r[k] == FromServer(data)[k]
    ensures forall i :: First <= i <= Last ==> Key(i) in r
  {
    FillKeeps(FromServer(data), today, Last + 1);
    FillCovers(FromServer(data), today, Last + 1);
    Fill(FromServer(data), today, Last + 1)
  }

  /** The fill loop keeps every key it finds, with its system. */
  lemma {:induction false} FillKeeps(m: Systems, today: string, i: nat)
    requires First <= i <= Last + 1
    ensures forall k :: k in m ==> k in Fill(m, today, i) && Fill(m, today, i)[k] == m[k]
    decreases i
  {
    if i > First {
      FillKeeps(m, today, i - 1);
    }
  }

  /** The fill loop adds keys only for the numbers it has passed. */
  lemma {:induction false} FillKeysFrom(m: Systems, today: string, i: nat)
    requires First <= i <= Last + 1
    ensures forall k :: k in Fill(m, today, i) ==> k in m || exists j :: First <= j < i && k == Key(j)
    decreases i
  {
    if i > First {
      FillKeysFrom(m, today, i - 1);
      forall k | k in Fill(m, today, i)
        ensures k in m || exists j :: First <= j < i && k == Key(j)
      {
        if k != Key(i - 1) {
          assert k in Fill(m, today, i - 1);
        }
      }
    }
  }

  /** Every number the fill loop has passed has its key. */
  lemma {:induction false} FillCovers(m: Systems, today: string, i: nat)
    requires First <= i <= Last + 1
    ensures forall j :: First <= j < i ==> Key(j) in Fill(m, today, i)
    decreases i
  {
    if i > First {
      FillCovers(m, today, i - 1);
    }
  }

  /** The fill loop has not yet added the key of the number it is at. */
  lemma FillLacksNext(m: Systems, today: string, i: nat)
    requires First <= i <= Last && Key(i) !in m
    ensures Key(i) !in Fill(m, today, i)
  {
    FillKeysFrom(m, today, i);
    forall k | k in Fill(m, today, i) ensures k != Key(i) {
      if k !in m {
        var j :| First <= j < i && k == Key(j);
        NatToStringInjective(j, i);
      }
    }
  }

  /** A number whose key was absent gets the default system. */
  lemma {:induction false} FillDefaultAt(m: Systems, today: string, i: nat, j: nat)
    requires First <= j < i <= Last + 1 && Key(j) !in m
    ensures Key(j) in Fill(m, today, i) && Fill(m, today, i)[Key(j)] == DefaultSystem(j, today)
    decreases i
  {
    if j == i - 1 {
      FillLacksNext(m, today, j);
      FillAdds(m, today, j);
    } else {
      FillDefaultAt(m, today, i - 1, j);
      FillStepBelow(m, today, i, j);
    }
  }

  /** The step for a number whose key is absent adds its default system. */
  lemma FillAdds(m: Systems, today: string, i: nat)
    requires First <= i <= Last && Key(i) !in Fill(m, today, i)
    ensures Key(i) in Fill(m, today, i + 1) && Fill(m, today, i + 1)[Key(i)] == DefaultSystem(i, today)
  {
  }

  /** A step leaves the entries of the numbers already passed alone. */
  lemma FillStepBelow(m: Systems, today: string, i: nat, j: nat)
    requires First <= j < i - 1 && i <= Last + 1 && Key(j) in Fill(m, today, i - 1)
    ensures Key(j) in Fill(m, today, i) && Fill(m, today, i)[Key(j)] == Fill(m, today, i - 1)[Key(j)]
  {
    NatToStringInjective(j, i - 1);
    FillStep(m, today, i, Key(j));
  }

  /** A step leaves the entries under other keys alone. */
  lemma FillStep(m: Systems, today: string, i: nat, k: string)
    requires First < i <= Last + 1 && k != Key(i - 1) && k in Fill(m, today, i - 1)
    ensures k in Fill(m, today, i) && Fill(m, today, i)[k] == Fill(m, today, i - 1)[k]
  {
  }

  /** After `convertSystemsToState` all 889 numbers have a system, and every key is a
      server system's or one of those numbers'. */
  lemma ConvertSystemsKeys(data: seq<ServerSystem>, today: string)
    ensures var r := ConvertSystems(data, today);
            && (forall i :: First <= i <= Last ==> Key(i) in r)
            && (forall k :: k in r ==> (exists j :: 0 <= j < |data| && KeyOf(data[j].systemId) == k) ||
                                       (exists i :: First <= i <= Last && k == Key(i)))
  {
    FromServerKeys(data);
    FillCovers(FromServer(data), today, Last + 1);
    FillKeysFrom(FromServer(data), today, Last + 1);
  }

  /** A server system is never replaced by a default: the last one with each key is the
      system stored under it. */
  lemma ConvertSystemsKeepsServer(data: seq<ServerSystem>, today: string, j: nat)
    requires j < |data|
    requires forall l :: j < l < |data| ==> KeyOf(data[l].systemId) != KeyOf(data[j].systemId)
    ensures KeyOf(data[j].systemId) in ConvertSystems(data, today)
    ensures ConvertSystems(data, today)[KeyOf(data[j].systemId)] == ViewOf(data[j])
  {
    FromServerLatest(data, j);
    FillKeeps(FromServer(data), today, Last + 1);
  }

  /** A number the server sent no system for gets the default system. */
  lemma ConvertSystemsDefaults(data: seq<ServerSystem>, today: string, i: nat)
    requires First <= i <= Last
    requires forall j :: 0 <= j < |data| ==> KeyOf(data[j].systemId) != Key(i)
    ensures Key(i) in ConvertSystems(data, today)
    ensures ConvertSystems(data, today)[Key(i)] == DefaultSystem(i, today)
  {
    FromServerKeys(data);
    FillDefaultAt(FromServer(data), today, Last + 1, i);
  }

  /** The systems of an initialized tracker, listed by the server, land under their own
      numbers: a server system `555:i` fills key `i`. */
  lemma ServerSystemKey(i: nat, s: ServerSystem)
    requires s.systemId == SystemCode(i)
    ensures KeyOf(s.systemId) == Key(i)
  {
    KeyOfSystemCode(i);
  }

  /** `convertSystemsToState`: the `forEach`, then the fill loop. */
  method ConvertSystemsToState(data: seq<ServerSystem>, today: string) returns (systemsObj: Systems)
    ensures systemsObj == ConvertSystems(data, today)
  {
    systemsObj := StoreServerSystems(data);
    systemsObj := AddMissingSystems(systemsObj, today);
  }

  /** The `forEach` loop over the server list. */
  method StoreServerSystems(data: seq<ServerSystem>) returns (systemsObj: Systems)
    ensures systemsObj == FromServer(data)
  {
    systemsObj := map[];
    for j := 0 to |data|
      invariant systemsObj == FromServer(data[..j])
    {
      assert data[..j + 1][..j] == data[..j];
      var system := data[j];
      systemsObj := systemsObj[KeyOf(system.systemId) := ViewOf(system)];
    }
    assert data[..|data|] == data;
  }

  /** The loop over 111..999 that adds the default for every absent key. */
  method AddMissingSystems(m: Systems, today: string) returns (systemsObj: Systems)
    ensures systemsObj == Fill(m, today, Last + 1)
  {
    systemsObj := m;
    for i := First to Last + 1
      invariant systemsObj == Fill(m, today, i)
    {
      if Key(i) !in systemsObj {
        systemsObj := systemsObj[Key(i) := DefaultSystem(i, today)];
      }
    }
  }

  /** What the server call returned: success, or the error it was rejected with. */
  datatype ApiResult = Done | Failed(message: string)

  /** The shown error: none, the server's message, or the `TypeError` of reading the
      planets of a system that is not in the object. */
  datatype ShownError = NoError | ServerMessage(message: string) | ScriptError

  datatype AppView = AppView(systems: Systems, error: ShownError)

  /** `updateSystem` sends `555:${systemNum}` and the update to the server; only when
      that succeeds does the local object change. */
  function SystemRequest(n: string): string {
    "555:" + n
  }

  /** `updatePlanet` sends `555:${systemNum}` and `555:${systemNum}:${planetIdx + 1}`. */
  function PlanetRequest(n: string, idx: nat): (string, string) {
    ("555:" + n, "555:" + n + ":" + NatToString(idx + 1))
  }

  /** For the key of system `i` the requests name its own codes, and the planet code sent
      for row `idx` is the id of the `idx`-th planet of the default system. */
  lemma RequestsNameTheirSystem(i: nat, idx: nat, today: string)
    ensures SystemRequest(Key(i)) == SystemCode(i)
    ensures PlanetRequest(Key(i), idx) == (SystemCode(i), PlanetCode(i, idx + 1))
    ensures idx < PlanetsPerSystem ==> DefaultSystem(i, today).planets[idx].id == PlanetRequest(Key(i), idx).1
  {
  }

  /** `updateSystem` after the server call. */
  function AppUpdateSystem(v: AppView, n: string, u: SystemUpdate, api: ApiResult, today: string): (v': AppView)
    requires n in v.systems
    ensures api.Failed? ==> v' == v.(error := ServerMessage(api.message))
    ensures api.Done? ==> v'.error == v.error && v'.systems == UpdateSystemIn(v.systems, n, u, today)
  {
    match api
    case Failed(message) => v.(error := ServerMessage(message))
    case Done => v.(systems := UpdateSystemIn(v.systems, n, u, today))
  }

  /** `updatePlanet` after the server call; a missing key throws after the call has
      been sent, and the error is shown instead. */
  function AppUpdatePlanet(v: AppView, n: string, idx: nat, u: PlanetUpdate, api: ApiResult, today: string): (v': AppView)
    ensures api.Failed? ==> v' == v.(error := ServerMessage(api.message))
    ensures api.Done? && n !in v.systems ==> v' == v.(error := ScriptError)
    ensures api.Done? && n in v.systems ==>
              v'.error == v.error && Some(v'.systems) == UpdatePlanetIn(v.systems, n, idx, u, today)
  {
    match api
    case Failed(message) => v.(error := ServerMessage(message))
    case Done =>
      match UpdatePlanetIn(v.systems, n, idx, u, today)
      case None => v.(error := ScriptError)
      case Some(systems) => v.(systems := systems)
  }

  /** Local updates never add or drop a system: the 889 keys of a converted object stay
      present through any sequence of system and planet updates. */
  lemma UpdatesKeepKeys(v: AppView, n: string, idx: nat, su: SystemUpdate, pu: PlanetUpdate,
                        api: ApiResult, today: string)
    requires n in v.systems
    ensures AppUpdateSystem(v, n, su, api, today).systems.Keys == v.systems.Keys
    ensures AppUpdatePlanet(v, n, idx, pu, api, today).systems.Keys == v.systems.Keys
  {
  }
}
