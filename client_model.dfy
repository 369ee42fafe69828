/** The state both browser clients keep about the galaxy (src/App.jsx and
    src/Galaxy555Tracker.jsx): an object of system views keyed by the system number as
    text, and the pure transformations on it: the merge of an update into one system or
    one planet, the search filter and the 20-per-page slicing. */
module Client {

  import opened Wrappers
  import opened Text
  import opened Galaxy

  datatype PlanetView = PlanetView(id: string, important: bool, notes: string)

  datatype SystemView = SystemView(id: string, recRes: bool, lastUpdate: string, planets: seq<PlanetView>)

  /** A JavaScript object of systems: property name to view. */
  type Systems = map<string, SystemView>

  /** The fields an update object may carry; an absent field is not spread. */
  datatype SystemUpdate = SystemUpdate(recRes: Option<bool>)

  datatype PlanetUpdate = PlanetUpdate(important: Option<bool>, notes: Option<string>)

  const SystemsPerPage: nat := 20

  /** The property name a number `i` becomes when used as an object key. */
  function Key(i: nat): string {
    NatToString(i)
  }

  /** `id.split(':')[1]`; a missing element is `undefined`, whose property name is
      "undefined". */
  function KeyOf(id: string): (k: string)
    ensures Field(id, ':', 1).Some? ==> k == Field(id, ':', 1).value
  {
    match Field(id, ':', 1)
    case Some(k) => k
    case None => "undefined"
  }

  /** The key of system `i` is the text after the first ':' of its code. */
  lemma KeyOfSystemCode(i: nat)
    ensures KeyOf(SystemCode(i)) == Key(i)
  {
    SystemCodeFields(i);
  }

  /** The nine default planets `555:i:1` to `555:i:9`, not important, without notes. */
  function DefaultPlanetViews(i: nat): (ps: seq<PlanetView>)
    ensures |ps| == PlanetsPerSystem
    ensures forall k :: 0 <= k < |ps| ==> ps[k] == PlanetView(PlanetCode(i, k + 1), false, "")
  {
    seq(PlanetsPerSystem, k requires 0 <= k < PlanetsPerSystem => PlanetView(PlanetCode(i, k + 1), false, ""))
  }

  /** The view a client makes up for system `i` it has no data for, dated `today`. */
  function DefaultSystem(i: nat, today: string): SystemView {
    SystemView(SystemCode(i), false, today, DefaultPlanetViews(i))
  }

  /** The planets of a default system have pairwise distinct ids, each naming the
      system's own number as its second field. */
  lemma DefaultSystemPlanets(i: nat, today: string)
    ensures var s := DefaultSystem(i, today);
            && KeyOf(s.id) == Key(i)
            && (forall k, l :: 0 <= k < l < |s.planets| ==> s.planets[k].id != s.planets[l].id)
            && (forall k :: 0 <= k < |s.planets| ==> Field(s.planets[k].id, ':', 1) == Some(Key(i)))
  {
    var s := DefaultSystem(i, today);
    KeyOfSystemCode(i);
    forall k, l | 0 <= k < l < |s.planets|
      ensures s.planets[k].id != s.planets[l].id
    {
      PlanetCodeInjective(i, k + 1, i, l + 1);
    }
    forall k | 0 <= k < |s.planets|
      ensures Field(s.planets[k].id, ':', 1) == Some(Key(i))
    {
      PlanetCodeFields(i, k + 1);
    }
  }

  /** `{...system, ...updates, lastUpdate: today}`. */
  function MergeSystem(s: SystemView, u: SystemUpdate, today: string): (r: SystemView)
    ensures r.id == s.id && r.planets == s.planets && r.lastUpdate == today
    ensures u.recRes.Some? ==> r.recRes == u.recRes.value
    ensures u.recRes.None? ==> r.recRes == s.recRes
  {
    s.(recRes := u.recRes.GetOr(s.recRes), lastUpdate := today)
  }

  /** `{...planet, ...updates}`. */
  function MergePlanet(p: PlanetView, u: PlanetUpdate): (r: PlanetView)
    ensures r.id == p.id
    ensures u.important.Some? ==> r.important == u.important.value
    ensures u.important.None? ==> r.important == p.important
    ensures u.notes.Some? ==> r.notes == u.notes.value
    ensures u.notes.None? ==> r.notes == p.notes
  {
    p.(important := u.important.GetOr(p.important), notes := u.notes.GetOr(p.notes))
  }

  /** `updateSystem`'s new object. The merged system keeps its id and planets, takes
      `recRes` from the update when it carries one and is dated `today`; every other
      key keeps its system. */
  function UpdateSystemIn(systems: Systems, n: string, u: SystemUpdate, today: string): (r: Systems)
    requires n in systems
    ensures r.Keys == systems.Keys
    ensures forall k :: k in systems && k != n ==> r[k] == systems[k]
    ensures r[n].id == systems[n].id && r[n].planets == systems[n].planets && r[n].lastUpdate == today
    ensures u.recRes.Some? ==> r[n].recRes == u.recRes.value
    ensures u.recRes.None? ==> r[n].recRes == systems[n].recRes
  {
    systems[n := MergeSystem(systems[n], u, today)]
  }

  /** `planets.map((planet, idx) => idx === planetIdx ? {...planet, ...updates} : planet)`. */
  function MapPlanet(ps: seq<PlanetView>, idx: nat, u: PlanetUpdate): (qs: seq<PlanetView>)
    ensures |qs| == |ps|
  {
    seq(|ps|, j requires 0 <= j < |ps| => if j == idx then MergePlanet(ps[j], u) else ps[j])
  }

  /** `updatePlanet`'s new object; `None` when `systems[systemNum].planets` throws
      because the key is absent. */
  function UpdatePlanetIn(systems: Systems, n: string, idx: nat, u: PlanetUpdate, today: string): (r: Option<Systems>)
    ensures r.None? <==> n !in systems
    ensures r.Some? ==> r.value.Keys == systems.Keys
    ensures r.Some? ==> forall k :: k in systems && k != n ==> r.value[k] == systems[k]
  {
    if n !in systems then None
    else
      var s := systems[n];
      Some(systems[n := s.(planets := MapPlanet(s.planets, idx, u), lastUpdate := today)])
  }

  /** A planet update keeps the system's id, flag and planet count, dates it `today`,
      merges the update into the planet at `idx` and leaves every other planet as it
      was; an index past the end changes no planet. */
  lemma UpdatePlanetEffect(systems: Systems, n: string, idx: nat, u: PlanetUpdate, today: string)
    requires n in systems
    ensures var r := UpdatePlanetIn(systems, n, idx, u, today);
            && r.Some?
            && var s, s' := systems[n], r.value[n];
               && s'.id == s.id && s'.recRes == s.recRes && s'.lastUpdate == today
               && |s'.planets| == |s.planets|
               && (forall j :: 0 <= j < |s.planets| && j != idx ==> s'.planets[j] == s.planets[j])
               && (idx < |s.planets| ==>
                     && s'.planets[idx].id == s.planets[idx].id
                     && s'.planets[idx].important == u.important.GetOr(s.planets[idx].important)
                     && s'.planets[idx].notes == u.notes.GetOr(s.planets[idx].notes))
               && (idx >= |s.planets| ==> s'.planets == s.planets)
  {
  }

  /** `filter(system => system.id.includes(searchTerm))`. */
  function Filter(vs: seq<SystemView>, term: string): (r: seq<SystemView>)
    ensures |r| <= |vs|
    ensures forall v :: v in r <==> v in vs && Contains(v.id, term)
  {
    if vs == [] then []
    else
      var rest := Filter(vs[1..], term);
      assert forall v :: v in vs <==> v == vs[0] || v in vs[1..];
      if Contains(vs[0].id, term) then [vs[0]] + rest else rest
  }

  /** The filter keeps the order of its input: filtering a concatenation filters each
      part. */
  lemma {:induction false} FilterAppend(a: seq<SystemView>, b: seq<SystemView>, term: string)
    ensures Filter(a + b, term) == Filter(a, term) + Filter(b, term)
  {
    if a == [] {
      assert a + b == b;
    } else {
      assert (a + b)[0] == a[0];
      assert (a + b)[1..] == a[1..] + b;
      FilterAppend(a[1..], b, term);
    }
  }

  /** An empty search term keeps every system, in order. */
  lemma {:induction false} FilterEmptyTerm(vs: seq<SystemView>)
    ensures Filter(vs, "") == vs
  {
    if vs != [] {
      assert OccursAt(vs[0].id, "", 0);
      FilterEmptyTerm(vs[1..]);
    }
  }

  /** `Array.prototype.slice(begin, end)`: negative bounds count from the end, bounds are
      clamped to the array, and a range with `end <= begin` is empty. */
  function Slice<T>(s: seq<T>, begin: int, end: int): (r: seq<T>)
    ensures |r| <= |s|
    ensures 0 <= begin <= end ==>
              r == s[(if begin < |s| then begin else |s|)..(if end < |s| then end else |s|)]
    ensures (0 <= end <= begin || end <= begin < 0) ==> r == []
    ensures begin < 0 && 0 <= end ==>
              var b := if |s| + begin < 0 then 0 else |s| + begin;
              var e := if end < |s| then end else |s|;
              r == if e <= b then [] else s[b..e]
  {
    var b := if begin < 0 then (if |s| + begin < 0 then 0 else |s| + begin)
             else if begin > |s| then |s| else begin;
    var e := if end < 0 then (if |s| + end < 0 then 0 else |s| + end)
             else if end > |s| then |s| else end;
    if e <= b then [] else s[b..e]
  }

  /** `currentSystems` on page `p`: `slice((p - 1) * 20, p * 20)`. */
  function PageOf<T>(vs: seq<T>, p: int): (r: seq<T>)
    ensures |r| <= SystemsPerPage
  {
    Slice(vs, p * SystemsPerPage - SystemsPerPage, p * SystemsPerPage)
  }

  /** `Math.ceil(n / 20)`: the fewest pages of 20 that hold `n` systems. */
  function TotalPages(n: nat): (pages: nat)
    ensures n <= pages * SystemsPerPage
    ensures pages == 0 || (pages - 1) * SystemsPerPage < n
  {
    if n % SystemsPerPage == 0 then n / SystemsPerPage else n / SystemsPerPage + 1
  }

  /** Page `p` (counted from 1) holds the systems from index `(p - 1) * 20` on, at most
      20; the pages 1 to `TotalPages` are exactly the non-empty ones. */
  lemma PageContents<T>(vs: seq<T>, p: int)
    requires 1 <= p
    ensures var first := (p - 1) * SystemsPerPage;
            && (first < |vs| ==> PageOf(vs, p) == vs[first..if p * SystemsPerPage <= |vs| then p * SystemsPerPage else |vs|])
            && (first >= |vs| ==> PageOf(vs, p) == [])
            && |PageOf(vs, p)| <= SystemsPerPage
            && (PageOf(vs, p) != [] <==> p <= TotalPages(|vs|))
  {
  }

  /** Each system of the filtered list shows on exactly one page: the one numbered
      `j / 20 + 1`, at row `j % 20`, and that page is within the page count. */
  lemma PageOfIndex<T>(vs: seq<T>, j: nat)
    requires j < |vs|
    ensures var p := j / SystemsPerPage + 1;
            && 1 <= p <= TotalPages(|vs|)
            && j % SystemsPerPage < |PageOf(vs, p)|
            && PageOf(vs, p)[j % SystemsPerPage] == vs[j]
  {
    var p := j / SystemsPerPage + 1;
    PageContents(vs, p);
  }

  /** The "Zurück" button: `Math.max(1, p - 1)`. */
  function PrevPage(p: int): (r: int)
    ensures 1 <= r && p - 1 <= r
    ensures r == 1 || r == p - 1
  {
    if p - 1 < 1 then 1 else p - 1
  }

  /** The "Weiter" button: `Math.min(totalPages, p + 1)`. */
  function NextPage(p: int, totalPages: int): (r: int)
    ensures r <= totalPages && r <= p + 1
    ensures r == totalPages || r == p + 1
  {
    if totalPages < p + 1 then totalPages else p + 1
  }

  /** The buttons show only when there is more than one page; from a page in
      `[1, totalPages]` both keep the page in that range, step by one, and stop at the
      ends. */
  lemma PagingStaysInRange(p: int, totalPages: int)
    requires 1 < totalPages && 1 <= p <= totalPages
    ensures 1 <= PrevPage(p) <= totalPages && 1 <= NextPage(p, totalPages) <= totalPages
    ensures p > 1 ==> PrevPage(p) == p - 1
    ensures p == 1 ==> PrevPage(p) == 1
    ensures p < totalPages ==> NextPage(p, totalPages) == p + 1
    ensures p == totalPages ==> NextPage(p, totalPages) == totalPages
  {
  }

  /** The order in which `Object.values` lists an object: every key once. */
  ghost predicate Enumerates(order: seq<string>, m: Systems) {
    && (forall j, l :: 0 <= j < l < |order| ==> order[j] != order[l])
    && (forall k :: k in m <==> k in order)
  }

  /** `Object.values(systems)` in the key order `order`. */
  function ValuesIn(order: seq<string>, m: Systems): (vs: seq<SystemView>)
    requires forall j :: 0 <= j < |order| ==> order[j] in m
    ensures |vs| == |order|
    ensures forall j :: 0 <= j < |order| ==> vs[j] == m[order[j]]
  {
    seq(|order|, j requires 0 <= j < |order| => m[order[j]])
  }

  /** An enumeration lists as many values as the object has keys. */
  lemma {:induction false} EnumerationLength(order: seq<string>, m: Systems)
    requires Enumerates(order, m)
    ensures |order| == |m|
    decreases |order|
  {
    if order == [] {
      assert m.Keys == {};
    } else {
      var k := order[|order| - 1];
      EnumerationDrop(order, m);
      EnumerationLength(order[..|order| - 1], m - {k});
      assert m.Keys == (m - {k}).Keys + {k};
    }
  }

  /** Without its last key, an enumeration enumerates the object without that key. */
  lemma EnumerationDrop(order: seq<string>, m: Systems)
    requires Enumerates(order, m) && order != []
    ensures Enumerates(order[..|order| - 1], m - {order[|order| - 1]})
  {
    var k := order[|order| - 1];
    var rest := order[..|order| - 1];
    forall x
      ensures x in m - {k} <==> x in rest
    {
      if x in rest {
        var j :| 0 <= j < |rest| && rest[j] == x;
        assert order[j] == x;
      }
      if x in m - {k} {
        var j :| 0 <= j < |order| && order[j] == x;
        assert rest[j] == x;
      }
    }
  }
}
