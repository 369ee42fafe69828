/** The stand-alone tracker of src/Galaxy555Tracker.jsx: one shared password, the
    systems object kept in the browser and mirrored to local storage after every change. */
module LocalTracker {

  import opened Wrappers
  import opened Text
  import opened Galaxy
  import opened Client
  import AppState

  const CorrectPassword := "RecRes555"
  const WrongPasswordText := "Falsches Passwort!"
  /** The value the session-storage flag `galaxy555_logged_in` holds while logged in. */
  const LoggedInFlag := "true"

  /** `initializeSystems`' object after the numbers below `i`: system `j` under key `j`
      for every `j` from 111, unconditionally. */
  function Defaults(today: string, i: nat): Systems
    requires First <= i <= Last + 1
    decreases i
  {
    if i == First then map[] else Defaults(today, i - 1)[Key(i - 1) := DefaultSystem(i - 1, today)]
  }

  /** `Defaults(today, i)` holds keys only for the numbers below `i`. */
  lemma {:induction false} DefaultsKeys(today: string, i: nat)
    requires First <= i <= Last + 1
    ensures forall k :: k in Defaults(today, i) ==> exists j :: First <= j < i && k == Key(j)
    decreases i
  {
    if i > First {
      DefaultsKeys(today, i - 1);
      forall k | k in Defaults(today, i)
        ensures exists j :: First <= j < i && k == Key(j)
      {
        if k != Key(i - 1) {
          assert k in Defaults(today, i - 1);
        }
      }
    }
  }

  /** Every number below `i` has its key in `Defaults(today, i)`, with its default
      system. */
  lemma {:induction false} DefaultsValues(today: string, i: nat)
    requires First <= i <= Last + 1
    ensures forall j :: First <= j < i ==> Key(j) in Defaults(today, i) && Defaults(today, i)[Key(j)] == DefaultSystem(j, today)
    decreases i
  {
    if i > First {
      DefaultsValues(today, i - 1);
      forall j | First <= j < i - 1
        ensures Defaults(today, i)[Key(j)] == DefaultSystem(j, today)
      {
        NatToStringInjective(j, i - 1);
      }
    }
  }

  /** The key of `i` is not among those of the numbers below it. */
  lemma DefaultsLackNext(today: string, i: nat)
    requires First <= i <= Last
    ensures Key(i) !in Defaults(today, i)
  {
    DefaultsKeys(today, i);
    forall k | k in Defaults(today, i) ensures k != Key(i) {
      var j :| First <= j < i && k == Key(j);
      NatToStringInjective(j, i);
    }
  }

  /** `Defaults(today, i)` has `i - 111` entries: no number's key repeats another's. */
  lemma {:induction false} DefaultsCount(today: string, i: nat)
    requires First <= i <= Last + 1
    ensures |Defaults(today, i)| == i - First
    decreases i
  {
    if i > First {
      DefaultsCount(today, i - 1);
      DefaultsLackNext(today, i - 1);
      var d := Defaults(today, i - 1);
      assert Defaults(today, i) == d[Key(i - 1) := DefaultSystem(i - 1, today)];
      assert |d[Key(i - 1) := DefaultSystem(i - 1, today)]| == |d| + 1;
    }
  }

  /** `initializeSystems` yields exactly 889 systems, `555:111` to `555:999`, each the
      default; it is the object the server-backed client's fill loop builds from
      nothing. */
  lemma InitialSystems(today: string)
    ensures |Defaults(today, Last + 1)| == 889
    ensures forall i :: First <= i <= Last ==>
              Key(i) in Defaults(today, Last + 1) && Defaults(today, Last + 1)[Key(i)] == DefaultSystem(i, today)
    ensures Defaults(today, Last + 1) == AppState.Fill(map[], today, Last + 1)
  {
    DefaultsCount(today, Last + 1);
    DefaultsValues(today, Last + 1);
    DefaultsAreFill(today, Last + 1);
  }

  /** With an empty search the 889 initial systems span 45 pages, whatever order
      `Object.values` lists them in. */
  lemma InitialPages(today: string, order: seq<string>)
    requires Enumerates(order, Defaults(today, Last + 1))
    ensures TotalPages(|Filter(ValuesIn(order, Defaults(today, Last + 1)), "")|) == 45
  {
    var m := Defaults(today, Last + 1);
    DefaultsCount(today, Last + 1);
    EnumerationLength(order, m);
    FilterEmptyTerm(ValuesIn(order, m));
  }

  /** The unconditional loop and the fill loop from an empty object agree at every step. */
  lemma {:induction false} DefaultsAreFill(today: string, i: nat)
    requires First <= i <= Last + 1
    ensures Defaults(today, i) == AppState.Fill(map[], today, i)
    decreases i
  {
    if i > First {
      DefaultsAreFill(today, i - 1);
      DefaultsLackNext(today, i - 1);
      var f := AppState.Fill(map[], today, i - 1);
      assert Key(i - 1) !in f;
      assert AppState.Fill(map[], today, i) == f[Key(i - 1) := DefaultSystem(i - 1, today)];
    }
  }

  class Tracker {
    var isLoggedIn: bool
    /** The password field of the login form. */
    var password: string
    var systems: Systems
    var selectedSystem: Option<string>
    var searchTerm: string
    var currentPage: int
    /** `sessionStorage['galaxy555_logged_in']`. */
    var sessionFlag: Option<string>
    /** `localStorage['galaxy555_systems']`, as the object it encodes. */
    var stored: Option<Systems>
    /** The alerts shown so far. */
    var alerts: seq<string>

    /** The local-storage copy is the object in memory. */
    predicate Persisted()
      reads this
    {
      stored == Some(systems)
    }

    /** The first render and the mount effect: the session flag decides the login, and
        the stored object is loaded, or the systems are initialized when there is none. */
    constructor (session: Option<string>, saved: Option<Systems>, today: string)
      ensures isLoggedIn == (session == Some(LoggedInFlag))
      ensures sessionFlag == session && password == "" && selectedSystem == None
      ensures searchTerm == "" && currentPage == 1 && alerts == []
      ensures saved.Some? ==> systems == saved.value
      ensures saved.None? ==> systems == Defaults(today, Last + 1)
      ensures Persisted()
    {
      isLoggedIn := session == Some(LoggedInFlag);
      password := "";
      selectedSystem := None;
      searchTerm := "";
      currentPage := 1;
      sessionFlag := session;
      alerts := [];
      if saved.Some? {
        systems := saved.value;
        stored := saved;
      } else {
        var initialSystems := InitialObject(today);
        systems := initialSystems;
        stored := Some(initialSystems);
      }
    }

    /** `initializeSystems`: build the 889 defaults, show and store them. */
    method InitializeSystems(today: string)
      modifies this
      ensures systems == Defaults(today, Last + 1) && Persisted()
      ensures isLoggedIn == old(isLoggedIn) && password == old(password)
      ensures selectedSystem == old(selectedSystem) && searchTerm == old(searchTerm)
      ensures currentPage == old(currentPage) && sessionFlag == old(sessionFlag) && alerts == old(alerts)
    {
      var initialSystems := InitialObject(today);
      systems := initialSystems;
      stored := Some(initialSystems);
    }

    /** Typing into the password field. */
    method EnterPassword(p: string)
      modifies this
      ensures password == p
      ensures isLoggedIn == old(isLoggedIn) && systems == old(systems) && stored == old(stored)
      ensures selectedSystem == old(selectedSystem) && searchTerm == old(searchTerm)
      ensures currentPage == old(currentPage) && sessionFlag == old(sessionFlag) && alerts == old(alerts)
    {
      password := p;
    }

    /** `handleLogin`: the fixed password logs in, sets the session flag and clears the
        field; any other text raises the alert and changes nothing else. */
    method HandleLogin()
      modifies this
      ensures old(password) == CorrectPassword ==>
                isLoggedIn && sessionFlag == Some(LoggedInFlag) && password == "" && alerts == old(alerts)
      ensures old(password) != CorrectPassword ==>
                isLoggedIn == old(isLoggedIn) && sessionFlag == old(sessionFlag) && password == old(password) &&
                alerts == old(alerts) + [WrongPasswordText]
      ensures systems == old(systems) && stored == old(stored)
      ensures selectedSystem == old(selectedSystem) && searchTerm == old(searchTerm) && currentPage == old(currentPage)
    {
      if password == CorrectPassword {
        isLoggedIn := true;
        sessionFlag := Some(LoggedInFlag);
        password := "";
      } else {
        alerts := alerts + [WrongPasswordText];
      }
    }

    /** `handleLogout`: logged out, flag removed, selection cleared; the systems stay in
        memory and in local storage. */
    method HandleLogout()
      modifies this
      ensures !isLoggedIn && sessionFlag == None && selectedSystem == None
      ensures systems == old(systems) && stored == old(stored) && password == old(password)
      ensures searchTerm == old(searchTerm) && currentPage == old(currentPage) && alerts == old(alerts)
    {
      isLoggedIn := false;
      sessionFlag := None;
      selectedSystem := None;
    }

    /** The "Details" button of a row: the text after the first ':' of the system's id. */
    method SelectSystem(id: string)
      modifies this
      ensures selectedSystem == Field(id, ':', 1)
      ensures isLoggedIn == old(isLoggedIn) && systems == old(systems) && stored == old(stored)
      ensures password == old(password) && searchTerm == old(searchTerm)
      ensures currentPage == old(currentPage) && sessionFlag == old(sessionFlag) && alerts == old(alerts)
    {
      selectedSystem := Field(id, ':', 1);
    }

    /** `updateSystem`: merge into one system, date it, store the new object. */
    method UpdateSystem(n: string, u: SystemUpdate, today: string)
      requires n in systems
      modifies this
      ensures systems == UpdateSystemIn(old(systems), n, u, today) && Persisted()
      ensures isLoggedIn == old(isLoggedIn) && password == old(password)
      ensures selectedSystem == old(selectedSystem) && searchTerm == old(searchTerm)
      ensures currentPage == old(currentPage) && sessionFlag == old(sessionFlag) && alerts == old(alerts)
    {
      var updatedSystems := UpdateSystemIn(systems, n, u, today);
      systems := updatedSystems;
      stored := Some(updatedSystems);
    }

    /** `updatePlanet`: merge into one planet of one system, date the system, store the
        new object; for an absent key the handler throws before anything is set. */
    method UpdatePlanet(n: string, idx: nat, u: PlanetUpdate, today: string)
      modifies this
      ensures n in old(systems) ==>
                Some(systems) == UpdatePlanetIn(old(systems), n, idx, u, today) && Persisted()
      ensures n !in old(systems) ==> systems == old(systems) && stored == old(stored)
      ensures isLoggedIn == old(isLoggedIn) && password == old(password)
      ensures selectedSystem == old(selectedSystem) && searchTerm == old(searchTerm)
      ensures currentPage == old(currentPage) && sessionFlag == old(sessionFlag) && alerts == old(alerts)
    {
      var updated := UpdatePlanetIn(systems, n, idx, u, today);
      if updated.None? {
        return;
      }
      systems := updated.value;
      stored := Some(updated.value);
    }

    /** Typing into the search field: new term, back to page 1. */
    method Search(term: string)
      modifies this
      ensures searchTerm == term && currentPage == 1
      ensures isLoggedIn == old(isLoggedIn) && systems == old(systems) && stored == old(stored)
      ensures password == old(password) && selectedSystem == old(selectedSystem)
      ensures sessionFlag == old(sessionFlag) && alerts == old(alerts)
    {
      searchTerm := term;
      currentPage := 1;
    }

    /** The number of pages the current search spans, listing the object in `order`. */
    function PageCount(order: seq<string>): nat
      requires forall j :: 0 <= j < |order| ==> order[j] in systems
      reads this
    {
      TotalPages(|Filter(ValuesIn(order, systems), searchTerm)|)
    }

    /** The "Zurück" button. */
    method PreviousPage()
      modifies this
      ensures currentPage == PrevPage(old(currentPage))
      ensures isLoggedIn == old(isLoggedIn) && systems == old(systems) && stored == old(stored)
      ensures password == old(password) && selectedSystem == old(selectedSystem) && searchTerm == old(searchTerm)
      ensures sessionFlag == old(sessionFlag) && alerts == old(alerts)
    {
      currentPage := PrevPage(currentPage);
    }

    /** The "Weiter" button, with `Object.values` listing the object in `order`. */
    method NextPageOf(order: seq<string>)
      requires Enumerates(order, systems)
      modifies this
      ensures currentPage == NextPage(old(currentPage), old(PageCount(order)))
      ensures isLoggedIn == old(isLoggedIn) && systems == old(systems) && stored == old(stored)
      ensures password == old(password) && selectedSystem == old(selectedSystem) && searchTerm == old(searchTerm)
      ensures sessionFlag == old(sessionFlag) && alerts == old(alerts)
    {
      var totalPages := PageCount(order);
      currentPage := NextPage(currentPage, totalPages);
    }

    /** The rows shown: the current page of the filtered systems. */
    function CurrentSystems(order: seq<string>): (rows: seq<SystemView>)
      requires forall j :: 0 <= j < |order| ==> order[j] in systems
      reads this
      ensures |rows| <= SystemsPerPage
      ensures forall v :: v in rows ==> v in systems.Values && Contains(v.id, searchTerm)
      ensures 1 <= currentPage ==>
                var f := Filter(ValuesIn(order, systems), searchTerm);
                var first := (currentPage - 1) * SystemsPerPage;
                rows == if first < |f|
                        then f[first..if currentPage * SystemsPerPage <= |f| then currentPage * SystemsPerPage else |f|]
                        else []
    {
      var filtered := Filter(ValuesIn(order, systems), searchTerm);
      var rows := PageOf(filtered, currentPage);
      assert |rows| <= SystemsPerPage && forall v :: v in rows ==> v in filtered by {
        if 1 <= currentPage { PageContents(filtered, currentPage); }
        else {
          assert currentPage * SystemsPerPage <= 0;
        }
      }
      rows
    }
  }

  /** The loop of `initializeSystems`. */
  method InitialObject(today: string) returns (initialSystems: Systems)
    ensures initialSystems == Defaults(today, Last + 1)
  {
    initialSystems := map[];
    for i := First to Last + 1
      invariant initialSystems == Defaults(today, i)
    {
      initialSystems := initialSystems[Key(i) := DefaultSystem(i, today)];
    }
  }
}
