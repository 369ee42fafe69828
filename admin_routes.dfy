/** The admin API of server/routes/admin.js: every route runs the bearer-token gate and
    then `requireAdmin`, and the handlers list, update and delete users. */
module AdminRoutes {

  import opened Wrappers
  import opened Schema
  import opened TokenAuth
  import opened Store

  const AdminOnlyText := "Nur Administratoren haben Zugriff auf diese Funktion"
  const SelfDeleteText := "Du kannst dich nicht selbst löschen"
  const DeletedText := "User erfolgreich gelöscht"

  // ----- the gate -----

  predicate IsAdmin(users: map<UserId, User>, id: UserId) {
    id in users && users[id].isAdmin
  }

  datatype Gate = Pass(caller: UserId) | Rejected(status: Status, error: string)

  /** `authenticateToken` followed by `requireAdmin`: the token must verify, and the user
      it names must still exist and be an admin. `isActive` is not looked at. */
  function AdminGate(t: Tables, header: Option<string>, verify: string -> Option<Claims>): (g: Gate)
    ensures g.Pass? <==> Authenticate(header, verify).Authenticated? &&
                         IsAdmin(t.users, Authenticate(header, verify).user.userId)
    ensures g.Pass? ==> g.caller == Authenticate(header, verify).user.userId
    ensures Authenticate(header, verify).Authenticated? && g.Rejected? ==> g == Rejected(Forbidden, AdminOnlyText)
    ensures !Authenticate(header, verify).Authenticated? ==>
              g.Rejected? && Error(g.status, g.error) == Rejection<bool>(Authenticate(header, verify))
  {
    match Authenticate(header, verify)
    case Authenticated(c) =>
      if c.userId !in t.users || !t.users[c.userId].isAdmin then Rejected(Forbidden, AdminOnlyText)
      else Pass(c.userId)
    case _ =>
      var e := Rejection<bool>(Authenticate(header, verify));
      Rejected(e.status, e.error)
  }

  // ----- GET /users -----

  /** One entry of the listing: no password, and the number of systems the user owns. */
  datatype UserListing = UserListing(
    id: UserId, email: string, name: Option<string>, isActive: bool, isAdmin: bool,
    createdAt: Time, systemCount: nat)

  function ListingOf(t: Tables, id: UserId): UserListing
    requires id in t.users
  {
    var u := t.users[id];
    UserListing(id, u.email, u.name, u.isActive, u.isAdmin, u.createdAt, SystemCount(t.systems, id))
  }

  /** The least id of a non-empty set. */
  function Least(s: set<UserId>): (m: UserId)
    requires s != {}
    ensures m in s && forall x :: x in s ==> m <= x
  {
    HasLeast(s);
    var m :| m in s && forall x :: x in s ==> m <= x;
    m
  }

  /** The ids of a set in ascending order. */
  function AscendingIds(s: set<UserId>): (r: seq<UserId>)
    ensures forall id :: id in r <==> id in s
    ensures forall a, b :: 0 <= a < b < |r| ==> r[a] < r[b]
    decreases |s|
  {
    if s == {} then []
    else
      var m := Least(s);
      var rest := AscendingIds(s - {m});
      var r := [m] + rest;
      assert forall x :: x in r <==> x == m || x in rest;
      assert forall a, b :: 0 <= a < b < |r| ==> r[a] < r[b] by {
        forall a, b | 0 <= a < b < |r| ensures r[a] < r[b] {
          assert r[b] == rest[b - 1];
          if a > 0 {
            assert r[a] == rest[a - 1];
          }
        }
      }
      r
  }

  /** `orderBy: { createdAt: 'desc' }`. */
  predicate NewestFirst(s: seq<UserListing>) {
    forall a, b :: 0 <= a < b < |s| ==> s[a].createdAt >= s[b].createdAt
  }

  predicate DistinctIds(s: seq<UserListing>) {
    forall a, b :: 0 <= a < b < |s| ==> s[a].id != s[b].id
  }

  /** Insert `u` before the first entry that is not newer than it. */
  function InsertByDate(u: UserListing, s: seq<UserListing>): (r: seq<UserListing>)
    requires NewestFirst(s)
    ensures NewestFirst(r)
    ensures |r| == |s| + 1
    ensures forall x :: x in r <==> x == u || x in s
  {
    if s == [] || u.createdAt >= s[0].createdAt then
      var r := [u] + s;
      assert forall b :: 0 < b < |r| ==> r[b] == s[b - 1];
      r
    else
      var rest := InsertByDate(u, s[1..]);
      var r := [s[0]] + rest;
      assert forall x :: x in rest ==> x.createdAt <= s[0].createdAt by {
        forall x | x in rest ensures x.createdAt <= s[0].createdAt {
          if x != u {
            var j :| 0 <= j < |s[1..]| && s[1..][j] == x;
            assert s[j + 1] == x;
          }
        }
      }
      assert forall b :: 0 < b < |r| ==> r[b] == rest[b - 1];
      assert forall x :: x in r <==> x == s[0] || x in rest;
      assert forall x :: x in s <==> x == s[0] || x in s[1..];
      r
  }

  /** Inserting an entry whose id is new keeps the ids distinct. */
  lemma {:induction false} InsertByDateDistinct(u: UserListing, s: seq<UserListing>)
    requires NewestFirst(s) && DistinctIds(s) && forall x :: x in s ==> x.id != u.id
    ensures DistinctIds(InsertByDate(u, s))
  {
    var r := InsertByDate(u, s);
    if s == [] || u.createdAt >= s[0].createdAt {
      forall a, b | 0 <= a < b < |r| ensures r[a].id != r[b].id {
        assert r[b] == s[b - 1];
        if a > 0 {
          assert r[a] == s[a - 1];
        }
      }
    } else {
      var rest := InsertByDate(u, s[1..]);
      InsertByDateDistinct(u, s[1..]);
      assert r == [s[0]] + rest;
      forall x | x in rest ensures x.id != s[0].id {
        if x != u {
          var j :| 0 <= j < |s[1..]| && s[1..][j] == x;
          assert s[j + 1] == x;
        }
      }
      forall a, b | 0 <= a < b < |r| ensures r[a].id != r[b].id {
        assert r[b] == rest[b - 1];
        if a > 0 {
          assert r[a] == rest[a - 1];
        }
      }
    }
  }

  /** Insertion sort, newest first. */
  function SortByDate(s: seq<UserListing>): (r: seq<UserListing>)
    ensures NewestFirst(r)
    ensures |r| == |s|
    ensures forall x :: x in r <==> x in s
    ensures DistinctIds(s) ==> DistinctIds(r)
  {
    if s == [] then []
    else
      var rest := SortByDate(s[1..]);
      assert forall x :: x in s <==> x == s[0] || x in s[1..];
      assert DistinctIds(s) ==> DistinctIds(InsertByDate(s[0], rest)) by {
        if DistinctIds(s) {
          assert DistinctIds(s[1..]);
          forall x | x in rest ensures x.id != s[0].id {
            var j :| 0 <= j < |s[1..]| && s[1..][j] == x;
            assert s[j + 1] == x;
          }
          InsertByDateDistinct(s[0], rest);
        }
      }
      InsertByDate(s[0], rest)
  }

  /** The listings of `ids`, in that order; with distinct ids, distinct entries. */
  function Listings(t: Tables, ids: seq<UserId>): (r: seq<UserListing>)
    requires forall id :: id in ids ==> id in t.users
    ensures |r| == |ids|
    ensures forall j :: 0 <= j < |r| ==> r[j] == ListingOf(t, ids[j])
    ensures forall x :: x in r <==> exists id :: id in ids && x == ListingOf(t, id)
    ensures (forall a, b :: 0 <= a < b < |ids| ==> ids[a] != ids[b]) ==> DistinctIds(r)
  {
    var r := if ids == [] then [] else [ListingOf(t, ids[0])] + Listings(t, ids[1..]);
    ListingsIndexed(t, ids, r);
    r
  }

  /** A list whose entry j is the listing of `ids[j]` holds exactly the listings of
      `ids`, and keeps distinct ids distinct. */
  lemma ListingsIndexed(t: Tables, ids: seq<UserId>, r: seq<UserListing>)
    requires forall id :: id in ids ==> id in t.users
    requires |r| == |ids| && forall j :: 0 <= j < |r| ==> r[j] == ListingOf(t, ids[j])
    ensures forall x :: x in r <==> exists id :: id in ids && x == ListingOf(t, id)
    ensures (forall a, b :: 0 <= a < b < |ids| ==> ids[a] != ids[b]) ==> DistinctIds(r)
  {
    forall x | x in r ensures exists id :: id in ids && x == ListingOf(t, id) {
      var j :| 0 <= j < |r| && r[j] == x;
      assert ids[j] in ids;
    }
    forall id | id in ids ensures ListingOf(t, id) in r {
      var j :| 0 <= j < |ids| && ids[j] == id;
      assert r[j] == ListingOf(t, id);
    }
  }

  /** GET `/users`: every user exactly once, newest first, each with its projection and
      its system count. */
  function ListUsers(t: Tables): (r: seq<UserListing>)
    ensures NewestFirst(r) && DistinctIds(r)
    ensures forall j :: 0 <= j < |r| ==> r[j].id in t.users && r[j] == ListingOf(t, r[j].id)
    ensures forall id :: id in t.users ==> exists j :: 0 <= j < |r| && r[j].id == id
  {
    var ids := AscendingIds(t.users.Keys);
    var listings := Listings(t, ids);
    var r := SortByDate(listings);
    forall j | 0 <= j < |r| ensures r[j].id in t.users && r[j] == ListingOf(t, r[j].id) {
      assert r[j] in listings;
      var id :| id in ids && r[j] == ListingOf(t, id);
    }
    forall id | id in t.users ensures exists j :: 0 <= j < |r| && r[j].id == id {
      assert ListingOf(t, id) in listings;
      var j :| 0 <= j < |r| && r[j] == ListingOf(t, id);
    }
    r
  }

  function GetUsers(t: Tables, header: Option<string>, verify: string -> Option<Claims>)
    : (r: Response<seq<UserListing>>)
    ensures r.Ok? <==> AdminGate(t, header, verify).Pass?
    ensures r.Ok? ==> r.body == ListUsers(t)
  {
    match AdminGate(t, header, verify)
    case Pass(_) => Ok(ListUsers(t))
    case Rejected(status, error) => Error(status, error)
  }

  // ----- PATCH /users/:userId/activate and /users/:userId/admin -----

  /** The `select` of the two update routes. */
  datatype UserJson = UserJson(id: UserId, email: string, name: Option<string>, isActive: bool, isAdmin: bool)

  function UserJsonOf(id: UserId, u: User): UserJson {
    UserJson(id, u.email, u.name, u.isActive, u.isAdmin)
  }

  /** `prisma.user.update` of one row: a missing row throws, which answers 500. */
  function UpdateUser(t: Tables, id: UserId, u: User): (s: Step<UserJson>)
    ensures s.response.Ok? <==> id in t.users
    ensures s.tables.users.Keys == t.users.Keys
    ensures s.tables.systems == t.systems && s.tables.planets == t.planets
    ensures id in t.users ==> s.tables.users[id] == u && s.response.body == UserJsonOf(id, u)
    ensures forall other :: other in t.users && other != id ==> s.tables.users[other] == t.users[other]
  {
    if id !in t.users then Step(t, Error(ServerError, ServerErrorText))
    else Step(t.(users := t.users[id := u]), Ok(UserJsonOf(id, u)))
  }

  /** `data: { isActive }`: an absent body field leaves the column as it is. */
  function SetActive(t: Tables, target: UserId, isActive: Option<bool>): (s: Step<UserJson>)
    ensures s.response.Ok? <==> target in t.users
    ensures s.tables.users.Keys == t.users.Keys
    ensures s.tables.systems == t.systems && s.tables.planets == t.planets
    ensures s.response.Ok? ==> s.response.body.isAdmin == t.users[target].isAdmin
  {
    if target !in t.users then Step(t, Error(ServerError, ServerErrorText))
    else UpdateUser(t, target, t.users[target].(isActive := isActive.GetOr(t.users[target].isActive)))
  }

  /** `data: { isAdmin }`. */
  function SetAdmin(t: Tables, target: UserId, isAdmin: Option<bool>): (s: Step<UserJson>)
    ensures s.response.Ok? <==> target in t.users
    ensures s.tables.users.Keys == t.users.Keys
    ensures s.tables.systems == t.systems && s.tables.planets == t.planets
    ensures s.response.Ok? ==> s.response.body.isActive == t.users[target].isActive
  {
    if target !in t.users then Step(t, Error(ServerError, ServerErrorText))
    else UpdateUser(t, target, t.users[target].(isAdmin := isAdmin.GetOr(t.users[target].isAdmin)))
  }

  /** The activate route changes the target's `isActive` and nothing else; a missing
      target is a 500 and changes nothing. */
  lemma SetActiveEffect(t: Tables, target: UserId, isActive: Option<bool>)
    requires Valid(t)
    ensures var s := SetActive(t, target, isActive);
            && Valid(s.tables)
            && (target !in t.users <==> s == Step(t, Error(ServerError, ServerErrorText)))
            && (target in t.users ==>
                  && s.tables.users.Keys == t.users.Keys
                  && s.tables.users[target] == t.users[target].(isActive := isActive.GetOr(t.users[target].isActive))
                  && (forall id :: id in t.users && id != target ==> s.tables.users[id] == t.users[id])
                  && s.tables.systems == t.systems && s.tables.planets == t.planets
                  && s.response == Ok(UserJsonOf(target, s.tables.users[target])))
  {
    if target in t.users {
      UpdateUserValid(t, target, t.users[target].(isActive := isActive.GetOr(t.users[target].isActive)));
    }
  }

  /** The admin route changes the target's `isAdmin` and nothing else. */
  lemma SetAdminEffect(t: Tables, target: UserId, isAdmin: Option<bool>)
    requires Valid(t)
    ensures var s := SetAdmin(t, target, isAdmin);
            && Valid(s.tables)
            && (target !in t.users <==> s == Step(t, Error(ServerError, ServerErrorText)))
            && (target in t.users ==>
                  && s.tables.users.Keys == t.users.Keys
                  && s.tables.users[target] == t.users[target].(isAdmin := isAdmin.GetOr(t.users[target].isAdmin))
                  && (forall id :: id in t.users && id != target ==> s.tables.users[id] == t.users[id])
                  && s.tables.systems == t.systems && s.tables.planets == t.planets
                  && s.response == Ok(UserJsonOf(target, s.tables.users[target])))
  {
    if target in t.users {
      UpdateUserValid(t, target, t.users[target].(isAdmin := isAdmin.GetOr(t.users[target].isAdmin)));
    }
  }

  /** There is no self-check on the activate route, and the gate ignores `isActive`: an
      admin who deactivates their own account keeps passing the gate. */
  lemma SelfDeactivationKeepsAccess(t: Tables, header: Option<string>, verify: string -> Option<Claims>)
    requires AdminGate(t, header, verify).Pass?
    ensures var me := AdminGate(t, header, verify).caller;
            var t1 := SetActive(t, me, Some(false)).tables;
            && !t1.users[me].isActive
            && AdminGate(t1, header, verify) == Pass(me)
  {
  }

  /** Nor on the admin route: an admin who revokes their own flag is refused by the gate
      from the next request on. */
  lemma SelfRevocationLocksOut(t: Tables, header: Option<string>, verify: string -> Option<Claims>)
    requires AdminGate(t, header, verify).Pass?
    ensures var me := AdminGate(t, header, verify).caller;
            var t1 := SetAdmin(t, me, Some(false)).tables;
            AdminGate(t1, header, verify) == Rejected(Forbidden, AdminOnlyText)
  {
  }

  // ----- DELETE /users/:userId -----

  predicate OwnsSystems(systems: map<SysKey, SystemRow>, user: UserId) {
    exists k | k in systems :: k.userId == user
  }

  predicate OwnsRow(systems: map<SysKey, SystemRow>, user: UserId, row: RowId) {
    exists k | k in systems :: k.userId == user && systems[k].rowId == row
  }

  /** The user row gone, and with it (when the schema cascades) the user's systems and
      their planets. */
  function RemoveUser(t: Tables, target: UserId): (r: Tables)
    ensures r.users.Keys == t.users.Keys - {target}
    ensures forall k :: k in r.systems ==> k.userId != target
    ensures r.nextUserId == t.nextUserId && r.nextRowId == t.nextRowId
  {
    t.(users := t.users - {target},
       systems := map k | k in t.systems && k.userId != target :: t.systems[k],
       planets := map pk | pk in t.planets && !OwnsRow(t.systems, target, pk.systemRow) :: t.planets[pk])
  }

  /** DELETE `/users/:userId`: refused for the caller's own id; `prisma.user.delete`
      throws on a missing row, and on a row that still owns systems unless the schema
      cascades. */
  function DeleteUser(t: Tables, caller: UserId, target: UserId, onDelete: OnDelete): (s: Step<string>)
    ensures s.response.Ok? ==> target != caller && target in t.users && target !in s.tables.users
    ensures s.response.Error? ==> s.tables == t
  {
    if target == caller then Step(t, Error(BadRequest, SelfDeleteText))
    else if target !in t.users then Step(t, Error(ServerError, ServerErrorText))
    else if onDelete == Restrict && OwnsSystems(t.systems, target) then Step(t, Error(ServerError, ServerErrorText))
    else Step(RemoveUser(t, target), Ok(DeletedText))
  }

  /** An admin cannot delete their own record: 400 and nothing changes. */
  lemma DeleteSelfRefused(t: Tables, caller: UserId, onDelete: OnDelete)
    ensures DeleteUser(t, caller, caller, onDelete) == Step(t, Error(BadRequest, SelfDeleteText))
  {
  }

  /** Deleting another existing user removes exactly that user, with their systems and
      planets, and keeps every other user, system and planet; it fails only when the
      user is missing, or owns systems and the schema restricts. */
  lemma DeleteOtherEffect(t: Tables, caller: UserId, target: UserId, onDelete: OnDelete)
    requires Valid(t) && target != caller
    ensures var s := DeleteUser(t, caller, target, onDelete);
            && Valid(s.tables)
            && (s.response.Ok? <==> target in t.users && (onDelete == Cascade || !OwnsSystems(t.systems, target)))
            && (s.response.Error? ==> s.tables == t && s.response == Error(ServerError, ServerErrorText))
            && (s.response.Ok? ==>
                  && s.response.body == DeletedText
                  && s.tables.users.Keys == t.users.Keys - {target}
                  && (forall id :: id in s.tables.users ==> s.tables.users[id] == t.users[id])
                  && (forall k :: k in s.tables.systems <==> k in t.systems && k.userId != target)
                  && (forall k :: k in s.tables.systems ==> s.tables.systems[k] == t.systems[k])
                  && (forall pk :: pk in s.tables.planets <==> pk in t.planets && !OwnsRow(t.systems, target, pk.systemRow))
                  && (forall pk :: pk in s.tables.planets ==> s.tables.planets[pk] == t.planets[pk]))
  {
    var s := DeleteUser(t, caller, target, onDelete);
    if s.response.Ok? {
      RemoveUserValid(t, target);
    }
  }

  lemma RemoveUserValid(t: Tables, target: UserId)
    requires Valid(t)
    ensures Valid(RemoveUser(t, target))
  {
    var r := RemoveUser(t, target);
    forall pk | pk in r.planets ensures HasRow(r.systems, pk.systemRow) {
      var k :| k in t.systems && t.systems[k].rowId == pk.systemRow;
      assert k.userId != target;
      assert k in r.systems;
    }
  }

  // ----- the handlers -----

  /** PATCH `/users/:userId/activate`. */
  method ActivateRoute(db: Database, header: Option<string>, verify: string -> Option<Claims>,
                       target: UserId, isActive: Option<bool>)
    returns (r: Response<UserJson>)
    requires db.Valid()
    modifies db
    ensures db.Valid()
    ensures match AdminGate(old(db.State()), header, verify)
            case Pass(_) => Step(db.State(), r) == SetActive(old(db.State()), target, isActive)
            case Rejected(status, error) => db.State() == old(db.State()) && r == Error(status, error)
  {
    var gate := AdminGate(db.State(), header, verify);
    if gate.Rejected? {
      return Error(gate.status, gate.error);
    }
    SetActiveEffect(db.State(), target, isActive);
    if target !in db.users {
      return Error(ServerError, ServerErrorText);
    }
    var u := db.users[target];
    u := u.(isActive := isActive.GetOr(u.isActive));
    db.users := db.users[target := u];
    r := Ok(UserJsonOf(target, u));
  }

  /** PATCH `/users/:userId/admin`. */
  method AdminRoute(db: Database, header: Option<string>, verify: string -> Option<Claims>,
                    target: UserId, isAdmin: Option<bool>)
    returns (r: Response<UserJson>)
    requires db.Valid()
    modifies db
    ensures db.Valid()
    ensures match AdminGate(old(db.State()), header, verify)
            case Pass(_) => Step(db.State(), r) == SetAdmin(old(db.State()), target, isAdmin)
            case Rejected(status, error) => db.State() == old(db.State()) && r == Error(status, error)
  {
    var gate := AdminGate(db.State(), header, verify);
    if gate.Rejected? {
      return Error(gate.status, gate.error);
    }
    SetAdminEffect(db.State(), target, isAdmin);
    if target !in db.users {
      return Error(ServerError, ServerErrorText);
    }
    var u := db.users[target];
    u := u.(isAdmin := isAdmin.GetOr(u.isAdmin));
    db.users := db.users[target := u];
    r := Ok(UserJsonOf(target, u));
  }

  /** DELETE `/users/:userId`. */
  method DeleteRoute(db: Database, header: Option<string>, verify: string -> Option<Claims>, target: UserId)
    returns (r: Response<string>)
    requires db.Valid()
    modifies db
    ensures db.Valid()
    ensures match AdminGate(old(db.State()), header, verify)
            case Pass(caller) => Step(db.State(), r) == DeleteUser(old(db.State()), caller, target, db.onDelete)
            case Rejected(status, error) => db.State() == old(db.State()) && r == Error(status, error)
  {
    var gate := AdminGate(db.State(), header, verify);
    if gate.Rejected? {
      return Error(gate.status, gate.error);
    }
    if target == gate.caller {
      return Error(BadRequest, SelfDeleteText);
    }
    DeleteOtherEffect(db.State(), gate.caller, target, db.onDelete);
    if target !in db.users || (db.onDelete == Restrict && OwnsSystems(db.systems, target)) {
      return Error(ServerError, ServerErrorText);
    }
    var remaining := RemoveUser(db.State(), target);
    db.users, db.systems, db.planets := remaining.users, remaining.systems, remaining.planets;
    r := Ok(DeletedText);
  }
}
