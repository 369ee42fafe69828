/** The two ways the fixed administrator account comes about: `ensureAdminExists` of
    server/utils/init-admin.js at server start, and the `createAdmin` script of
    scripts/create-admin.js. Both promote the user with the fixed email, or create it. */
module AdminBootstrap {

  import opened Wrappers
  import opened Schema
  import opened Store

  const AdminEmail := "t.o@trend4media.de"
  const AdminPassword := "02327187"
  const AdminName := "Admin"

  /** The fixed account as active admin: `update({ isActive: true, isAdmin: true })` of
      the holder of the email, or a new user with the hashed fixed password. */
  function PromoteOrCreate(t: Tables, hash: string -> string, now: Time): (t': Tables)
    ensures t'.systems == t.systems && t'.planets == t.planets
    ensures t.users.Keys <= t'.users.Keys && HasAdmin(t'.users)
  {
    match FindByEmail(t.users, AdminEmail)
    case Some(id) => t.(users := t.users[id := t.users[id].(isActive := true, isAdmin := true)])
    case None => CreateUser(t, AdminEmail, hash(AdminPassword), Some(AdminName), true, true, now)
  }

  /** `ensureAdminExists`: nothing to do while some user is an admin. */
  function EnsureAdmin(t: Tables, hash: string -> string, now: Time): (t': Tables)
    ensures t'.systems == t.systems && t'.planets == t.planets
    ensures HasAdmin(t'.users)
    ensures HasAdmin(t.users) ==> t' == t
  {
    if HasAdmin(t.users) then t else PromoteOrCreate(t, hash, now)
  }

  /** `createAdmin`: promote or create whatever the other users are. */
  function CreateAdmin(t: Tables, hash: string -> string, now: Time): (t': Tables)
    ensures t'.systems == t.systems && t'.planets == t.planets
    ensures t.users.Keys <= t'.users.Keys && HasAdmin(t'.users)
  {
    PromoteOrCreate(t, hash, now)
  }

  /** Promote-or-create leaves the fixed account an active admin, findable by its email,
      keeps every other user, and changes no system or planet. When the account existed
      its password and name stay; otherwise it is the one new user. */
  lemma PromoteOrCreateEffect(t: Tables, hash: string -> string, now: Time)
    requires Valid(t)
    ensures var t' := PromoteOrCreate(t, hash, now);
            && Valid(t')
            && FindByEmail(t'.users, AdminEmail).Some?
            && var id := FindByEmail(t'.users, AdminEmail).value;
               && t'.users[id].isActive && t'.users[id].isAdmin
               && (forall other :: other in t.users && other != id ==> other in t'.users && t'.users[other] == t.users[other])
               && (id in t.users ==> t'.users.Keys == t.users.Keys &&
                                     t'.users[id] == t.users[id].(isActive := true, isAdmin := true))
               && (id !in t.users ==> t'.users.Keys == t.users.Keys + {id} &&
                                      t'.users[id] == User(AdminEmail, hash(AdminPassword), Some(AdminName), true, true, now))
               && t'.systems == t.systems && t'.planets == t.planets
  {
    var t' := PromoteOrCreate(t, hash, now);
    match FindByEmail(t.users, AdminEmail)
    case Some(id) =>
      var u := t.users[id].(isActive := true, isAdmin := true);
      UpdateUserValid(t, id, u);
      FindByEmailIgnoresOtherFields(t.users, id, u, AdminEmail);
    case None =>
      CreateUserValid(t, AdminEmail, hash(AdminPassword), Some(AdminName), true, true, now);
      FindByEmailUnique(t'.users, t.nextUserId);
  }

  /** After `ensureAdminExists` some user is an admin; when one already was, nothing
      changed. */
  lemma EnsureAdminEffect(t: Tables, hash: string -> string, now: Time)
    requires Valid(t)
    ensures var t' := EnsureAdmin(t, hash, now);
            && Valid(t')
            && HasAdmin(t'.users)
            && (HasAdmin(t.users) ==> t' == t)
            && (!HasAdmin(t.users) ==> t' == PromoteOrCreate(t, hash, now))
  {
    if !HasAdmin(t.users) {
      PromoteOrCreateEffect(t, hash, now);
    }
  }

  /** A second `ensureAdminExists` after the first changes nothing. */
  lemma EnsureAdminIdempotent(t: Tables, hash: string -> string, now1: Time, now2: Time)
    requires Valid(t)
    ensures var t1 := EnsureAdmin(t, hash, now1);
            EnsureAdmin(t1, hash, now2) == t1
  {
    EnsureAdminEffect(t, hash, now1);
  }

  /** A second `createAdmin` only sets the flags again, which changes nothing. */
  lemma CreateAdminIdempotent(t: Tables, hash: string -> string, now1: Time, now2: Time)
    requires Valid(t)
    ensures var t1 := CreateAdmin(t, hash, now1);
            CreateAdmin(t1, hash, now2) == t1
  {
    PromoteOrCreateEffect(t, hash, now1);
    var t1 := CreateAdmin(t, hash, now1);
    var id := FindByEmail(t1.users, AdminEmail).value;
    assert t1.users[id := t1.users[id].(isActive := true, isAdmin := true)] == t1.users;
  }

  /** `createAdmin` promotes the fixed account even while other admins exist. */
  lemma CreateAdminIgnoresOtherAdmins(t: Tables, id: UserId, hash: string -> string, now: Time)
    requires Valid(t) && id in t.users && t.users[id].email == AdminEmail && !t.users[id].isActive
    requires HasAdmin(t.users)
    ensures CreateAdmin(t, hash, now).users[id].isActive
    ensures EnsureAdmin(t, hash, now) == t
  {
    FindByEmailUnique(t.users, id);
  }

  /** `ensureAdminExists` as the server runs it at start. */
  method EnsureAdminExists(db: Database, hash: string -> string, now: Time)
    requires db.Valid()
    modifies db
    ensures db.Valid()
    ensures db.State() == EnsureAdmin(old(db.State()), hash, now)
  {
    EnsureAdminEffect(db.State(), hash, now);
    var existingAdmin := HasAdmin(db.users);
    if existingAdmin {
      return;
    }
    Promote(db, hash, now);
  }

  /** `createAdmin` as the script runs it. */
  method CreateAdminScript(db: Database, hash: string -> string, now: Time)
    requires db.Valid()
    modifies db
    ensures db.Valid()
    ensures db.State() == CreateAdmin(old(db.State()), hash, now)
  {
    Promote(db, hash, now);
  }

  /** The lookup by the fixed email, then the update or the create. */
  method Promote(db: Database, hash: string -> string, now: Time)
    requires db.Valid()
    modifies db
    ensures db.Valid()
    ensures db.State() == PromoteOrCreate(old(db.State()), hash, now)
  {
    PromoteOrCreateEffect(db.State(), hash, now);
    var existingUser := FindByEmail(db.users, AdminEmail);
    if existingUser.Some? {
      var id := existingUser.value;
      db.users := db.users[id := db.users[id].(isActive := true, isAdmin := true)];
    } else {
      var _ := db.CreateUserRow(AdminEmail, hash(AdminPassword), Some(AdminName), true, true, now);
    }
  }
}
