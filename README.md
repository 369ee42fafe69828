# Galaxy 555 tracker — a verified model

The Galaxy 555 tracker keeps, per user, the state of the 889 systems `555:111` to
`555:999` of one game galaxy. Each system has nine planets. A system says whether its
resources were recovered (`recRes`), and each planet says whether it is important and
carries notes. The model covers these parts:

- **Tracker store** (server/routes/systems.js). The per-user System and Planet tables
  are behind a bearer-token gate. The routes are upsert-system, patch-system,
  upsert-planet and bulk initialisation. Initialisation scans for the missing numbers,
  creates them in batches of 50 and reports the count.
- **Authentication** (server/routes/auth.js, server/middleware/auth.js). It covers
  registration, login, the parse of the `Authorization` header and the three-way
  outcome of the gate (401, 403, or pass).
- **Administration** (server/routes/admin.js). It covers the `requireAdmin` gate, the
  user listing, the activate and admin flags, and delete with its self-deletion guard.
- **Admin bootstrap** (server/utils/init-admin.js, scripts/create-admin.js). Both
  promote or create the fixed administrator account. The start-up check does so only
  when no admin exists; the script does so always.
- **Clients** (src/App.jsx, src/Galaxy555Tracker.jsx). The first turns the server list
  into the object of 889 system views. Both merge an update into one system or one
  planet, filter by a search term and show 20 systems per page. The stand-alone tracker
  adds a password login and mirrors every change to local storage.

## Model structure

- **Server tables.** The three tables are maps in `Schema.Tables`. The composite unique
  keys `(userId, systemId)` and `(system row, planetId)` are the map keys. `Schema.Valid`
  holds the integrity constraints: unique emails, foreign keys, and issued ids.
- **Server handlers.** Each route handler is a module-level method that takes the
  shared `Store.Database` and updates its tables in place. It is proved equal to a pure function of the same concern, for example
  `SystemsRoutes.UpsertSystem` or `AdminRoutes.DeleteUser`. The lemmas then state what
  that function does. Every method also keeps `Valid`.
- **Loops.** The loops of the source are loops here, with invariants:
  - the scan and the batches of `/initialize`;
  - the `forEach` and the fill loop of `convertSystemsToState`;
  - the loop of `initializeSystems`.
- **Stand-alone tracker.** Its component state is the class `LocalTracker.Tracker`.

Hashing, comparing, signing and verifying are function parameters (`hash`, `compare`,
`sign`, `verify`). Clock readings are parameters too (`now`, `today`). So is the order
in which `Object.values` lists an object, which is `order`.

### Where the model follows the code rather than the intended design

- **Registration issues a token.** `POST /register` creates the user with `isActive`
  false and immediately returns a token for it (server/routes/auth.js:36-45). There is
  no pending-account state on the server.
- **Login ignores `isActive`.** Login looks only at the email and the password
  (server/routes/auth.js:53-83). An account no admin has activated logs in and gets a
  token the gate accepts (`AuthRoutes.RegisteredUserLogsIn`).
- **`requireAdmin` ignores `isActive`.** A deactivated admin keeps passing the admin
  gate (`AdminRoutes.SelfDeactivationKeepsAccess`).
- **Missing rows give 500, not 404.** A missing user on activate, admin or delete ends
  in a 500. So does `PATCH /:systemId` on a missing system. In each case Prisma's
  `update`/`delete` throws, and the catch block answers.

## Model

| member | source | states |
|---|---|---|
| Galaxy.SystemCodeFields | server/routes/systems.js:179 | `555:${i}` splits on ':' into "555" and the decimal text of i, so its second field is that text |
| Galaxy.PlanetCodeFields | server/routes/systems.js:198 | `555:${i}:${k}` splits into "555", the system number and the planet number |
| Galaxy.SystemCodeInjective | server/routes/systems.js:179 | different system numbers give different system codes |
| Galaxy.PlanetCodeInjective | server/routes/systems.js:197-201 | different (system, planet) pairs give different planet codes |
| Text.NatToString | src/App.jsx:75 | the text of a number is a non-empty string of decimal digits |
| Text.ParseNatToString | src/App.jsx:72-75 | reading the decimal text back gives the number |
| Text.NatToStringInjective | src/App.jsx:72-73 | different numbers have different object keys |
| Text.IndexOf | server/middleware/auth.js:7 | the index of the first occurrence of the separator: it is there and not before |
| Text.Split | server/middleware/auth.js:7 | `split` gives at least one piece and no piece holds the separator |
| Text.JoinSplit | server/middleware/auth.js:7 | joining the pieces with the separator restores the string: the split loses nothing |
| Text.SplitAtFirst | server/middleware/auth.js:7 | the text before the first separator is the first piece; the rest splits on its own |
| Text.Field | server/middleware/auth.js:7 | `split(c)[k]` is defined iff there are more than k pieces, and then holds no separator |
| Text.SplitWithout | server/middleware/auth.js:7 | a string without the separator is its only piece, and its second field is undefined |
| Text.TwoFields | server/middleware/auth.js:7 | `a + c + b` without c in a or b has exactly the fields a and b |
| Text.ContainsMeansOccurs | src/App.jsx:177 | `includes` holds iff the term occurs at some position; the empty term occurs everywhere |
| Schema.FindByEmail | server/routes/auth.js:15-17 | the lookup finds a user with the email iff one exists, and then the least such id |
| Schema.FindByEmailUnique | server/routes/auth.js:15-17 | under the unique email constraint the lookup finds exactly the holder |
| Schema.FindByEmailIgnoresOtherFields | server/utils/init-admin.js:26-38 | changing a user's fields other than the email never changes what the lookup finds |
| Schema.CreateUser | server/routes/auth.js:27-33 | the create adds exactly one user under the next id, with the given fields, and keeps the others |
| Schema.CreateUserValid | server/routes/auth.js:27-33 | creating a user with a free email keeps the tables valid |
| Schema.UpdateUserValid | server/routes/admin.js:60-70 | rewriting a user's fields other than the email keeps the tables valid |
| Schema.AddPlanets | server/routes/systems.js:65-67 | the nested create adds planets exactly under the new row for the seeded ids and keeps all others |
| Schema.AddPlanetsSeedRows | server/routes/systems.js:65-67 | with distinct planet ids every seed becomes its own row, absent fields taking false and '' |
| Schema.CreateSystem | server/routes/systems.js:60-72 | the create adds the key under the next row id with the flag and time, and keeps users and other systems |
| Schema.CreateSystemValid | server/routes/systems.js:60-72 | creating an absent system for an existing user keeps the tables valid and every existing planet |
| Schema.PlanetsOf | server/routes/systems.js:18-20 | `include: { planets: true }` gives exactly the planets of the row, by planet id |
| Store.Database.CreateUserRow | server/routes/auth.js:27-33 | the in-place create returns the next id and leaves the tables as `CreateUser` says |
| Store.Database.CreateSystemRow | server/routes/systems.js:60-72 | the in-place create leaves the tables as `CreateSystem` says |
| TokenAuth.ExtractToken | server/middleware/auth.js:6-7 | a token is found iff there is a header with a non-empty second space-separated field, which is the token |
| TokenAuth.Authenticate | server/middleware/auth.js:5-20 | 401 iff there is no token, 403 iff the token does not verify, and pass with the verified claims otherwise |
| TokenAuth.Rejection | server/middleware/auth.js:9-16 | a missing token answers 401 and a failed verification 403 |
| TokenAuth.MissingHeaderUnauthenticated | server/middleware/auth.js:9-11 | a request without the header gets 401 |
| TokenAuth.NoSpaceUnauthenticated | server/middleware/auth.js:7-11 | a header without a space gets 401 |
| TokenAuth.EmptyFieldUnauthenticated | server/middleware/auth.js:7-11 | a header whose second field is empty (`"Bearer "`, two spaces) gets 401 |
| TokenAuth.BearerTokenParses | server/middleware/auth.js:7 | the token of `scheme + " " + token` is the token, whatever the scheme word is |
| TokenAuth.IssuedTokenAuthenticates | server/middleware/auth.js:22-24 | the client header `Bearer ${generateToken(u)}` passes the gate with claims `{ userId: u }` |
| TokenAuth.BearerHeader | src/api/client.js:23-25 | the header is the text `Bearer ` followed by exactly the token; `BearerTokenParses` reads that token back |
| TokenAuth.GenerateToken | server/middleware/auth.js:22-24 | the token signs the claims `{ userId }`; `IssuedTokenAuthenticates` proves it passes the gate for that user |
| AuthRoutes.Login | server/routes/auth.js:53-83 | success iff the email is found and the password matches its hash; every failure is the same 401 body; success returns the user's id, email and name and a token for that id |
| AuthRoutes.Register | server/routes/auth.js:10-45 | succeeds iff no user has the email, and a refusal changes nothing; on success the one new user holds the email and `hash(password)`, and the token is the one generated for it |
| AuthRoutes.RegisterEffect | server/routes/auth.js:10-45 | a taken email gives 400 and no change; a free one adds exactly one inactive non-admin user with the hashed password, found by its email, and returns its token |
| AuthRoutes.RegisterTwice | server/routes/auth.js:15-21 | a second registration of the same email is refused and changes nothing |
| AuthRoutes.LoginIgnoresFlags | server/routes/auth.js:53-83 | changing a user's `isActive` or `isAdmin` never changes the login outcome |
| AuthRoutes.RegisteredUserLogsIn | server/routes/auth.js:10-83 | a user just registered, still inactive, logs in with the same password and the token passes the gate for the new id |
| AuthRoutes.RegisterRoute | server/routes/auth.js:10-45 | the handler leaves the tables and answers as `Register` says, and keeps the tables valid |
| AdminRoutes.AdminGate | server/routes/admin.js:9-27 | pass iff the token verifies and names an existing admin; a verified non-admin or missing user gets 403; rejections of the token gate pass through |
| AdminRoutes.AscendingIds | server/routes/admin.js:32-45 | every user id exactly once, in increasing order |
| AdminRoutes.InsertByDate | server/routes/admin.js:44 | inserting into a newest-first list keeps it newest first and adds exactly the entry |
| AdminRoutes.SortByDate | server/routes/admin.js:44 | the sort is newest first, has the same entries and keeps distinct ids distinct |
| AdminRoutes.Listings | server/routes/admin.js:33-43 | each listed entry is the projection of its user with its system count, in the order of the ids |
| AdminRoutes.ListUsers | server/routes/admin.js:30-46 | the listing is newest first, lists every user exactly once, and each entry is the user's projection without password |
| AdminRoutes.GetUsers | server/routes/admin.js:26-47 | the listing is returned iff the admin gate passes |
| AdminRoutes.UpdateUser | server/routes/admin.js:60-70 | `user.update` by id succeeds iff the row exists, then writes exactly that row and returns its projection; systems and planets are untouched |
| AdminRoutes.SetActive | server/routes/admin.js:55-77 | succeeds iff the target exists; no user is added or dropped, no system or planet changes, and the target's `isAdmin` stays |
| AdminRoutes.SetAdmin | server/routes/admin.js:80-102 | succeeds iff the target exists; no user is added or dropped, no system or planet changes, and the target's `isActive` stays |
| AdminRoutes.SetActiveEffect | server/routes/admin.js:55-77 | activate changes only the target's `isActive` (kept when absent from the body) and returns its projection; a missing target is a 500 with no change |
| AdminRoutes.SetAdminEffect | server/routes/admin.js:80-102 | the admin route changes only the target's `isAdmin`; a missing target is a 500 with no change |
| AdminRoutes.SelfDeactivationKeepsAccess | server/routes/admin.js:55-70 | an admin may deactivate their own account and still passes the gate afterwards |
| AdminRoutes.SelfRevocationLocksOut | server/routes/admin.js:80-95 | an admin may revoke their own flag and is refused by the gate afterwards |
| AdminRoutes.DeleteSelfRefused | server/routes/admin.js:109-112 | deleting one's own id gives 400 and changes nothing |
| AdminRoutes.RemoveUser | server/routes/admin.js:114-116 | the user is gone, no system of theirs is left, and the id counters are untouched |
| AdminRoutes.DeleteUser | server/routes/admin.js:105-123 | a success deleted a user other than the caller that existed; any failure leaves the tables as they were |
| AdminRoutes.DeleteOtherEffect | server/routes/admin.js:114-118 | deleting another user succeeds iff it exists and may be removed; it then removes exactly that user and its own systems and planets; a failure is a 500 with no change |
| AdminRoutes.RemoveUserValid | server/routes/admin.js:114-116 | removing a user with its systems and planets keeps the tables valid |
| AdminRoutes.ActivateRoute | server/routes/admin.js:55-77 | a rejected gate changes nothing; otherwise the handler does what `SetActive` says, keeping the tables valid |
| AdminRoutes.AdminRoute | server/routes/admin.js:80-102 | a rejected gate changes nothing; otherwise the handler does what `SetAdmin` says |
| AdminRoutes.DeleteRoute | server/routes/admin.js:105-123 | a rejected gate changes nothing; otherwise the handler does what `DeleteUser` says, keeping the tables valid |
| AdminBootstrap.PromoteOrCreateEffect | server/utils/init-admin.js:25-54 | afterwards the fixed email names an active admin; an existing holder keeps its password and name, otherwise exactly one user is created with the hashed fixed password and name 'Admin'; no other user, system or planet changes |
| AdminBootstrap.PromoteOrCreate | server/utils/init-admin.js:25-54 | no user is dropped, some user is an admin afterwards, and no system or planet changes |
| AdminBootstrap.EnsureAdmin | server/utils/init-admin.js:9-54 | some user is an admin afterwards; nothing changes when one already was; no system or planet changes |
| AdminBootstrap.CreateAdmin | scripts/create-admin.js:12-52 | no user is dropped, some user is an admin afterwards, and no system or planet changes |
| AdminBootstrap.EnsureAdminEffect | server/utils/init-admin.js:9-54 | afterwards some user is an admin; when one already was, nothing changed |
| AdminBootstrap.EnsureAdminIdempotent | server/utils/init-admin.js:9-16 | a second start-up check after the first changes nothing |
| AdminBootstrap.CreateAdminIdempotent | scripts/create-admin.js:17-26 | running the script twice gives the same tables as once |
| AdminBootstrap.CreateAdminIgnoresOtherAdmins | scripts/create-admin.js:12-26 | the script activates the fixed account even when other admins exist, whereas the start-up check then does nothing |
| AdminBootstrap.EnsureAdminExists | server/utils/init-admin.js:6-66 | the start-up routine leaves the tables as `EnsureAdmin` says, keeping them valid |
| AdminBootstrap.CreateAdminScript | scripts/create-admin.js:6-61 | the script leaves the tables as `CreateAdmin` says, keeping them valid |
| AdminBootstrap.Promote | scripts/create-admin.js:12-52 | the lookup then update or create leaves the tables as `PromoteOrCreate` says |
| SystemsRoutes.SystemJsonOf | server/routes/systems.js:54-56 | a returned system names its owner and code and carries exactly its planets |
| SystemsRoutes.ListSystems | server/routes/systems.js:14-21 | GET lists exactly the caller's systems, each with its own planets |
| SystemsRoutes.GetSystems | server/routes/systems.js:9-28 | the list is returned iff the token gate passes, for the user the token names |
| SystemsRoutes.UpsertSystem | server/routes/systems.js:31-80 | users are never touched, and a success leaves the key stored; `UpsertExisting`, `UpsertAbsent` and `UpsertSystemValid` state the two branches in full |
| SystemsRoutes.PatchSystem | server/routes/systems.js:83-110 | succeeds iff the caller has the system; no system key is added or dropped, and users and planets stay |
| SystemsRoutes.UpsertPlanet | server/routes/systems.js:113-170 | succeeds iff the caller has the system; no user or system key changes; a success returns the planet id under its system's own row; `UpsertPlanetEffect` states the stored fields |
| SystemsRoutes.Initialize | server/routes/systems.js:173-228 | users are never touched; a failure changes nothing; a success spends exactly `count` new row ids |
| SystemsRoutes.CreateSystems | server/routes/systems.js:191-218 | the creates leave users alone and spend one row id per queued number |
| SystemsRoutes.UpsertExisting | server/routes/systems.js:37-57 | on an existing key POST creates nothing; it sets `recRes` from the body (or keeps it) and `lastUpdate` to now, ignores the body's planets and changes no other row |
| SystemsRoutes.UpsertAbsent | server/routes/systems.js:58-72 | on an absent key POST succeeds iff the user exists and the planet ids are distinct; it then adds exactly that key with `recRes \|\| false` and exactly the body's planets; a failure changes nothing |
| SystemsRoutes.UpsertAbsentPlanets | server/routes/systems.js:65-67 | each planet of the body becomes a planet of the new system, field for field |
| SystemsRoutes.UpsertTwice | server/routes/systems.js:37-73 | repeating POST leaves one row for the key, changes only its `lastUpdate`, and that time does not go back |
| SystemsRoutes.PatchMissingIsServerError | server/routes/systems.js:89-108 | PATCH on a system the caller lacks changes nothing and ends in the 500 branch |
| SystemsRoutes.PatchExisting | server/routes/systems.js:89-103 | on an existing key PATCH succeeds, sets `recRes` from the body (or keeps it), stamps `lastUpdate`, changes no other system and no user or planet, and returns the row's planets |
| SystemsRoutes.UpsertSystemValid | server/routes/systems.js:31-80 | POST keeps the tables valid |
| SystemsRoutes.PatchSystemValid | server/routes/systems.js:83-110 | PATCH keeps the tables valid |
| SystemsRoutes.UpsertPlanetMissingSystem | server/routes/systems.js:120-131 | without the parent system: 404, no planet written and no timestamp changed |
| SystemsRoutes.UpsertPlanetEffect | server/routes/systems.js:134-163 | the planet is updated in place (absent fields kept) or created with `important \|\| false` and `notes \|\| ''`; no other planet changes; the parent's `lastUpdate` becomes now |
| SystemsRoutes.UpsertPlanetValid | server/routes/systems.js:113-170 | the planet route keeps the tables valid |
| SystemsRoutes.PlanetEditNeedsSystem | server/routes/systems.js:113-170 | a planet edit before the system exists gives 404; after POST has created it the same edit succeeds and stamps the system |
| SystemsRoutes.DefaultSeeds | server/routes/systems.js:197-201 | the nine seeds `555:i:1` to `555:i:9` with `important: false, notes: ''` |
| SystemsRoutes.QueueOf | server/routes/systems.js:191-203 | the queue holds one entry per queued number, in order |
| SystemsRoutes.Missing | server/routes/systems.js:178-205 | the scan queues exactly the numbers from 111 the user lacks, in ascending order |
| SystemsRoutes.CreateAll | server/routes/systems.js:207-218 | the creates leave users alone and spend one row id per queued system |
| SystemsRoutes.DefaultPlanets | server/routes/systems.js:197-201 | a default system's planets are exactly `555:i:1` to `555:i:9`, all unmarked and without notes |
| SystemsRoutes.DefaultSeedsDistinct | server/routes/systems.js:197-201 | the nine default planet ids are pairwise distinct |
| SystemsRoutes.CreateAllAppend | server/routes/systems.js:209-218 | creating one part of the queue and then the rest is creating the whole queue |
| SystemsRoutes.QueueCreatesSystems | server/routes/systems.js:191-218 | creating the queue of the scan is creating the missing numbers' systems |
| SystemsRoutes.CreateSystemsFrame | server/routes/systems.js:207-218 | creating the queue keeps the tables valid, keeps every row there was and adds exactly the queued keys |
| SystemsRoutes.CreateSystemsCreated | server/routes/systems.js:207-218 | every queued system is created once, under the next row ids, with `recRes` false and its nine default planets |
| SystemsRoutes.InitializeKeeps | server/routes/systems.js:173-223 | for an existing user `/initialize` succeeds, reports the number queued, keeps the tables valid and touches no existing row |
| SystemsRoutes.InitializeCovers | server/routes/systems.js:178-218 | afterwards the user has every system 555:111 to 555:999, and the only systems added are those |
| SystemsRoutes.InitializeNewSystems | server/routes/systems.js:191-218 | each system added has `recRes` false, the time of the call and exactly its nine default planets |
| SystemsRoutes.InitializeTwice | server/routes/systems.js:178-223 | an immediate second `/initialize` queues nothing, reports 0 and changes nothing |
| SystemsRoutes.InitializeFreshUser | server/routes/systems.js:178-223 | for a user without systems `/initialize` reports 889 |
| SystemsRoutes.PostSystem | server/routes/systems.js:31-80 | a rejected token changes nothing; otherwise the handler does what `UpsertSystem` says, keeping the tables valid |
| SystemsRoutes.PatchSystemRoute | server/routes/systems.js:83-110 | a rejected token changes nothing; otherwise the handler does what `PatchSystem` says |
| SystemsRoutes.PatchPlanetRoute | server/routes/systems.js:113-170 | a rejected token changes nothing; otherwise the handler does what `UpsertPlanet` says |
| SystemsRoutes.ScanMissing | server/routes/systems.js:178-205 | the scan loop builds the queue of exactly the missing numbers, in ascending order |
| SystemsRoutes.ScanStep | server/routes/systems.js:191-204 | one round of the scan queues number i iff the user lacks it |
| SystemsRoutes.CreateBatch | server/routes/systems.js:210-217 | one batch creates its systems one after the other |
| SystemsRoutes.BatchStep | server/routes/systems.js:209-210 | the queue up to a batch, then the batch, is the queue up to the batch's end |
| SystemsRoutes.CreateQueue | server/routes/systems.js:207-218 | the batch loop in steps of 50 creates exactly the queue |
| SystemsRoutes.InitializeRoute | server/routes/systems.js:173-228 | a rejected token changes nothing; otherwise the handler does what `Initialize` says, keeping the tables valid |
| Client.KeyOf | src/App.jsx:58 | the key of a system id is its second ':'-field when there is one |
| Client.KeyOfSystemCode | src/App.jsx:58 | the key of `555:${i}` is the text of i: server systems land under their number |
| Client.DefaultPlanetViews | src/App.jsx:78-82 | nine planets `555:i:1` to `555:i:9`, unmarked and without notes |
| Client.DefaultSystemPlanets | src/App.jsx:74-83 | a default system's planets have pairwise distinct ids, each naming the system's own number |
| Client.MergeSystem | src/App.jsx:141-145 | `{...system, ...updates, lastUpdate}` keeps the id and planets, takes `recRes` from the update when given and is dated today |
| Client.MergePlanet | src/App.jsx:165 | `{...planet, ...updates}` keeps the id and takes each field from the update when given, else keeps it |
| Client.UpdateSystemIn | src/App.jsx:139-146 | the same keys; only the target changes; it keeps its id and planets, takes `recRes` from the update when given, and is dated today |
| Client.MapPlanet | src/App.jsx:164-166 | the map keeps the number of planets |
| Client.UpdatePlanetIn | src/App.jsx:160-169 | no result iff the key is absent; otherwise the same keys, and no other system changes |
| Client.UpdatePlanetEffect | src/App.jsx:160-169 | only the planet at `idx` is merged with the update; the others, the planet count, the id and the flag stay; the system is dated today |
| Client.Filter | src/App.jsx:176-178 | the filter keeps exactly the systems whose id contains the term |
| Client.FilterAppend | src/App.jsx:176-178 | the filter keeps the order of its input |
| Client.FilterEmptyTerm | src/App.jsx:176-178 | an empty search term keeps every system, in order |
| Client.Slice | src/App.jsx:182 | `slice` never yields more than the array; for bounds `0 <= begin <= end` it is the range clamped to the array; bounds of one sign with `end <= begin` give nothing; a negative begin counts from the end |
| Client.PageOf | src/App.jsx:180-182 | a page never holds more than 20 systems |
| Client.TotalPages | src/App.jsx:183 | `Math.ceil(n / 20)` is the fewest pages of 20 that hold n systems |
| Client.PageContents | src/App.jsx:180-183 | page p holds the systems from index `(p - 1) * 20` on, at most 20; the pages 1 to `totalPages` are exactly the non-empty ones |
| Client.PageOfIndex | src/App.jsx:180-183 | the system at index j shows on page `j / 20 + 1`, at row `j % 20`, within the page count |
| Client.PrevPage | src/App.jsx:528 | `Math.max(1, p - 1)`: at least 1 and at least p - 1, and one of the two |
| Client.NextPage | src/App.jsx:538 | `Math.min(totalPages, p + 1)`: at most totalPages and at most p + 1, and one of the two |
| Client.PagingStaysInRange | src/App.jsx:525-538 | with more than one page, the back and next buttons keep the page within `[1, totalPages]`, step by one and stop at the ends |
| Client.ValuesIn | src/App.jsx:176 | `Object.values` lists one value per key of the order |
| Client.EnumerationLength | src/App.jsx:176 | `Object.values` lists as many values as the object has keys |
| AppState.DateOf | src/App.jsx:62 | the date part holds no 'T', and a text without 'T' is its own date part |
| AppState.DateOfIso | src/App.jsx:62 | the date part of `date + "T" + time` is the date |
| AppState.ViewOf | src/App.jsx:59-68 | a system view has the server system's id and flag, the date part of its time, and its planets mapped to id, flag and notes |
| AppState.FromServer | src/App.jsx:57-69 | every server system's key is present after the `forEach` |
| AppState.FromServerKeys | src/App.jsx:57-69 | every key after the `forEach` comes from some server system |
| AppState.FromServerLatest | src/App.jsx:57-69 | the last server system with a key is the one stored under it |
| AppState.FillKeeps | src/App.jsx:72-85 | the fill loop keeps every key it finds, with its system |
| AppState.FillKeysFrom | src/App.jsx:72-85 | the fill loop adds keys only for the numbers it has passed |
| AppState.FillCovers | src/App.jsx:72-85 | every number the fill loop has passed has its key |
| AppState.FillDefaultAt | src/App.jsx:72-85 | a number whose key was absent gets the default system |
| AppState.Fill | src/App.jsx:72-85 | the fill loop after the numbers below i; `FillKeeps`, `FillKeysFrom`, `FillCovers` and `FillDefaultAt` state its content |
| AppState.ConvertSystemsKeys | src/App.jsx:55-88 | after the conversion all 889 numbers have a key, and every key is a server system's or one of those numbers' |
| AppState.ConvertSystemsKeepsServer | src/App.jsx:57-73 | a server system is never replaced by a default |
| AppState.ConvertSystemsDefaults | src/App.jsx:72-85 | a number without a server system gets `555:i`, `recRes` false, today and its nine default planets |
| AppState.ConvertSystems | src/App.jsx:55-88 | every server system survives the conversion with its view, and all 889 numbers have a key |
| AppState.ServerSystemKey | src/App.jsx:58 | a server system `555:i` fills key i |
| AppState.ConvertSystemsToState | src/App.jsx:55-88 | the two loops build what `ConvertSystems` says |
| AppState.StoreServerSystems | src/App.jsx:57-69 | the `forEach` loop stores each server system under its key, later ones replacing earlier ones |
| AppState.AddMissingSystems | src/App.jsx:72-85 | the loop over 111..999 adds the default for every absent key |
| AppState.RequestsNameTheirSystem | src/App.jsx:155-156 | for system i the requests name `555:i` and `555:i:${idx + 1}`, which is the id of planet row idx |
| AppState.AppUpdateSystem | src/App.jsx:133-151 | a failed call only shows the error; a successful one merges the update into the one system |
| AppState.AppUpdatePlanet | src/App.jsx:153-174 | a failed call only shows the error; a successful one merges into the one planet, or shows the error thrown for an absent key |
| AppState.UpdatesKeepKeys | src/App.jsx:139-170 | local updates never add or drop a system |
| LocalTracker.DefaultsKeys | src/Galaxy555Tracker.jsx:31-42 | the loop holds keys only for the numbers it has passed |
| LocalTracker.DefaultsValues | src/Galaxy555Tracker.jsx:31-42 | every number the loop has passed has its default system |
| LocalTracker.DefaultsCount | src/Galaxy555Tracker.jsx:31-42 | after the numbers below i there are `i - 111` entries |
| LocalTracker.InitialSystems | src/Galaxy555Tracker.jsx:29-42 | `initializeSystems` yields exactly 889 systems keyed 111..999, each the default, the same object the other client's fill loop builds from nothing |
| LocalTracker.InitialPages | src/Galaxy555Tracker.jsx:92-99 | with an empty search the initial systems span 45 pages |
| LocalTracker.DefaultsAreFill | src/Galaxy555Tracker.jsx:31-42 | the unconditional loop and the fill loop from an empty object agree at every step |
| LocalTracker.Defaults | src/Galaxy555Tracker.jsx:31-42 | `initializeSystems`' object after the numbers below i; `DefaultsKeys`, `DefaultsValues` and `DefaultsCount` state its content |
| LocalTracker.Tracker.constructor | src/Galaxy555Tracker.jsx:7-27 | the session flag decides the login; the stored object is loaded, or the defaults are built and stored |
| LocalTracker.Tracker.InitializeSystems | src/Galaxy555Tracker.jsx:29-45 | the systems become the 889 defaults and the stored copy equals them; nothing else changes |
| LocalTracker.Tracker.EnterPassword | src/Galaxy555Tracker.jsx:8 | only the password field changes |
| LocalTracker.Tracker.HandleLogin | src/Galaxy555Tracker.jsx:47-56 | login succeeds iff the field holds "RecRes555", which sets the flag and clears the field; otherwise the alert is the only change |
| LocalTracker.Tracker.HandleLogout | src/Galaxy555Tracker.jsx:58-62 | logged out, flag removed, selection cleared; the systems stay |
| LocalTracker.Tracker.SelectSystem | src/Galaxy555Tracker.jsx:280 | the selection is the second ':'-field of the system id |
| LocalTracker.Tracker.UpdateSystem | src/Galaxy555Tracker.jsx:64-75 | the systems become `UpdateSystemIn` of the old ones and the stored copy equals them; nothing else changes |
| LocalTracker.Tracker.UpdatePlanet | src/Galaxy555Tracker.jsx:77-90 | the systems become `UpdatePlanetIn` of the old ones and are stored; an absent key changes nothing |
| LocalTracker.Tracker.Search | src/Galaxy555Tracker.jsx:234-237 | a new search term resets the page to 1 |
| LocalTracker.Tracker.PreviousPage | src/Galaxy555Tracker.jsx:295 | the page becomes `max(1, p - 1)`; nothing else changes |
| LocalTracker.Tracker.NextPageOf | src/Galaxy555Tracker.jsx:305 | the page becomes `min(totalPages, p + 1)` for the current search; nothing else changes |
| LocalTracker.Tracker.CurrentSystems | src/Galaxy555Tracker.jsx:92-98 | at most 20 rows are shown, each a system of the object matching the search; on page p they are the filtered list from index `(p - 1) * 20`, in order, up to 20 of them |
| LocalTracker.InitialObject | src/Galaxy555Tracker.jsx:30-42 | the loop builds the 889 defaults |

## Left out

- The Prisma client and the database engine are not modelled. The tables are maps, and ids come from counters.
- The schema file is not part of this model. These things depend on it and are therefore parameters or assumptions:
  - What deleting a user does to the user's systems is the parameter `OnDelete` (cascade or restrict).
  - Absent nested planet fields take the defaults false and ''.
  - A registered user gets `isActive` false and `isAdmin` false. server/routes/auth.js:27-33 sets neither, so these are assumed column defaults.
  - A new user's `createdAt` is the time of the request.
  - Every created system's `lastUpdate` is the time of the request, also where the code sets none: the create at server/routes/systems.js:60-72 and the queued creates at 191-203.
  - A user's `name` is nullable (an `Option`), because registration may omit it.
  - Planet rows have no id column of their own. The planet JSON of the planet route omits the row id that `res.json(planet)` returns (server/routes/systems.js:165); the model identifies a planet by its system row and planet id, the composite unique key.
- User ids from the URL and from the token have one type in the model and compare by value. The string-versus-number question of `userId === req.user.userId` depends on the schema, so it is not modelled.
- bcrypt and jsonwebtoken are the function parameters `hash`, `compare`, `sign` and `verify`. The 7-day expiry and JWT_SECRET are left out; the verifier alone decides validity.
- `hash` and `sign` are deterministic functions here. bcrypt draws a fresh salt on every call, and jsonwebtoken adds the issue time `iat` to every token. So any conclusion that compares whole hashes or tokens holds of the abstraction only. An example is the token equality in `AuthRoutes.LoginIgnoresFlags`.
- Clock readings (`new Date()`, `toISOString`) are the parameters `now` and `today`. All creates of one `/initialize` share one `now`.
- `Promise.all` within a batch is modelled as sequential creation, and concurrent requests are not modelled. A failure part-way through a batch can only be the missing-owner failure, which fails the first create, so nothing is created.
- Database errors other than those the model states are not modelled: a lost connection, and the 500 of a throwing `requireAdmin` or `findMany`. Neither are the 500 bodies for a register or login that throws.
- Body fields of a wrong type, and an entirely missing `systemId`, `email` or `password`, are not modelled. Fields are either given or absent (Option).
- Express wiring, CORS, static files, server/index.js and server/init-db.js are not modelled.
- HTTP plumbing is an enumerated status plus a body.
- src/api/client.js is left out apart from its `Bearer ${token}` header (`TokenAuth.BearerHeader`). `loadSystems` (src/App.jsx:31-53) is async orchestration and is left out; its data step `convertSystemsToState` is modelled.
- App's `handleLogout` (src/App.jsx:125-131) only clears React state and the stored token, and is left out. The stand-alone tracker's `handleLogout` is modelled.
- src/AdminPanel.jsx and all JSX markup are left out, and so are console logging, `process.exit`, `alert` (recorded as the `alerts` sequence) and `e.preventDefault`.
- The key order of `Object.values` is the parameter `order` with `Enumerates(order, m)`. JavaScript's integer-key ordering is not modelled, so the contracts hold whatever the order.
- `JSON.stringify` and `JSON.parse` of local storage are not modelled. The stored copy is the object itself.
- Client.UpdateSystemIn, AppState.AppUpdateSystem, LocalTracker.Tracker.UpdateSystem: require the key to be present. For an absent key, spreading `systems[systemNum]` would create a partial object holding only the update and the date, which the model's system view cannot represent. The callers only pass keys of shown systems.
- `updatePlanet` with an absent key: the throw (a `TypeError`) is modelled as a shown error in App and as no change in the stand-alone tracker.
