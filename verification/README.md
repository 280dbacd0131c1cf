# Verified model of vaultine

vaultine stores secrets for many users in one SQLite database. Each user has a password hash, one
key-encryption key (KEK) wrapped under a key derived from that hash, and rows of secrets encrypted under
the KEK. A cache of 256 slots keeps derived wrapping keys. Rotation re-encrypts all rows of a user in a
transaction; a password change re-wraps the KEK in one.

This project models that engine in Dafny, together with the schema migrations, the export printers, the
backup container, the audit log, the text codecs and the secure containers, and proves what the
repository promises about them. `dafny verify dfyconfig.toml` checks everything.

## How it is laid out

| files | content |
|---|---|
| `Types.dfy`, `Calendar.dfy` | shared values, ideal cryptography, time stamps as text |
| `Tables.dfy`, `Cache.dfy`, `Vault.dfy` | the tables with their constraints, the cache, every public call as a function on states |
| `Engine.dfy`, `Handle.dfy` | the code: classes with the database statements, the rotation loop and the handle's methods, each proved equal to those functions |
| `PlainVault.dfy`, `Representation.dfy`, `Refinement.dfy`, `Runs.dfy` | the plain map a client sees, how tables stand for it, the simulation, and what follows for whole runs |
| `CacheRuns.dfy`, `AuditTrail.dfy`, `Writes.dfy` | whole runs again: the cache of the handle, the audit log, and what each call writes |
| `Transparency.dfy`, `Rotation.dfy`, `ManyHandles.dfy` | isolation, cache transparency, stale caches, rotation, interleavings of several handles |
| `Migrations.dfy`, `Backup.dfy`, `Audit.dfy` | schema versions, backup files, audit log |
| `Csv.dfy`, `Json.dfy`, `ExportData.dfy`, `CsvExport.dfy`, `JsonExport.dfy`, `Export.dfy` | printers and reference parsers, the export |
| `Codecs.dfy`, `SecureMemory.dfy` | hexadecimal and base 64, containers over an explicit heap |

## What is assumed

- Cryptography is any suite of functions with the laws of `Crypto.Ideal`: a password verifies against a
  hash exactly when it was the one hashed; for a fixed salt different hashes derive different keys; AES key
  unwrap inverts wrap and fails under any other key (sections 2.2.1 to 2.2.3 of RFC 3394); GCM decryption
  inverts encryption, keeps the length and accepts nothing made under another key (sections 7.1 and 7.2 of
  NIST SP 800-38D). `Crypto.SymbolicIsIdeal` shows a suite that has these laws. The backup laws are in
  `Backup.Lawful`, with `Backup.LawfulExists`.
- SQLite is in-memory tables with UNIQUE, ON DELETE CASCADE and AUTOINCREMENT; a transaction is a snapshot.
  Every statement, allocation and crypto call may fail on its own (`Vault.Env.fails`).
- `BEGIN IMMEDIATE` and `COMMIT` of a rotation and of a password change succeed: the code ignores their
  return values at `src/kek/kek.cc:150`, `src/kek/kek.cc:258`, `src/ssm.cc:606` and `src/ssm.cc:676`. The
  migrations do check theirs, and there the model lets them fail.
- One call reads the clock once, in the years 1970 to 9999 less 90 days.
- A call on one handle is one step, because the handle's lock makes it so; a run starts with an empty
  database and an empty cache of 256 slots.

## Where a promise does not hold as stated

- A rotation is safe only if its SELECT delivers every row. `secrets_list_for_user` treats a failing step
  like the end of the rows (`src/db/secrets.cc:169`), so a short scan commits and the missed rows stay
  under the discarded KEK: `Rotation.RotationOutcome` gives the exact condition, `Rotation.ShortScanLosesRows`
  an input. `Runs.UserRefines` therefore asks that the rotations of its user that commit were delivered
  every row, and asks nothing of other users' rotations.
- The audit query and the export read the end of their rows in the same way (`src/db/audit_log.cc:94`,
  `src/export/export.cc:38`, `src/export/export.cc:60`, `src/export/export.cc:85`): after a failing step they
  answer OK with rows missing. `Audit.PagesCoverTheLog` and `Export.ExportRoundTrip` say exactly when none is.
- The cache can be seen where a hit replaces a derivation that would fail: `Transparency.CacheIsInvisible`
  holds if and only if no call of the run is saved in this way (`Transparency.HitSaves`).
- After another handle's rotation or a restore, a stale cached key makes every get and store of that user
  fail, and failing does not remove it: `Transparency.WrongKeyOnlyFails`. `Transparency.RestoreHarmless` tells
  from the two databases when a restore does no such harm. A rotation or password change on the handle
  clears the key: `Transparency.RotationRepairs`.
- A store on one handle that overlaps a rotation on another loses the stored row:
  `ManyHandles.StoreCommitsExactly` gives the exact condition, `ManyHandles.RaceLosesRow` a run, and
  `ManyHandles.OnlyRotationStales` shows that nothing else can do it.
- JSON strings keep control characters other than line feed, carriage return and tab unescaped
  (`src/export/export.cc:103-114`), which section 7 of RFC 8259 does not allow: a strict reader accepts an
  export exactly if no text has one, `JsonExport.JsonRoundTrip`.
- The cache counts time in seconds (`src/ssm.cc:75`, `src/ssm.cc:86`), so that its order among accesses of the
  same second is that of the slots. `CacheRuns.HandleLru` holds all the same; the exact condition for being
  resident, `CacheRuns.HandleResidents`, is for runs without two calls at the same time.
- "The 256 most recently used users are resident" fails after invalidations, which free a slot but bring no
  evicted user back: `Recency.InvalidatedUsersMustCount`. `Recency.ResidentExactly` gives the exact condition.
- `backup_restore` accepts nonzero reserved header bytes and an empty image, which `backup_create` never
  writes: `Backup.AcceptedMeansCreated` gives the exact condition.
- `db_get_version` reads a failing step as version 0, and `db_migrate` then stamps version 1 and repeats its
  migrations: `Migrations.MisreadVersion` says from the failures of the repetition when version and indexes
  agree afterwards. A rollback target that is no version of the chain undoes every migration
  and still answers false: `Migrations.RollbackToNowhere`.
- A write between two page requests of the audit log repeats one entry: `Audit.WriteShiftsPages`.
- `ssm_user_register` of an existing name answers OK and changes nothing but the log; the plain map does
  the same (`PlainVault.PlainRegister`).

## Model

| member | source | states |
|---|---|---|
| `Crypto.SymbolicIsIdeal` | src/kek/kek.cc:70-97 | the assumed laws of hashing, deriving, wrapping and sealing can all hold together |
| `Calendar.GmTimeInverse` | src/kek/kek.cc:115-129 | breaking a time into calendar fields gives a valid date, and timegm takes it back to the same time |
| `Calendar.Epoch` | src/kek/kek.cc:115-129 | time 0 is 1970-01-01 00:00:00, and the first representable one 0000-01-01 00:00:00 |
| `Calendar.DayByDay` | src/kek/kek.cc:115-129 | 86400 seconds later the date is the next day of the Gregorian calendar, with month ends and leap years written out |
| `Calendar.SecondBySecond` | src/kek/kek.cc:115-129 | one second later the clock shows the next second, carrying into minutes, hours and days |
| `Calendar.StampLayout` | src/kek/kek.cc:120-128 | a time stamp is YYYY-MM-DDTHH:MM:SSZ with the decimal digits of its calendar fields |
| `Calendar.ParseFormat` | src/kek/kek.cc:99-129 | the parser of the expiry check reads back every time stamp that the printer writes, for the years 1970 to 9999 |
| `Calendar.TextOrderIsTimeOrder` | src/db/audit_log.cc:120-139 | two time stamps compare as text exactly as their times compare |
| `Text.PrecedesMeans` | src/db/audit_log.cc:120-139 | text order is that of the first differing characters, with a proper prefix first |
| `KeyCache.Slots.CacheLookup` | src/ssm.cc:71-82 | the loop returns the first valid slot of the user, refreshes its time, and counts one hit or one miss |
| `KeyCache.Slots.CacheInsert` | src/ssm.cc:84-103 | the loop takes the first free slot, else the first with the oldest time; nothing else changes |
| `KeyCache.Slots.CacheInvalidate` | src/ssm.cc:105-112 | every slot of the user is erased and freed, the others stay |
| `KeyCache.Slots.CacheStats` | src/ssm.cc:134-146 | the number of slots, of valid slots, of hits and of misses |
| `Recency.VictimIsOldest` | src/ssm.cc:84-98 | the victim is free if any slot is, and otherwise the least recently used one |
| `Recency.LruGuarantee` | src/ssm.cc:71-112 | over all runs under a clock that does not go back: one slot a user, no invalidated user resident, recent users resident, evictions in order of last use |
| `Recency.ResidentExactly` | src/ssm.cc:71-112 | over all runs with invalidations in which no two accesses have the same time: a live user is resident exactly when at no time since its last access the capacity was filled by live users accessed later |
| `Recency.LruExact` | src/ssm.cc:71-103 | without invalidations and accesses at the same time the residents are exactly the most recently used users that fit |
| `Recency.HitsPlusMisses` | src/ssm.cc:71-82 | hits plus misses is the number of lookups |
| `Recency.InvalidatedUsersMustCount` | src/ssm.cc:105-112 | for every capacity a run after which fewer live users than slots are newer than a user, and it is not resident |
| `Recency.ValidCountsUsers` | src/ssm.cc:134-146 | the valid entries reported are as many different users |
| `Recency.NoKeyLeftBehind` | src/ssm.cc:105-112 | in every run a slot that is free holds no key |
| `CacheRuns.CallTouches` | src/ssm.cc:328-334 | what each public call is to the cache: a store or get that obtains a key one access, a committed rotation or password change one invalidation, any other nothing but perhaps a miss |
| `CacheRuns.HitExactly` | src/ssm.cc:71-82 | a call that looks its user up counts a hit exactly when the user is resident and a miss otherwise; all other calls count nothing |
| `CacheRuns.KeyIsKept` | src/ssm.cc:84-103 | a store or get that obtained a key leaves its user resident exactly when there was a slot of its own, a free one or one not used later |
| `CacheRuns.CacheFollows` | src/ssm.cc:71-112 | after every run of calls the 256 slots and the counters are those left by its accesses and invalidations, lookups in vain counted as misses |
| `CacheRuns.HandleLru` | src/ssm.cc:71-146 | so the recency guarantee, the count of valid entries and the erasure of free slots hold of the handle in every run whose clock does not go back |
| `CacheRuns.HandleResidents` | src/ssm.cc:71-112 | and the exact condition for being resident, when no two calls have the same time |
| `CacheRuns.JustUsedIsResident` | src/ssm.cc:328-334 | in such runs a user whose store or get has just obtained a key is resident |
| `Tables.InsertUserKeyed` | src/db/users.cc:7-37 | a new user keeps names unique and gets an id that was never used |
| `Tables.InsertKekKeyed` | src/db/kek_metadata.cc:5-43 | a first KEK row keeps all keys and owners and touches nobody else |
| `Tables.InsertSecretKeyed` | src/db/secrets.cc:39-90 | a new secret keeps (user, name) unique, ids fresh and other users' rows |
| `Tables.DeleteSecretKeyed` | src/db/secrets.cc:124-146 | deleting a secret keeps the constraints and other users' rows |
| `Tables.DeleteUserKeyed` | src/db/users.cc:71-92 | deleting a user cascades to its KEK and secrets and keeps the constraints |
| `Tables.SetHashKeyed` | src/ssm.cc:608-622 | changing a hash keeps the constraints and changes that user's row only |
| `Tables.NextIdIsUnused` | src/db/database.cc:72-73 | the next AUTOINCREMENT id belongs to no user and no KEK |
| `Tables.NoOrphans` | src/db/database.cc:79-100 | an id without a user has no KEK and no secret |
| `Engine.Database.Rollback` | src/kek/kek.cc:259-260 | the tables are those of the snapshot; the audit log of the handle is not part of it |
| `Engine.Database.UsersCreate` | src/db/users.cc:7-37 | succeeds unless the statement fails or the name is taken, and adds exactly that row |
| `Engine.Database.UsersDelete` | src/db/users.cc:71-92 | true exactly when the id exists and the statement works; then the cascade, else no change |
| `Engine.Database.KekStore` | src/db/kek_metadata.cc:5-43 | refuses a second KEK and an unknown user, and otherwise adds version 1 |
| `Engine.Database.KekUpdate` | src/db/kek_metadata.cc:88-133 | compare and increment: with a stale expected version nothing changes and the answer is false |
| `Engine.Database.SecretsStore` | src/db/secrets.cc:39-90 | refuses a taken name and an unknown user, and otherwise adds exactly that row |
| `Engine.Database.SecretsDelete` | src/db/secrets.cc:124-146 | true exactly when the row was there and the statement works |
| `Engine.Database.SecretsListForUser` | src/db/secrets.cc:148-180 | the loop collects the rows that the scan delivers, in that order |
| `Engine.Database.SecretsUpdateBox` | src/kek/kek.cc:191-242 | the UPDATE by row id changes ciphertext, nonce, tag, public key and time of that row only |
| `Engine.Database.UsersUpdateHash` | src/ssm.cc:608-622 | the hash of that user is replaced, or nothing happens |
| `Engine.Database.KekUpdateWrapped` | src/ssm.cc:658-671 | the wrapped KEK is replaced; salt, expiry and version stay |
| `Engine.Database.AuditWrite` | src/ssm.cc:64-69 | one entry is appended, and a failing write is ignored |
| `Engine.ResealOne` | src/kek/kek.cc:202-242 | loop step: one more row under the new KEK, the rest still under the old one |
| `Engine.ResealRows` | src/kek/kek.cc:200-247 | the loop succeeds exactly when every row opens and updates, and then every row is re-encrypted |
| `Engine.RotateBody` | src/kek/kek.cc:149-255 | the statements between BEGIN and the end of the transaction compute the rotation, or fail |
| `Engine.KekRotate` | src/kek/kek.cc:131-263 | all or nothing: the whole rotation is committed, or the tables are as before |
| `Handle.SsmHandle.UserRegister` | src/ssm.cc:223-269 | the code computes the registration step of the model, with every early return |
| `Handle.SsmHandle.CreateAccount` | src/ssm.cc:243-269 | hash, insert the user, then its KEK; a failure in between leaves a user without KEK |
| `Handle.SsmHandle.CreateKek` | src/kek/kek.cc:33-68 | a fresh KEK wrapped under a fresh salt, stored with an expiry 90 days away |
| `Handle.SsmHandle.UserAuthenticate` | src/ssm.cc:271-296 | the code computes the authentication step of the model |
| `Handle.SsmHandle.ObtainWrappingKey` | src/ssm.cc:328-334 | the cached key, or the derived one which then fills the cache |
| `Handle.SsmHandle.ObtainKek` | src/ssm.cc:328-340 | the raw KEK, unwrapped with the cached or derived key; nothing when there is no such key or it does not unwrap |
| `Handle.SsmHandle.SealAndStore` | src/ssm.cc:342-362 | encrypt under the unwrapped KEK, insert, log |
| `Handle.SsmHandle.SecretStore` | src/ssm.cc:298-363 | the code computes the store step of the model |
| `Handle.SsmHandle.SecretGet` | src/ssm.cc:365-448 | the code computes the get step of the model, buffers and lengths included |
| `Handle.SsmHandle.SecretDelete` | src/ssm.cc:450-478 | the code computes the delete step of the model |
| `Handle.SsmHandle.SecretList` | src/ssm.cc:480-515 | the code computes the list step of the model |
| `Handle.SsmHandle.UserDelete` | src/ssm.cc:540-568 | the code computes the user removal step of the model |
| `Handle.SsmHandle.ReplaceHash` | src/ssm.cc:606-687 | the transaction, then commit and invalidation or rollback, and an audit entry with the result |
| `Handle.SsmHandle.ChangeBody` | src/ssm.cc:608-673 | the statements of the password change transaction compute it, or fail |
| `Handle.SsmHandle.UserChangePassword` | src/ssm.cc:570-687 | the code computes the password change step: commit and invalidate, or roll back |
| `Handle.SsmHandle.SsmKekRotate` | src/ssm.cc:689-711 | the code computes the rotation step: invalidate only after a commit |
| `Refinement.FreshDeleteUser` | src/ssm.cc:563 | the deletion of a user leaves every cached key right without an invalidation, because ids are never used again |
| `Refinement.FreshLookup` | src/ssm.cc:328-334 | with a fresh cache the key obtained is the one derived from the current hash and salt |
| `Refinement.ChangeKeepsFresh` | src/ssm.cc:675-682 | a committed password change needs its invalidation, a failed one needs none |
| `Refinement.RotateKeepsFresh` | src/ssm.cc:702-708 | a committed rotation needs its invalidation |
| `Refinement.RegisterSimulates` | src/ssm.cc:223-269 | registration is the plain map's, also when it stops between its two inserts |
| `Refinement.StoreSimulates` | src/ssm.cc:298-363 | a store is an insertion into the plain map; a failed derivation is a KEK that could not be unwrapped |
| `Refinement.GetSimulates` | src/ssm.cc:365-448 | a get answers what the plain map holds; a failed derivation is a KEK that could not be unwrapped |
| `Refinement.DeleteSimulates` | src/ssm.cc:450-478 | a delete is a removal from the plain map |
| `Refinement.ListSimulates` | src/ssm.cc:480-515 | a list reports the plain entries that the scan delivers |
| `Refinement.RemoveSimulates` | src/ssm.cc:540-568 | user removal removes the account |
| `Refinement.ChangeSimulates` | src/ssm.cc:570-687 | a password change replaces the password and nothing else |
| `Refinement.RotateSimulates` | src/kek/kek.cc:131-263 | a rotation renews the key and leaves passwords and contents |
| `Refinement.CallSimulates` | src/ssm.cc:223-711 | for any user whose map the tables stand for: every call with any failing steps answers as the plain map and leaves tables that stand for the next one |
| `Representation.KekRotated` | src/kek/kek.cc:148-262 | a rotation rolls back exactly when the map says so, and otherwise, if it was delivered every row, the tables stand for the same map with a renewed key |
| `Representation.PasswordChanged` | src/ssm.cc:624-671 | after a password change the tables stand for the map with the new password |
| `PlainVault.GetTells` | src/ssm.cc:365-448 | each status, delivered buffer and reported length of a get, from what is stored, the caller's buffer sizes and the steps that fail |
| `Runs.UserRefines` | src/ssm.cc:223-711 | in every run the calls of a user are answered as by the plain map if all rows were delivered to the rotations of that user that commit; other users do not matter |
| `Runs.RunRefines` | src/ssm.cc:223-711 | every run gives the replies of the plain map and ends in tables that stand for it, if that holds for all users |
| `Runs.StoredSecretSurvives` | src/ssm.cc:298-448 | every later get delivers a stored secret byte for byte: the private key with its length, and the public key, nothing or its needed length by the caller's buffer; through everything but its deletion and short scans of its own user's rotations |
| `Runs.RotationAndChangeKeepContents` | src/ssm.cc:570-711 | on the map a rotation or password change alters no content; a password change moves no deadline or version |
| `Runs.KekRowTracksAge` | src/kek/kek.cc:249-258 | in every run, with any suite and any failures: a version is 1 plus the committed rotations, and the stored deadline is 90 days after the last |
| `Runs.ExpiryOverRuns` | src/kek/kek.cc:99-113 | in every run, with any suite and any failures: store, get, delete and list answer EXPIRED exactly from 90 days after registration or the last committed rotation |
| `AuditTrail.CallLogged` | src/ssm.cc:223-711 | every call appends exactly one audit entry or none, told from the call, its reply and the tables: user id, name, operation, result and target |
| `AuditTrail.RunLogged` | src/ssm.cc:64-69 | the log of every run is the entries of its calls in their order, with nothing left out, added or changed |
| `Writes.RegisterWrites` | src/ssm.cc:243-269 | a registration adds the hash of the password and a KEK wrapped under a key derived with the drawn salt, version 1, expiring in 90 days, and nothing else |
| `Writes.StoreWrites` | src/ssm.cc:342-356 | a store adds one row sealed with the drawn nonce under the unwrapped KEK, and nothing else |
| `Writes.DeleteWrites` | src/ssm.cc:450-478 | a delete removes that row and nothing else |
| `Writes.ChangeWrites` | src/ssm.cc:608-673 | a password change writes the new hash and the same KEK wrapped anew; salt, deadline, version and all else stay |
| `Writes.RotateWrites` | src/kek/kek.cc:148-258 | a rotation writes a new KEK under a new salt, one version up, and each scanned row sealed again with a nonce of its own; all else stays |
| `Writes.FailureWrites` | src/ssm.cc:223-711 | a call that does not answer OK changes no table, but a registration may leave a user without KEK |
| `Writes.BadNameRefused` | src/ssm.cc:216-221 | empty names and those of more than 255 characters are refused by the four calls that take a password, and change nothing |
| `Writes.GoodNameRegistered` | src/ssm.cc:216-269 | when nothing fails a new name is registered exactly if it has 1 to 255 characters |
| `Writes.NamesHaveGoodLength` | src/ssm.cc:216-269 | in every run all user names have 1 to 255 characters |
| `Writes.NoncesNeverRepeat` | src/kek/kek.cc:200-247 | in every run whose generator does not repeat itself no two stored secrets are sealed with the same nonce |
| `Transparency.CallKeeps` | src/ssm.cc:223-711 | every call keeps the table constraints and a fresh cache and leaves all other users' rows unchanged |
| `Transparency.RemovalIsExact` | src/ssm.cc:540-568 | removal deletes exactly that user's row, KEK and secrets |
| `Transparency.RunKeeps` | src/db/database.cc:72-100 | the table constraints and the fresh cache hold in every reachable state |
| `Transparency.CallUnwraps` | src/kek/kek.cc:131-263 | every call keeps each user's KEK unwrapping under the stored hash and salt |
| `Transparency.CallTransparent` | src/ssm.cc:328-405 | one call with any two fresh caches: same reply exactly when it is not one that needs a key which only one of them holds while derivation fails; then same tables and log |
| `Transparency.CacheIsInvisible` | src/ssm.cc:71-112 | a run with the cache and a run in which every lookup misses give the same replies exactly when no hit saves a call from a failing derivation; then the same tables and log |
| `Transparency.StaleGetIsRight` | src/ssm.cc:407-430 | whatever the cache holds, what a get delivers is the row's plaintext |
| `Transparency.StaleStoreIsRight` | src/ssm.cc:336-356 | whatever the cache holds, a store that answers OK wrote a row the current KEK opens |
| `Transparency.WrongKeyOnlyFails` | src/ssm.cc:336-430 | a wrong cached key never gives OK, gives INTERNAL past the guards, and stays in the cache |
| `Transparency.RotationRepairs` | src/ssm.cc:702-711 | a rotation works under any cache and leaves no entry of the user |
| `Transparency.RestoreHarmless` | src/ssm.cc:780-808 | after a restore, which keeps the cache, a store or get of a user with a cached key and the same salt in both databases answers as without a cache exactly when the stored hashes are equal or no key is needed, and INTERNAL otherwise |
| `Rotation.NewKek` | src/kek/kek.cc:167-180 | a committed rotation stores the new KEK for the same hash, one version up, with a new deadline |
| `Rotation.RotatedRow` | src/kek/kek.cc:202-242 | a row that was scanned opens under the new KEK to the same plaintext, with the same id, public key and description |
| `Rotation.RotationOutcome` | src/kek/kek.cc:148-262 | a committed rotation leaves all rows readable if and only if its scan delivered them all |
| `Rotation.ShortScanLosesRows` | src/db/secrets.cc:148-180 | a scan that ends early makes a successful rotation lose a row |
| `ManyHandles.RotationUsesStoredHash` | src/kek/kek.cc:150-160 | a rotation that commits had the hash that is stored at that moment |
| `ManyHandles.RotationCommits` | src/kek/kek.cc:148-262 | a rotation in the middle of other handles' calls keeps every account in order |
| `ManyHandles.ChangeCommits` | src/ssm.cc:583-682 | so does a password change, whatever was committed since its unlocked reads |
| `ManyHandles.StoreCommits` | src/ssm.cc:354-356 | so does a store's insert, when the KEK it read is still the stored one |
| `ManyHandles.InterleavingsStaySafe` | src/ssm.cc:583-711 | every interleaving in which stores insert under the current KEK and rotations are delivered every row keeps each stored KEK unwrapping and opening all rows |
| `ManyHandles.VersionsCountRotations` | src/kek/kek.cc:249-258 | in every interleaving whatsoever a version is 1 plus the number of committed rotations |
| `ManyHandles.StepsAreTheCall` | src/ssm.cc:223-711 | a call whose steps are not interrupted: with OK its steps change the tables as the call does, and without OK nothing, the first insert of a registration, or all of them happened |
| `ManyHandles.OnlyRotationStales` | src/ssm.cc:314-356 | no commit but a rotation of the same user makes the KEK that a store read stale |
| `ManyHandles.InterleavedGetIsRight` | src/ssm.cc:365-448 | whatever a get read before, in other states of the database, what it opens of the row it reads now is the row's plaintext |
| `ManyHandles.PlayedGetIsRight` | src/ssm.cc:365-448 | after every such interleaving, with any cache on the handle, a private key that a get delivers is the row's plaintext |
| `ManyHandles.StoreCommitsExactly` | src/ssm.cc:314-356 | a store keeps the account in order if and only if the KEK it read is still the stored one |
| `ManyHandles.StoreAcrossRotation` | src/ssm.cc:314-356 | a rotation between a store's read and its insert always costs the row |
| `ManyHandles.RaceLosesRow` | src/ssm.cc:314-356 | a concrete interleaving after which a stored row does not open |
| `Migrations.SchemaDb.DbMigrate` | src/db/migrations.cc:41-90 | the loop computes the migration step of the model |
| `Migrations.SchemaDb.DbRollback` | src/db/migrations.cc:92-134 | the downward loop computes the rollback step of the model |
| `Migrations.MigrateReachesLatest` | src/db/migrations.cc:41-90 | for any contiguous chain, migrate from any level reaches the latest exactly when no step fails |
| `Migrations.MigrateFromZero` | src/db/migrations.cc:49-54 | a database without a version is first stamped 1 |
| `Migrations.RollbackLands` | src/db/migrations.cc:92-134 | rollback to a lower version of the chain lands exactly there, or fails |
| `Migrations.RollbackNeedsLower` | src/db/migrations.cc:92-98 | rollback to the present version or a higher one does nothing and answers false |
| `Migrations.RepositoryChain` | src/db/migrations.cc:8-15 | the repository's own chain by version numbers and index names, up to 3 and down to 2 and 1 |
| `Migrations.RollbackToNowhere` | src/db/migrations.cc:128-133 | for a target that is no version everything is undone and the answer is false |
| `Migrations.RollbackThenMigrate` | src/db/migrations.cc:41-134 | rolling back and migrating again restores the schema |
| `Migrations.ReachableIsSound` | src/db/migrations.cc:41-134 | in every state reached without a misread version in migrate, the version and the indexes agree, and a unique index means unique names |
| `Migrations.VersionThreeIsUnique` | src/db/migrations.cc:8-15 | at version 3 no user has two secrets of one name |
| `Migrations.MisreadVersion` | src/db/migrations.cc:17-28 | when the version read of migrate fails: version and indexes agree afterwards exactly if none of the repeated migrations fails, but for a last COMMIT that leaves its transaction open |
| `Backup.CopyInto` | src/backup/backup.cc:128-150 | copying at an offset changes that slice of the buffer only |
| `Backup.Assemble` | src/backup/backup.cc:138-143 | header, ciphertext, tag and code copied to their offsets fill the whole buffer, in that order |
| `Backup.BackupCreate` | src/backup/backup.cc:87-159 | the buffer holds header, ciphertext, tag and authentication code at their offsets |
| `Backup.BackupRestore` | src/backup/backup.cc:161-240 | the checks and slices compute the restore function |
| `Backup.ReadInvertsWrite` | src/backup/backup.cc:110-118 | the little-endian time stamp field reads back |
| `Backup.RestoreInvertsCreate` | src/backup/backup.cc:87-240 | create works exactly with a key of 32 bytes and an image; restore then returns the image, and the file is 80 bytes longer |
| `Backup.FileLayout` | src/backup/backup.cc:69-150 | the file byte by byte: magic, version 2, time, nonce, zeros, ciphertext and tag under the header, HMAC; both keys from the caller's key and their labels |
| `Backup.RestoreIsCanonical` | src/backup/backup.cc:161-240 | restore accepts a file exactly when the key has 32 bytes and the file is the container of its own header and plaintext |
| `Backup.AcceptedMeansCreated` | src/backup/backup.h:8-25 | an accepted file is what create builds exactly when its reserved bytes are zero and its image is not empty |
| `Csv.CsvEscape` | src/export/export.cc:116-130 | the printer appends the field, quoted and with quotes doubled when it has to be |
| `Csv.QuotedExactly` | src/export/export.cc:116-121 | a field is quoted exactly if it is empty or holds a comma, a quote or a line break |
| `Csv.ReadEscaped` | src/export/export.cc:116-130 | a reader after section 2 of RFC 4180 gets any field back |
| `Csv.ReadInvertsPrint` | src/export/export.cc:149-161 | any table of records is read back exactly |
| `Json.JsonEscape` | src/export/export.cc:103-114 | the printer appends the escaped text |
| `Json.ReadEscaped` | src/export/export.cc:103-114 | escaped text holds no bare closing quote and a lenient reader after section 7 of RFC 8259 gets the original; a strict one does exactly if no other control character occurs |
| `Json.ReadInvertsShow` | src/export/export.cc:132-147 | any value is read back from its text, by a strict reader exactly if its strings have no other control characters |
| `ExportData.SecretsReported` | src/export/export.cc:51-76 | a line is reported exactly for a secret joined to its owner, and shows its columns |
| `ExportData.SecretsJoined` | src/export/export.cc:51-76 | each joined pair gives one line, user by user, a user's in the order of the names |
| `ExportData.KeksReported` | src/export/export.cc:78-96 | a line is reported exactly for a KEK joined to its user, and shows its columns |
| `ExportData.KeksJoined` | src/export/export.cc:78-96 | each joined pair gives one line, user by user |
| `ExportData.UsersReported` | src/export/export.cc:33-49 | line n shows the name and creation time of user n |
| `ExportData.TablesReported` | src/export/export.cc:33-96 | the three together report the tables |
| `ExportData.RedactedShows` | src/export/export.cc:132-243 | redaction names user n user_n, and the owners of secrets and KEKs redacted; all other columns stay |
| `ExportData.QueriesAlike` | src/export/export.cc:33-96 | the queries see private keys by length only, and their order does not depend on user names |
| `CsvExport.EmitCsvUsers` | src/export/export.cc:149-161 | the loop appends the header line and one record a user |
| `CsvExport.EmitCsvSecrets` | src/export/export.cc:188-208 | the loop appends the header line and one record a secret |
| `CsvExport.EmitCsvKeks` | src/export/export.cc:229-243 | the loop appends the header line and one record a KEK |
| `CsvExport.EmitCsvDocument` | src/export/export.cc:274-281 | the text is the printed form of the three sections |
| `CsvExport.CsvRoundTrip` | src/export/export.cc:274-281 | the three sections are read back row by row, in order, whatever the fields contain |
| `CsvExport.RedactedCsv` | src/export/export.cc:149-243 | the redacted text is the plain text of the document with the names replaced |
| `JsonExport.EmitJsonUsers` | src/export/export.cc:132-147 | the loop appends the array of users |
| `JsonExport.EmitJsonSecrets` | src/export/export.cc:163-186 | the loop appends the array of secrets |
| `JsonExport.EmitJsonKeks` | src/export/export.cc:210-227 | the loop appends the array of KEKs |
| `JsonExport.EmitJsonDocument` | src/export/export.cc:266-273 | the text is the printed form of one object with the three arrays |
| `JsonExport.JsonRoundTrip` | src/export/export.cc:266-273 | the three arrays are read back, in order, whatever the texts contain; by a strict reader exactly if no text has a control character that is left unescaped |
| `JsonExport.RedactedJson` | src/export/export.cc:132-227 | the redacted text is the plain text of the document with the names replaced |
| `Export.ExportMetadata` | src/export/export.cc:247-285 | OK and the printed form of the rows that the statements delivered, or INTERNAL and no text when one is not prepared |
| `Export.ExportRoundTrip` | src/export/export.cc:247-285 | an unredacted export in either format is read back as the report of the three tables, row by row, as far as each statement delivered it; nothing is missing exactly when no statement ended early |
| `Export.RedactedRoundTrip` | src/export/export.cc:247-285 | a redacted export is read back as the rows collected with the names replaced |
| `Export.RedactionHides` | src/export/export.cc:247-285 | databases that differ only in user names and private-key bytes have the same redacted export, also one that is cut short |
| `Audit.AuditLog.Write` | src/db/audit_log.cc:9-56 | appends one entry with the next id, or changes nothing |
| `Audit.AuditLog.Query` | src/db/audit_log.cc:58-118 | the loop returns the requested page of the matching entries, newest first, as far as the statement delivers it |
| `Audit.AuditLog.AuditLogQuery` | src/ssm.cc:517-538 | the limit defaults to 100 and the offset to 0 |
| `Audit.AuditLog.Prune` | src/db/audit_log.cc:120-139 | deletes the entries before the cutoff and keeps the rest in order; nothing for days below 1 |
| `Audit.MatchingIsTheAnswer` | src/db/audit_log.cc:67-78 | there is one list of all matching rows in strictly decreasing id order, and the query pages through it |
| `Audit.ReplyShows` | src/ssm.cc:517-538 | a page shows the columns of the wanted rows, newest first from the offset on, 100 of them unless the caller says otherwise, fewer only at the end |
| `Audit.JustWritten` | src/db/audit_log.cc:9-118 | an entry just written comes first in a query for it, with the values written |
| `Audit.PagesAreAPrefix` | src/db/audit_log.cc:78-118 | the first pages together are a prefix of that list, or too few entries exactly when one was cut short |
| `Audit.PagesCoverTheLog` | src/ssm.cc:517-538 | enough consecutive pages give every matching entry without gap or repeat exactly when no page was cut short |
| `Audit.WriteShiftsPages` | src/ssm.cc:517-538 | a matching write moves every later page by exactly one entry |
| `Audit.PruneIsExact` | src/db/audit_log.cc:120-139 | an entry is removed exactly when it is older than the given number of days |
| `Audit.PruneKeepsASuffix` | src/db/audit_log.cc:120-139 | under a clock that does not go back, what remains is a suffix of the log |
| `Audit.PruneKeepsNewPages` | src/db/audit_log.cc:120-139 | dropping the oldest entries leaves the newest pages as they were |
| `Hex.HexEncode` | cli/hex_utils.h:53-62 | the loop writes two lower-case digits a byte |
| `Hex.HexDecodeInto` | cli/hex_utils.h:18-34 | the buffer overload: accepts exactly nonempty even texts of digits that fit, and reports the length |
| `Hex.HexDecode` | cli/hex_utils.h:36-51 | the vector overload: the same texts; a bad digit clears the vector |
| `Hex.HexDecodesExactly` | cli/hex_utils.h:8-62 | a text decodes to some bytes exactly when it is their encoding up to letter case |
| `Hex.HexRoundTrip` | cli/hex_utils.h:18-62 | decoding inverts encoding; only the empty text is refused |
| `Base64.Base64Encode` | cli/ssm_cli.cc:836-850 | the loop stepping by three writes the encoding with its padding |
| `Base64.EncodedLength` | cli/ssm_cli.cc:838 | the text has the length that was reserved |
| `Base64.Base64Exact` | cli/ssm_cli.cc:836-850 | a strict decoder for section 4 of RFC 4648 accepts exactly the encodings and returns what was encoded |
| `SecureMemory.Memory.Alloc` | src/utils/secure_memory.cc:15-26 | a new zeroed block, or none |
| `SecureMemory.SecureVector.constructor` | src/utils/secure_memory.h:109-120 | a zeroed block of the count, or no block |
| `SecureMemory.NewContainer` | src/utils/secure_memory.h:109-120 | a new container has a new zeroed block exactly when it is not empty, its bytes do not overflow and the allocation succeeds; other blocks are untouched |
| `SecureMemory.SecureVector.Move` | src/utils/secure_memory.h:125-128 | the block changes hands and the source is left without one |
| `SecureMemory.SecureVector.Assign` | src/utils/secure_memory.h:130-139 | the old block is released, then the block changes hands; assigning to itself does nothing |
| `SecureMemory.SecureVector.CopyPrefix` | src/utils/secure_memory.h:162-166 | the loop copies the common prefix and the rest stays zero |
| `SecureMemory.SecureVector.ResizeTo` | src/utils/secure_memory.h:156-170 | the common prefix, then zeros, in a new block; the old one zeroed and released |
| `SecureMemory.SecureVector.Clear` | src/utils/secure_memory.h:172-181 | the block is zeroed and then freed once |
| `SecureMemory.PerformSound` | src/utils/secure_memory.h:30-181 | every operation keeps one owner a block, no leak, and freed blocks zeroed |
| `SecureMemory.EveryScopeSound` | src/utils/secure_memory.h:30-181 | so does every sequence of operations |
| `SecureMemory.NothingLeaks` | src/utils/secure_memory.h:79-92 | when all containers are gone every block has been zeroed and freed |
| `SecureMemory.FreedOnce` | src/utils/secure_memory.h:79-92 | no operation frees or revives a freed block |
| `SecureMemory.ResizeKeepsContents` | src/utils/secure_memory.h:156-170 | resize keeps the common prefix, zero-fills, and leaves every other container's contents |

## Left out

- AES, GCM, Argon2id, HMAC, SHA-256 and random numbers: ideal functions and fresh values given by the environment.
- Lengths of hashes, keys, salts and nonces, and the guards on them in `src/crypto`: these byte strings are opaque tokens.
- Opening and closing a handle, which migrates and prunes, and the default password policy: the policy is a parameter.
- SQLite's SQL parsing, WAL, locks and SQLCipher keying; a busy or failing BEGIN or COMMIT outside the migrations.
- Null-pointer arguments of the public calls, which all answer INTERNAL first.
- Two readings of the clock inside one call: one call reads it once.
- strptime's tolerance of spaces and short fields: the parser of the model has fixed widths, as the printer does, and the program parses only what it printed.
- The order of rows without ORDER BY: the environment gives it, as it gives a scan that ends early.
- The details text of audit entries in the engine; `Audit` keeps the column.
- File reading and writing, temporary files and renaming around backup and restore, and the validation of the restored file: a restore replaces the tables and keeps the cache.
- Integers are unbounded: row ids, versions and counters do not overflow 64 bits. Only the size guard of the secure containers is modelled with its bound.
- JSON numbers other than integers: the reader accepts integers only, which is all the exporter prints.
- Texts with NUL characters, which C strings cannot hold.
- Runs.RunRefines: asks that rotations that commit were delivered every row, because with a short scan the property is false; the exact condition for one rotation is `Rotation.RotationOutcome`. `Runs.UserRefines` asks it for one user only.
- Runs.StoredSecretSurvives: asks the same of the rotations of the stored secret's user, for the same reason.
- Recency.ResidentExactly: asks that no two accesses have the same time, because among those of one second the slots decide; `Recency.LruGuarantee` does not ask it.
- CacheRuns.HandleLru: asks that the clock does not go back, because otherwise a key may find no slot; the exact condition for one call is `CacheRuns.KeyIsKept`.
- CacheRuns.HandleResidents: asks the same of two calls; `CacheRuns.HandleLru` does not.
- Writes.NoncesNeverRepeat: asks that the random generator does not repeat a nonce, which is not the program's doing.
- ManyHandles.InterleavingsStaySafe: asks that a store inserts while the KEK it read is still stored and that rotations are delivered every row, because otherwise the property is false; the exact conditions are `ManyHandles.StoreCommitsExactly` and `Rotation.RotationOutcome`.
- Migrations.ReachableIsSound: excludes runs in which migrate misreads the version, because there the property is false; `Migrations.MisreadVersion` gives the exact condition.
- SecureMemory.SecureVector.ResizeTo: models a successful allocation, since the code writes through the new pointer without checking it.
- Memory locking, erasure outside the containers, path checks, API keys, and timing.
- The terminal interface, command dispatch, configuration, HTTP server and language bindings.
