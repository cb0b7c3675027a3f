# Site and user data model of the contest web site

This project models the identity layer of a small programming-contest web
site. The site keeps its data in a Redis key-value database. The model covers two parts:

- **`User`** (`dbuser.py`). A user is a hash `u/<uid>` holding five fields:
  - username `u`, email `e`, real name `r`, password hash `p`, level `l`.
  
  Two index hashes map names to uids: `site/usernames` maps username → uid and `site/emails` maps email → uid. Users can be:
  - created empty under a fresh uid;
  - loaded by uid, by username or by email;
  - renamed, or given an email, through first-writer-wins claims on the two indexes;
  - edited and persisted, moved to another level, removed;
  - listed and counted, optionally filtered by level.
- **`Site`** (`dbsite.py`). Starting the site makes sure the site-name key
  `s/n` exists. When it is missing, the whole database is flushed and the default name `HSCPC` is written. Either way the name is then read back.

The database connection class `DB` of `dbtools.py` becomes the `KeyValue.Store` class. It has:
- a string map (`GET`/`SET`);
- a hash map (`HGET`/`HSET`/`HDEL`/`HEXISTS`/`HGETALL`);
- `DEL`, `EXISTS`, a `KEYS prefix*` scan and `FLUSHDB`;
- a fresh-id oracle in place of `uuid.uuid1()`.

The layout of user data is a set of pure functions in `UserRecords`:
- `Persist` — what `_updateuser` writes;
- `Claim` — the first-writer-wins index insert;
- `DropIndexEntries` and `Removed` — what `remove` leaves behind;
- `Lookup` — what constructing a `User` by lookup yields.

The methods of `Users.User` are proved against these functions. The lemmas beside them prove:
- the store/load round trips;
- the effects of `remove`;
- the counting behind `getusers`;
- that every operation keeps the layout invariant `WellFormed`: every `u/` key holds a complete record, and no string key lies under `u/`.

Modules:
- `Wrappers` (`wrappers.dfy`): `Option`, `Result` and `Outcome`.
- `KeyValue` (`keyvalue.dfy`): stored values and hash-map operations, plus the `Store` class.
- `UserRecords` (`records.dfy`): the key layout, record encoding, and the specification functions and lemmas for users.
- `Users` (`users.dfy`): the `User` class.
- `Sites` (`sites.dfy`): the `Site` class and the specification of `start`.

Python conventions and how they are rendered:
- A missing value (`None` from `HGET` on an absent field) is the empty string. Both are false in a condition.
- The `KeyError` that `_loaduser` raises on an incomplete record is `Failure(MissingRecord)`.
- The `AttributeError` raised when `_updateuser` or `remove` reach `self.key` on an object that never got a uid is `Fail(NoRecordKey)`. Index writes made before that point still happen, as in the original.
- The range `assert` of `setlevel` is `Fail(LevelOutOfRange)`, with nothing changed.
- `levelstring` on a level outside its table (a `KeyError`) is `None`.

## Model

| member | source | states |
|---|---|---|
| KeyValue.Store.constructor | dbtools.py:14-17 | a new database holds no key of either kind and has handed out no id |
| KeyValue.Store.Exists | dbsite.py:50 | `EXISTS` of a missing key: `GET` gives nothing and the key has no hash fields |
| KeyValue.Store.Get | dbsite.py:57 | `GET` yields a value exactly when the key holds a string |
| KeyValue.Store.Set | dbsite.py:54 | `SET` makes `GET` return the value; the key no longer holds a hash, and no other key changes |
| KeyValue.Store.HGet | dbuser.py:82-84 | `HGET` yields a value exactly when `HEXISTS` holds for that field |
| KeyValue.Store.HExists | dbuser.py:153-157 | a field exists only in a hash key that exists |
| KeyValue.Store.HGetAll | dbuser.py:185 | `HGETALL` holds exactly the fields `HEXISTS` reports, each with the value `HGET` gives |
| KeyValue.Store.HSet | dbuser.py:174-178 | the hashes become `PutField` of the old ones, so `HGET` then returns the value written |
| KeyValue.Store.HDel | dbuser.py:147-149 | the hashes become `DropField` of the old ones, so the field no longer exists |
| KeyValue.Store.Delete | dbuser.py:150 | `DEL` removes the key from both maps, so it no longer exists; no other key changes |
| KeyValue.Store.Reset | dbtools.py:28-32 | flushing leaves no string key and no hash key |
| KeyValue.Longest | dbtools.py:34-38 | the length found bounds every string of the set and is reached by one of them (0 for the empty set); it stands for the uuid generator |
| KeyValue.Store.UniqueId | dbtools.py:34-38 | the id is non-empty, was never handed out before (the generator's memory survives a flush), and is longer than every key present, so `u/<id>` does not exist yet |
| KeyValue.Store.Keys | dbuser.py:61-63 | the `KEYS prefix*` scan returns exactly the keys of either kind under the prefix, each once |
| KeyValue.DropField | dbuser.py:145-149 | `HDEL` removes the field and leaves every other field and key alone; the hash key disappears when its last field goes, and deleting a missing field is harmless |
| KeyValue.PutField | dbuser.py:174-178 | `HSET` sets the field, creating the hash when needed, and leaves every other field and key alone |
| UserRecords.UserKey | dbuser.py:159-160 | the record key is `u/` followed by the uid, which can be read back from it |
| UserRecords.UserIdOf | dbuser.py:50 | stripping `u/` from a record key gives the uid whose record key it is |
| UserRecords.EncodeRecord | dbuser.py:170-178 | the record holds exactly the five fields, and decoding it gives back the profile |
| UserRecords.DecodeRecord | dbuser.py:185-190 | a decoded record has all five fields, four as text and the level as a number, each equal to the decoded attribute; a missing field gives no profile (the `KeyError`) |
| UserRecords.DecodedFieldsMatch | dbuser.py:181-190 | a record that decodes agrees on all five fields with the encoding of what it decodes to |
| UserRecords.Persist | dbuser.py:170-178 | after persisting, the record of the uid decodes to the profile, and every other key is unchanged |
| UserRecords.FieldWritesPersist | dbuser.py:174-178 | the five `HSET`s in a row are exactly `Persist`, whatever the record held before |
| UserRecords.Claim | dbuser.py:114-120 | first writer wins: a name already in the index changes nothing; otherwise the index gains name → uid; no other entry and no other key changes |
| UserRecords.ClaimIfGiven | dbuser.py:93-96 | a name passed as a keyword argument is claimed: a winning claim maps it to the uid; a name not given, or already held, changes nothing; no other entry and no other key changes |
| UserRecords.Wins | dbuser.py:116-117 | a claim wins exactly when a name is given and the index has no entry for it |
| UserRecords.Edited | dbuser.py:92-101 | the level stays; the username or email changes only when its claim wins; a real name or password hash not given stays |
| UserRecords.ClaimThenIndexEntry | dbuser.py:116-117 | after a winning claim the index names the claimant |
| UserRecords.DropIndexEntries | dbuser.py:145-149 | the entries of a non-empty username and a non-empty email are gone; an empty name is skipped; every other entry and key is unchanged |
| UserRecords.Removed | dbuser.py:141-150 | after `remove` the record key is gone along with the two index entries, and every other key and entry is unchanged |
| UserRecords.IndexEntry | dbuser.py:81-84 | the uid an index entry names, as `HGET` reads it; a missing entry (Python's `None`) reads as no uid |
| UserRecords.Lookup | dbuser.py:80-89 | with no uid found, the names as given, level PENDING, not valid; with a uid, the profile is what its record decodes to and validity is a non-empty stored username; an incomplete record fails with `MissingRecord`; a lookup by uid keeps that uid |
| UserRecords.LoadByIdAfterPersist | dbuser.py:79-89 | loading by uid after persisting yields the persisted profile, valid exactly when its username is non-empty |
| UserRecords.LoadByUsernameAfterPersist | dbuser.py:80-89 | loading by a username whose index entry names the uid yields the persisted profile, valid |
| UserRecords.LoadByEmailAfterPersist | dbuser.py:83-89 | loading by an email whose index entry names the uid yields the persisted profile |
| UserRecords.LookupWithoutEntry | dbuser.py:80-85 | a name the index lacks reads no record: no uid, names as given, level PENDING, not valid |
| UserRecords.LookupThroughUsernameIndex | dbuser.py:81-89 | a lookup by username loads the record the index names, and validity follows the username stored in that record, not the name looked up |
| UserRecords.LoadListedKey | dbuser.py:50-51 | in a well-formed store every record key names a non-empty uid whose record loads |
| UserRecords.AtLevel | dbuser.py:52-53 | LEVEL_ANY keeps every record; any other level keeps only a complete record at that level |
| UserRecords.Listed | dbuser.py:49-53 | a listed key is a record key the store holds, and for a level other than LEVEL_ANY its record decodes to that level |
| UserRecords.FilterKeys | dbuser.py:52-53 | filtering the first `n` keys of a scan keeps at most `n` of them |
| UserRecords.FilterKeysStep | dbuser.py:52-53 | one more scanned key is appended to the filtered keys exactly when it is listed |
| UserRecords.FilterKeysMembers | dbuser.py:52-53 | the filtered keys are exactly the listed keys among those scanned |
| UserRecords.FilterKeysDistinct | dbuser.py:52-53 | filtering a scan without repeats gives keys without repeats |
| UserRecords.DistinctCardinality | dbuser.py:56-59 | a list without repeats has as many entries as the set of its entries |
| UserRecords.FilteredKeys | dbuser.py:52-53 | filtering a scan without repeats keeps each listed key once and only listed keys, so the count of kept users is the count of listed keys |
| UserRecords.CompleteScanListing | dbuser.py:49-53 | a scan holding every record key lists exactly the records at the requested level |
| UserRecords.CompleteScanFiltered | dbuser.py:49-53 | filtering a complete scan without repeats yields each listed record key exactly once, and nothing else |
| UserRecords.LoadAfterRemove | dbuser.py:141-150 | after `remove`, looking up the old username or email finds no uid and gives an invalid user |
| UserRecords.StaleUsernameAfterRemove | dbuser.py:141-150 | an index entry `remove` does not clean (a name held before a rename) still names the removed uid, and looking it up fails for want of a record |
| UserRecords.EmptyUsernameSurvivesRemove | dbuser.py:146-147 | an empty username in the index survives `remove` |
| UserRecords.PersistKeepsWellFormed | dbuser.py:170-178 | persisting under a non-empty uid keeps the layout well formed |
| UserRecords.ClaimKeepsWellFormed | dbuser.py:114-130 | claiming a name in an index keeps the layout well formed |
| UserRecords.DropIndexEntriesKeepsWellFormed | dbuser.py:145-149 | dropping index entries keeps the layout well formed |
| UserRecords.RemovedKeepsWellFormed | dbuser.py:141-150 | removing a user keeps the layout well formed |
| UserRecords.RecordKeysAreNotIndexKeys | dbuser.py:18-28 | no record key is one of the two index keys |
| UserRecords.IndexKeysAreNotUserKeys | dbuser.py:18-28 | neither index key lies under `u/` |
| Users.User.constructor | dbuser.py:65-72 | a new object has the given uid, username and email, no real name or password hash, level PENDING, and is not valid |
| Users.User.Open | dbuser.py:65-89 | with no username, uid or email, a new empty user is created under a uid never handed out before, which is then recorded as issued, and whose key existed as neither a hash nor a string; otherwise the result is a new object holding exactly `Lookup` on the store, which is left unchanged |
| Users.User.CreateThenReload | dbuser.py:207-213 | a user created empty and then constructed again by its uid are two different objects with the same uid and the same state: no names, level PENDING, not valid |
| Users.User.CreateRemoveCreate | dbuser.py:74-78 | ids are never reused: a user created after an earlier user was removed gets a different uid, and the removed user's record stays gone |
| Users.User.CreateEmpty | dbuser.py:74-78 | the creation path: a uid never handed out before and recorded as issued, whose key existed as neither a hash nor a string; the record has empty names and level PENDING, the object is not valid, and the layout stays well formed |
| Users.User.Load | dbuser.py:79-89 | the lookup path returns a new object that agrees with `Lookup`: the uid comes from the username index, else the email index, else the argument; an incomplete record fails |
| Users.User.CreateUser | dbuser.py:162-168 | names and password hash are cleared, the level is kept, and the record is persisted |
| Users.User.UpdateUser | dbuser.py:170-178 | the store becomes `Persist` of the object's five attributes, keeping the layout well formed |
| Users.User.LoadUser | dbuser.py:181-190 | the object takes the decoded record when it is complete, and reports failure (changing nothing) otherwise |
| Users.User.UsernameExists | dbuser.py:153-154 | true exactly when the username index has an entry for the name |
| Users.User.EmailExists | dbuser.py:156-157 | true exactly when the email index has an entry for the address |
| Users.User.SetUsername | dbuser.py:114-120 | the index becomes `Claim` of the name; the object's username changes only on a winning claim; validity only ever turns on, and only for a non-empty name; the record is not written |
| Users.User.SetEmail | dbuser.py:126-130 | the email index becomes `Claim` of the address; the object's email changes only on a winning claim; the record is not written |
| Users.User.ClaimGiven | dbuser.py:92-96 | the given username and email are claimed in that order, with the object's fields following the winning claims |
| Users.User.SaveGiven | dbuser.py:97-101 | the real name and password hash are replaced only when given, then all five attributes are persisted, or `NoRecordKey` without a uid |
| Users.User.SetProperties | dbuser.py:92-101 | the attributes become `Edited` of the old ones, and the store becomes `Persist` of the claimed indexes; validity follows the username claim; the layout stays well formed |
| Users.User.LevelString | dbuser.py:132-133 | a name exists exactly for levels ROOT..PENDING, and PENDING reads "Pending" |
| Users.User.SetLevel | dbuser.py:135-139 | a level outside ROOT..VISITOR fails and changes nothing; otherwise the level is set and the whole record is persisted |
| Users.User.Remove | dbuser.py:141-150 | the store becomes `Removed` (or only `DropIndexEntries` when the object has no uid, which then fails) |
| Users.User.AllUserKeys | dbuser.py:61-63 | every key under `u/`, each once |
| Users.User.GetUsersCount | dbuser.py:56-59 | the count of keys under `u/`, which in a well-formed store is the number of users `getusers` returns with LEVEL_ANY |
| Users.User.LoadAtLevel | dbuser.py:51-53 | a new user object is loaded from a record key and is kept exactly when the key is listed at the requested level; a kept user is that record's user |
| Users.User.ScanKey | dbuser.py:51-53 | one step of the scan: the user of the key is appended, and the key to the filtered keys, exactly when the key is listed; every added user is a new object |
| Users.User.ScanUsers | dbuser.py:51-53 | the users kept from a scan are new objects and are, in order, those of the filtered keys |
| Users.User.GetUsers | dbuser.py:45-54 | one new user object per record at the requested level (every record for LEVEL_ANY): as many users as listed keys, distinct uids, each loaded from its record |
| Sites.HasSite | dbsite.py:49-50 | the site name key holds a value of either kind, so the store is not empty |
| Sites.Started | dbsite.py:43-54 | after `start` a site exists, and an existing site is left unchanged |
| Sites.StartedHasSite | dbsite.py:43-54 | after `start` the name key exists; a store that had none holds only the default name |
| Sites.StartIdempotent | dbsite.py:43-47 | an existing site is left as it is, so a second `start` changes nothing |
| Sites.DefaultSiteHasNoUsers | dbsite.py:52-54 | creating the default site drops every user record and both indexes |
| Sites.StartKeepsWellFormed | dbsite.py:43-54 | `start` keeps the user layout well formed |
| Sites.Site.constructor | dbsite.py:40-41 | a new site has not loaded a name |
| Sites.Site.Start | dbsite.py:43-47 | the store becomes `Started` of the old store, and the name is what the store holds at `s/n`: the default name for a fresh site, the old name otherwise |
| Sites.Site.Exists | dbsite.py:49-50 | true exactly when `s/n` holds a value of either kind |
| Sites.Site.CreateDefault | dbsite.py:52-54 | the store is flushed and then holds only `s/n` = `HSCPC` |
| Sites.Site.LoadSite | dbsite.py:56-57 | the name becomes the value at `s/n` |

## Left out

- The Flask web layer (`hscpcweb.py`) is not part of this model. It covers routes, sessions, templates and the secret-key lookup.
- The Redis connection, its environment lookup and the database number (`dbtools.py:14-26`) are replaced by one in-memory `Store` per logical database.
- `uuid.uuid1()` and the id format: the fresh-id oracle only guarantees an id that is non-empty, new and longer than every key. `KeyValue.Store.UniqueId` obtains such an id by a longest-key scan (`KeyValue.Longest`). That scan stands for the uuid generator and has no counterpart in the original.
- The werkzeug password hashing.
  - `SetProperties` and `SaveGiven` take the password hash itself where the original takes a password and hashes it.
  - `checkpassword` (dbuser.py:104-108) is not modelled, because it only calls the library.
- The public `usernameexists` / `emailexists` (dbuser.py:110-112, 122-124): they only open a connection and call the private checks, which are modelled.
- Concurrency: the model is sequential, and multi-key sequences are not atomic in the original either.
- Redis value typing.
  - The level is stored as a number rather than a string parsed back with `int()`.
  - Commands on a key of the wrong kind (the original's `WRONGTYPE` errors) are not modelled. A key may exist in both maps.
  - A `None` uid written by `setusername` / `setemail` on an object from a failed lookup is written as the empty string.
- The unused key constants (`site/adminuids`, `site/coachuids`, `site/contestantuids`, `site/contests`) and the layout notes in the `Site` doc comment.
- The unit-test classes of both files.
- Users.User.GetUsers: requires a well-formed store. Two cases are therefore not modelled:
  - a key that is exactly `u/` (the original would then create a new user while listing);
  - an incomplete record (the original would raise `KeyError`).
- Users.User.SetProperties: does not itself state the reload round trip. That is `UserRecords.LoadByIdAfterPersist` applied to the store it ensures.
