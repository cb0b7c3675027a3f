/**
 * A site user (the `User` class): created empty or loaded by uid, username
 * or email; its username and email claimed through the first-writer-wins
 * indexes; its attributes persisted to `u/<uid>`; removed; and listed.
 */
module Users {
  import opened Wrappers
  import opened KeyValue
  import opened UserRecords

  const LevelStrings: map<int, string> :=
    map[LevelRoot := "ROOT", LevelAdmin := "Contest Administrator", LevelCoach := "Coach",
        LevelContestant := "Contestant", LevelVisitor := "Visitor", LevelPending := "Pending"]

  /** A user as `getusers(levelspec)` returns it: loaded from a listed record key. */
  ghost predicate ListedUser(db: Store, levelspec: int, u: User)
    reads db, u
  {
    && u.db == db
    && Listed(db.hashes, levelspec, UserKey(u.userid))
    && DecodeRecord(FieldsOf(db.hashes, UserKey(u.userid))) == Some(u.Attributes())
    && u.isvalid == (u.username != "")
  }

  class User {
    const db: Store
    var isvalid: bool
    var userid: string
    var username: string
    var email: string
    var realname: string
    var passwordhash: string
    var level: int

    /** The five attributes the object holds, as they would be persisted. */
    function Attributes(): Profile
      reads this`username, this`email, this`realname, this`passwordhash, this`level
    {
      Profile(username, email, realname, passwordhash, level)
    }

    /** What a caller observes of the object. */
    function State(): Loaded
      reads this
    {
      Loaded(userid, Attributes(), isvalid)
    }

    /** The defaults every new object starts from, with the lookup arguments as given. */
    constructor (db: Store, username: string, userid: string, email: string)
      ensures this.db == db
      ensures State() == Loaded(userid, Profile(username, email, "", "", LevelPending), false)
    {
      this.db := db;
      isvalid := false;
      this.username := username;
      this.userid := userid;
      this.email := email;
      realname := "";
      passwordhash := "";
      level := LevelPending;
    }

    /**
     * Constructing a user: with no username, userid or email a new empty user
     * is created under a fresh uid; otherwise the user is looked up.
     */
    static method Open(db: Store, username: string, userid: string, email: string) returns (r: Result<User, Error>)
      modifies db`hashes, db`issued
      ensures username == "" && userid == "" && email == "" ==>
                && r.Success? && fresh(r.value) && r.value.db == db
                && r.value.userid != "" && r.value.userid !in old(db.issued)
                && db.issued == old(db.issued) + {r.value.userid}
                && UserKey(r.value.userid) !in old(db.hashes) && UserKey(r.value.userid) !in db.strings
                && r.value.State() == Loaded(r.value.userid, EmptyProfile, false)
                && db.hashes == Persist(old(db.hashes), r.value.userid, EmptyProfile)
      ensures username != "" || userid != "" || email != "" ==>
                && db.hashes == old(db.hashes) && db.issued == old(db.issued)
                && (r.Success? <==> Lookup(db.hashes, username, userid, email).Success?)
                && (r.Success? ==> fresh(r.value) && r.value.db == db
                                   && r.value.State() == Lookup(db.hashes, username, userid, email).value)
                && (r.Failure? ==> r.error == Lookup(db.hashes, username, userid, email).error)
      ensures WellFormed(db.strings, old(db.hashes)) ==> WellFormed(db.strings, db.hashes)
    {
      if !(username != "" || userid != "" || email != "") {
        var u := CreateEmpty(db);
        r := Success(u);
      } else {
        r := Load(db, username, userid, email);
      }
    }

    /**
     * A new user reloaded by its uid is a different object holding the same
     * state: no names, level PENDING, not valid.
     */
    static method CreateThenReload(db: Store) returns (s: User, s2: User)
      modifies db`hashes, db`issued
      ensures s != s2 && s.userid != ""
      ensures s2.State() == s.State() == Loaded(s.userid, EmptyProfile, false)
    {
      var r := Open(db, "", "", "");
      s := r.value;
      LoadByIdAfterPersist(old(db.hashes), s.userid, EmptyProfile);
      var r2 := Open(db, "", s.userid, "");
      s2 := r2.value;
    }

    /**
     * Ids are never reused: a user created after an earlier one was removed
     * gets a different uid.
     */
    static method CreateRemoveCreate(db: Store) returns (s1: User, s2: User)
      modifies db`strings, db`hashes, db`issued
      ensures s1.userid != "" && s2.userid != "" && s1.userid != s2.userid
      ensures UserKey(s1.userid) !in db.hashes
    {
      var r1 := Open(db, "", "", "");
      s1 := r1.value;
      var removed := s1.Remove();
      var r2 := Open(db, "", "", "");
      s2 := r2.value;
    }

    /** The creation path: a fresh uid and a record with no names, no password and level PENDING. */
    static method CreateEmpty(db: Store) returns (u: User)
      modifies db`hashes, db`issued
      ensures fresh(u) && u.db == db
      ensures u.userid != "" && u.userid !in old(db.issued) && db.issued == old(db.issued) + {u.userid}
      ensures UserKey(u.userid) !in old(db.hashes) && UserKey(u.userid) !in db.strings
      ensures u.State() == Loaded(u.userid, EmptyProfile, false)
      ensures db.hashes == Persist(old(db.hashes), u.userid, EmptyProfile)
      ensures WellFormed(db.strings, old(db.hashes)) ==> WellFormed(db.strings, db.hashes)
    {
      u := new User(db, "", "", "");
      var id := db.UniqueId();
      u.userid := id;
      u.CreateUser();
    }

    /** The lookup path: resolve the uid through an index or take it as given, then load the record. */
    static method Load(db: Store, username: string, userid: string, email: string) returns (r: Result<User, Error>)
      requires username != "" || userid != "" || email != ""
      ensures r.Success? <==> Lookup(db.hashes, username, userid, email).Success?
      ensures r.Success? ==> fresh(r.value) && r.value.db == db
                             && r.value.State() == Lookup(db.hashes, username, userid, email).value
      ensures r.Failure? ==> r.error == Lookup(db.hashes, username, userid, email).error
    {
      var u := new User(db, username, userid, email);
      if username != "" {
        u.userid := IndexEntry(db.hashes, UsernamesKey, username);
      } else if email != "" {
        u.userid := IndexEntry(db.hashes, EmailsKey, email);
      }
      if u.userid != "" {
        var ok := u.LoadUser();
        if !ok {
          return Failure(MissingRecord);
        }
        if u.username != "" {
          u.isvalid := true;
        }
      }
      r := Success(u);
    }

    /** `_createuser`: clears the names and the password and persists the record. */
    method CreateUser()
      requires userid != ""
      modifies this`username, this`email, this`realname, this`passwordhash, db`hashes
      ensures Attributes() == Profile("", "", "", "", old(level))
      ensures db.hashes == Persist(old(db.hashes), userid, Attributes())
      ensures WellFormed(db.strings, old(db.hashes)) ==> WellFormed(db.strings, db.hashes)
    {
      username, email, realname, passwordhash := "", "", "", "";
      UpdateUser();
    }

    /**
     * `_updateuser`: writes all five attributes into the record hash `u/<uid>`
     * (`LoadByIdAfterPersist` shows loading the uid then gives them back).
     */
    method UpdateUser()
      requires userid != ""
      modifies db`hashes
      ensures db.hashes == Persist(old(db.hashes), userid, Attributes())
      ensures WellFormed(db.strings, old(db.hashes)) ==> WellFormed(db.strings, db.hashes)
    {
      var key := UserKey(userid);
      if WellFormed(db.strings, db.hashes) {
        PersistKeepsWellFormed(db.strings, db.hashes, userid, Attributes());
      }
      FieldWritesPersist(db.hashes, userid, Attributes());
      db.HSet(key, UsernameField, Text(username));
      db.HSet(key, EmailField, Text(email));
      db.HSet(key, RealnameField, Text(realname));
      db.HSet(key, PasswordHashField, Text(passwordhash));
      db.HSet(key, LevelField, Number(level));
    }

    /** `_loaduser`: reads the five attributes back, failing when the record is incomplete. */
    method LoadUser() returns (ok: bool)
      requires userid != ""
      modifies this`username, this`email, this`realname, this`passwordhash, this`level
      ensures ok == DecodeRecord(FieldsOf(db.hashes, UserKey(userid))).Some?
      ensures ok ==> Attributes() == DecodeRecord(FieldsOf(db.hashes, UserKey(userid))).value
      ensures !ok ==> Attributes() == old(Attributes())
    {
      var data := db.HGetAll(UserKey(userid));
      match DecodeRecord(data) {
        case None =>
          ok := false;
        case Some(p) =>
          ok := true;
          username := p.username;
          email := p.email;
          passwordhash := p.passwordhash;
          realname := p.realname;
          level := p.level;
      }
    }

    /** `_usernameexists`: whether the username index already holds the name (HEXISTS on that index). */
    predicate UsernameExists(name: string)
      reads db`hashes
      ensures UsernameExists(name) <==> db.HGet(UsernamesKey, name).Some?
    {
      db.HExists(UsernamesKey, name)
    }

    /** `_emailexists`: whether the email index already holds the address (HEXISTS on that index). */
    predicate EmailExists(address: string)
      reads db`hashes
      ensures EmailExists(address) <==> db.HGet(EmailsKey, address).Some?
    {
      db.HExists(EmailsKey, address)
    }

    /**
     * `setusername`: claims the name in the username index; only a successful
     * claim changes the object, and a non-empty name makes it valid.
     */
    method SetUsername(name: string)
      modifies this`username, this`isvalid, db`hashes
      ensures db.hashes == Claim(old(db.hashes), UsernamesKey, name, userid)
      ensures username == (if name in FieldsOf(old(db.hashes), UsernamesKey) then old(username) else name)
      ensures isvalid == (old(isvalid) || (name !in FieldsOf(old(db.hashes), UsernamesKey) && name != ""))
      ensures WellFormed(db.strings, old(db.hashes)) ==> WellFormed(db.strings, db.hashes)
    {
      IndexKeysAreNotUserKeys();
      if WellFormed(db.strings, db.hashes) {
        ClaimKeepsWellFormed(db.strings, db.hashes, UsernamesKey, name, userid);
      }
      if !UsernameExists(name) {
        db.HSet(UsernamesKey, name, Text(userid));
        username := name;
        if username != "" {
          isvalid := true;
        }
      }
    }

    /** `setemail`: claims the address in the email index; only a successful claim changes the object. */
    method SetEmail(address: string)
      modifies this`email, db`hashes
      ensures db.hashes == Claim(old(db.hashes), EmailsKey, address, userid)
      ensures email == (if address in FieldsOf(old(db.hashes), EmailsKey) then old(email) else address)
      ensures WellFormed(db.strings, old(db.hashes)) ==> WellFormed(db.strings, db.hashes)
    {
      IndexKeysAreNotUserKeys();
      if WellFormed(db.strings, db.hashes) {
        ClaimKeepsWellFormed(db.strings, db.hashes, EmailsKey, address, userid);
      }
      if !EmailExists(address) {
        db.HSet(EmailsKey, address, Text(userid));
        email := address;
      }
    }

    /** The first half of `setproperties`: claims the username and the email that are given. */
    method ClaimGiven(newUsername: Option<string>, newEmail: Option<string>)
      modifies this`username, this`email, this`isvalid, db`hashes
      ensures username == (if Wins(old(db.hashes), UsernamesKey, newUsername) then newUsername.value else old(username))
      ensures email == (if Wins(old(db.hashes), EmailsKey, newEmail) then newEmail.value else old(email))
      ensures isvalid == (old(isvalid) || (Wins(old(db.hashes), UsernamesKey, newUsername) && newUsername.value != ""))
      ensures db.hashes == ClaimIfGiven(ClaimIfGiven(old(db.hashes), UsernamesKey, newUsername, userid),
                                        EmailsKey, newEmail, userid)
      ensures WellFormed(db.strings, old(db.hashes)) ==> WellFormed(db.strings, db.hashes)
    {
      ghost var h0 := db.hashes;
      if newUsername.Some? {
        SetUsername(newUsername.value);
      }
      ghost var h1 := db.hashes;
      assert FieldsOf(h1, EmailsKey) == FieldsOf(h0, EmailsKey);
      if newEmail.Some? {
        SetEmail(newEmail.value);
      }
    }

    /**
     * `setproperties`: claims the given username and email, takes the given
     * real name and password hash, and persists all five attributes.
     */
    method SetProperties(newUsername: Option<string>, newEmail: Option<string>,
                         newRealname: Option<string>, newPasswordHash: Option<string>)
      returns (r: Outcome<Error>)
      modifies this`username, this`email, this`isvalid, this`realname, this`passwordhash, db`hashes
      ensures r == (if userid == "" then Fail(NoRecordKey) else Pass)
      ensures Attributes() == Edited(old(Attributes()), old(db.hashes), newUsername, newEmail, newRealname, newPasswordHash)
      ensures isvalid == (old(isvalid) || (Wins(old(db.hashes), UsernamesKey, newUsername) && newUsername.value != ""))
      ensures var claimed := ClaimIfGiven(ClaimIfGiven(old(db.hashes), UsernamesKey, newUsername, userid),
                                          EmailsKey, newEmail, userid);
              db.hashes == if r.Pass? then Persist(claimed, userid, Attributes()) else claimed
      ensures WellFormed(db.strings, old(db.hashes)) ==> WellFormed(db.strings, db.hashes)
    {
      ClaimGiven(newUsername, newEmail);
      r := SaveGiven(newRealname, newPasswordHash);
    }

    /** The second half of `setproperties`: takes the given real name and password hash and persists. */
    method SaveGiven(newRealname: Option<string>, newPasswordHash: Option<string>) returns (r: Outcome<Error>)
      modifies this`realname, this`passwordhash, db`hashes
      ensures r == (if userid == "" then Fail(NoRecordKey) else Pass)
      ensures Attributes() == old(Attributes()).(realname := if newRealname.Some? then newRealname.value else old(realname),
                                                 passwordhash := if newPasswordHash.Some? then newPasswordHash.value else old(passwordhash))
      ensures db.hashes == if r.Pass? then Persist(old(db.hashes), userid, Attributes()) else old(db.hashes)
      ensures WellFormed(db.strings, old(db.hashes)) ==> WellFormed(db.strings, db.hashes)
    {
      realname := if newRealname.Some? then newRealname.value else realname;
      passwordhash := if newPasswordHash.Some? then newPasswordHash.value else passwordhash;
      if userid == "" {
        return Fail(NoRecordKey);
      }
      UpdateUser();
      r := Pass;
    }

    /** `levelstring`: the display name of the level, None for a level outside the table. */
    function LevelString(): (s: Option<string>)
      reads this`level
      ensures s.Some? <==> LevelRoot <= level <= LevelPending
      ensures level == LevelPending ==> s == Some("Pending")
    {
      if level in LevelStrings then Some(LevelStrings[level]) else None
    }

    /**
     * `setlevel`: a level outside ROOT..VISITOR fails the assertion and
     * changes nothing; otherwise the level is set and the record persisted.
     */
    method SetLevel(newLevel: int) returns (r: Outcome<Error>)
      modifies this`level, db`hashes
      ensures !(LevelRoot <= newLevel <= LevelVisitor) ==>
                r == Fail(LevelOutOfRange) && level == old(level) && db.hashes == old(db.hashes)
      ensures LevelRoot <= newLevel <= LevelVisitor ==>
                && level == newLevel
                && r == (if userid == "" then Fail(NoRecordKey) else Pass)
                && db.hashes == (if userid == "" then old(db.hashes) else Persist(old(db.hashes), userid, Attributes()))
      ensures WellFormed(db.strings, old(db.hashes)) ==> WellFormed(db.strings, db.hashes)
    {
      if !(LevelRoot <= newLevel <= LevelVisitor) {
        return Fail(LevelOutOfRange);
      }
      level := newLevel;
      if userid == "" {
        return Fail(NoRecordKey);
      }
      UpdateUser();
      r := Pass;
    }

    /**
     * `remove`: drops the index entries of a non-empty username and email, then
     * deletes the record key.
     */
    method Remove() returns (r: Outcome<Error>)
      modifies db`strings, db`hashes
      ensures r == (if userid == "" then Fail(NoRecordKey) else Pass)
      ensures db.hashes == if userid == "" then DropIndexEntries(old(db.hashes), username, email)
                           else Removed(old(db.hashes), username, email, userid)
      ensures db.strings == if userid == "" then old(db.strings) else old(db.strings) - {UserKey(userid)}
      ensures WellFormed(old(db.strings), old(db.hashes)) ==> WellFormed(db.strings, db.hashes)
    {
      if username != "" {
        db.HDel(UsernamesKey, username);
      }
      if email != "" {
        db.HDel(EmailsKey, email);
      }
      if WellFormed(old(db.strings), old(db.hashes)) {
        DropIndexEntriesKeepsWellFormed(old(db.strings), old(db.hashes), username, email);
        RemovedKeepsWellFormed(old(db.strings), old(db.hashes), username, email, userid);
      }
      if userid == "" {
        return Fail(NoRecordKey);
      }
      db.Delete(UserKey(userid));
      r := Pass;
    }

    /** `_getallusers`: every key under `u/`. */
    static method AllUserKeys(db: Store) returns (ks: seq<string>)
      ensures forall k :: k in ks <==> k in db.KeysWithPrefix(UserPrefix)
      ensures forall i, j :: 0 <= i < j < |ks| ==> ks[i] != ks[j]
      ensures |ks| == |db.KeysWithPrefix(UserPrefix)|
    {
      ks := db.Keys(UserPrefix);
    }

    /** `getuserscount`: the number of keys under `u/`, which is the number of users. */
    static method GetUsersCount(db: Store) returns (n: nat)
      ensures n == |db.KeysWithPrefix(UserPrefix)|
      ensures WellFormed(db.strings, db.hashes) ==> n == |ListedKeys(db.hashes, LevelAny)|
    {
      var ks := AllUserKeys(db);
      n := |ks|;
      if WellFormed(db.strings, db.hashes) {
        assert db.KeysWithPrefix(UserPrefix) == ListedKeys(db.hashes, LevelAny);
      }
    }

    /**
     * One step of `getusers`: the user stored under record key `key`, and
     * whether its level is the one asked for.
     */
    static method LoadAtLevel(db: Store, levelspec: int, key: string) returns (u: User, keep: bool)
      requires WellFormed(db.strings, db.hashes)
      requires key in db.hashes && IsUserKey(key)
      ensures fresh(u)
      ensures keep == Listed(db.hashes, levelspec, key)
      ensures keep ==> ListedUser(db, levelspec, u) && UserKey(u.userid) == key
    {
      LoadListedKey(db.strings, db.hashes, key);
      var r := Load(db, "", UserIdOf(key), "");
      u := r.value;
      keep := levelspec == LevelAny || u.level == levelspec;
    }

    /**
     * Extends a partial result of `getusers` by the user under record key `key`
     * when that user is at the level asked for.
     */
    static method ScanKey(db: Store, levelspec: int, key: string, users: seq<User>, ghost kept: seq<string>)
      returns (users': seq<User>, ghost kept': seq<string>)
      requires WellFormed(db.strings, db.hashes)
      requires key in db.hashes && IsUserKey(key)
      requires |users| == |kept|
      requires forall u :: u in users ==> ListedUser(db, levelspec, u)
      requires forall a :: 0 <= a < |users| ==> UserKey(users[a].userid) == kept[a]
      ensures kept' == kept + (if Listed(db.hashes, levelspec, key) then [key] else [])
      ensures |users'| == |kept'|
      ensures forall u :: u in users' ==> u in users || fresh(u)
      ensures forall u :: u in users' ==> ListedUser(db, levelspec, u)
      ensures forall a :: 0 <= a < |users'| ==> UserKey(users'[a].userid) == kept'[a]
    {
      var u, keep := LoadAtLevel(db, levelspec, key);
      users' := if keep then users + [u] else users;
      kept' := if keep then kept + [key] else kept;
    }

    /**
     * The list comprehensions of `getusers` over a scan `ks` of record keys:
     * one user per key, kept when its level is the one asked for.
     */
    static method ScanUsers(db: Store, levelspec: int, ks: seq<string>) returns (users: seq<User>, ghost kept: seq<string>)
      requires WellFormed(db.strings, db.hashes)
      requires forall k :: k in ks ==> k in db.hashes && IsUserKey(k)
      ensures forall u :: u in users ==> fresh(u)
      ensures kept == FilterKeys(db.hashes, levelspec, ks, |ks|)
      ensures |users| == |kept|
      ensures forall u :: u in users ==> ListedUser(db, levelspec, u)
      ensures forall a :: 0 <= a < |users| ==> UserKey(users[a].userid) == kept[a]
    {
      users, kept := [], [];
      var i := 0;
      while i < |ks|
        invariant 0 <= i <= |ks|
        invariant kept == FilterKeys(db.hashes, levelspec, ks, i)
        invariant |users| == |kept|
        invariant forall u :: u in users ==> fresh(u)
        invariant forall u :: u in users ==> ListedUser(db, levelspec, u)
        invariant forall a :: 0 <= a < |users| ==> UserKey(users[a].userid) == kept[a]
      {
        FilterKeysStep(db.hashes, levelspec, ks, i);
        users, kept := ScanKey(db, levelspec, ks[i], users, kept);
        i := i + 1;
      }
    }

    /**
     * `getusers`: loads every user under `u/` and keeps those at `levelspec`,
     * or all of them for LEVEL_ANY; one user per listed record key.
     */
    static method GetUsers(db: Store, levelspec: int) returns (users: seq<User>)
      requires WellFormed(db.strings, db.hashes)
      ensures |users| == |ListedKeys(db.hashes, levelspec)|
      ensures forall i, j :: 0 <= i < j < |users| ==> users[i].userid != users[j].userid
      ensures forall u :: u in users ==> fresh(u) && ListedUser(db, levelspec, u)
      ensures forall k :: k in ListedKeys(db.hashes, levelspec) ==> exists u :: u in users && UserKey(u.userid) == k
    {
      var ks := AllUserKeys(db);
      ghost var kept;
      users, kept := ScanUsers(db, levelspec, ks);
      forall k | k in db.hashes && IsUserKey(k) ensures k in ks {
        assert k in db.KeysWithPrefix(UserPrefix);
      }
      CompleteScanFiltered(db.hashes, levelspec, ks);
      forall k | k in ListedKeys(db.hashes, levelspec)
        ensures exists u :: u in users && UserKey(u.userid) == k
      {
        var a :| 0 <= a < |kept| && kept[a] == k;
        assert users[a] in users;
      }
    }
  }
}
