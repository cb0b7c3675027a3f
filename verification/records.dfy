/**
 * How users are laid out in the store, as pure functions over the hash keys:
 * the record hash `u/<uid>`, the two identity indexes `site/usernames` and
 * `site/emails`, and what loading, persisting and removing a user do to them.
 */
module UserRecords {
  import opened Wrappers
  import opened KeyValue

  const UserPrefix: string := "u/"
  const UsernamesKey: string := "site/usernames"
  const EmailsKey: string := "site/emails"

  const UsernameField: string := "u"
  const EmailField: string := "e"
  const RealnameField: string := "r"
  const PasswordHashField: string := "p"
  const LevelField: string := "l"

  const LevelAny: int := 0
  const LevelRoot: int := 1
  const LevelAdmin: int := 2
  const LevelCoach: int := 3
  const LevelContestant: int := 4
  const LevelVisitor: int := 5
  const LevelPending: int := 6

  /** The five attributes a user record holds. */
  datatype Profile = Profile(username: string, email: string, realname: string, passwordhash: string, level: int)

  /** What `_createuser` writes: no names, no password, level PENDING. */
  const EmptyProfile: Profile := Profile("", "", "", "", LevelPending)

  /** The observable result of constructing a user by lookup. */
  datatype Loaded = Loaded(userid: string, profile: Profile, isvalid: bool)

  datatype Error =
    | MissingRecord     // `_loaduser` found no complete record (a KeyError in the original)
    | NoRecordKey       // the object never got a record key (an AttributeError in the original)
    | LevelOutOfRange   // the range assertion of `setlevel` failed

  predicate IsUserKey(k: string)
  {
    UserPrefix <= k
  }

  /** The record key `u/<uid>`. */
  function UserKey(uid: string): (k: string)
    ensures IsUserKey(k) && |k| == |UserPrefix| + |uid| && k[|UserPrefix|..] == uid
  {
    UserPrefix + uid
  }

  /** The uid a record key names: the key with its `u/` prefix stripped. */
  function UserIdOf(k: string): (uid: string)
    requires IsUserKey(k)
    ensures UserKey(uid) == k
  {
    k[|UserPrefix|..]
  }

  /** Record keys and index keys never coincide. */
  lemma RecordKeysAreNotIndexKeys(uid: string)
    ensures UserKey(uid) != UsernamesKey && UserKey(uid) != EmailsKey
  {
    assert UserKey(uid)[0] == 'u';
  }

  /** The five fields `_updateuser` writes for a profile. */
  function EncodeRecord(p: Profile): (fields: Hash)
    ensures fields.Keys == {UsernameField, EmailField, RealnameField, PasswordHashField, LevelField}
    ensures DecodeRecord(fields) == Some(p)
  {
    map[UsernameField := Text(p.username), EmailField := Text(p.email), RealnameField := Text(p.realname),
        PasswordHashField := Text(p.passwordhash), LevelField := Number(p.level)]
  }

  /** What `_loaduser` reads back from a record hash, or None when a field is missing. */
  function DecodeRecord(fields: Hash): (r: Option<Profile>)
    ensures r.Some? ==> && UsernameField in fields && fields[UsernameField] == Text(r.value.username)
                        && EmailField in fields && fields[EmailField] == Text(r.value.email)
                        && RealnameField in fields && fields[RealnameField] == Text(r.value.realname)
                        && PasswordHashField in fields && fields[PasswordHashField] == Text(r.value.passwordhash)
                        && LevelField in fields && fields[LevelField] == Number(r.value.level)
  {
    if && UsernameField in fields && fields[UsernameField].Text?
       && EmailField in fields && fields[EmailField].Text?
       && RealnameField in fields && fields[RealnameField].Text?
       && PasswordHashField in fields && fields[PasswordHashField].Text?
       && LevelField in fields && fields[LevelField].Number?
    then Some(Profile(fields[UsernameField].text, fields[EmailField].text, fields[RealnameField].text,
                      fields[PasswordHashField].text, fields[LevelField].number))
    else None
  }

  /** A decoded record agrees, field by field, with the encoding of what it decodes to. */
  lemma DecodedFieldsMatch(fields: Hash)
    requires DecodeRecord(fields).Some?
    ensures forall f :: f in EncodeRecord(DecodeRecord(fields).value) ==>
                          f in fields && fields[f] == EncodeRecord(DecodeRecord(fields).value)[f]
  {
  }

  /** The store after `_updateuser` has written the five fields of `p` into `u/<uid>`. */
  function Persist(h: Hashes, uid: string, p: Profile): (r: Hashes)
    ensures DecodeRecord(FieldsOf(r, UserKey(uid))) == Some(p)
    ensures forall k :: k != UserKey(uid) ==> (k in r <==> k in h) && FieldsOf(r, k) == FieldsOf(h, k)
  {
    h[UserKey(uid) := FieldsOf(h, UserKey(uid)) + EncodeRecord(p)]
  }

  /** Writing the five fields one HSET at a time, as `_updateuser` does, is `Persist`. */
  lemma FieldWritesPersist(h: Hashes, uid: string, p: Profile)
    ensures var k := UserKey(uid);
            PutField(PutField(PutField(PutField(PutField(h,
              k, UsernameField, Text(p.username)), k, EmailField, Text(p.email)),
              k, RealnameField, Text(p.realname)), k, PasswordHashField, Text(p.passwordhash)),
              k, LevelField, Number(p.level))
            == Persist(h, uid, p)
  {
    var k := UserKey(uid);
    var f := FieldsOf(h, k);
    var written := f[UsernameField := Text(p.username)][EmailField := Text(p.email)][RealnameField := Text(p.realname)]
                    [PasswordHashField := Text(p.passwordhash)][LevelField := Number(p.level)];
    assert written == f + EncodeRecord(p);
  }

  /**
   * The first-writer-wins insert of `name -> uid` into the index hash at `index`,
   * as `setusername` and `setemail` do it.
   */
  function Claim(h: Hashes, index: string, name: string, uid: string): (r: Hashes)
    ensures forall n :: n in FieldsOf(h, index) ==> FieldValue(r, index, n) == FieldValue(h, index, n)
    ensures name in FieldsOf(h, index) ==> r == h
    ensures name !in FieldsOf(h, index) ==> FieldValue(r, index, name) == Some(Text(uid))
    ensures forall n :: n != name ==> FieldValue(r, index, n) == FieldValue(h, index, n)
    ensures forall k :: k != index ==> (k in r <==> k in h) && FieldsOf(r, k) == FieldsOf(h, k)
  {
    if name in FieldsOf(h, index) then h else PutField(h, index, name, Text(uid))
  }

  /** A claim that happens only when a name is given (an optional keyword argument). */
  function ClaimIfGiven(h: Hashes, index: string, name: Option<string>, uid: string): (r: Hashes)
    ensures Wins(h, index, name) ==> FieldValue(r, index, name.value) == Some(Text(uid))
    ensures !Wins(h, index, name) ==> r == h
    ensures forall n :: name.Some? && n != name.value ==> FieldValue(r, index, n) == FieldValue(h, index, n)
    ensures forall k :: k != index ==> (k in r <==> k in h) && FieldsOf(r, k) == FieldsOf(h, k)
  {
    if name.Some? then Claim(h, index, name.value, uid) else h
  }

  /**
   * The attributes after `setproperties`: a given username or email replaces the
   * old one only when it wins its claim, a given real name or password hash
   * always replaces the old one, and the level stays.
   */
  function Edited(p: Profile, h: Hashes, newUsername: Option<string>, newEmail: Option<string>,
                  newRealname: Option<string>, newPasswordHash: Option<string>): (q: Profile)
    ensures q.level == p.level
    ensures q.username != p.username ==> Wins(h, UsernamesKey, newUsername)
    ensures q.email != p.email ==> Wins(h, EmailsKey, newEmail)
    ensures newRealname.None? ==> q.realname == p.realname
    ensures newPasswordHash.None? ==> q.passwordhash == p.passwordhash
  {
    Profile(if Wins(h, UsernamesKey, newUsername) then newUsername.value else p.username,
            if Wins(h, EmailsKey, newEmail) then newEmail.value else p.email,
            if newRealname.Some? then newRealname.value else p.realname,
            if newPasswordHash.Some? then newPasswordHash.value else p.passwordhash,
            p.level)
  }

  /** Whether a given name wins its claim: it is given and the index has no entry for it. */
  predicate Wins(h: Hashes, index: string, name: Option<string>)
    ensures Wins(h, index, name) <==> name.Some? && FieldValue(h, index, name.value).None?
  {
    name.Some? && name.value !in FieldsOf(h, index)
  }

  /** The first half of `remove`: the index entries of a non-empty username and email go. */
  function DropIndexEntries(h: Hashes, username: string, email: string): (r: Hashes)
    ensures username != "" ==> FieldValue(r, UsernamesKey, username) == None
    ensures email != "" ==> FieldValue(r, EmailsKey, email) == None
    ensures forall n :: n != username || username == "" ==>
                          FieldValue(r, UsernamesKey, n) == FieldValue(h, UsernamesKey, n)
    ensures forall n :: n != email || email == "" ==> FieldValue(r, EmailsKey, n) == FieldValue(h, EmailsKey, n)
    ensures forall k :: k != UsernamesKey && k != EmailsKey ==> (k in r <==> k in h) && FieldsOf(r, k) == FieldsOf(h, k)
  {
    var h1 := if username != "" then DropField(h, UsernamesKey, username) else h;
    if email != "" then DropField(h1, EmailsKey, email) else h1
  }

  /** The store after `remove` of a user whose record key is `u/<uid>`. */
  function Removed(h: Hashes, username: string, email: string, uid: string): (r: Hashes)
    ensures UserKey(uid) !in r
    ensures username != "" ==> FieldValue(r, UsernamesKey, username) == None
    ensures email != "" ==> FieldValue(r, EmailsKey, email) == None
    ensures forall n :: n != username || username == "" ==>
                          FieldValue(r, UsernamesKey, n) == FieldValue(h, UsernamesKey, n)
    ensures forall n :: n != email || email == "" ==> FieldValue(r, EmailsKey, n) == FieldValue(h, EmailsKey, n)
    ensures forall k :: k != UsernamesKey && k != EmailsKey && k != UserKey(uid) ==>
                          (k in r <==> k in h) && FieldsOf(r, k) == FieldsOf(h, k)
  {
    RecordKeysAreNotIndexKeys(uid);
    DropIndexEntries(h, username, email) - {UserKey(uid)}
  }

  /** An index value read with HGET; a missing entry reads as "" (Python's None, equally false). */
  function IndexEntry(h: Hashes, index: string, name: string): (uid: string)
    ensures uid != "" ==> FieldValue(h, index, name) == Some(Text(uid))
    ensures FieldValue(h, index, name).None? ==> uid == ""
  {
    match FieldValue(h, index, name)
    case Some(Text(uid)) => uid
    case _ => ""
  }

  /**
   * What constructing a `User` with at least one of username, userid, email
   * yields: the uid comes from the username index, else from the email index,
   * else from the argument; with no uid nothing is read and the user is not
   * valid; otherwise the record is loaded and the user is valid exactly when
   * the loaded username is non-empty.
   */
  function Lookup(h: Hashes, username: string, userid: string, email: string): (r: Result<Loaded, Error>)
    requires username != "" || userid != "" || email != ""
    ensures r.Success? && r.value.userid == "" ==>
              r.value == Loaded("", Profile(username, email, "", "", LevelPending), false)
    ensures r.Success? && r.value.userid != "" ==>
              && DecodeRecord(FieldsOf(h, UserKey(r.value.userid))) == Some(r.value.profile)
              && r.value.isvalid == (r.value.profile.username != "")
    ensures r.Failure? ==> r.error == MissingRecord
    ensures username == "" && email == "" && r.Success? ==> r.value.userid == userid
  {
    var uid := if username != "" then IndexEntry(h, UsernamesKey, username)
               else if email != "" then IndexEntry(h, EmailsKey, email)
               else userid;
    if uid == "" then
      Success(Loaded(uid, Profile(username, email, "", "", LevelPending), false))
    else
      match DecodeRecord(FieldsOf(h, UserKey(uid)))
      case None => Failure(MissingRecord)
      case Some(p) => Success(Loaded(uid, p, p.username != ""))
  }

  /**
   * The layout every operation keeps: each record key names a non-empty uid
   * and holds a complete record, and no string key lies under `u/`.
   */
  ghost predicate WellFormed(strings: map<string, string>, h: Hashes)
  {
    && (forall k :: k in strings ==> !IsUserKey(k))
    && (forall k :: k in h && IsUserKey(k) ==> |k| > |UserPrefix| && DecodeRecord(h[k]).Some?)
  }

  /** The record keys `getusers(levelspec)` lists. */
  ghost function ListedKeys(h: Hashes, levelspec: int): set<string>
  {
    set k | k in h && Listed(h, levelspec, k)
  }

  /** Whether `getusers(levelspec)` lists the record key `k`. */
  predicate Listed(h: Hashes, levelspec: int, k: string)
    ensures Listed(h, levelspec, k) ==> k in h && IsUserKey(k)
    ensures Listed(h, levelspec, k) && levelspec != LevelAny ==> DecodeRecord(h[k]).Some? && DecodeRecord(h[k]).value.level == levelspec
  {
    k in h && IsUserKey(k) && AtLevel(h[k], levelspec)
  }

  /** The level filter of `getusers`: LEVEL_ANY keeps every record. */
  predicate AtLevel(fields: Hash, levelspec: int)
    ensures levelspec != LevelAny && AtLevel(fields, levelspec) ==> DecodeRecord(fields).Some?
  {
    levelspec == LevelAny || (DecodeRecord(fields).Some? && DecodeRecord(fields).value.level == levelspec)
  }

  // ---------------------------------------------------------------------------
  // Round trips: what a load finds after a record has been persisted.

  /** Loading by uid after persisting yields exactly the persisted profile. */
  lemma LoadByIdAfterPersist(h: Hashes, uid: string, p: Profile)
    requires uid != ""
    ensures Lookup(Persist(h, uid, p), "", uid, "") == Success(Loaded(uid, p, p.username != ""))
  {
  }

  /** Loading by username after persisting, when the username index names this uid. */
  lemma LoadByUsernameAfterPersist(h: Hashes, uid: string, p: Profile)
    requires uid != "" && p.username != ""
    requires IndexEntry(h, UsernamesKey, p.username) == uid
    ensures Lookup(Persist(h, uid, p), p.username, "", "") == Success(Loaded(uid, p, true))
  {
    RecordKeysAreNotIndexKeys(uid);
    assert IndexEntry(Persist(h, uid, p), UsernamesKey, p.username) == uid;
  }

  /** Loading by email after persisting, when the email index names this uid. */
  lemma LoadByEmailAfterPersist(h: Hashes, uid: string, p: Profile)
    requires uid != "" && p.email != ""
    requires IndexEntry(h, EmailsKey, p.email) == uid
    ensures Lookup(Persist(h, uid, p), "", "", p.email) == Success(Loaded(uid, p, p.username != ""))
  {
    RecordKeysAreNotIndexKeys(uid);
    assert IndexEntry(Persist(h, uid, p), EmailsKey, p.email) == uid;
  }

  /** A successful claim makes the index name the claimant. */
  lemma ClaimThenIndexEntry(h: Hashes, index: string, name: string, uid: string)
    requires name !in FieldsOf(h, index)
    ensures IndexEntry(Claim(h, index, name, uid), index, name) == uid
  {
  }

  /** In a well-formed store every record key loads by its uid. */
  lemma LoadListedKey(strings: map<string, string>, h: Hashes, key: string)
    requires WellFormed(strings, h) && key in h && IsUserKey(key)
    ensures UserIdOf(key) != ""
    ensures DecodeRecord(h[key]).Some?
    ensures Lookup(h, "", UserIdOf(key), "") == Success(Loaded(UserIdOf(key), DecodeRecord(h[key]).value,
                                                                 DecodeRecord(h[key]).value.username != ""))
  {
  }

  /**
   * A username (or, with none given, an email) that its index does not hold
   * reads no record: the user keeps the given names, has no uid and is not valid.
   */
  lemma LookupWithoutEntry(h: Hashes, username: string, email: string)
    requires username != "" || email != ""
    requires username != "" ==> username !in FieldsOf(h, UsernamesKey)
    requires username == "" ==> email !in FieldsOf(h, EmailsKey)
    ensures Lookup(h, username, "", email) == Success(Loaded("", Profile(username, email, "", "", LevelPending), false))
  {
  }

  /**
   * A lookup through the username index loads the record the index names, and
   * validity follows the username stored in that record, not the name looked up.
   */
  lemma LookupThroughUsernameIndex(h: Hashes, name: string, uid: string, p: Profile)
    requires name != "" && uid != "" && IndexEntry(h, UsernamesKey, name) == uid
    requires DecodeRecord(FieldsOf(h, UserKey(uid))) == Some(p)
    ensures Lookup(h, name, "", "") == Success(Loaded(uid, p, p.username != ""))
  {
  }

  /** The record keys among the first `n` of a scan that `getusers(levelspec)` keeps, in scan order. */
  function FilterKeys(h: Hashes, levelspec: int, ks: seq<string>, n: nat): (r: seq<string>)
    requires n <= |ks|
    ensures |r| <= n
  {
    if n == 0 then []
    else FilterKeys(h, levelspec, ks, n - 1) + (if Listed(h, levelspec, ks[n - 1]) then [ks[n - 1]] else [])
  }

  /** One more key of the scan adds that key to the filtered keys exactly when it is listed. */
  lemma FilterKeysStep(h: Hashes, levelspec: int, ks: seq<string>, i: nat)
    requires i < |ks|
    ensures FilterKeys(h, levelspec, ks, i + 1)
         == FilterKeys(h, levelspec, ks, i) + (if Listed(h, levelspec, ks[i]) then [ks[i]] else [])
  {
  }

  /** The filtered keys are exactly the listed keys among the first `n` of the scan. */
  lemma {:induction false} FilterKeysMembers(h: Hashes, levelspec: int, ks: seq<string>, n: nat)
    requires n <= |ks|
    ensures forall k :: k in FilterKeys(h, levelspec, ks, n) <==> k in ks[..n] && Listed(h, levelspec, k)
  {
    if n > 0 {
      FilterKeysMembers(h, levelspec, ks, n - 1);
      assert ks[..n] == ks[..n - 1] + [ks[n - 1]];
    }
  }

  /** Filtering a scan without repeats gives keys without repeats. */
  lemma {:induction false} FilterKeysDistinct(h: Hashes, levelspec: int, ks: seq<string>, n: nat)
    requires n <= |ks|
    requires forall i, j :: 0 <= i < j < |ks| ==> ks[i] != ks[j]
    ensures forall i, j :: 0 <= i < j < |FilterKeys(h, levelspec, ks, n)| ==>
                             FilterKeys(h, levelspec, ks, n)[i] != FilterKeys(h, levelspec, ks, n)[j]
  {
    if n > 0 {
      FilterKeysDistinct(h, levelspec, ks, n - 1);
      FilterKeysMembers(h, levelspec, ks, n - 1);
      assert ks[n - 1] !in ks[..n - 1];
    }
  }

  /** A sequence without repeats has as many elements as the set of its elements. */
  lemma {:induction false} DistinctCardinality(s: seq<string>)
    requires forall i, j :: 0 <= i < j < |s| ==> s[i] != s[j]
    ensures |set x | x in s| == |s|
  {
    if s != [] {
      var init := s[..|s| - 1];
      DistinctCardinality(init);
      assert s == init + [s[|s| - 1]];
      assert s[|s| - 1] !in init;
      assert (set x | x in s) == (set x | x in init) + {s[|s| - 1]};
    }
  }

  /**
   * Filtering a scan without repeats keeps each listed key of the scan exactly
   * once, so the result has as many entries as the scan has listed keys.
   */
  lemma FilteredKeys(h: Hashes, levelspec: int, ks: seq<string>, n: nat)
    requires n <= |ks|
    requires forall i, j :: 0 <= i < j < |ks| ==> ks[i] != ks[j]
    ensures forall k :: k in FilterKeys(h, levelspec, ks, n) <==> k in ks[..n] && Listed(h, levelspec, k)
    ensures forall i, j :: 0 <= i < j < |FilterKeys(h, levelspec, ks, n)| ==>
                             FilterKeys(h, levelspec, ks, n)[i] != FilterKeys(h, levelspec, ks, n)[j]
    ensures |FilterKeys(h, levelspec, ks, n)| == |set k | k in ks[..n] && Listed(h, levelspec, k)|
  {
    var r := FilterKeys(h, levelspec, ks, n);
    FilterKeysMembers(h, levelspec, ks, n);
    FilterKeysDistinct(h, levelspec, ks, n);
    DistinctCardinality(r);
    assert (set x | x in r) == (set k | k in ks[..n] && Listed(h, levelspec, k));
  }

  /** A scan that holds every record key lists, after filtering, exactly `ListedKeys`. */
  lemma CompleteScanListing(h: Hashes, levelspec: int, ks: seq<string>)
    requires forall k :: k in h && IsUserKey(k) ==> k in ks
    ensures (set k | k in ks && Listed(h, levelspec, k)) == ListedKeys(h, levelspec)
  {
  }

  /**
   * A complete scan without repeats, filtered, lists every listed record key
   * exactly once.
   */
  lemma CompleteScanFiltered(h: Hashes, levelspec: int, ks: seq<string>)
    requires forall i, j :: 0 <= i < j < |ks| ==> ks[i] != ks[j]
    requires forall k :: k in h && IsUserKey(k) ==> k in ks
    ensures forall k :: k in ListedKeys(h, levelspec) <==> k in FilterKeys(h, levelspec, ks, |ks|)
    ensures forall i, j :: 0 <= i < j < |FilterKeys(h, levelspec, ks, |ks|)| ==>
                             FilterKeys(h, levelspec, ks, |ks|)[i] != FilterKeys(h, levelspec, ks, |ks|)[j]
    ensures |FilterKeys(h, levelspec, ks, |ks|)| == |ListedKeys(h, levelspec)|
  {
    FilteredKeys(h, levelspec, ks, |ks|);
    assert ks[..|ks|] == ks;
    CompleteScanListing(h, levelspec, ks);
  }

  // ---------------------------------------------------------------------------
  // Removal.

  /** After `remove`, looking the user up by its old username or email finds no one. */
  lemma LoadAfterRemove(h: Hashes, username: string, email: string, uid: string)
    ensures username != "" ==>
              Lookup(Removed(h, username, email, uid), username, "", "")
              == Success(Loaded("", Profile(username, "", "", "", LevelPending), false))
    ensures email != "" ==>
              Lookup(Removed(h, username, email, uid), "", "", email)
              == Success(Loaded("", Profile("", email, "", "", LevelPending), false))
  {
  }

  /**
   * An index entry `remove` does not clean up (a username the user held before
   * renaming itself) still names the removed uid, and looking it up then fails
   * for want of a record.
   */
  lemma StaleUsernameAfterRemove(h: Hashes, username: string, email: string, uid: string, stale: string)
    requires uid != "" && stale != "" && stale != username
    requires IndexEntry(h, UsernamesKey, stale) == uid
    ensures IndexEntry(Removed(h, username, email, uid), UsernamesKey, stale) == uid
    ensures Lookup(Removed(h, username, email, uid), stale, "", "") == Failure(MissingRecord)
  {
  }

  /** An empty username in the index survives `remove`, which skips empty names. */
  lemma EmptyUsernameSurvivesRemove(h: Hashes, email: string, uid: string)
    requires "" in FieldsOf(h, UsernamesKey)
    ensures FieldValue(Removed(h, "", email, uid), UsernamesKey, "") == FieldValue(h, UsernamesKey, "")
  {
  }

  // ---------------------------------------------------------------------------
  // The layout invariant is kept by every change to the store.

  lemma PersistKeepsWellFormed(strings: map<string, string>, h: Hashes, uid: string, p: Profile)
    requires WellFormed(strings, h) && uid != ""
    ensures WellFormed(strings, Persist(h, uid, p))
  {
  }

  lemma ClaimKeepsWellFormed(strings: map<string, string>, h: Hashes, index: string, name: string, uid: string)
    requires WellFormed(strings, h) && !IsUserKey(index)
    ensures WellFormed(strings, Claim(h, index, name, uid))
  {
  }

  lemma DropIndexEntriesKeepsWellFormed(strings: map<string, string>, h: Hashes, username: string, email: string)
    requires WellFormed(strings, h)
    ensures WellFormed(strings, DropIndexEntries(h, username, email))
  {
    var r := DropIndexEntries(h, username, email);
    IndexKeysAreNotUserKeys();
    forall k | k in r && IsUserKey(k)
      ensures |k| > |UserPrefix| && DecodeRecord(r[k]).Some?
    {
      assert r[k] == FieldsOf(h, k);
    }
  }

  lemma RemovedKeepsWellFormed(strings: map<string, string>, h: Hashes, username: string, email: string, uid: string)
    requires WellFormed(strings, h)
    ensures WellFormed(strings - {UserKey(uid)}, Removed(h, username, email, uid))
  {
    DropIndexEntriesKeepsWellFormed(strings, h, username, email);
  }

  /** Index keys are not record keys. */
  lemma IndexKeysAreNotUserKeys()
    ensures !IsUserKey(UsernamesKey) && !IsUserKey(EmailsKey)
  {
    assert UsernamesKey[0] != UserPrefix[0];
    assert EmailsKey[0] != UserPrefix[0];
  }
}
