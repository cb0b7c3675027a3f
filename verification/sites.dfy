/**
 * The site object of `dbsite.py`: starting a site makes sure the store holds
 * a site name, wiping the store and writing the default name when it does not,
 * and then reads the name back.
 */
module Sites {
  import opened Wrappers
  import opened KeyValue
  import opened UserRecords

  const NameKey: string := "s/n"
  const DefaultName: string := "HSCPC"

  /** The contents of one logical database, as a value. */
  datatype Snapshot = Snapshot(strings: map<string, string>, hashes: Hashes)

  /**
   * Whether the site name key holds a value of either kind: `Store.Exists(NameKey)`
   * read on a snapshot (`Site.Exists` states that the two agree).
   */
  predicate HasSite(s: Snapshot)
    ensures HasSite(s) ==> s.strings != map[] || s.hashes != map[]
  {
    NameKey in s.strings || NameKey in s.hashes
  }

  /** The store after `start`: untouched when a site exists, else flushed down to the default name. */
  function Started(s: Snapshot): (r: Snapshot)
    ensures HasSite(r)
    ensures HasSite(s) ==> r == s
  {
    if HasSite(s) then s else Snapshot(map[NameKey := DefaultName], map[])
  }

  /** After `start` a site exists, and a store that had none now names the default site and nothing else. */
  lemma StartedHasSite(s: Snapshot)
    ensures HasSite(Started(s))
    ensures !HasSite(s) ==> Started(s).strings.Keys == {NameKey} && Started(s).strings[NameKey] == DefaultName
    ensures !HasSite(s) ==> Started(s).hashes == map[]
  {
  }

  /** Starting an existing site changes nothing, so starting twice is starting once. */
  lemma StartIdempotent(s: Snapshot)
    ensures HasSite(s) ==> Started(s) == s
    ensures Started(Started(s)) == Started(s)
  {
  }

  /** Creating the default site drops every user record and both identity indexes. */
  lemma DefaultSiteHasNoUsers(s: Snapshot)
    requires !HasSite(s)
    ensures ListedKeys(Started(s).hashes, LevelAny) == {}
    ensures FieldsOf(Started(s).hashes, UsernamesKey) == map[] && FieldsOf(Started(s).hashes, EmailsKey) == map[]
  {
  }

  /** The site name key is not a user record key, so `start` keeps the user layout well formed. */
  lemma StartKeepsWellFormed(s: Snapshot)
    requires WellFormed(s.strings, s.hashes)
    ensures WellFormed(Started(s).strings, Started(s).hashes)
  {
    assert NameKey[0] != UserPrefix[0];
    assert !IsUserKey(NameKey);
  }

  class Site {
    const db: Store
    /** The loaded site name; None until `start` has read it (the original has no such attribute before). */
    var name: Option<string>

    constructor (db: Store)
      ensures this.db == db && name == None
    {
      this.db := db;
      name := None;
    }

    /** The store of this site, as a value. */
    function Contents(): Snapshot
      reads db`strings, db`hashes
    {
      Snapshot(db.strings, db.hashes)
    }

    /**
     * `start`: creates the default site when none exists, then loads the name;
     * a store that had no site ends up named with the default name.
     */
    method Start()
      modifies this`name, db`strings, db`hashes
      ensures Contents() == Started(old(Contents()))
      ensures name == db.Get(NameKey)
      ensures !HasSite(old(Contents())) ==> name == Some(DefaultName)
      ensures HasSite(old(Contents())) ==> name == old(db.Get(NameKey))
    {
      if !Exists() {
        CreateDefault();
      }
      LoadSite();
    }

    /** `_exists`: whether the site name key exists in the store, which is `HasSite` of its contents. */
    predicate Exists()
      reads db`strings, db`hashes
      ensures Exists() <==> HasSite(Contents())
    {
      db.Exists(NameKey)
    }

    /** `_createdefault`: flushes the store and writes the default site name. */
    method CreateDefault()
      modifies db`strings, db`hashes
      ensures Contents() == Snapshot(map[NameKey := DefaultName], map[])
    {
      db.Reset();
      db.Set(NameKey, DefaultName);
    }

    /** `_loadsite`: reads the site name. */
    method LoadSite()
      modifies this`name
      ensures name == db.Get(NameKey)
    {
      name := db.Get(NameKey);
    }
  }
}
