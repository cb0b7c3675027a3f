/**
 * The key-value store the site keeps its data in (a Redis database in the
 * original, opened through `dbtools.DB`). String keys and hash keys are kept
 * in two maps; a hash maps field names to values.
 */
module KeyValue {
  import opened Wrappers

  /** A value held in a hash field. Levels are kept as numbers, other fields as text. */
  datatype Value = Text(text: string) | Number(number: int)

  type Hash = map<string, Value>
  type Hashes = map<string, Hash>

  /** The fields of the hash at `key`; a missing key reads as the empty hash (HGETALL). */
  function FieldsOf(h: Hashes, key: string): Hash
  {
    if key in h then h[key] else map[]
  }

  /** The value of one field (HGET), or None when the key or the field is missing. */
  function FieldValue(h: Hashes, key: string, field: string): (v: Option<Value>)
    ensures v.Some? <==> field in FieldsOf(h, key)
  {
    if field in FieldsOf(h, key) then Some(FieldsOf(h, key)[field]) else None
  }

  /** HSET: sets one field, creating the hash when the key is missing. */
  function PutField(h: Hashes, key: string, field: string, v: Value): (r: Hashes)
    ensures FieldValue(r, key, field) == Some(v)
    ensures forall f :: f != field ==> FieldValue(r, key, f) == FieldValue(h, key, f)
    ensures forall k :: k != key ==> (k in r <==> k in h) && FieldsOf(r, k) == FieldsOf(h, k)
  {
    h[key := FieldsOf(h, key)[field := v]]
  }

  /**
   * HDEL: removes one field, tolerating a missing key or field. As in Redis, a
   * hash left without fields no longer exists.
   */
  function DropField(h: Hashes, key: string, field: string): (r: Hashes)
    ensures FieldValue(r, key, field) == None
    ensures forall f :: f != field ==> FieldValue(r, key, f) == FieldValue(h, key, f)
    ensures key in r <==> FieldsOf(h, key) - {field} != map[]
    ensures forall k :: k != key ==> (k in r <==> k in h) && FieldsOf(r, k) == FieldsOf(h, k)
  {
    var rest := FieldsOf(h, key) - {field};
    if rest == map[] then h - {key} else h[key := rest]
  }

  /** The length of the longest string in `s` (0 for the empty set). */
  method Longest(s: set<string>) returns (n: nat)
    ensures forall k :: k in s ==> |k| <= n
    ensures s != {} ==> exists k :: k in s && |k| == n
  {
    n := 0;
    var pending := s;
    while pending != {}
      invariant pending <= s
      invariant forall k :: k in s - pending ==> |k| <= n
      invariant s - pending != {} ==> exists k :: k in s - pending && |k| == n
      invariant s - pending == {} ==> n == 0
      decreases pending
    {
      var k :| k in pending;
      if |k| > n {
        n := |k|;
      }
      pending := pending - {k};
    }
  }

  /**
   * One logical database. The `issued` set remembers every identifier the
   * fresh-id oracle has handed out; it stands for the state of the uuid
   * generator and so survives `Reset`.
   */
  class Store {
    var strings: map<string, string>
    var hashes: Hashes
    var issued: set<string>

    constructor ()
      ensures strings == map[] && hashes == map[] && issued == {}
      ensures forall k :: !Exists(k)
    {
      strings, hashes, issued := map[], map[], {};
    }

    /** FLUSHDB: removes every key of the database. */
    method Reset()
      modifies this`strings, this`hashes
      ensures strings == map[] && hashes == map[]
    {
      strings, hashes := map[], map[];
    }

    /** EXISTS: whether a key holds a value of either kind; a missing key reads as nothing. */
    predicate Exists(key: string)
      reads this`strings, this`hashes
      ensures !Exists(key) ==> Get(key) == None && FieldsOf(hashes, key) == map[]
    {
      key in strings || key in hashes
    }

    /** GET: the string at `key`, or None. */
    function Get(key: string): (v: Option<string>)
      reads this`strings
      ensures v.Some? <==> key in strings
    {
      if key in strings then Some(strings[key]) else None
    }

    /** SET: stores a string, replacing whatever the key held. */
    method Set(key: string, value: string)
      modifies this`strings, this`hashes
      ensures strings == old(strings)[key := value]
      ensures hashes == old(hashes) - {key}
      ensures Get(key) == Some(value) && HGetAll(key) == map[]
    {
      strings := strings[key := value];
      hashes := hashes - {key};
    }

    /** HGET: the value of one field, present exactly when HEXISTS holds. */
    function HGet(key: string, field: string): (v: Option<Value>)
      reads this`hashes
      ensures v.Some? <==> HExists(key, field)
    {
      FieldValue(hashes, key, field)
    }

    /** HEXISTS: whether a field is set; only an existing hash has fields. */
    predicate HExists(key: string, field: string)
      reads this`hashes
      ensures HExists(key, field) ==> key in hashes
    {
      field in FieldsOf(hashes, key)
    }

    /** HGETALL: every field of the hash with its value, the empty hash for a missing key. */
    function HGetAll(key: string): (r: Hash)
      reads this`hashes
      ensures forall f :: f in r <==> HExists(key, f)
      ensures forall f :: f in r ==> HGet(key, f) == Some(r[f])
    {
      FieldsOf(hashes, key)
    }

    /** HSET */
    method HSet(key: string, field: string, value: Value)
      modifies this`hashes
      ensures hashes == PutField(old(hashes), key, field, value)
      ensures HGet(key, field) == Some(value)
    {
      hashes := PutField(hashes, key, field, value);
    }

    /** HDEL */
    method HDel(key: string, field: string)
      modifies this`hashes
      ensures hashes == DropField(old(hashes), key, field)
      ensures !HExists(key, field)
    {
      hashes := DropField(hashes, key, field);
    }

    /** DEL: removes a key of either kind. */
    method Delete(key: string)
      modifies this`strings, this`hashes
      ensures strings == old(strings) - {key}
      ensures hashes == old(hashes) - {key}
      ensures !Exists(key)
    {
      strings := strings - {key};
      hashes := hashes - {key};
    }

    /** The keys, of either kind, that start with `prefix`. */
    ghost function KeysWithPrefix(prefix: string): set<string>
      reads this`strings, this`hashes
    {
      set k | k in strings.Keys + hashes.Keys && prefix <= k
    }

    /**
     * KEYS `prefix*`: every key that starts with `prefix`, each once, in an
     * order the store chooses.
     */
    method Keys(prefix: string) returns (ks: seq<string>)
      ensures forall k :: k in ks <==> k in KeysWithPrefix(prefix)
      ensures forall i, j :: 0 <= i < j < |ks| ==> ks[i] != ks[j]
      ensures |ks| == |KeysWithPrefix(prefix)|
    {
      var all := strings.Keys + hashes.Keys;
      var pending := all;
      ks := [];
      ghost var found: set<string> := {};
      while pending != {}
        invariant pending <= all
        invariant found == set k | k in all - pending && prefix <= k
        invariant forall k :: k in ks <==> k in found
        invariant forall i, j :: 0 <= i < j < |ks| ==> ks[i] != ks[j]
        invariant |ks| == |found|
        decreases pending
      {
        var k :| k in pending;
        if prefix <= k {
          ks := ks + [k];
          found := found + {k};
        }
        pending := pending - {k};
      }
      assert found == KeysWithPrefix(prefix);
    }

    /**
     * The fresh-id oracle: an identifier never handed out before and longer than
     * every key in the database, so no key of the form `<prefix><id>` exists yet.
     */
    method UniqueId() returns (id: string)
      modifies this`issued
      ensures id != "" && id !in old(issued)
      ensures issued == old(issued) + {id}
      ensures forall k :: k in hashes ==> |k| < |id|
      ensures forall k :: k in strings ==> |k| < |id|
    {
      var n := Longest(strings.Keys + hashes.Keys + issued);
      id := seq(n + 1, _ => 'x');
      issued := issued + {id};
    }
  }
}
