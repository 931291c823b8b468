/**
 * The hash-of-hashes key-value store behind the repository, with the Redis
 * command semantics of HSET, HMSET, HGET, HMGET, HGETALL, HEXISTS, HKEYS,
 * HVALS, HLEN, HDEL, DEL, KEYS and SCAN.
 *
 * The first half states each command on a store value; the class
 * `DriverRedisHelper` at the end holds the store and applies them in place.
 */
module RedisHelper {
  import opened JavaLang

  /** One Redis hash: field name to value. */
  type Hash = map<string, string>

  /** The key space: hash name to hash. */
  type Store = map<string, Hash>

  /** Redis never keeps an empty hash: removing its last field removes the key. */
  ghost predicate WellFormed(s: Store) {
    forall key :: key in s ==> s[key] != map[]
  }

  /** HGETALL: the hash named `key`, empty when there is none. */
  function Entries(s: Store, key: string): (h: Hash)
    ensures key in s ==> h == s[key]
    ensures WellFormed(s) ==> (h == map[] <==> key !in s)
  {
    if key in s then s[key] else map[]
  }

  /** HGET: the value of `field` in hash `key`, nil when the field or the hash is absent. */
  function Get(s: Store, key: string, field: string): (r: Option<string>)
    ensures r == None <==> key !in s || field !in s[key]
    ensures r != None ==> r.value == s[key][field]
  {
    if field in Entries(s, key) then Some(Entries(s, key)[field]) else None
  }

  /** HEXISTS. */
  function HasKey(s: Store, key: string, field: string): (r: bool)
    ensures r <==> Get(s, key, field) != None
  {
    field in Entries(s, key)
  }

  /** HKEYS. */
  function Fields(s: Store, key: string): (names: set<string>)
    ensures forall f :: f in names <==> Get(s, key, f) != None
  {
    Entries(s, key).Keys
  }

  /** HLEN. */
  function Size(s: Store, key: string): (n: nat)
    ensures n == |Fields(s, key)|
  {
    |Entries(s, key)|
  }

  /** HMGET: one answer per requested field, in the order asked, nil for an absent field. */
  function MultiGet(s: Store, key: string, fields: seq<string>): (r: seq<Option<string>>)
    ensures |r| == |fields|
    ensures forall i :: 0 <= i < |fields| ==> r[i] == Get(s, key, fields[i])
  {
    if fields == [] then [] else [Get(s, key, fields[0])] + MultiGet(s, key, fields[1..])
  }

  /**
   * The elements of a finite set in an order that is fixed but unspecified,
   * as a Java `Set` or `Map` yields them to a stream: each exactly once.
   */
  ghost function Enumerate(names: set<string>): (order: seq<string>)
    ensures |order| == |names|
    ensures forall x :: x in order <==> x in names
    ensures forall i, j :: 0 <= i < j < |order| ==> order[i] != order[j]
    decreases names
  {
    if names == {} then []
    else
      var x :| x in names;
      [x] + Enumerate(names - {x})
  }

  /** The fields of `h` that hold `value`. */
  function Holding(h: Hash, value: string): set<string> {
    set field | field in h && h[field] == value
  }

  lemma HoldingWithout(h: Hash, field: string)
    requires field in h
    ensures forall v :: |Holding(h - {field}, v)| == |Holding(h, v)| - (if h[field] == v then 1 else 0)
  {
    forall v ensures |Holding(h - {field}, v)| == |Holding(h, v)| - (if h[field] == v then 1 else 0) {
      assert Holding(h - {field}, v) == Holding(h, v) - {field};
    }
  }

  /**
   * The values of a hash in the store's unspecified order (HVALS, or the
   * `values()` of HGETALL): every field contributes its value once, so a value
   * stored under n fields occurs n times.
   */
  ghost function ValuesOf(h: Hash): (vs: seq<string>)
    ensures |vs| == |h|
    ensures forall v :: multiset(vs)[v] == |Holding(h, v)|
    decreases |h|
  {
    if h == map[] then []
    else
      var field :| field in h;
      HoldingWithout(h, field);
      [h[field]] + ValuesOf(h - {field})
  }

  /** HVALS. */
  ghost function Values(s: Store, key: string): (vs: seq<string>)
    ensures |vs| == Size(s, key)
    ensures forall v :: multiset(vs)[v] == |Holding(Entries(s, key), v)|
  {
    ValuesOf(Entries(s, key))
  }

  /** A value occurs among the values of a hash exactly when some field holds it. */
  lemma ValuesOfMembership(h: Hash)
    ensures forall v :: v in ValuesOf(h) <==> exists field :: field in h && h[field] == v
  {
    var vs := ValuesOf(h);
    forall v ensures v in vs <==> exists field :: field in h && h[field] == v {
      assert v in vs <==> multiset(vs)[v] > 0;
      if v in vs {
        var field :| field in Holding(h, v);
      }
    }
  }

  /** HSET: creates the hash when it is missing and overwrites an existing field. */
  function Put(s: Store, key: string, field: string, value: string): (r: Store)
    ensures Get(r, key, field) == Some(value)
    ensures forall f :: f != field ==> Get(r, key, f) == Get(s, key, f)
    ensures r - {key} == s - {key}
    ensures WellFormed(s) ==> WellFormed(r)
  {
    s[key := Entries(s, key)[field := value]]
  }

  /**
   * HMSET: every field of `m` gets its value from `m`, overwriting old values;
   * the other fields keep theirs. An empty `m` changes nothing.
   */
  function PutAll(s: Store, key: string, m: Hash): (r: Store)
    ensures forall f :: f in m ==> Get(r, key, f) == Some(m[f])
    ensures forall f :: f !in m ==> Get(r, key, f) == Get(s, key, f)
    ensures r - {key} == s - {key}
    ensures WellFormed(s) ==> WellFormed(r)
  {
    if m == map[] then s else s[key := Entries(s, key) + m]
  }

  /**
   * HDEL: removes exactly the listed fields, ignores those that are absent,
   * and drops the hash when no field is left.
   */
  function DeleteFields(s: Store, key: string, fields: seq<string>): (r: Store)
    ensures forall f :: f in fields ==> Get(r, key, f) == None
    ensures forall f :: f !in fields ==> Get(r, key, f) == Get(s, key, f)
    ensures r - {key} == s - {key}
    ensures WellFormed(s) ==> WellFormed(r)
  {
    var rest := Entries(s, key) - (set f | f in fields);
    if rest == map[] then s - {key} else s[key := rest]
  }

  /** DEL: drops the whole hash. */
  function DeleteKey(s: Store, key: string): (r: Store)
    ensures Entries(r, key) == map[]
    ensures forall f :: !HasKey(r, key, f)
    ensures r - {key} == s - {key}
    ensures WellFormed(s) ==> WellFormed(r)
  {
    s - {key}
  }

  /** Two stores that agree outside hash `key` hold the same entries under every other name. */
  lemma OtherHashesUnchanged(r: Store, s: Store, key: string)
    requires r - {key} == s - {key}
    ensures forall k :: k != key ==> Entries(r, k) == Entries(s, k)
  {
    forall k | k != key ensures Entries(r, k) == Entries(s, k) {
      assert k in r <==> k in r - {key};
      assert k in s <==> k in s - {key};
      if k in r {
        assert r[k] == (r - {key})[k];
        assert s[k] == (s - {key})[k];
      }
    }
  }

  /**
   * The glob patterns the repository produces: a pattern ending in `*` matches
   * every name that starts with the rest of the pattern; any other pattern
   * matches only itself.
   */
  predicate MatchesPattern(pattern: string, name: string) {
    if |pattern| > 0 && pattern[|pattern| - 1] == '*' then
      pattern[..|pattern| - 1] <= name
    else
      name == pattern
  }

  /** KEYS: the names of the hashes that match `pattern`. */
  function KeysMatching(s: Store, pattern: string): (names: set<string>)
    ensures forall n :: n in names <==> n in s && MatchesPattern(pattern, n)
    ensures WellFormed(s) ==> forall n :: n in names ==> Size(s, n) > 0
  {
    set n | n in s && MatchesPattern(pattern, n)
  }

  /** The store client: a Redis connection reduced to the key space it reads and writes. */
  class DriverRedisHelper {
    var hashes: Store

    ghost predicate Valid()
      reads this
    {
      WellFormed(hashes)
    }

    /**
     * The client only attaches to the server: it sees whatever key space the
     * server already holds, which Redis keeps free of empty hashes.
     */
    constructor (initial: Store)
      requires WellFormed(initial)
      ensures Valid() && hashes == initial
    {
      hashes := initial;
    }

    /**
     * The scan and its consumer as `keys` combines them: the cursor hands out
     * the matching names one by one, in the store's order, and each is appended.
     */
    method Keys(pattern: string) returns (keys: seq<string>)
      ensures forall name :: name in keys <==> name in hashes && MatchesPattern(pattern, name)
      ensures forall i, j :: 0 <= i < j < |keys| ==> keys[i] != keys[j]
    {
      keys := [];
      var pending := set name | name in hashes && MatchesPattern(pattern, name);
      while pending != {}
        invariant forall name :: name in keys || name in pending <==> name in hashes && MatchesPattern(pattern, name)
        invariant forall name :: name in keys ==> name !in pending
        invariant forall i, j :: 0 <= i < j < |keys| ==> keys[i] != keys[j]
        decreases pending
      {
        var name :| name in pending;
        keys := keys + [name];
        pending := pending - {name};
      }
    }

    method HashPut(key: string, hashKey: string, value: string)
      requires Valid()
      modifies this
      ensures Valid() && hashes == Put(old(hashes), key, hashKey, value)
    {
      var h := if key in hashes then hashes[key] else map[];
      assert hashKey in h[hashKey := value];
      hashes := hashes[key := h[hashKey := value]];
    }

    method HashPutAll(key: string, m: Hash)
      requires Valid()
      modifies this
      ensures Valid() && hashes == PutAll(old(hashes), key, m)
    {
      if m != map[] {
        var h := if key in hashes then hashes[key] else map[];
        hashes := hashes[key := h + m];
      }
    }

    /** `hashGet`: HGET on the current key space. */
    function HashGet(key: string, hashKey: string): (r: Option<string>)
      reads this
      ensures r.Some? <==> key in hashes && hashKey in hashes[key]
      ensures r.Some? ==> r.value == hashes[key][hashKey]
    {
      Get(hashes, key, hashKey)
    }

    /** `hashMultiGet`: HMGET on the current key space. */
    function HashMultiGet(key: string, hashKeys: seq<string>): (r: seq<Option<string>>)
      reads this
      ensures |r| == |hashKeys|
      ensures forall i :: 0 <= i < |hashKeys| ==> r[i] == HashGet(key, hashKeys[i])
    {
      MultiGet(hashes, key, hashKeys)
    }

    /** `hashGetAll`: HGETALL on the current key space. */
    function HashGetAll(key: string): (h: Hash)
      reads this
      ensures key in hashes ==> h == hashes[key]
      ensures Valid() ==> (h == map[] <==> key !in hashes)
    {
      Entries(hashes, key)
    }

    /** `hashHasKey`: HEXISTS on the current key space. */
    function HashHasKey(key: string, hashKey: string): (r: bool)
      reads this
      ensures r <==> HashGet(key, hashKey).Some?
    {
      HasKey(hashes, key, hashKey)
    }

    /** `hashKeys`: HKEYS on the current key space. */
    function HashKeys(key: string): (fields: set<string>)
      reads this
      ensures forall f :: f in fields <==> HashGet(key, f).Some?
    {
      Fields(hashes, key)
    }

    /** `hashValues`: HVALS on the current key space. */
    ghost function HashValues(key: string): (vs: seq<string>)
      reads this
      ensures |vs| == HashSize(key)
      ensures forall v :: multiset(vs)[v] == |Holding(HashGetAll(key), v)|
    {
      Values(hashes, key)
    }

    /** `hashSize`: HLEN on the current key space. */
    function HashSize(key: string): (n: nat)
      reads this
      ensures n == |HashKeys(key)|
    {
      Size(hashes, key)
    }

    method HashDelete(key: string, hashKeys: seq<string>)
      requires Valid()
      modifies this
      ensures Valid() && hashes == DeleteFields(old(hashes), key, hashKeys)
    {
      var h := if key in hashes then hashes[key] else map[];
      var rest := h - (set f | f in hashKeys);
      if rest == map[] {
        hashes := hashes - {key};
      } else {
        hashes := hashes[key := rest];
      }
    }

    /** Same command as `HashDelete`, with the fields passed as an array. */
    method HashRemove(key: string, hashKeys: seq<string>)
      requires Valid()
      modifies this
      ensures Valid() && hashes == DeleteFields(old(hashes), key, hashKeys)
    {
      HashDelete(key, hashKeys);
    }

    method DelKey(key: string)
      requires Valid()
      modifies this
      ensures Valid() && hashes == DeleteKey(old(hashes), key)
    {
      hashes := hashes - {key};
    }

    /** `keysPattern`: KEYS on the current key space. */
    function KeysPattern(pattern: string): (names: set<string>)
      reads this
      ensures forall n :: n in names <==> n in hashes && MatchesPattern(pattern, n)
      ensures Valid() ==> forall n :: n in names ==> HashSize(n) > 0
    {
      KeysMatching(hashes, pattern)
    }
  }
}
