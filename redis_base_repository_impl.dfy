/**
 * The generic tenant-scoped repository: entities of one kind `T`, kept as
 * JSON text in one hash per tenant, under the hash name that `GetKey` gives.
 * Writes check for existence first and then write, so an error is raised
 * before anything is written.
 */
module RedisBaseRepository {
  import opened JavaLang
  import opened RedisHelper
  import opened PluginDatasourceRepository

  /** The `DriverException`s the repository raises, one per message. */
  datatype DriverException =
    | EntityExists              // create on a present key
    | EntityNotExists           // update on an absent key
    | KeyExists(key: string)    // batchCreate: a key of the batch is present
    | KeyNotExists(key: string) // batchUpdate: a key of the batch is absent

  /** The values of the named hashes, hash after hash: the `flatMap` of `getAll()`. */
  ghost function FlatValues(s: Store, names: seq<string>): seq<string>
  {
    if names == [] then [] else Values(s, names[0]) + FlatValues(s, names[1..])
  }

  /** A text is among the flattened values exactly when some field of some named hash holds it. */
  lemma {:induction false} FlatValuesMembership(s: Store, names: seq<string>)
    ensures forall v :: v in FlatValues(s, names) <==>
      exists name, field :: name in names && field in Entries(s, name) && Entries(s, name)[field] == v
  {
    if names != [] {
      ValuesOfMembership(Entries(s, names[0]));
      FlatValuesMembership(s, names[1..]);
      forall v ensures v in FlatValues(s, names) <==>
        exists name, field :: name in names && field in Entries(s, name) && Entries(s, name)[field] == v
      {
        if exists name, field :: name in names && field in Entries(s, name) && Entries(s, name)[field] == v {
          var name, field :| name in names && field in Entries(s, name) && Entries(s, name)[field] == v;
          if name != names[0] {
            assert name in names[1..];
          }
        }
      }
    }
  }

  /**
   * The values `getAll()` decodes: those of every hash whose name starts with
   * the template's prefix.
   */
  lemma AllTenantValues(s: Store)
    ensures forall v :: v in FlatValues(s, Enumerate(KeysMatching(s, GetKey(None)))) <==>
      exists name, field :: name in s && KeyPrefix <= name && field in s[name] && s[name][field] == v
  {
    PatternMatchesPrefix();
    var names := Enumerate(KeysMatching(s, GetKey(None)));
    FlatValuesMembership(s, names);
    forall v ensures v in FlatValues(s, names) <==>
      exists name, field :: name in s && KeyPrefix <= name && field in s[name] && s[name][field] == v
    {
      if v in FlatValues(s, names) {
        var name, field :| name in names && field in Entries(s, name) && Entries(s, name)[field] == v;
        assert name in s && KeyPrefix <= name && field in s[name] && s[name][field] == v;
      }
      if exists name, field :: name in s && KeyPrefix <= name && field in s[name] && s[name][field] == v {
        var name, field :| name in s && KeyPrefix <= name && field in s[name] && s[name][field] == v;
        assert name in names && field in Entries(s, name) && Entries(s, name)[field] == v;
      }
    }
  }

  /** A write confined to one tenant's hash leaves every other tenant's hash reading as before. */
  lemma OtherTenantsUnchanged(r: Store, s: Store, tenantId: Option<Long>)
    requires r - {GetKey(tenantId)} == s - {GetKey(tenantId)}
    ensures forall t, k :: t != tenantId ==> Get(r, GetKey(t), k) == Get(s, GetKey(t), k)
    ensures forall t :: t != tenantId ==> Entries(r, GetKey(t)) == Entries(s, GetKey(t))
  {
    OtherHashesUnchanged(r, s, GetKey(tenantId));
    forall t, k | t != tenantId ensures Get(r, GetKey(t), k) == Get(s, GetKey(t), k) {
      GetKeyInjective(t, tenantId);
      assert Entries(r, GetKey(t)) == Entries(s, GetKey(t));
    }
    forall t | t != tenantId ensures Entries(r, GetKey(t)) == Entries(s, GetKey(t)) {
      GetKeyInjective(t, tenantId);
    }
  }

  /**
   * A write to the listed fields of the tenant's hash that leaves its other
   * fields and every other hash alone leaves every other (tenant, key) pair
   * reading as before.
   */
  lemma ReadsElsewhereUnchanged(r: Store, s: Store, tenantId: Option<Long>, keys: seq<string>)
    requires forall f :: f !in keys ==> Get(r, GetKey(tenantId), f) == Get(s, GetKey(tenantId), f)
    requires r - {GetKey(tenantId)} == s - {GetKey(tenantId)}
    ensures forall t, k :: t != tenantId || k !in keys ==> Get(r, GetKey(t), k) == Get(s, GetKey(t), k)
  {
    OtherTenantsUnchanged(r, s, tenantId);
  }

  /** The names a sequence holds. */
  function NameSet(names: seq<string>): set<string> {
    set name | name in names
  }

  /** The names of the stored hashes that start with the template's prefix. */
  function PrefixedNames(s: Store): set<string> {
    set name | name in s && KeyPrefix <= name
  }

  /** Tagging each field with its hash name keeps the fields apart. */
  lemma {:induction false} TaggedCount(name: string, fields: set<string>)
    ensures |set field | field in fields :: (name, field)| == |fields|
    decreases fields
  {
    if fields != {} {
      var f0 :| f0 in fields;
      TaggedCount(name, fields - {f0});
      assert (set field | field in fields :: (name, field))
          == (set field | field in fields - {f0} :: (name, field)) + {(name, f0)};
    }
  }

  class RedisBaseRepositoryImpl<T(!new)> {
    const redisHelper: DriverRedisHelper
    /** The deployment's `ALL_TENANT` id. */
    const allTenant: Long
    /** JSON serialisation of an entity, and its inverse. */
    const encode: T -> string
    const decode: string -> T

    ghost predicate Valid()
      reads redisHelper
    {
      && redisHelper.Valid()
      && forall e :: decode(encode(e)) == e
    }

    constructor (redisHelper: DriverRedisHelper, allTenant: Long, encode: T -> string, decode: string -> T)
      requires redisHelper.Valid()
      requires forall e :: decode(encode(e)) == e
      ensures Valid()
      ensures this.redisHelper == redisHelper && this.allTenant == allTenant
      ensures this.encode == encode && this.decode == decode
    {
      this.redisHelper := redisHelper;
      this.allTenant := allTenant;
      this.encode := encode;
      this.decode := decode;
    }

    /** Decodes every JSON text, in order. */
    function DecodeAll(vs: seq<string>): (es: seq<T>)
      ensures |es| == |vs|
      ensures forall i :: 0 <= i < |vs| ==> es[i] == decode(vs[i])
    {
      if vs == [] then [] else [decode(vs[0])] + DecodeAll(vs[1..])
    }

    /** Decoding distributes over concatenation. */
    lemma DecodeAllAppend(a: seq<string>, b: seq<string>)
      ensures DecodeAll(a + b) == DecodeAll(a) + DecodeAll(b)
    {
      assert DecodeAll(a + b) == DecodeAll(a) + DecodeAll(b);
    }

    /** The decoded entities are exactly the decodings of the texts. */
    lemma DecodeAllMembership(vs: seq<string>)
      ensures forall x :: x in DecodeAll(vs) <==> exists v :: v in vs && x == decode(v)
    {
      var es := DecodeAll(vs);
      forall x ensures x in es <==> exists v :: v in vs && x == decode(v) {
        if x in es {
          var i :| 0 <= i < |es| && es[i] == x;
          assert vs[i] in vs;
        }
        if exists v :: v in vs && x == decode(v) {
          var v :| v in vs && x == decode(v);
          var i :| 0 <= i < |vs| && vs[i] == v;
          assert es[i] == x;
        }
      }
    }

    /** The fields of `h` whose JSON decodes to `x`. */
    ghost function FieldsDecodingTo(h: Hash, x: T): set<string> {
      set field | field in h && decode(h[field]) == x
    }

    /** The (hash name, field) cells of the named hashes whose JSON decodes to `x`. */
    ghost function CellsDecodingTo(s: Store, names: set<string>, x: T): set<(string, string)> {
      set name, field | name in names && field in Entries(s, name) && decode(Entries(s, name)[field]) == x :: (name, field)
    }

    /** Removing the field `f0` takes its decoding out of the count. */
    lemma FieldsDecodingWithout(h: Hash, f0: string, x: T)
      requires f0 in h
      ensures |FieldsDecodingTo(h, x)| == |FieldsDecodingTo(h - {f0}, x)| + (if decode(h[f0]) == x then 1 else 0)
    {
      if decode(h[f0]) == x {
        assert FieldsDecodingTo(h, x) == FieldsDecodingTo(h - {f0}, x) + {f0};
      } else {
        assert FieldsDecodingTo(h, x) == FieldsDecodingTo(h - {f0}, x);
      }
    }

    /** One more text, held by the field `f0`, adds its decoding once to the count. */
    lemma DecodeCountStep(v0: string, rest: seq<string>, h: Hash, f0: string, x: T)
      requires f0 in h && h[f0] == v0
      requires multiset(DecodeAll(rest))[x] == |FieldsDecodingTo(h - {f0}, x)|
      ensures multiset(DecodeAll([v0] + rest))[x] == |FieldsDecodingTo(h, x)|
    {
      assert multiset(DecodeAll([v0] + rest)) == multiset{decode(v0)} + multiset(DecodeAll(rest)) by {
        assert DecodeAll([v0] + rest) == [decode(v0)] + DecodeAll(rest);
      }
      FieldsDecodingWithout(h, f0, x);
    }

    /**
     * Decoding the values of a hash (in any order that counts each value once
     * per field holding it) yields each entity once per field decoding to it.
     */
    lemma {:induction false} DecodeCount(vs: seq<string>, h: Hash)
      requires |vs| == |h|
      requires forall v :: multiset(vs)[v] == |Holding(h, v)|
      ensures forall x :: multiset(DecodeAll(vs))[x] == |FieldsDecodingTo(h, x)|
      decreases |vs|
    {
      if vs == [] {
        assert h == map[];
      } else {
        var v0, rest := vs[0], vs[1..];
        assert vs == [v0] + rest;
        assert multiset(vs) == multiset{v0} + multiset(rest);
        var f0 :| f0 in Holding(h, v0);
        HoldingWithout(h, f0);
        DecodeCount(rest, h - {f0});
        forall x ensures multiset(DecodeAll(vs))[x] == |FieldsDecodingTo(h, x)| {
          DecodeCountStep(v0, rest, h, f0, x);
        }
      }
    }

    /** The cells of one more hash, whose name is new, add to the count. */
    lemma CellsSplit(s: Store, n0: string, rest: set<string>, x: T)
      requires n0 !in rest
      ensures |CellsDecodingTo(s, {n0} + rest, x)| == |FieldsDecodingTo(Entries(s, n0), x)| + |CellsDecodingTo(s, rest, x)|
    {
      var fields := FieldsDecodingTo(Entries(s, n0), x);
      var here := set field | field in fields :: (n0, field);
      var all, there := CellsDecodingTo(s, {n0} + rest, x), CellsDecodingTo(s, rest, x);
      forall p | p in all ensures p in here + there {
        var name, field :| name in {n0} + rest && field in Entries(s, name) && decode(Entries(s, name)[field]) == x && p == (name, field);
        if name == n0 {
          assert field in fields;
        }
      }
      forall p | p in here + there ensures p in all {
        if p in here {
          var field :| field in fields && p == (n0, field);
        } else {
          var name, field :| name in rest && field in Entries(s, name) && decode(Entries(s, name)[field]) == x && p == (name, field);
        }
      }
      assert all == here + there;
      forall p | p in there ensures p !in here {
        var name, field :| name in rest && field in Entries(s, name) && decode(Entries(s, name)[field]) == x && p == (name, field);
      }
      assert here * there == {};
      TaggedCount(n0, fields);
    }

    /** The decoded values of the named hashes are those of the first, then those of the rest. */
    lemma FlatDecodeCons(s: Store, names: seq<string>)
      requires names != []
      ensures multiset(DecodeAll(FlatValues(s, names)))
           == multiset(DecodeAll(Values(s, names[0]))) + multiset(DecodeAll(FlatValues(s, names[1..])))
    {
      DecodeAllAppend(Values(s, names[0]), FlatValues(s, names[1..]));
    }

    /** The cells of the named hashes are those of the first, then those of the rest. */
    lemma CellsCons(s: Store, names: seq<string>, x: T)
      requires names != [] && names[0] !in names[1..]
      ensures |CellsDecodingTo(s, NameSet(names), x)|
           == |FieldsDecodingTo(Entries(s, names[0]), x)| + |CellsDecodingTo(s, NameSet(names[1..]), x)|
    {
      assert NameSet(names) == {names[0]} + NameSet(names[1..]);
      CellsSplit(s, names[0], NameSet(names[1..]), x);
    }

    /**
     * Decoding the values of distinct named hashes, hash after hash, yields
     * each entity once per cell decoding to it.
     */
    lemma {:induction false} FlatDecodeCount(s: Store, names: seq<string>)
      requires forall i, j :: 0 <= i < j < |names| ==> names[i] != names[j]
      ensures forall x :: multiset(DecodeAll(FlatValues(s, names)))[x] == |CellsDecodingTo(s, NameSet(names), x)|
      decreases |names|
    {
      if names == [] {
        forall x ensures CellsDecodingTo(s, NameSet(names), x) == {} { }
      } else {
        var n0, rest := names[0], names[1..];
        FlatDecodeCount(s, rest);
        assert n0 !in rest by {
          forall j | 0 <= j < |rest| ensures rest[j] != n0 {
            assert rest[j] == names[j + 1];
          }
        }
        FlatDecodeCons(s, names);
        DecodeCount(Values(s, n0), Entries(s, n0));
        forall x ensures multiset(DecodeAll(FlatValues(s, names)))[x] == |CellsDecodingTo(s, NameSet(names), x)| {
          CellsCons(s, names, x);
        }
      }
    }

    /** The entity stored under `key` in the tenant's hash, null when there is none. */
    function GetByKey(tenantId: Option<Long>, key: string): (r: Option<T>)
      reads redisHelper
      ensures r.Some? <==> IsExist(tenantId, key)
      ensures r.Some? ==> r.value == decode(redisHelper.hashes[GetKey(tenantId)][key])
    {
      Lookup(redisHelper.hashes, tenantId, key)
    }

    /** What `getByKey` reads from the key space `s`. */
    function Lookup(s: Store, tenantId: Option<Long>, key: string): Option<T> {
      match Get(s, GetKey(tenantId), key)
      case None => None
      case Some(json) => Some(decode(json))
    }

    /** Whether the tenant's hash has the field `key`. */
    function IsExist(tenantId: Option<Long>, key: string): (r: bool)
      reads redisHelper
      ensures r <==> GetKey(tenantId) in redisHelper.hashes && key in redisHelper.hashes[GetKey(tenantId)]
    {
      redisHelper.HashHasKey(GetKey(tenantId), key)
    }

    /**
     * `getAll()`: the entities of every hash the all-tenants pattern matches,
     * that is of every hash whose name starts with the template's prefix.
     */
    ghost function GetAllTenants(): (r: seq<T>)
      reads redisHelper
      ensures forall x :: x in r <==>
        exists name, field :: && name in redisHelper.hashes && KeyPrefix <= name
                              && field in redisHelper.hashes[name]
                              && x == decode(redisHelper.hashes[name][field])
      ensures forall x ::
        multiset(r)[x] == |CellsDecodingTo(redisHelper.hashes, PrefixedNames(redisHelper.hashes), x)|
    {
      var names := Enumerate(redisHelper.KeysPattern(GetKey(None)));
      var vs := FlatValues(redisHelper.hashes, names);
      AllTenantValues(redisHelper.hashes);
      DecodeAllMembership(vs);
      StreamedNames(redisHelper.hashes);
      FlatDecodeCount(redisHelper.hashes, names);
      DecodeAll(vs)
    }

    /** The hash names `getAll()` streams are exactly the stored names with the template's prefix. */
    lemma StreamedNames(s: Store)
      ensures NameSet(Enumerate(KeysMatching(s, GetKey(None)))) == PrefixedNames(s)
    {
      PatternMatchesPrefix();
    }

    /**
     * `getAll(tenantId)`: every entity of every tenant for `ALL_TENANT`;
     * otherwise one entity per field of the tenant's own hash.
     */
    ghost function GetAll(tenantId: Option<Long>): (r: seq<T>)
      reads redisHelper
      ensures tenantId == Some(allTenant) ==> r == GetAllTenants()
      ensures tenantId != Some(allTenant) ==> |r| == redisHelper.HashSize(GetKey(tenantId))
      ensures tenantId != Some(allTenant) ==>
        forall x :: multiset(r)[x] == |FieldsDecodingTo(Entries(redisHelper.hashes, GetKey(tenantId)), x)|
    {
      if tenantId == Some(allTenant) then GetAllTenants()
      else TenantEntities(redisHelper.hashes, tenantId)
    }

    /** What `getAll(tenantId)` reads from the key space `s` outside `ALL_TENANT`. */
    ghost function TenantEntities(s: Store, tenantId: Option<Long>): (es: seq<T>)
      ensures |es| == Size(s, GetKey(tenantId))
      ensures forall x :: multiset(es)[x] == |FieldsDecodingTo(Entries(s, GetKey(tenantId)), x)|
    {
      var vs := Values(s, GetKey(tenantId));
      DecodeCount(vs, Entries(s, GetKey(tenantId)));
      DecodeAll(vs)
    }

    /** Outside `ALL_TENANT`, `getAll` returns exactly the decoded values of the tenant's own hash. */
    lemma GetAllMembership(tenantId: Option<Long>)
      requires tenantId != Some(allTenant)
      ensures forall x :: x in GetAll(tenantId) <==>
        exists field :: && field in Entries(redisHelper.hashes, GetKey(tenantId))
                        && x == decode(Entries(redisHelper.hashes, GetKey(tenantId))[field])
    {
      ValuesOfMembership(redisHelper.HashGetAll(GetKey(tenantId)));
      DecodeAllMembership(redisHelper.HashValues(GetKey(tenantId)));
    }

    /**
     * Stores the entity's JSON under a key that is not yet present; a present
     * key raises and leaves the store as it was.
     */
    method Create(tenantId: Option<Long>, key: string, entity: T) returns (outcome: Outcome<DriverException>)
      requires Valid()
      modifies redisHelper
      ensures Valid()
      ensures old(IsExist(tenantId, key)) ==>
        outcome == Fail(EntityExists) && redisHelper.hashes == old(redisHelper.hashes)
      ensures !old(IsExist(tenantId, key)) ==>
        outcome == Pass && redisHelper.hashes == Put(old(redisHelper.hashes), GetKey(tenantId), key, encode(entity))
      ensures outcome == Pass ==> GetByKey(tenantId, key) == Some(entity)
      ensures forall t, k :: t != tenantId || k != key ==> GetByKey(t, k) == Lookup(old(redisHelper.hashes), t, k)
    {
      if IsExist(tenantId, key) {
        return Fail(EntityExists);
      }
      redisHelper.HashPut(GetKey(tenantId), key, encode(entity));
      ReadsElsewhereUnchanged(redisHelper.hashes, old(redisHelper.hashes), tenantId, [key]);
      outcome := Pass;
    }

    /** Replaces the entity under a present key; an absent key raises and leaves the store as it was. */
    method Update(tenantId: Option<Long>, key: string, entity: T) returns (outcome: Outcome<DriverException>)
      requires Valid()
      modifies redisHelper
      ensures Valid()
      ensures !old(IsExist(tenantId, key)) ==>
        outcome == Fail(EntityNotExists) && redisHelper.hashes == old(redisHelper.hashes)
      ensures old(IsExist(tenantId, key)) ==>
        outcome == Pass && redisHelper.hashes == Put(old(redisHelper.hashes), GetKey(tenantId), key, encode(entity))
      ensures outcome == Pass ==> GetByKey(tenantId, key) == Some(entity)
      ensures forall t, k :: t != tenantId || k != key ==> GetByKey(t, k) == Lookup(old(redisHelper.hashes), t, k)
    {
      if !IsExist(tenantId, key) {
        return Fail(EntityNotExists);
      }
      redisHelper.HashPut(GetKey(tenantId), key, encode(entity));
      ReadsElsewhereUnchanged(redisHelper.hashes, old(redisHelper.hashes), tenantId, [key]);
      outcome := Pass;
    }

    /**
     * Writes a batch of already serialised entities when none of their keys
     * is present; otherwise raises, naming a present key, before any write.
     */
    method BatchCreate(tenantId: Option<Long>, entries: map<string, string>) returns (outcome: Outcome<DriverException>)
      requires Valid()
      modifies redisHelper
      ensures Valid()
      ensures outcome.Fail? <==> exists k :: k in entries && HasKey(old(redisHelper.hashes), GetKey(tenantId), k)
      ensures outcome.Fail? ==>
        && outcome.error.KeyExists? && outcome.error.key in entries
        && HasKey(old(redisHelper.hashes), GetKey(tenantId), outcome.error.key)
        && redisHelper.hashes == old(redisHelper.hashes)
      ensures outcome.Pass? ==> redisHelper.hashes == PutAll(old(redisHelper.hashes), GetKey(tenantId), entries)
      ensures outcome.Pass? ==> forall k :: k in entries ==> GetByKey(tenantId, k) == Some(decode(entries[k]))
    {
      var present := set k | k in entries && IsExist(tenantId, k);
      if present != {} {
        var k :| k in present;
        return Fail(KeyExists(k));
      }
      assert forall k :: k in entries ==> k !in present;
      redisHelper.HashPutAll(GetKey(tenantId), entries);
      outcome := Pass;
    }

    /**
     * Writes a batch of already serialised entities when all of their keys
     * are present; otherwise raises, naming an absent key, before any write.
     */
    method BatchUpdate(tenantId: Option<Long>, entries: map<string, string>) returns (outcome: Outcome<DriverException>)
      requires Valid()
      modifies redisHelper
      ensures Valid()
      ensures outcome.Fail? <==> exists k :: k in entries && !HasKey(old(redisHelper.hashes), GetKey(tenantId), k)
      ensures outcome.Fail? ==>
        && outcome.error.KeyNotExists? && outcome.error.key in entries
        && !HasKey(old(redisHelper.hashes), GetKey(tenantId), outcome.error.key)
        && redisHelper.hashes == old(redisHelper.hashes)
      ensures outcome.Pass? ==> redisHelper.hashes == PutAll(old(redisHelper.hashes), GetKey(tenantId), entries)
      ensures outcome.Pass? ==> forall k :: k in entries ==> GetByKey(tenantId, k) == Some(decode(entries[k]))
    {
      var absent := set k | k in entries && !IsExist(tenantId, k);
      if absent != {} {
        var k :| k in absent;
        return Fail(KeyNotExists(k));
      }
      assert forall k :: k in entries ==> k !in absent;
      redisHelper.HashPutAll(GetKey(tenantId), entries);
      outcome := Pass;
    }

    /** Removes one entity of the tenant; an absent key is not an error. */
    method Delete(tenantId: Option<Long>, key: string)
      requires Valid()
      modifies redisHelper
      ensures Valid()
      ensures redisHelper.hashes == DeleteFields(old(redisHelper.hashes), GetKey(tenantId), [key])
      ensures GetByKey(tenantId, key) == None
      ensures forall t, k :: t != tenantId || k != key ==> GetByKey(t, k) == Lookup(old(redisHelper.hashes), t, k)
    {
      redisHelper.HashDelete(GetKey(tenantId), [key]);
      ReadsElsewhereUnchanged(redisHelper.hashes, old(redisHelper.hashes), tenantId, [key]);
    }

    /** Removes the listed entities of the tenant; absent keys are not an error. */
    method BatchDelete(tenantId: Option<Long>, keys: seq<string>)
      requires Valid()
      modifies redisHelper
      ensures Valid()
      ensures redisHelper.hashes == DeleteFields(old(redisHelper.hashes), GetKey(tenantId), keys)
      ensures forall k :: k in keys ==> GetByKey(tenantId, k) == None
      ensures forall t, k :: t != tenantId || k !in keys ==> GetByKey(t, k) == Lookup(old(redisHelper.hashes), t, k)
    {
      redisHelper.HashDelete(GetKey(tenantId), keys);
      ReadsElsewhereUnchanged(redisHelper.hashes, old(redisHelper.hashes), tenantId, keys);
    }

    /**
     * Drops the tenant's whole hash: afterwards its `getAll` is empty (unless
     * it is `ALL_TENANT`, whose `getAll` reads every tenant), and every other
     * tenant's entities are as they were.
     */
    method Clear(tenantId: Option<Long>)
      requires Valid()
      modifies redisHelper
      ensures Valid()
      ensures redisHelper.hashes == DeleteKey(old(redisHelper.hashes), GetKey(tenantId))
      ensures forall k :: GetByKey(tenantId, k) == None
      ensures forall t, k :: t != tenantId ==> GetByKey(t, k) == Lookup(old(redisHelper.hashes), t, k)
      ensures forall t :: t != tenantId && t != Some(allTenant) ==> GetAll(t) == TenantEntities(old(redisHelper.hashes), t)
      ensures tenantId != Some(allTenant) ==> GetAll(tenantId) == []
    {
      redisHelper.DelKey(GetKey(tenantId));
      assert Entries(redisHelper.hashes, GetKey(tenantId)) == map[];
      OtherTenantsUnchanged(redisHelper.hashes, old(redisHelper.hashes), tenantId);
      forall t | t != tenantId && t != Some(allTenant) ensures GetAll(t) == TenantEntities(old(redisHelper.hashes), t) {
        assert Values(redisHelper.hashes, GetKey(t)) == Values(old(redisHelper.hashes), GetKey(t));
      }
    }
  }

  /** Every entity a tenant's `getAll` returns is also among those of `getAll(ALL_TENANT)`. */
  lemma TenantEntitiesInAllTenants<T(!new)>(repo: RedisBaseRepositoryImpl<T>, t: Option<Long>)
    ensures forall x :: x in repo.GetAll(t) ==> x in repo.GetAll(Some(repo.allTenant))
  {
    if t != Some(repo.allTenant) {
      PatternCoversTenantKeys(t);
      PatternMatchesPrefix();
      repo.GetAllMembership(t);
      var s := repo.redisHelper.hashes;
      forall x | x in repo.GetAll(t) ensures x in repo.GetAllTenants() {
        var field :| field in Entries(s, GetKey(t)) && x == repo.decode(Entries(s, GetKey(t))[field]);
        assert GetKey(t) in s && KeyPrefix <= GetKey(t);
      }
    }
  }
}
