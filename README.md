# Tenant-scoped plugin datasource repository over a Redis hash store

This project models the storage layer of a plugin-driver platform. The platform
keeps the descriptions of its plugin datasources in Redis, one hash per tenant.
The model covers five pieces.

- **The store client** (`DriverRedisHelper`). Redis is reduced to its key space,
  a map from hash name to hash. The helper's commands (HSET, HMSET, HGET, HMGET,
  HGETALL, HEXISTS, HKEYS, HVALS, HLEN, HDEL, DEL, KEYS and the SCAN behind
  `keys`) are first stated as functions on store values in module `RedisHelper`.
  The class `RedisHelper.DriverRedisHelper` then holds the store in a field.
  Its writing methods change that field and are proved equal to those functions.
  Its reading functions (`HashGet`, `HashMultiGet`, `HashGetAll`, `HashHasKey`,
  `HashKeys`, `HashValues`, `HashSize`, `KeysPattern`) read the field through the
  same functions. Every method keeps the Redis invariant that no empty hash is
  ever stored.
- **The tenant's hash name** (`PluginDatasourceRepository.GetKey`). A tenant id
  gives `plugin:datasource:<decimal id>`. A null tenant gives the wildcard name
  `plugin:datasource:*`. This naming is the only thing that keeps tenants apart.
  The model proves that it does: the map from tenant to name is injective, and
  no tenant's name is the wildcard.
- **The generic repository** (`RedisBaseRepository.RedisBaseRepositoryImpl<T>`).
  Each entity is stored as JSON text in its tenant's hash. The class covers
  check-then-write `create`/`update`, batch writes that raise before any write,
  `delete`/`batchDelete`/`clear`, and `getAll`. For `ALL_TENANT`, `getAll` reads
  every hash the wildcard matches.
- **The entity** (`Entity.PluginDatasource`). Its last-update date never reads
  as null. The clock reading `now` is passed in as a parameter.
- **The filter** (`Preconditions.PluginDatasourceFilter`). It is a partial-equality
  match: every filter attribute that is set must equal the candidate's.

Java `null` is `JavaLang.Option.None`. `Long` and `Integer` are subset types of
`int` with their Java ranges. A thrown `DriverException` is the `Fail` case of
`JavaLang.Outcome`, and the store is left as the source leaves it when it throws.

## Model

| member | source | states |
|---|---|---|
| `RedisHelper.Entries` | plugin-driver-common/src/main/java/com/github/codingdebugallday/driver/common/infra/utils/DriverRedisHelper.java:169-177 | HGETALL of a stored hash is that hash; on a well-formed key space it is empty exactly when no hash has that name |
| `RedisHelper.Get` | plugin-driver-common/src/main/java/com/github/codingdebugallday/driver/common/infra/utils/DriverRedisHelper.java:146-156 | HGET gives nil exactly when the hash or the field is absent; otherwise it gives the stored value |
| `RedisHelper.HasKey` | plugin-driver-common/src/main/java/com/github/codingdebugallday/driver/common/infra/utils/DriverRedisHelper.java:179-188 | HEXISTS holds exactly when HGET of the same field is non-nil |
| `RedisHelper.Fields` | plugin-driver-common/src/main/java/com/github/codingdebugallday/driver/common/infra/utils/DriverRedisHelper.java:190-198 | HKEYS holds exactly the fields whose HGET is non-nil |
| `RedisHelper.Size` | plugin-driver-common/src/main/java/com/github/codingdebugallday/driver/common/infra/utils/DriverRedisHelper.java:190-229 | HLEN equals the number of field names HKEYS returns |
| `RedisHelper.MultiGet` | plugin-driver-common/src/main/java/com/github/codingdebugallday/driver/common/infra/utils/DriverRedisHelper.java:158-167 | HMGET gives one answer per requested field, in request order; each answer is that field's HGET |
| `RedisHelper.Enumerate` | plugin-driver-common/src/main/java/com/github/codingdebugallday/driver/common/infra/utils/DriverRedisHelper.java:260-268 | a set of hash names, streamed in an unspecified order, yields each name exactly once and nothing else |
| `RedisHelper.ValuesOf` | plugin-driver-common/src/main/java/com/github/codingdebugallday/driver/common/infra/utils/DriverRedisHelper.java:200-208 | HVALS has one entry per field; a value stored under n fields occurs exactly n times |
| `RedisHelper.Values` | plugin-driver-common/src/main/java/com/github/codingdebugallday/driver/common/infra/utils/DriverRedisHelper.java:200-208 | HVALS of a hash has HLEN entries, and each value occurs once per field holding it |
| `RedisHelper.ValuesOfMembership` | plugin-driver-common/src/main/java/com/github/codingdebugallday/driver/common/infra/utils/DriverRedisHelper.java:200-208 | a text is among a hash's values exactly when some field holds it |
| `RedisHelper.Put` | plugin-driver-common/src/main/java/com/github/codingdebugallday/driver/common/infra/utils/DriverRedisHelper.java:89-100 | after HSET the field reads the new value, whether or not the hash or field existed; other fields and other hashes are unchanged; no empty hash appears |
| `RedisHelper.PutAll` | plugin-driver-common/src/main/java/com/github/codingdebugallday/driver/common/infra/utils/DriverRedisHelper.java:102-110 | after HMSET every field of the map reads the map's value, overwriting old ones; other fields and hashes are unchanged; no empty hash appears |
| `RedisHelper.DeleteFields` | plugin-driver-common/src/main/java/com/github/codingdebugallday/driver/common/infra/utils/DriverRedisHelper.java:231-239 | after HDEL every listed field is absent and every unlisted field reads as before; absent fields are ignored; other hashes are unchanged; a hash left empty disappears |
| `RedisHelper.DeleteKey` | plugin-driver-common/src/main/java/com/github/codingdebugallday/driver/common/infra/utils/DriverRedisHelper.java:251-258 | after DEL the hash's entries are empty and HEXISTS is false for every field; other hashes are unchanged |
| `RedisHelper.OtherHashesUnchanged` | plugin-driver-common/src/main/java/com/github/codingdebugallday/driver/common/infra/utils/DriverRedisHelper.java:175-177 | two key spaces that differ only in one hash give the same HGETALL for every other name |
| `RedisHelper.KeysMatching` | plugin-driver-common/src/main/java/com/github/codingdebugallday/driver/common/infra/utils/DriverRedisHelper.java:260-268 | KEYS returns exactly the stored hash names the pattern matches, and each of those hashes is non-empty |
| `RedisHelper.DriverRedisHelper.constructor` | plugin-driver-common/src/main/java/com/github/codingdebugallday/driver/common/infra/utils/DriverRedisHelper.java:31-35 | the client attaches to the key space the server already holds (which has no empty hash) and sees exactly that key space |
| `RedisHelper.DriverRedisHelper.Keys` | plugin-driver-common/src/main/java/com/github/codingdebugallday/driver/common/infra/utils/DriverRedisHelper.java:55-87 | the list built from the scan holds exactly the stored names the pattern matches, each name once |
| `RedisHelper.DriverRedisHelper.HashPut` | plugin-driver-common/src/main/java/com/github/codingdebugallday/driver/common/infra/utils/DriverRedisHelper.java:89-100 | the new key space is `Put` of the old one, so the put-then-get and frame properties of `Put` hold; well-formedness is kept |
| `RedisHelper.DriverRedisHelper.HashPutAll` | plugin-driver-common/src/main/java/com/github/codingdebugallday/driver/common/infra/utils/DriverRedisHelper.java:102-110 | the new key space is `PutAll` of the old one; well-formedness is kept |
| `RedisHelper.DriverRedisHelper.HashDelete` | plugin-driver-common/src/main/java/com/github/codingdebugallday/driver/common/infra/utils/DriverRedisHelper.java:231-239 | the new key space is `DeleteFields` of the old one; well-formedness is kept |
| `RedisHelper.DriverRedisHelper.HashRemove` | plugin-driver-common/src/main/java/com/github/codingdebugallday/driver/common/infra/utils/DriverRedisHelper.java:241-249 | the array form of HDEL has the same effect as `HashDelete` |
| `RedisHelper.DriverRedisHelper.DelKey` | plugin-driver-common/src/main/java/com/github/codingdebugallday/driver/common/infra/utils/DriverRedisHelper.java:251-258 | the new key space is `DeleteKey` of the old one; well-formedness is kept |
| `RedisHelper.DriverRedisHelper.HashGet` | plugin-driver-common/src/main/java/com/github/codingdebugallday/driver/common/infra/utils/DriverRedisHelper.java:154-156 | `hashGet` is HGET on the held key space: a value exactly when the hash and its field are stored, and then the stored value |
| `RedisHelper.DriverRedisHelper.HashMultiGet` | plugin-driver-common/src/main/java/com/github/codingdebugallday/driver/common/infra/utils/DriverRedisHelper.java:165-167 | `hashMultiGet` gives one answer per requested field, in request order, each being that field's `hashGet` |
| `RedisHelper.DriverRedisHelper.HashGetAll` | plugin-driver-common/src/main/java/com/github/codingdebugallday/driver/common/infra/utils/DriverRedisHelper.java:175-177 | `hashGetAll` is the stored hash itself, and on a valid key space it is empty exactly when no hash has that name |
| `RedisHelper.DriverRedisHelper.HashHasKey` | plugin-driver-common/src/main/java/com/github/codingdebugallday/driver/common/infra/utils/DriverRedisHelper.java:186-188 | `hashHasKey` holds exactly when `hashGet` of the same field is non-null |
| `RedisHelper.DriverRedisHelper.HashKeys` | plugin-driver-common/src/main/java/com/github/codingdebugallday/driver/common/infra/utils/DriverRedisHelper.java:196-198 | `hashKeys` holds exactly the fields whose `hashGet` is non-null |
| `RedisHelper.DriverRedisHelper.HashValues` | plugin-driver-common/src/main/java/com/github/codingdebugallday/driver/common/infra/utils/DriverRedisHelper.java:206-208 | `hashValues` has `hashSize` entries, and each value occurs once per field of `hashGetAll` holding it |
| `RedisHelper.DriverRedisHelper.HashSize` | plugin-driver-common/src/main/java/com/github/codingdebugallday/driver/common/infra/utils/DriverRedisHelper.java:227-229 | `hashSize` is the number of fields `hashKeys` returns |
| `RedisHelper.DriverRedisHelper.KeysPattern` | plugin-driver-common/src/main/java/com/github/codingdebugallday/driver/common/infra/utils/DriverRedisHelper.java:266-268 | `keysPattern` is exactly the set of stored hash names the pattern matches, each non-empty on a valid key space |
| `PluginDatasourceRepository.Digits` | plugin-driver-common/src/main/java/com/github/codingdebugallday/driver/common/infra/repository/PluginDatasourceRepository.java:26 | the decimal digits of a natural number are non-empty, are all digit characters, and have no leading zero; there is one digit exactly below ten |
| `PluginDatasourceRepository.DigitsRoundTrip` | plugin-driver-common/src/main/java/com/github/codingdebugallday/driver/common/infra/repository/PluginDatasourceRepository.java:26 | reading the digits back by Horner's rule gives the number they were written from |
| `PluginDatasourceRepository.Decimal` | plugin-driver-common/src/main/java/com/github/codingdebugallday/driver/common/infra/repository/PluginDatasourceRepository.java:26 | the `%s` rendering of a `Long` starts with `-` exactly when it is negative, is otherwise made of digits, and has no leading zero after the optional sign (so never `-0` or `07`) |
| `PluginDatasourceRepository.DecimalRoundTrip` | plugin-driver-common/src/main/java/com/github/codingdebugallday/driver/common/infra/repository/PluginDatasourceRepository.java:26 | parsing the rendering of a `Long` (sign, then digits) gives back the `Long` itself, so the text is its decimal value |
| `PluginDatasourceRepository.DigitsCanonical` | plugin-driver-common/src/main/java/com/github/codingdebugallday/driver/common/infra/repository/PluginDatasourceRepository.java:26 | a digit string without a leading zero that denotes `m` is exactly the digits of `m` |
| `PluginDatasourceRepository.DecimalCanonical` | plugin-driver-common/src/main/java/com/github/codingdebugallday/driver/common/infra/repository/PluginDatasourceRepository.java:26 | `Long.toString`'s text is the only one in canonical form (optional `-`, digits, no leading zero, no `-0`) that denotes the value, so the hash name is exactly Java's |
| `PluginDatasourceRepository.GetKey` | plugin-driver-common/src/main/java/com/github/codingdebugallday/driver/common/infra/repository/PluginDatasourceRepository.java:23-28 | a null tenant gives `plugin:datasource:*`; a tenant id gives `plugin:datasource:` followed by its decimal rendering |
| `PluginDatasourceRepository.GetKeySegmentRoundTrip` | plugin-driver-common/src/main/java/com/github/codingdebugallday/driver/common/infra/repository/PluginDatasourceRepository.java:26 | a tenant's hash name starts with `plugin:datasource:` and the rest reads back as the tenant id |
| `PluginDatasourceRepository.DigitsInjective` | plugin-driver-common/src/main/java/com/github/codingdebugallday/driver/common/infra/repository/PluginDatasourceRepository.java:26 | two numbers with the same digits are equal |
| `PluginDatasourceRepository.DecimalInjective` | plugin-driver-common/src/main/java/com/github/codingdebugallday/driver/common/infra/repository/PluginDatasourceRepository.java:26 | two `Long`s with the same rendering are equal |
| `PluginDatasourceRepository.GetKeyInjective` | plugin-driver-common/src/main/java/com/github/codingdebugallday/driver/common/infra/repository/PluginDatasourceRepository.java:24-27 | tenant isolation: two tenant values (null included) share a hash name exactly when they are equal |
| `PluginDatasourceRepository.TenantKeyIsNotPattern` | plugin-driver-common/src/main/java/com/github/codingdebugallday/driver/common/infra/repository/PluginDatasourceRepository.java:24-27 | a tenant's hash name contains no `*` and is never the wildcard name |
| `PluginDatasourceRepository.PatternMatchesPrefix` | plugin-driver-common/src/main/java/com/github/codingdebugallday/driver/common/infra/repository/PluginDatasourceRepository.java:27 | the wildcard name, used as a pattern, matches exactly the names that start with `plugin:datasource:` |
| `PluginDatasourceRepository.PatternCoversTenantKeys` | plugin-driver-common/src/main/java/com/github/codingdebugallday/driver/common/infra/repository/PluginDatasourceRepository.java:24-27 | the wildcard pattern matches every tenant's hash name, and the literal wildcard hash too |
| `Entity.PluginDatasource.constructor` | plugin-driver-common/src/main/java/com/github/codingdebugallday/driver/common/domain/entity/PluginDatasource.java:22-40 | the all-arguments constructor stores each of the ten attributes as given |
| `Entity.PluginDatasource.GetLastUpdateDate` | plugin-driver-common/src/main/java/com/github/codingdebugallday/driver/common/domain/entity/PluginDatasource.java:46-48 | the getter gives the stored time when there is one, and the clock reading otherwise; it changes nothing |
| `Entity.PluginDatasource.SetLastUpdateDate` | plugin-driver-common/src/main/java/com/github/codingdebugallday/driver/common/domain/entity/PluginDatasource.java:50-52 | the setter stores a given time as is, or the clock reading for null; it changes only that attribute, and afterwards the getter ignores the clock |
| `Entity.GetterIgnoresClockWhenSet` | plugin-driver-common/src/main/java/com/github/codingdebugallday/driver/common/domain/entity/PluginDatasource.java:46-48 | with a stored time, two reads at any two clock readings agree and give the stored time |
| `Entity.GetterFollowsClockWhenUnset` | plugin-driver-common/src/main/java/com/github/codingdebugallday/driver/common/domain/entity/PluginDatasource.java:47 | with no stored time, reads at two different clock readings differ: the reading is not cached |
| `Preconditions.PluginDatasourceFilter` | plugin-driver-main/src/main/java/com/github/codingdebugallday/driver/core/infra/utils/Preconditions.java:29-48 | a null filter passes everything; otherwise a candidate passes exactly when plugin id, class and type each are empty in the filter or equal, and the enabled flag is null in the filter or equal |
| `Preconditions.EmptyFilterMatchesAll` | plugin-driver-main/src/main/java/com/github/codingdebugallday/driver/core/infra/utils/Preconditions.java:33-47 | a filter with all four attributes empty or null passes every candidate |
| `Preconditions.FilterReflexive` | plugin-driver-main/src/main/java/com/github/codingdebugallday/driver/core/infra/utils/Preconditions.java:29-48 | every datasource passes itself used as a filter |
| `Preconditions.TypeOnlyFilter` | plugin-driver-main/src/main/java/com/github/codingdebugallday/driver/core/infra/utils/Preconditions.java:41-47 | a filter setting only a non-empty type passes exactly the candidates of that type |
| `Preconditions.MismatchRejects` | plugin-driver-main/src/main/java/com/github/codingdebugallday/driver/core/infra/utils/Preconditions.java:33-47 | a set plugin id, class, type or enabled flag that differs from the candidate's rejects it on its own |
| `RedisBaseRepository.FlatValuesMembership` | plugin-driver-main/src/main/java/com/github/codingdebugallday/driver/core/infra/repository/impl/RedisBaseRepositoryImpl.java:55-56 | the `flatMap` of the named hashes' values holds exactly the texts stored in some field of some named hash |
| `RedisBaseRepository.AllTenantValues` | plugin-driver-main/src/main/java/com/github/codingdebugallday/driver/core/infra/repository/impl/RedisBaseRepositoryImpl.java:52-59 | the texts `getAll()` decodes are exactly those stored in a hash whose name starts with `plugin:datasource:` |
| `RedisBaseRepository.OtherTenantsUnchanged` | plugin-driver-main/src/main/java/com/github/codingdebugallday/driver/core/infra/repository/impl/RedisBaseRepositoryImpl.java:99-112 | a write confined to one tenant's hash leaves every other tenant's fields reading as before |
| `RedisBaseRepository.ReadsElsewhereUnchanged` | plugin-driver-main/src/main/java/com/github/codingdebugallday/driver/core/infra/repository/impl/RedisBaseRepositoryImpl.java:61-107 | a write to listed fields of one tenant's hash leaves every other (tenant, key) pair reading as before |
| `RedisBaseRepository.TenantEntitiesInAllTenants` | plugin-driver-main/src/main/java/com/github/codingdebugallday/driver/core/infra/repository/impl/RedisBaseRepositoryImpl.java:41-59 | every entity a tenant's `getAll` returns is among those `getAll(ALL_TENANT)` returns |
| `RedisBaseRepository.RedisBaseRepositoryImpl.constructor` | plugin-driver-main/src/main/java/com/github/codingdebugallday/driver/core/infra/repository/impl/RedisBaseRepositoryImpl.java:23-34 | the repository takes its store client, `ALL_TENANT` and the JSON pair, and starts valid |
| `RedisBaseRepository.RedisBaseRepositoryImpl.DecodeAll` | plugin-driver-main/src/main/java/com/github/codingdebugallday/driver/core/infra/repository/impl/RedisBaseRepositoryImpl.java:47-49 | the stream `map` decodes each text in place, keeping length and order |
| `RedisBaseRepository.RedisBaseRepositoryImpl.DecodeAllMembership` | plugin-driver-main/src/main/java/com/github/codingdebugallday/driver/core/infra/repository/impl/RedisBaseRepositoryImpl.java:47-49 | the decoded list holds exactly the decodings of the texts |
| `RedisBaseRepository.RedisBaseRepositoryImpl.DecodeCount` | plugin-driver-main/src/main/java/com/github/codingdebugallday/driver/core/infra/repository/impl/RedisBaseRepositoryImpl.java:47-49 | decoding the values of one hash yields each entity once per field whose JSON decodes to it |
| `RedisBaseRepository.RedisBaseRepositoryImpl.FlatDecodeCount` | plugin-driver-main/src/main/java/com/github/codingdebugallday/driver/core/infra/repository/impl/RedisBaseRepositoryImpl.java:55-58 | decoding the `flatMap` over distinct hash names yields each entity once per (hash, field) cell whose JSON decodes to it |
| `RedisBaseRepository.RedisBaseRepositoryImpl.TenantEntities` | plugin-driver-main/src/main/java/com/github/codingdebugallday/driver/core/infra/repository/impl/RedisBaseRepositoryImpl.java:46-49 | outside `ALL_TENANT`, `getAll` has HLEN entities, each occurring once per field of the tenant's hash whose JSON decodes to it |
| `RedisBaseRepository.RedisBaseRepositoryImpl.GetByKey` | plugin-driver-main/src/main/java/com/github/codingdebugallday/driver/core/infra/repository/impl/RedisBaseRepositoryImpl.java:36-39 | an entity comes back exactly when `isExist` holds, and it is the decoding of the stored text |
| `RedisBaseRepository.RedisBaseRepositoryImpl.IsExist` | plugin-driver-main/src/main/java/com/github/codingdebugallday/driver/core/infra/repository/impl/RedisBaseRepositoryImpl.java:114-117 | the key exists exactly when the tenant's hash is stored and has that field |
| `RedisBaseRepository.RedisBaseRepositoryImpl.GetAll` | plugin-driver-main/src/main/java/com/github/codingdebugallday/driver/core/infra/repository/impl/RedisBaseRepositoryImpl.java:41-59 | for `ALL_TENANT` the result is `getAll()`; for any other tenant it has one entity per field of the tenant's hash, so each entity occurs once per field whose JSON decodes to it |
| `RedisBaseRepository.RedisBaseRepositoryImpl.GetAllTenants` | plugin-driver-main/src/main/java/com/github/codingdebugallday/driver/core/infra/repository/impl/RedisBaseRepositoryImpl.java:52-59 | `getAll()` returns exactly the decodings of texts stored in a hash whose name starts with `plugin:datasource:`, each entity once per (hash, field) cell whose JSON decodes to it, so duplicates are kept |
| `RedisBaseRepository.RedisBaseRepositoryImpl.GetAllMembership` | plugin-driver-main/src/main/java/com/github/codingdebugallday/driver/core/infra/repository/impl/RedisBaseRepositoryImpl.java:41-50 | outside `ALL_TENANT`, `getAll` returns exactly the decodings of the tenant's own hash's values |
| `RedisBaseRepository.RedisBaseRepositoryImpl.Create` | plugin-driver-main/src/main/java/com/github/codingdebugallday/driver/core/infra/repository/impl/RedisBaseRepositoryImpl.java:61-67 | a present key raises `EntityExists` and writes nothing; an absent key gets the entity's JSON through HSET, reads back as the entity, and every other (tenant, key) reads as before |
| `RedisBaseRepository.RedisBaseRepositoryImpl.Update` | plugin-driver-main/src/main/java/com/github/codingdebugallday/driver/core/infra/repository/impl/RedisBaseRepositoryImpl.java:80-86 | an absent key raises `EntityNotExists` and writes nothing; a present key gets the entity's JSON, reads back as the entity, and every other (tenant, key) reads as before |
| `RedisBaseRepository.RedisBaseRepositoryImpl.BatchCreate` | plugin-driver-main/src/main/java/com/github/codingdebugallday/driver/core/infra/repository/impl/RedisBaseRepositoryImpl.java:69-78 | it raises exactly when some key of the batch is already present, naming such a key, with the store unchanged; otherwise it writes the raw texts through HMSET and each key reads back as their decoding |
| `RedisBaseRepository.RedisBaseRepositoryImpl.BatchUpdate` | plugin-driver-main/src/main/java/com/github/codingdebugallday/driver/core/infra/repository/impl/RedisBaseRepositoryImpl.java:88-97 | it raises exactly when some key of the batch is absent, naming such a key, with the store unchanged; otherwise it writes the raw texts through HMSET and each key reads back as their decoding |
| `RedisBaseRepository.RedisBaseRepositoryImpl.Delete` | plugin-driver-main/src/main/java/com/github/codingdebugallday/driver/core/infra/repository/impl/RedisBaseRepositoryImpl.java:99-102 | the key no longer reads, an absent key is no error, and every other (tenant, key) reads as before |
| `RedisBaseRepository.RedisBaseRepositoryImpl.BatchDelete` | plugin-driver-main/src/main/java/com/github/codingdebugallday/driver/core/infra/repository/impl/RedisBaseRepositoryImpl.java:104-107 | none of the listed keys reads afterwards, absent ones are no error, and every other (tenant, key) reads as before |
| `RedisBaseRepository.RedisBaseRepositoryImpl.Clear` | plugin-driver-main/src/main/java/com/github/codingdebugallday/driver/core/infra/repository/impl/RedisBaseRepositoryImpl.java:109-112 | the tenant's hash is dropped: no key of it reads and its `getAll` is empty (unless it is `ALL_TENANT`); every other tenant's keys and `getAll` are as before |

## Left out

- Redis transport: `RedisTemplate`, `HashOperations`, connections and serializers are not modelled. The store is one in-memory map of maps, and each command is atomic.
- `RedisHelper.DriverRedisHelper.Keys`: the `IOException` wrapped into a `DriverException`, UTF-8 decoding of the names, and the generic consumer callback of the scan are not modelled. The cursor is taken to yield each matching name once; the duplicates a real SCAN may return during a rehash are not modelled.
- `hashGetSerial` and `hashPutSerial` (raw byte access), the expiry constants and the date-format constant are not modelled; the repository uses none of them.
- `RedisHelper.MatchesPattern`: only the glob shape the repository produces is modelled. A pattern ending in `*` matches by prefix; any other pattern matches only itself. Redis's other glob syntax (`?`, `[...]`, escapes, a `*` elsewhere) is not modelled.
- Null strings: every hash name, field name, value and key passed to the store and the repository is a non-null `string`. In the source, the Redis client library rejects a null one with an exception; that error path is not modelled.
- JSON: `JsonUtil.toJson`/`toObj` are the abstract functions `encode`/`decode`, and `decode(encode(e)) == e` is a constructor precondition. Malformed JSON and its exceptions are not modelled. `getByKey` on an absent field gives null.
- `RedisBaseRepository.RedisBaseRepositoryImpl.constructor`: the round trip is assumed for every entity. For `PluginDatasource` a serialiser that reads through `getLastUpdateDate` turns a null date into the current time, so the round trip does not hold for an entity whose date is unset.
- `RedisBaseRepository.RedisBaseRepositoryImpl`: the entity type must be a value type (`T(!new)`), because the round trip and `getAll()` quantify over all entities. The source instantiates the repository with the mutable class `PluginDatasource`; the model cannot take that class as `T`, and aliasing of entity objects is not modelled.
- Reflection and DI (`Reflections.getClassGenericType`, `@PostConstruct`, `@Autowired`) are replaced by the type parameter `T` and constructor arguments.
- `@NotBlank` validation, the Lombok builder, generated `equals`/`hashCode`, and the plain getters and setters of the entity are not modelled.
- `LocalDateTime.now()` is the parameter `now`; a `LocalDateTime` is an integer time.
- Concurrency: operations are sequential. The check-then-write races of `create`, `update` and the batch writes between concurrent callers are not modelled.
- `CommonConstant` is not part of this model. `ALL_TENANT` is the constructor parameter `allTenant`. The template `plugin:datasource:%s` and the `*` segment come from the pattern noted at `DriverRedisHelper.java:74`.
- The repository's abstract `getKey` is bound to `PluginDatasourceRepository.GetKey`.
- The repository imports a `RedisHelper` class that is not part of this model. Every method it calls exists on `DriverRedisHelper`, so that class stands in for it.
- `Preconditions.PluginDatasourceFilter`: the filter reads `getPluginId()` of a `PluginDatasource` class that is not part of this model; it is modelled as `PluginDatasource.datasourcePluginId`. The candidate `left` is assumed non-null. With a null `left`, the source returns true when the filter is null or sets no attribute, and throws a `NullPointerException` otherwise; that case is not modelled.
- `RedisHelper.DriverRedisHelper.HashDelete`: HDEL with no fields is a Redis error; the model treats it as a no-op.
- `RedisBaseRepository.RedisBaseRepositoryImpl.BatchDelete`: with an empty `keys` the source's HDEL has no fields and fails; the model, through `HashDelete`, treats it as a no-op.
- The `hashValues(key, hashKeys)` overload is the same HMGET as `hashMultiGet`, and is modelled by `HashMultiGet`.
- `RedisHelper.Enumerate`: the enumeration order of sets and hashes is unspecified in the source. The model fixes an unknown order (also in `RedisHelper.ValuesOf`), and no contract depends on it.
- `RedisBaseRepository.RedisBaseRepositoryImpl.BatchCreate`: `findFirst` reports the first present key in the map's iteration order; the model only promises that the reported key is present and in the batch.
- `RedisBaseRepository.RedisBaseRepositoryImpl.BatchUpdate`: `findFirst` reports the first absent key in the map's iteration order; the model only promises that the reported key is absent and in the batch.
- The texts of the exception messages are not modelled; only which error is raised. This includes `batchUpdate`'s "is exist" text for an absent key.
- `getAll(null)` and `create(null, …)` read and write the literal hash `plugin:datasource:*`. The model keeps this: that hash is one more name the wildcard pattern matches.
- The MySQL session factory and plugin registration are not part of this model: they only wrap a JDBC `DataSource` through dependency injection.
