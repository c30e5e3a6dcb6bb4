# pgcat in-sync cache and origin filter, modelled in Dafny

This project models the two pieces of pure logic in the pgcat PostgreSQL
extension (`pgcat.c`).

1. **The in-sync membership cache.** It is a per-backend set of relation Oids
   that have been marked as caught up for replication. The set lives in
   `LogicalRepRelMap`, which is NULL until the first lookup. The latch
   `invalidate_cb_set` records that the relcache invalidation callback has been
   registered. The model stores both globals in one immutable record,
   `InSyncCache.CacheState(store, registered, registrations)`. Its transitions
   are pure functions:
   - lookup-and-check (`pgcat_lock_and_check_table_insync`);
   - mark (`pgcat_set_table_insync`);
   - invalidate (`logicalrep_relmap_invalidate_cb`). Here `InvalidOid` (0) is
     the wildcard that destroys the whole store.

   `CacheTrace` runs arbitrary sequences of these events. It proves that
   "store present ⇒ registered" and "registered at most once" hold over the
   whole process lifetime.
2. **The origin-filter output plugin.** `_PG_output_plugin_init` asks
   pgoutput's initializer to fill the callback table. It then overwrites only
   `filter_by_origin_cb`, replacing it with `pgoutput_origin_filter`. That
   predicate returns `origin_id != 0`, and true means "skip this change". The
   callback table is a record with named slots. The base initializer is an
   opaque function. A small model of how the decoding engine consults the
   filter slot (`OutputPlugin.Replicated`) states the intended result: only
   locally originated changes are replicated, in their original order.

Modules:
- `Outcomes`: `Option` and `Result`.
- `PgTypes`: `Oid` is uint32, `RepOriginId` is uint16. Name resolution is a
  catalog map, and a missing name resolves to `InvalidOid`.
- `InSyncCache`, `CacheTrace`, `OutputPlugin`: as described above.
- `StringKeyedHash`: the store as the code actually creates it, as a table keyed
  by C strings. It is compared with the Oid-keyed store under "## Findings".

Two points about how the code relates to its intended behaviour:
- The origin predicate returns `origin_id != 0`. Under the output-plugin
  convention, true means the change is filtered out, so only origin 0 is
  replicated. `OriginFilterSkips` models the code's polarity: true means skip.
- An absent store is meant to read as "not a member" during a lookup. The code
  has no such check at the membership probe. The code also keys its hash table
  by C string rather than by the Oid's four bytes. Both are recorded under
  "## Findings".

## Model

| member | source | states |
|---|---|---|
| PgTypes.RangeVarGetRelid | pgcat.c:81-83 | With `missing_ok`, an unknown name resolves to `InvalidOid`, and a name in the catalog resolves to the Oid the catalog holds for it. |
| InSyncCache.BootState | pgcat.c:28-29 | At load time there is no store, the latch is clear and nothing is registered. Nothing is in sync, and the invariant holds. |
| InSyncCache.CreateHash | pgcat.c:31-40 | A freshly created store has no members. |
| InSyncCache.EnsureInitialized | pgcat.c:67-76 | Afterwards the store is present. An existing store is left untouched. An absent store becomes present and empty. Membership of every Oid is unchanged. A set latch means no new registration. There is at most one extra registration. The invariant is preserved and the latch ends up set. |
| InSyncCache.Invalidate | pgcat.c:42-57 | With no store, nothing changes. Oid 0 makes the store absent. A valid Oid removes only that Oid, with no error if it was absent: every other Oid keeps its membership and the store stays present. The latch and the registration count are never touched. |
| InSyncCache.Mark | pgcat.c:97-107 | With no store, marking is a no-op. Otherwise the Oid becomes a member and every other Oid keeps its membership. The latch and the count are never touched. |
| InSyncCache.MarkIdempotent | pgcat.c:104-105 | Marking twice equals marking once. |
| InSyncCache.Deliver | pgcat.c:42-57 | A run of invalidations can only remove members: it removes exactly the listed Oids. If the run contains the wildcard, the store ends absent. Otherwise store presence is preserved. The latch and the count never change. |
| InSyncCache.Lookup | pgcat.c:59-95 | The lookup raises `RelationNotFound(name)` exactly when the name does not resolve to a valid Oid. Otherwise it answers whether the resolved Oid is a member of the store after the call, and an absent store counts as "not a member". After the call, an Oid is in sync exactly when it was in sync before, was not invalidated while the name was resolved, and no wildcard arrived during resolution. A wildcard during resolution leaves the store absent. With no invalidations pending, the store is present afterwards, even when the lookup fails. The invariant is preserved and a set latch means no new registration. |
| InSyncCache.InvalidatedDuringResolutionAnswersFalse | pgcat.c:81-94 | A relation whose invalidation arrives while its name is being resolved reads as not in sync. |
| InSyncCache.LookupAsWritten | pgcat.c:81-94 | The code as written crashes exactly when the name resolves and a wildcard invalidation arrives during resolution. In every other case it returns the same reply as `Lookup`. |
| InSyncCache.ResetDuringResolutionCrashes | pgcat.c:81-93 | A concrete input on which the code as written probes a NULL store: a first lookup of an existing relation while a relcache reset is delivered. |
| InSyncCache.ResetDuringResolutionAnswersFalse | pgcat.c:92-94 | When a relation resolves and a wildcard invalidation arrives during resolution, the corrected lookup answers false and leaves the store absent. The next lookup recreates the store empty. |
| InSyncCache.FailedLookupKeepsStore | pgcat.c:67-90 | The store is created before resolution, so a failed lookup still leaves the store initialized with its members unchanged. |
| CacheTrace.RunPreservesValid | pgcat.c:67-76 | Every sequence of lookups, marks and invalidations preserves the invariant: a present store implies the callback is registered, and the registration count is 1 if registered and 0 otherwise. |
| CacheTrace.RegisteredAtMostOnce | pgcat.c:70-75 | From process start, the callback is registered at most once across any number of destroy and recreate cycles. |
| CacheTrace.LatchNeverReset | pgcat.c:70-75 | Once set, the latch stays set and no further registration happens. |
| CacheTrace.NeverMarkedNeverInSync | pgcat.c:92-105 | A relation that is not a member and is never marked stays a non-member under any events, so lookups of it answer false. |
| CacheTrace.MarkThenCheck | pgcat.c:92-105 | When the store is present, marking R and then looking up a name that resolves to R answers true. |
| CacheTrace.MarkBeforeFirstCheckIsDropped | pgcat.c:97-107 | A mark made before any lookup leaves the initial state unchanged, so the first lookup answers false. |
| CacheTrace.InvalidateThenCheck | pgcat.c:42-51 | After a specific invalidation of R, a lookup of R answers false and every other relation keeps its membership. |
| CacheTrace.WildcardThenCheck | pgcat.c:42-76 | After a wildcard invalidation nothing is a member. The next lookup recreates an empty store without registering the callback a second time. |
| OutputPlugin.Decorate | pgcat.c:133 | The origin-filter slot holds the local-only filter, and every other slot equals the input's. |
| OutputPlugin.DecorateIdempotent | pgcat.c:133 | Decorating an already decorated table changes nothing. |
| OutputPlugin.PluginInit | pgcat.c:119-134 | Init fails with `MissingInitSymbol` exactly when the base initializer cannot be located. Otherwise the table's filter slot is the local-only filter and every other slot equals what the base initializer produced. |
| OutputPlugin.PluginInitOnlyReplacesFilter | pgcat.c:130-133 | Slot by slot, a successful init yields the base initializer's table with only `filter_by_origin_cb` replaced. |
| OutputPlugin.OriginFilterSkips | pgcat.c:110-114 | Of the 16-bit origin ids, the filter skips exactly the replayed ones (1 to 65535) and passes only the local origin 0. |
| OutputPlugin.OriginFilterSkipsReplayedSamples | pgcat.c:109-114 | The filter skips the sample replayed origins 1, 42 and 65535, the largest 16-bit id. |
| OutputPlugin.DecoratedReplicatesLocalOnly | pgcat.c:109-114 | With the decorated filter, a change is replicated exactly when it occurs in the stream and has origin 0. |
| OutputPlugin.DecoratedReplicatesLocalChanges | pgcat.c:109-114 | With the decorated filter, the replicated stream equals the independently defined subsequence of local changes, in order. |
| OutputPlugin.PluginReplicatesLocalOnly | pgcat.c:109-134 | Whatever filter the base plugin installed, a table built by init replicates exactly the local changes, in order. |
| StringKeyedHash.HashKey | pgcat.c:36-39 | The key the table stores for an Oid is a C string: the Oid's little-endian bytes up to the first zero byte, cut at `keysize - 1` = 3 bytes. |
| StringKeyedHash.RawFoundSharesKey | pgcat.c:92-93 | The table as written finds an Oid exactly when some marked Oid has the same string key. |
| StringKeyedHash.RawEnterMatchesMark | pgcat.c:104-105 | Entering an Oid into the table as written stores exactly the keys of the corrected mark's result. |
| StringKeyedHash.RawRemoveDropsSharedKeys | pgcat.c:47-51 | A specific invalidation in the table as written drops every marked Oid that shares the invalidated Oid's string key, not just that Oid. |
| StringKeyedHash.RawAgreesWhenKeysDistinct | pgcat.c:92-93 | When no other marked Oid shares the key, the table as written gives the same answer as the corrected set. |
| StringKeyedHash.MarkedNeighbourReadsInSync | pgcat.c:36-39 | Oids 16384 and 16640 both have the empty key. After marking 16384, the table as written reports 16640 as in sync, and the corrected cache does not. |
| StringKeyedHash.InvalidateDropsNeighbour | pgcat.c:47-51 | After marking 16384, invalidating 16640 also drops 16384 from the table as written, and the corrected cache keeps 16384. |

## Findings

| source | as written | input that shows it | evidently intended | confidence | as-written member | corrected member |
|---|---|---|---|---|---|---|
| pgcat.c:81-94 | `hash_search(LogicalRepRelMap, ...)` runs after `RangeVarGetRelid`. To take `AccessShareLock`, that call processes pending invalidation messages. A relcache reset in those messages runs the callback with `InvalidOid`, which destroys the store and sets `LogicalRepRelMap` to NULL. The probe then receives a NULL table. | First lookup in a backend (no store yet) of an existing relation `public.t` (Oid 16384), with a relcache reset delivered while the lock is taken. | An absent store reads as "not a member", so the lookup answers false. | medium: not executed | InSyncCache.ResetDuringResolutionCrashes | InSyncCache.Lookup |
| pgcat.c:36-39 | `hash_create` gets `HASH_ELEM` without `HASH_BLOBS`. In a release build, the table then hashes, copies and compares keys as C strings over `keysize - 1` = 3 bytes. An assert-enabled build of PostgreSQL 14 or later fails an assertion instead. An Oid is keyed by its bytes up to the first zero byte. Every Oid that is a multiple of 256 gets the empty key. Oids that agree in their low three bytes also share a key. | Mark 16384, then look up a relation with Oid 16640: the answer is true. Invalidating 16640 removes 16384. | Each Oid is its own key, as `HASH_BLOBS` would give. Marking or invalidating one relation touches no other. | high: not executed | StringKeyedHash.MarkedNeighbourReadsInSync | InSyncCache.Mark |

The trace model and the scenario lemmas use the corrected `InSyncCache.Lookup`.
`InSyncCache.LookupAsWritten` agrees with it on every input where no wildcard
invalidation arrives during resolution. The cache model keys its store by Oid,
which is the corrected behaviour. `StringKeyedHash` states how the string-keyed
table as written relates to it. The two agree whenever no two marked Oids share
a string key. `InSyncCache.Invalidate`, `InSyncCache.Mark`, `InSyncCache.Deliver`,
`CacheTrace.InvalidateThenCheck` and `CacheTrace.NeverMarkedNeverInSync` promise
that other Oids are unaffected. That promise holds for the corrected store and
not for the table as written.

## Left out

- SQL call glue: `PG_FUNCTION_ARGS`, `PG_GETARG_*`, `text_to_cstring`, `pfree` and `PG_RETURN_*` only marshal arguments. The names reach the model as a `QualifiedName`. The error message at pgcat.c:89-90 formats the schema and relation strings after they were freed at pgcat.c:85-86. The model carries the intended names in `RelationNotFound` because memory lifetime is not modelled.
- Locking: the `AccessShareLock` taken by `RangeVarGetRelid` belongs to the external lock manager. Name resolution is a pure lookup in a catalog map. The only lock side effect modelled is the invalidations delivered while the lock is acquired (the `during` argument of `Lookup`).
- Hash-table internals: the initial capacity of 128, `entrysize`, bucket layout and hash values, and the memory behind `hash_create`/`hash_destroy` are not modelled. The corrected store is a set of Oids. The string-key behaviour that follows from `keysize` and the missing `HASH_BLOBS` is modelled separately in `StringKeyedHash`, assuming a little-endian machine.
- Dynamic loading: `load_external_function` and the `$libdir/pgoutput` path are foreign calls. Their result is an opaque `Option<Initializer>`. Errors that the loader raises itself, such as a missing library file, are not distinguished from a missing symbol.
- Other callback slots: their behaviour belongs to pgoutput. The model only proves they are preserved. The table has the eight classic `OutputPluginCallbacks` slots. Slots added in later PostgreSQL versions (two-phase and streaming callbacks) would be further fields, preserved the same way by the single-field update.
- Decoding engine: only its use of the origin-filter slot is modelled (`Skips`, `Replicated`), in order to state what the filter achieves. An unset slot filters nothing. The base plugin's own filter is an arbitrary function.
- Cross-process invalidation broadcast and asynchronous delivery: these are runtime machinery. Invalidations appear only as explicit events (`CacheTrace.RelcacheInvalidation`) or as the invalidations delivered during name resolution.
- Out-of-memory and other errors raised inside `hash_create`, `hash_search` and `CacheRegisterRelcacheCallback` are not modelled. Every store operation succeeds.
