/**
  Sequences of calls into the in-sync cache over the lifetime of one backend
  process, and the properties that hold across any such sequence.
 */
module CacheTrace {
  import opened Outcomes
  import opened PgTypes
  import opened InSyncCache

  /** One thing that happens to the cache: a SQL-level call or an invalidation from the runtime. */
  datatype Event =
    | CheckInSync(catalog: Catalog, name: QualifiedName, during: seq<Oid>)
    | SetInSync(relid: Oid)
    | RelcacheInvalidation(reloid: Oid)

  function Step(s: CacheState, e: Event): CacheState {
    match e
    case CheckInSync(catalog, name, during) => Lookup(s, catalog, name, during).state
    case SetInSync(relid) => Mark(s, relid)
    case RelcacheInvalidation(reloid) => Invalidate(s, reloid)
  }

  /** The globals after the events happen in order, starting from `s`. */
  function Run(s: CacheState, events: seq<Event>): CacheState
    decreases |events|
  {
    if |events| == 0 then s else Run(Step(s, events[0]), events[1..])
  }

  /** Every event keeps "store present implies registered" and "registered exactly once if at all". */
  lemma {:induction false} RunPreservesValid(s: CacheState, events: seq<Event>)
    requires Valid(s)
    ensures Valid(Run(s, events))
    decreases |events|
  {
    if |events| > 0 {
      RunPreservesValid(Step(s, events[0]), events[1..]);
    }
  }

  /** From process start, the callback is registered at most once, however often the store is destroyed and rebuilt. */
  lemma RegisteredAtMostOnce(events: seq<Event>)
    ensures Run(Boot, events).registrations <= 1
    ensures Run(Boot, events).store.Some? ==> Run(Boot, events).registered
  {
    RunPreservesValid(Boot, events);
  }

  /** Once set, the latch is never reset and no further registration happens. */
  lemma {:induction false} LatchNeverReset(s: CacheState, events: seq<Event>)
    requires s.registered
    ensures Run(s, events).registered
    ensures Run(s, events).registrations == s.registrations
    decreases |events|
  {
    if |events| > 0 {
      var e := events[0];
      if e.CheckInSync? {
        assert Step(s, e).registered by {
          assert EnsureInitialized(s).registered;
        }
      }
      LatchNeverReset(Step(s, e), events[1..]);
    }
  }

  /** A relation that is not in sync and is never marked stays out of the cache. */
  lemma {:induction false} NeverMarkedNeverInSync(s: CacheState, events: seq<Event>, relid: Oid)
    requires !InSync(s, relid)
    requires forall i :: 0 <= i < |events| ==> events[i] != SetInSync(relid)
    ensures !InSync(Run(s, events), relid)
    decreases |events|
  {
    if |events| > 0 {
      NeverMarkedNeverInSync(Step(s, events[0]), events[1..], relid);
    }
  }

  /** Marking a relation in a present store and then looking it up answers true. */
  lemma MarkThenCheck(s: CacheState, catalog: Catalog, name: QualifiedName)
    requires s.store.Some?
    requires name in catalog && OidIsValid(catalog[name])
    ensures Lookup(Mark(s, catalog[name]), catalog, name, []).answer == Success(true)
  {
  }

  /** A mark made before any lookup has created the store is dropped, so the next lookup answers false. */
  lemma MarkBeforeFirstCheckIsDropped(catalog: Catalog, name: QualifiedName)
    requires name in catalog && OidIsValid(catalog[name])
    ensures Mark(Boot, catalog[name]) == Boot
    ensures Lookup(Mark(Boot, catalog[name]), catalog, name, []).answer == Success(false)
  {
  }

  /**
    After a specific invalidation of the relation a name resolves to, the lookup
    answers false while every other relation keeps its membership.
   */
  lemma InvalidateThenCheck(s: CacheState, catalog: Catalog, name: QualifiedName, other: Oid)
    requires name in catalog && OidIsValid(catalog[name])
    requires other != catalog[name]
    ensures Lookup(Invalidate(s, catalog[name]), catalog, name, []).answer == Success(false)
    ensures InSync(Lookup(Invalidate(s, catalog[name]), catalog, name, []).state, other) == InSync(s, other)
  {
  }

  /**
    After a wildcard invalidation no relation is in sync, and the next lookup
    recreates an empty store without registering the callback again.
   */
  lemma WildcardThenCheck(s: CacheState, catalog: Catalog, name: QualifiedName)
    requires Valid(s) && s.store.Some?
    ensures forall k :: !InSync(Invalidate(s, InvalidOid), k)
    ensures Lookup(Invalidate(s, InvalidOid), catalog, name, []).state.store == Some({})
    ensures Lookup(Invalidate(s, InvalidOid), catalog, name, []).state.registrations == 1
  {
  }
}
