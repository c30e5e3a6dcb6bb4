/**
  The per-process in-sync membership cache of pgcat.c.

  The two process-static globals become one immutable record: `store` is
  `LogicalRepRelMap` (None while the pointer is NULL, otherwise the set of
  relation Oids marked in-sync), `registered` is the latch
  `invalidate_cb_set`, and `registrations` counts how often the relcache
  invalidation callback has been handed to the runtime.
 */
module InSyncCache {
  import opened Outcomes
  import opened PgTypes

  datatype CacheState = CacheState(store: Option<set<Oid>>, registered: bool, registrations: nat)

  /** Both globals as they are when the library is loaded. */
  const Boot := CacheState(None, false, 0)

  /** At load time there is no store, nothing is in sync and no callback is registered, which satisfies the invariant. */
  lemma BootState()
    ensures Boot.store.None? && !Boot.registered && Boot.registrations == 0
    ensures forall relid :: !InSync(Boot, relid)
    ensures Valid(Boot)
  {
  }

  /** A present store implies the callback is registered, and it was registered exactly once if at all. */
  predicate Valid(s: CacheState) {
    && (s.store.Some? ==> s.registered)
    && s.registrations == (if s.registered then 1 else 0)
  }

  /** Whether the cache currently reports `relid` as in-sync; an absent store has no members. */
  predicate InSync(s: CacheState, relid: Oid) {
    s.store.Some? && relid in s.store.value
  }

  /** The error `pgcat_lock_and_check_table_insync` raises for a name that does not resolve. */
  datatype CacheError = RelationNotFound(name: QualifiedName)

  /** What a lookup leaves behind: the globals after the call and the answer or the raised error. */
  datatype LookupReply = LookupReply(state: CacheState, answer: Result<bool, CacheError>)

  /** `createHash`: a new, empty store. */
  function CreateHash(): (h: set<Oid>)
    ensures forall relid :: relid !in h
  {
    {}
  }

  /** The lazy set-up at the head of a lookup: create the store if absent, register the callback once. */
  function EnsureInitialized(s: CacheState): (r: CacheState)
    ensures r.store.Some?
    ensures s.store.Some? ==> r == s
    ensures s.store.None? ==> r.store == Some({})
    ensures forall relid :: InSync(r, relid) == InSync(s, relid)
    ensures s.registered ==> r.registrations == s.registrations
    ensures r.registrations <= s.registrations + 1
    ensures Valid(s) ==> Valid(r) && r.registered
  {
    if s.store.None? then
      var registrations := if s.registered then s.registrations else s.registrations + 1;
      CacheState(Some(CreateHash()), true, registrations)
    else
      s
  }

  /** `logicalrep_relmap_invalidate_cb`: drop one entry, or the whole store for the wildcard. */
  function Invalidate(s: CacheState, reloid: Oid): (r: CacheState)
    ensures r.registered == s.registered && r.registrations == s.registrations
    ensures s.store.None? ==> r == s
    ensures !OidIsValid(reloid) ==> r.store.None?
    ensures OidIsValid(reloid) ==> (r.store.Some? <==> s.store.Some?)
    ensures !InSync(r, reloid)
    ensures OidIsValid(reloid) ==> forall k :: k != reloid ==> InSync(r, k) == InSync(s, k)
    ensures Valid(s) ==> Valid(r)
  {
    match s.store
    case None => s
    case Some(members) =>
      if OidIsValid(reloid) then s.(store := Some(members - {reloid}))
      else s.(store := None)
  }

  /** `pgcat_set_table_insync`: add one entry; silently ignored while there is no store. */
  function Mark(s: CacheState, relid: Oid): (r: CacheState)
    ensures r.registered == s.registered && r.registrations == s.registrations
    ensures s.store.None? ==> r == s
    ensures s.store.Some? ==> r.store.Some? && InSync(r, relid)
    ensures forall k :: k != relid ==> InSync(r, k) == InSync(s, k)
    ensures Valid(s) ==> Valid(r)
  {
    match s.store
    case None => s
    case Some(members) => s.(store := Some(members + {relid}))
  }

  /** Marking is idempotent: a second mark of the same relation changes nothing. */
  lemma MarkIdempotent(s: CacheState, relid: Oid)
    ensures Mark(Mark(s, relid), relid) == Mark(s, relid)
  {
  }

  /**
    Invalidations delivered in order, as the runtime does when a call takes a
    lock and processes pending invalidation messages.
   */
  function Deliver(s: CacheState, pending: seq<Oid>): (r: CacheState)
    decreases |pending|
    ensures r.registered == s.registered && r.registrations == s.registrations
    ensures Valid(s) ==> Valid(r)
    ensures InvalidOid in pending ==> r.store.None?
    ensures InvalidOid !in pending ==> (r.store.Some? <==> s.store.Some?)
    ensures forall k :: InSync(r, k) ==> InSync(s, k) && k !in pending
    ensures InvalidOid !in pending ==> forall k :: InSync(s, k) && k !in pending ==> InSync(r, k)
  {
    if |pending| == 0 then s
    else
      var r := Deliver(Invalidate(s, pending[0]), pending[1..]);
      assert pending == [pending[0]] + pending[1..];
      r
  }

  /**
    `pgcat_lock_and_check_table_insync`, with an absent store read as "not a member".
    `during` holds the invalidations the runtime delivers while name resolution
    acquires its lock; it is empty when none are pending.
   */
  function Lookup(s: CacheState, catalog: Catalog, name: QualifiedName, during: seq<Oid>): (r: LookupReply)
    ensures Valid(s) ==> r.state.registered
    ensures s.registered ==> r.state.registrations == s.registrations
    ensures Valid(s) ==> Valid(r.state)
    ensures InvalidOid !in during ==> r.state.store.Some?
    ensures forall k :: InSync(r.state, k) ==> InSync(s, k)
    ensures during == [] ==> forall k :: InSync(r.state, k) == InSync(s, k)
    ensures InvalidOid in during ==> r.state.store.None?
    ensures forall k :: InSync(r.state, k) <==> InSync(s, k) && k !in during && InvalidOid !in during
    ensures r.answer.Failure? <==> name !in catalog || !OidIsValid(catalog[name])
    ensures r.answer.Failure? ==> r.answer.error == RelationNotFound(name)
    ensures r.answer.Success? ==> (r.answer.value <==> InSync(r.state, catalog[name]))
  {
    var initialized := EnsureInitialized(s);
    var resolvedState := Deliver(initialized, during);
    var relid := RangeVarGetRelid(catalog, name);
    if !OidIsValid(relid) then
      LookupReply(resolvedState, Failure(RelationNotFound(name)))
    else
      LookupReply(resolvedState, Success(InSync(resolvedState, relid)))
  }

  /** The outcome of the lookup exactly as the source is written: it may dereference a NULL store. */
  datatype RawLookup = Returned(reply: LookupReply) | Crashed(state: CacheState)

  /** `pgcat_lock_and_check_table_insync` as written: the membership probe assumes the store still exists. */
  function LookupAsWritten(s: CacheState, catalog: Catalog, name: QualifiedName, during: seq<Oid>): (r: RawLookup)
    ensures r.Crashed? <==> OidIsValid(RangeVarGetRelid(catalog, name)) && InvalidOid in during
    ensures r.Returned? ==> r.reply == Lookup(s, catalog, name, during)
  {
    var initialized := EnsureInitialized(s);
    var resolvedState := Deliver(initialized, during);
    var relid := RangeVarGetRelid(catalog, name);
    if !OidIsValid(relid) then
      Returned(LookupReply(resolvedState, Failure(RelationNotFound(name))))
    else if resolvedState.store.None? then
      Crashed(resolvedState)
    else
      Returned(LookupReply(resolvedState, Success(relid in resolvedState.store.value)))
  }

  /** A relcache reset delivered while resolving an existing relation makes the source probe a NULL store. */
  lemma ResetDuringResolutionCrashes()
    ensures LookupAsWritten(Boot, map[QualifiedName("public", "t") := 16384],
                            QualifiedName("public", "t"), [InvalidOid]).Crashed?
  {
    var name := QualifiedName("public", "t");
    var catalog := map[name := 16384 as Oid];
    assert RangeVarGetRelid(catalog, name) == 16384;
  }

  /** The corrected lookup answers "not in sync" after such a reset and leaves the store absent. */
  lemma ResetDuringResolutionAnswersFalse(s: CacheState, catalog: Catalog, name: QualifiedName, during: seq<Oid>)
    requires InvalidOid in during
    requires name in catalog && OidIsValid(catalog[name])
    ensures Lookup(s, catalog, name, during).answer == Success(false)
    ensures Lookup(s, catalog, name, during).state.store.None?
    ensures Lookup(Lookup(s, catalog, name, during).state, catalog, name, []).state.store == Some({})
  {
    var r := Lookup(s, catalog, name, during);
    assert r.state == Deliver(EnsureInitialized(s), during);
  }

  /** A relation invalidated while its name is being resolved never reads as in sync. */
  lemma InvalidatedDuringResolutionAnswersFalse(s: CacheState, catalog: Catalog, name: QualifiedName, during: seq<Oid>)
    requires name in catalog && OidIsValid(catalog[name])
    requires catalog[name] in during
    ensures Lookup(s, catalog, name, during).answer == Success(false)
  {
  }

  /** A failed lookup still leaves the store created and its membership untouched. */
  lemma FailedLookupKeepsStore(s: CacheState, catalog: Catalog, name: QualifiedName)
    requires name !in catalog || !OidIsValid(catalog[name])
    ensures Lookup(s, catalog, name, []).answer == Failure(RelationNotFound(name))
    ensures Lookup(s, catalog, name, []).state == EnsureInitialized(s)
  {
  }
}
