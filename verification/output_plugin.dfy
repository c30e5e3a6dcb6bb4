/**
  The logical-decoding output plugin of pgcat.c: the base pgoutput callback
  table with its origin filter replaced, so that only locally originated
  changes are replicated.
 */
module OutputPlugin {
  import opened Outcomes
  import opened PgTypes

  /** What a callback slot holds: nothing, a function of the base plugin, or this module's origin filter. */
  datatype Callback = Unset | Foreign(address: nat) | PgoutputOriginFilter

  /** The named slots of `OutputPluginCallbacks`. */
  datatype CallbackTable = CallbackTable(
    startup: Callback,
    begin: Callback,
    change: Callback,
    truncate: Callback,
    commit: Callback,
    message: Callback,
    filterByOrigin: Callback,
    shutdown: Callback)

  datatype Slot = Startup | Begin | Change | Truncate | Commit | Message | FilterByOrigin | Shutdown

  function SlotOf(t: CallbackTable, slot: Slot): Callback {
    match slot
    case Startup => t.startup
    case Begin => t.begin
    case Change => t.change
    case Truncate => t.truncate
    case Commit => t.commit
    case Message => t.message
    case FilterByOrigin => t.filterByOrigin
    case Shutdown => t.shutdown
  }

  /** Two tables agree on every slot except possibly the origin filter. */
  predicate SameExceptOriginFilter(a: CallbackTable, b: CallbackTable) {
    forall slot :: slot != FilterByOrigin ==> SlotOf(a, slot) == SlotOf(b, slot)
  }

  /** The base plugin's `_PG_output_plugin_init`: it fills in the table it is given. */
  type Initializer = CallbackTable -> CallbackTable

  datatype InitError = MissingInitSymbol

  /**
    `pgoutput_origin_filter`: true means the change is filtered out. Of the
    16-bit origin ids it skips every replayed one (1 to 65535) and passes only
    the local origin.
   */
  function OriginFilterSkips(origin: RepOriginId): (skip: bool)
    ensures skip <==> 1 <= origin as int <= 0xFFFF
    ensures !skip ==> origin == InvalidRepOriginId
  {
    origin != 0
  }

  /** The single slot overwrite applied after the base initializer has run. */
  function Decorate(t: CallbackTable): (r: CallbackTable)
    ensures r.filterByOrigin == PgoutputOriginFilter
    ensures SameExceptOriginFilter(t, r)
  {
    t.(filterByOrigin := PgoutputOriginFilter)
  }

  /**
    `_PG_output_plugin_init`: `loaded` is what looking up the base plugin's
    initializer yields (None when the symbol is missing), `cb` the table the
    decoding engine passes in.
   */
  function PluginInit(loaded: Option<Initializer>, cb: CallbackTable): (r: Result<CallbackTable, InitError>)
    ensures r.Failure? <==> loaded.None?
    ensures r.Failure? ==> r.error == MissingInitSymbol
    ensures r.Success? ==> r.value.filterByOrigin == PgoutputOriginFilter
    ensures r.Success? ==> SameExceptOriginFilter(loaded.value(cb), r.value)
  {
    match loaded
    case None => Failure(MissingInitSymbol)
    case Some(init) => Success(Decorate(init(cb)))
  }

  /** Decoration is idempotent: decorating a decorated table changes nothing. */
  lemma DecorateIdempotent(t: CallbackTable)
    ensures Decorate(Decorate(t)) == Decorate(t)
  {
  }

  /** The result of a successful init is exactly the base table with one slot replaced. */
  lemma PluginInitOnlyReplacesFilter(init: Initializer, cb: CallbackTable, slot: Slot)
    ensures PluginInit(Some(init), cb).Success?
    ensures SlotOf(PluginInit(Some(init), cb).value, slot)
         == (if slot == FilterByOrigin then PgoutputOriginFilter else SlotOf(init(cb), slot))
  {
  }

  /** A decoded change as far as origin filtering is concerned. */
  datatype DecodedChange = DecodedChange(origin: RepOriginId, lsn: nat)

  /** What the base plugin's own filter, if any, decides for a given origin. */
  type ForeignFilter = (nat, RepOriginId) -> bool

  /** Whether the decoding engine drops a change with this origin; an unset filter drops nothing. */
  predicate Skips(t: CallbackTable, foreign: ForeignFilter, origin: RepOriginId) {
    match t.filterByOrigin
    case Unset => false
    case Foreign(address) => foreign(address, origin)
    case PgoutputOriginFilter => OriginFilterSkips(origin)
  }

  /** The changes the decoding engine hands on to the plugin, in order. */
  function Replicated(t: CallbackTable, foreign: ForeignFilter, changes: seq<DecodedChange>): seq<DecodedChange>
    decreases |changes|
  {
    if |changes| == 0 then []
    else if Skips(t, foreign, changes[0].origin) then Replicated(t, foreign, changes[1..])
    else [changes[0]] + Replicated(t, foreign, changes[1..])
  }

  /** Sample replayed origins, including the largest 16-bit id, are all skipped. */
  lemma OriginFilterSkipsReplayedSamples()
    ensures OriginFilterSkips(1) && OriginFilterSkips(42) && OriginFilterSkips(0xFFFF)
  {
  }

  /** With the decorated filter a change is replicated exactly when it was made locally. */
  lemma {:induction false} DecoratedReplicatesLocalOnly(t: CallbackTable, foreign: ForeignFilter, changes: seq<DecodedChange>)
    requires t.filterByOrigin == PgoutputOriginFilter
    ensures forall c :: c in Replicated(t, foreign, changes) <==> c in changes && c.origin == InvalidRepOriginId
    decreases |changes|
  {
    if |changes| > 0 {
      DecoratedReplicatesLocalOnly(t, foreign, changes[1..]);
      assert changes == [changes[0]] + changes[1..];
    }
  }

  /**
    The locally originated changes of a stream, in order, built from the end of
    the stream: the reference that origin filtering is compared against.
   */
  function LocalChanges(changes: seq<DecodedChange>): seq<DecodedChange>
    decreases |changes|
  {
    if |changes| == 0 then []
    else
      var last := changes[|changes| - 1];
      LocalChanges(changes[..|changes| - 1]) + (if last.origin == InvalidRepOriginId then [last] else [])
  }

  /** The engine filters a concatenated stream piece by piece. */
  lemma {:induction false} ReplicatedAppend(t: CallbackTable, foreign: ForeignFilter, a: seq<DecodedChange>, b: seq<DecodedChange>)
    ensures Replicated(t, foreign, a + b) == Replicated(t, foreign, a) + Replicated(t, foreign, b)
    decreases |a|
  {
    if |a| > 0 {
      assert (a + b)[1..] == a[1..] + b;
      ReplicatedAppend(t, foreign, a[1..], b);
    } else {
      assert a + b == b;
    }
  }

  /** The decorated table replicates precisely the local changes, in their original order. */
  lemma {:induction false} DecoratedReplicatesLocalChanges(t: CallbackTable, foreign: ForeignFilter, changes: seq<DecodedChange>)
    requires t.filterByOrigin == PgoutputOriginFilter
    ensures Replicated(t, foreign, changes) == LocalChanges(changes)
    decreases |changes|
  {
    if |changes| > 0 {
      var init := changes[..|changes| - 1];
      var last := changes[|changes| - 1];
      assert changes == init + [last];
      DecoratedReplicatesLocalChanges(t, foreign, init);
      ReplicatedAppend(t, foreign, init, [last]);
      assert [last][1..] == [];
    }
  }

  /** Whatever the base plugin's own filter did, the plugin built by init replicates local changes only. */
  lemma PluginReplicatesLocalOnly(init: Initializer, cb: CallbackTable, foreign: ForeignFilter, changes: seq<DecodedChange>)
    ensures PluginInit(Some(init), cb).Success?
    ensures forall c :: c in Replicated(PluginInit(Some(init), cb).value, foreign, changes)
                        <==> c in changes && c.origin == InvalidRepOriginId
    ensures Replicated(PluginInit(Some(init), cb).value, foreign, changes) == LocalChanges(changes)
  {
    DecoratedReplicatesLocalOnly(PluginInit(Some(init), cb).value, foreign, changes);
    DecoratedReplicatesLocalChanges(PluginInit(Some(init), cb).value, foreign, changes);
  }
}
