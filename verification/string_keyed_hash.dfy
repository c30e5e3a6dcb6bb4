/**
  The store of pgcat.c as the hash table is actually created.

  `createHash` passes `HASH_ELEM` without `HASH_BLOBS`, so the table falls back
  to string keys: the key is copied with `strlcpy` and compared with `strncmp`
  over `keysize - 1` bytes. The 4-byte Oid is therefore read as a C string made
  of its bytes in memory (little-endian here) up to the first zero byte, and at
  most three of them. Distinct Oids with the same such string share one entry.
 */
module StringKeyedHash {
  import opened PgTypes
  import opened InSyncCache

  /** `keysize` passed to `hash_create`: `sizeof(Oid)`. */
  const KeySize: nat := 4

  /** The bytes of a string key, each in 1..255. */
  type KeyString = s: seq<int> | forall i :: 0 <= i < |s| ==> 1 <= s[i] < 256

  /** Byte `i` of an Oid as it lies in memory on a little-endian machine. */
  function OidByte(relid: Oid, i: nat): (b: int)
    requires i < KeySize
    ensures 0 <= b < 256
  {
    var x := relid as int;
    if i == 0 then x % 0x100
    else if i == 1 then x / 0x100 % 0x100
    else if i == 2 then x / 0x1_0000 % 0x100
    else x / 0x100_0000
  }

  /** The C string the table stores for an Oid: its bytes up to the first zero, cut at `keysize - 1`. */
  function HashKey(relid: Oid): (k: KeyString)
    ensures |k| <= KeySize - 1
    ensures forall i :: 0 <= i < |k| ==> k[i] == OidByte(relid, i) && k[i] != 0
    ensures |k| < KeySize - 1 ==> OidByte(relid, |k|) == 0
  {
    var b0, b1, b2 := OidByte(relid, 0), OidByte(relid, 1), OidByte(relid, 2);
    if b0 == 0 then []
    else if b1 == 0 then [b0]
    else if b2 == 0 then [b0, b1]
    else [b0, b1, b2]
  }

  /** The string keys a set of marked Oids occupies in the table. */
  function Keys(members: set<Oid>): set<KeyString> {
    set k | k in members :: HashKey(k)
  }

  /** `hash_search(..., HASH_FIND, &found)` on the string-keyed table. */
  function RawFound(table: set<KeyString>, relid: Oid): bool {
    HashKey(relid) in table
  }

  /** `hash_search(..., HASH_ENTER, NULL)` on the string-keyed table. */
  function RawEnter(table: set<KeyString>, relid: Oid): set<KeyString> {
    table + {HashKey(relid)}
  }

  /** `hash_search(..., HASH_REMOVE, NULL)` on the string-keyed table. */
  function RawRemove(table: set<KeyString>, reloid: Oid): set<KeyString> {
    table - {HashKey(reloid)}
  }

  /** The table as written finds an Oid exactly when some marked Oid has the same string key. */
  lemma RawFoundSharesKey(members: set<Oid>, relid: Oid)
    ensures RawFound(Keys(members), relid) <==> exists k :: k in members && HashKey(k) == HashKey(relid)
  {
  }

  /** Entering an Oid into the table as written stores the key of the corrected mark. */
  lemma RawEnterMatchesMark(members: set<Oid>, relid: Oid)
    ensures RawEnter(Keys(members), relid) == Keys(members + {relid})
  {
  }

  /** Removing an Oid from the table as written drops every marked Oid that shares its string key. */
  lemma RawRemoveDropsSharedKeys(members: set<Oid>, reloid: Oid)
    ensures RawRemove(Keys(members), reloid) == Keys(set k | k in members && HashKey(k) != HashKey(reloid))
  {
  }

  /** Where no other marked Oid shares the key, the table as written answers like the corrected set. */
  lemma RawAgreesWhenKeysDistinct(members: set<Oid>, relid: Oid)
    requires forall k :: k in members && k != relid ==> HashKey(k) != HashKey(relid)
    ensures RawFound(Keys(members), relid) <==> relid in members
  {
  }

  /**
    Marking 16384 (bytes 00 40 00 00) makes the table as written report 16640
    (bytes 00 41 00 00) in sync, since both read as the empty string; the
    corrected cache does not.
   */
  lemma MarkedNeighbourReadsInSync()
    ensures HashKey(16384) == HashKey(16640) == []
    ensures RawFound(RawEnter(Keys({}), 16384), 16640)
    ensures !InSync(Mark(EnsureInitialized(Boot), 16384), 16640)
  {
  }

  /** Invalidating 16640 in the table as written also drops 16384; the corrected cache keeps it. */
  lemma InvalidateDropsNeighbour()
    ensures !RawFound(RawRemove(RawEnter(Keys({}), 16384), 16640), 16384)
    ensures InSync(Invalidate(Mark(EnsureInitialized(Boot), 16384), 16640), 16384)
  {
  }
}
