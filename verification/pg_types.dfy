/** The PostgreSQL scalar types the extension handles, and relation-name resolution. */
module PgTypes {

  /** Object identifiers are unsigned 32-bit integers. */
  newtype Oid = x: int | 0 <= x < 0x1_0000_0000

  /** The reserved identifier that names no object; relcache callbacks use it as a wildcard. */
  const InvalidOid: Oid := 0

  predicate OidIsValid(relid: Oid) {
    relid != InvalidOid
  }

  /** Replication origin identifiers are unsigned 16-bit integers. */
  newtype RepOriginId = x: int | 0 <= x < 0x1_0000

  /** The origin of changes made locally rather than replayed from elsewhere. */
  const InvalidRepOriginId: RepOriginId := 0

  /** A schema-qualified relation name, as the SQL caller passes it. */
  datatype QualifiedName = QualifiedName(schema: string, relation: string)

  /** The catalog as the relation resolver sees it at the moment of a call. */
  type Catalog = map<QualifiedName, Oid>

  /** Name resolution with `missing_ok`: an unknown name yields `InvalidOid` instead of an error. */
  function RangeVarGetRelid(catalog: Catalog, name: QualifiedName): (relid: Oid)
    ensures name !in catalog ==> relid == InvalidOid
    ensures name in catalog ==> relid == catalog[name]
  {
    if name in catalog then catalog[name] else InvalidOid
  }
}
