/** Values shared by the cache, the sessions and the abstract database. */
module Values {

  /** The text form of a primary key (`PK.ToString`), taken as injective. */
  type PK = string

  /** A table row: its primary key and the other columns, kept abstract. */
  datatype Row = Row(pk: PK, data: string)

  /** What the cache store holds: a bean of some Go struct type, or the ids a query selected. */
  datatype Value =
    | Bean(kind: string, row: Row)
    | Ids(ids: seq<PK>)
}
