/** Writes to the store as plain records: the table a write touches and the
    value of every column it sets. spanner.InsertMap and spanner.UpdateMap
    build these; a plan is the sequence of them committed together. */
module Mutations {
  import opened Rational

  /** The column values the repositories write; Null is a SQL NULL. */
  datatype ColumnValue = Text(text: string) | Int(integer: int) | Numeric(numeric: Rat) | Time(instant: int) | Null

  datatype Op = Insert | Update

  datatype Mutation = Mutation(op: Op, table: string, columns: map<string, ColumnValue>)

  /** commitplan.Plan: the mutations in the order they were added. */
  type Plan = seq<Mutation>
}
