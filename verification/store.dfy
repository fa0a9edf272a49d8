/**
 * The remote store, reduced to what the client sees of each call: success
 * or failure of a write, the rows of a read, the id of an inserted row. A
 * missing signed-in user makes the client throw before or instead of the
 * call, which the client handles like a failed call.
 */
module Store {
  import opened TaskCache

  datatype Outcome = Succeeded | Failed

  /** `select('*')...order('position')`: the rows in store order. */
  datatype Fetch = Fetched(rows: seq<Task>) | FetchFailed

  /** `insert([...]).select().single()`: the id the store gave the row. */
  datatype Insertion = Inserted(id: Id) | InsertFailed
}
