/**
 * The hosted backend's client, seen only through what one call hands back.
 * Its query engine (filters, ordering, `maybeSingle`) is not modelled: each
 * page receives the answer to its query as a parameter.
 */
module Backend {
  import opened Wrappers

  /** What an awaited query resolves to: `{ data, error }`; `data` is null on failure. */
  datatype Reply<T> = Reply(data: Option<T>, failed: bool)

  /** An awaited call inside `try`: it either resolves to a reply or throws. */
  datatype Call<T> = Resolved(reply: Reply<T>) | Rejected
}
