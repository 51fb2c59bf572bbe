/** Failure outcomes of the relation stores.
    Every failure of the stores is a Rust panic (an invariant violation of the caller);
    the model returns it as a value naming which check failed. */
module Outcomes {

  /** The checks whose failure makes the stores panic. */
  datatype Violation =
    | Occupied    // insert_if_empty: the id already holds a relation
    | NotAParent  // insert_child: the parent id holds ChildOf
    | NoEntry     // indexing an id that holds no relation

  /** The result of a store operation that returns nothing on success. */
  datatype Outcome = Done | Panic(violation: Violation)

  datatype Option<T> = None | Some(value: T)

  /** The result of a store query that panics on failure. */
  datatype Result<T> = Ok(value: T) | Err(violation: Violation)
}
