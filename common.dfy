/** Values shared by every part of the model: nullable columns, the replies of
    the store and of the auth service, and the order PostgreSQL gives a
    nullable timestamp column. */
module Common {

  /** A nullable column, or a reply that may carry no row. */
  datatype Option<T> = None | Some(value: T)

  /** What an awaited call produced: a value, or the message of the error it
      returned or threw. */
  datatype Result<T> = Ok(value: T) | Err(message: string)

  /** An ISO-8601 instant. It is kept opaque: only its order matters. */
  type Timestamp = nat

  /** `a` sorts no later than `b` when a nullable timestamp column is ordered
      ascending. PostgreSQL ranks NULL above every value, so a descending
      ORDER BY lists the NULL rows first. */
  predicate NoLaterThan(a: Option<Timestamp>, b: Option<Timestamp>) {
    b.None? || (a.Some? && a.value <= b.value)
  }

  /** Both instants are present and `a` is strictly earlier. */
  predicate StampedBefore(a: Option<Timestamp>, b: Option<Timestamp>) {
    a.Some? && b.Some? && a.value < b.value
  }
}
