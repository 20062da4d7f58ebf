/** Shared vocabulary of the PoolPay model: optional values, backend failures and clock readings. */
module Common {

  /** The conventional Some/None datatype, standing for a nullable or `undefined` value. */
  datatype Option<+T> = None | Some(value: T)

  /** What a backend call reports instead of succeeding. */
  datatype Error =
    | NotFound      // `updateDoc` on a document id that does not exist
    | WriteFailed   // the backend rejected or lost a read or a write

  /** Clock readings (`new Date()`, `Date.now()`) are opaque values supplied by the caller. */
  type Timestamp = nat

  /** JavaScript truthiness of a string: only the empty string is falsy. */
  predicate Filled(s: string) {
    |s| > 0
  }
}
