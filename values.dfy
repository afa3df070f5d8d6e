/** Values shared by the approval engine: nullable wrappers, attribute values,
    timestamps and actor identities. */
module Values {

  /** A nullable column or an absent collaborator answer. */
  datatype Option<+T> = None | Some(value: T)

  /** An attribute value of a record as the store hands it over.
      `Null` is PHP's null, which `isset` treats like a missing key. */
  datatype Value = Null | Str(s: string) | Int(i: int) | Bool(b: bool)

  /** A point in time; the clock is a parameter of every operation that stamps one. */
  type Time = nat

  /** The id of an authenticated user. */
  type UserId = int

  /** PHP's `isset($m[$k])`: the key is present and its value is not null. */
  predicate Isset(m: map<string, Value>, k: string)
  {
    k in m && m[k] != Null
  }
}
