/** The fields of a PATCH body: what `model_dump(exclude_unset=True)` tells apart. */
module Fields {
  import opened Options

  /** Left out, sent as null, or sent with a value. */
  datatype Field<+T> = Unset | Null | Sent(value: T)

  /** A column that may be null, after the PATCH. */
  function Merged<T>(field: Field<T>, stored: Option<T>): Option<T> {
    match field
    case Unset => stored
    case Null => None
    case Sent(v) => Some(v)
  }

  /** A column that may not, after a PATCH that does not send null for it. */
  function Kept<T>(field: Field<T>, stored: T): T { if field.Sent? then field.value else stored }

  // ---- The same, said of what a PATCH leaves ----

  /** A column that may be null: what was sent, or what was there. */
  ghost predicate IsPut<T>(field: Field<T>, before: Option<T>, after: Option<T>) {
    match field
    case Unset => after == before
    case Null => after == None
    case Sent(v) => after == Some(v)
  }

  /** A column that may not. */
  ghost predicate IsSet<T>(field: Field<T>, before: T, after: T) {
    match field
    case Unset => after == before
    case Null => false
    case Sent(v) => after == v
  }
}
