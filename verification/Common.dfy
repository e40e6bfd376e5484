/** Vocabulary shared by the models of the stored rows. */
module Common {

  datatype Option<+T> = None | Some(value: T)

  /** Row identifiers. Only equality of identifiers matters. */
  type Uuid = nat

  /** Instants. Only their order, and null against set, matter. */
  type Time = int
}
