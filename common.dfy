/** Values that several model files share. */
module Common {

  /** The error a database query returned; its text is opaque to the model. */
  datatype DbError = DbError(message: string)

  /**
   * The fields of a fetched author's User record that the API views read. The
   * lookup itself (a users-table query) is an input of the model.
   */
  datatype Author = Author(id: string, displayName: string)

  /**
   * A Unix timestamp as Go formats it with time.Unix(t, 0): in UTC with
   * RFC3339Nano, or in the server's local zone with RFC3339. The text of the
   * formatted date is not modelled.
   */
  datatype FormattedTime = Rfc3339NanoUtc(unixSeconds: int) | Rfc3339Local(unixSeconds: int)
}
