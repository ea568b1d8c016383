// The login-session record and the JSON store files the two stores keep.

module Models {
  /** An RFC 3339 time stamp, taken from the clock; its text is never inspected. */
  type Timestamp = string

  /** One stored launcher account (backend/models/login_session.go). */
  datatype LoginSession = LoginSession(
    username: string,
    userId: string,
    alias: string,
    loginToken: string,
    createdAt: Timestamp,
    updatedAt: Timestamp)

  const EmptySession := LoginSession("", "", "", "", "", "")
}

module StoreFiles {
  /**
   * A JSON store file (a JSON array on disk) seen through its decoding:
   * absent, present but not an array of the store's type, or holding a list.
   */
  datatype StoredFile<T> = Missing | Undecodable | Holds(items: seq<T>)

  /** ensureFile: a missing file is created holding the empty array; any other file is kept. */
  function Ensured<T>(f: StoredFile<T>): (g: StoredFile<T>)
    ensures f == Missing ==> g == Holds([])
    ensures f != Missing ==> g == f
  {
    if f == Missing then Holds([]) else f
  }

  /** What Load returns after ensureFile: the list, or an empty list when the JSON does not decode. */
  function Contents<T>(f: StoredFile<T>): (items: seq<T>)
    ensures f.Holds? ==> items == f.items
    ensures !f.Holds? ==> items == []
  {
    if f.Holds? then f.items else []
  }

  /** Loading never changes what a later load reads. */
  lemma EnsuredKeepsContents<T>(f: StoredFile<T>)
    ensures Contents(Ensured(f)) == Contents(f)
  {
  }
}
