/** Records, request objects and errors shared by the stores and the services. */
module Domain {

  datatype Option<+T> = None | Some(value: T)

  datatype Result<+T> = Success(value: T) | Failure(error: Error)

  /** What a database driver reports when a statement fails. `PgError` carries the
      five-character SQLSTATE code of a Postgres error. */
  datatype DbError = PgError(code: string) | DriverError(message: string)

  /** Every error value the core can return: the two domain errors the stores use, the
      two storage-level conflicts of the database store and pass-through backend errors. */
  datatype Error =
    | URLConflict             // original URL already stored
    | URLNotFound             // lookup miss
    | RowConflict             // database returned a row with another short code
    | ShortURLConflict        // database unique-index violation on the short code
    | Backend(cause: DbError) // any other error, passed through unchanged

  /** The stored model of one shortened URL. */
  datatype ShortenedURL = ShortenedURL(
    id: int,
    shortURL: string,
    originalURL: string,
    userID: string,
    isDeleted: bool)

  /** The value a Go map yields for a missing key: every field at its zero value. */
  const Zero := ShortenedURL(0, "", "", "", false)

  /** A save request passed from the service to a store. */
  datatype SaveShortURLDto = SaveShortURLDto(originalURL: string, shortURL: string, userID: string)

  /** A deletion request: the codes to delete and the user asking for it. */
  datatype DeleteURLsTask = DeleteURLsTask(shortURLs: seq<string>, userID: string)

  /** One element of a batch shortening request and of its answer. */
  datatype ShortBatchURL = ShortBatchURL(correlationID: string, originalURL: string, shortURL: string)

  /** The statistics a store reports; how a store computes them is not part of this model. */
  datatype InternalStats = InternalStats(urls: nat, users: nat)
}
