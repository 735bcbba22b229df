/**
 * The storage gateway: the database file is read and written as one document.
 * Which file operation fails, and why, is outside the model: a read is given the
 * parsed content (None when the file is missing or does not parse), a write is
 * given its success flag.
 */
module Storage {
  import opened Wrappers
  import opened Records

  /** The dataset a handler works on when the file cannot be read. */
  const EmptyDataset: Dataset := Dataset([], [])

  /**
   * Reading never fails: a missing or malformed file reads as the empty dataset,
   * anything else as its parsed content.
   */
  function ReadDatabase(content: Option<Dataset>): (db: Dataset)
    ensures content.Some? ==> db == content.value
    ensures content.None? ==> db.users == [] && db.requests == []
  {
    content.GetOr(EmptyDataset)
  }
}
