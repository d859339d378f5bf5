/** The two relations of the plant database and the errors its operations raise. */
module Schema {
  import opened Wrappers

  /** A row of `Metadata`: one logical measurement series. Nullable text columns are
      carried as plain strings. */
  datatype Descriptor = Descriptor(
    seriesId: string,
    msr: string,
    msrAttribute: string,
    objectId: string,
    objectType: string,
    cfg: string,
    device: string,
    number: string,
    objectDescription: string,
    objectName: string,
    unit: string,
    startDate: string,
    endDate: string,
    rasterSize: int,
    rasterUnit: string,
    scale: int)

  /** A row of `Data`: one timestamped value of a series. `mean` is the REAL column, None
      for SQL NULL; it is carried, never computed on. */
  datatype Record = Record(
    dataId: int,
    seriesId: string,
    date: string,
    mean: Option<real>,
    status: string)

  /** What the operations raise. */
  datatype Error =
    | NoSuchTable(table: string)     // sqlite3.OperationalError: the table was never created or was dropped
    | NotFound(msr: string)          // ValueError: no metadata row has this msr
    | MultipleEntries(msr: string)   // ValueError: more than one metadata row has this msr
    | EmptySelection                 // UnboundLocalError: an alignment over no series never binds its table
    | IndexOutOfRange(index: int)    // IndexError: a selected row index outside the table
    | BadBound(bound: string)        // pandas cannot compare the date column with this bound
    | NoMetadataRow(seriesId: string) // ValueError: a scalar column set on a frame with no rows
}
