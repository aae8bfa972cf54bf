/** The exceptions the ingestion pipeline can raise. */
module Errors {

  /** The numeric column whose normaliser raised `ValueError`. */
  datatype NumericField = Price | Percentage | RatingCount

  /** A rejection of one INSERT statement by the database. `StringDataRightTruncation`
      is the class the review loop singles out (a text value longer than its column);
      every other driver error is `OtherDatabaseError`. */
  datatype DbFault = StringDataRightTruncation | OtherDatabaseError

  datatype Error =
    | NotANumber(field: NumericField, raw: string)  // ValueError("<Field> <raw> is not a number")
    | Database(fault: DbFault)                       // a psycopg error raised by cursor.execute
}
