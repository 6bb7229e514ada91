/** The errors the storage layer reports to the gateways. */
module Database {

  datatype DbError =
    | RecordNotFound   // `First` matched no row
    | DuplicateKey     // the primary-key constraint refused an insert
    | BackendFailure   // any other failure of the storage engine
}
