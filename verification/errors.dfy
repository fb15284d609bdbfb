/** The error kinds the store facade raises or lets through from a backend. */
module Errors {

  /** Why a `BackendException` was raised. */
  datatype BackendFault =
    | NoSchemes(store: string)                   // a loaded store reports no schemes
    | InvalidLeafType(keyPath: string, typeName: string)
                                                 // a metadata leaf that is not unicode text
    | MetadataNotDict(store: string)             // add() returned metadata that is not a dict
    | BadMetadataStructure(store: string, cause: BackendFault)
                                                 // add() returned a dict with a bad leaf

  datatype Error =
    | UnknownScheme(scheme: string)
    | NotFound
    | BadStoreUri(uri: string)
    | BackendException(fault: BackendFault)
    | StoreAddNotSupported
    | StoreGetNotSupported
    | StoreDeleteNotSupported
    | UnsupportedBackend
    | NotImplemented                             // Python's NotImplementedError from a backend
    | Failure(kind: string)                      // any other error a backend may raise
}
