/** The outcome of every operation: a success `Response` carrying a message
    and a payload, or an `ErrorApp` carrying a code, a message and a
    diagnostic. The source makes `ErrorApp` a subclass of `Response` and
    tells them apart with `instanceof ErrorApp`; here they are the two
    cases of one sum type. */
module Entities {

  /** The response codes: OK, the eleven error codes the core hands out
      itself, and the codes of the file reader and of the view store's save
      operations, which the core passes on as it receives them. */
  datatype Code =
    | Ok                    // OK
    | XmlFileNotFound       // XML_FILE_NOT_FOUND
    | XmlReadError          // XML_READ_ERROR
    | WriteFileError        // WRITE_FILE_ERROR
    | DataFileEmpty         // DATA_FILE_EMPTY
    | InvalidPathError      // INVALID_PATH_ERROR
    | XmlParseError         // XML_PARSE_ERROR
    | DataWillBeLost        // DATA_WILL_BE_LOST
    | QueryNotFoundData     // QUERY_NOT_FOUND_DATA
    | DataToViewEmpty       // DATA_TO_VIEW_EMPTY
    | ViewNotFound          // VIEW_NOT_FOUND
    | ViewNotSplitable      // VIEW_NOT_SPLITABLE
    | ViewStoreEmpty        // VIEW_STORE_EMPTY
    | InvalidCommandError   // INVALID_COMMAND_ERROR
    | InvalidQueryView      // INVALID_QUERY_VIEW
    | InvalidNameView       // INVALID_NAME_VIEW
    | InvalidSeparatorView  // INVALID_SEPARATOR_VIEW

  /** The third constructor argument of an `ErrorApp`: either the call
      stack captured where the error was made (`new Error().stack`, opaque
      here) or a given text. */
  datatype Diagnostic = CallStack | Detail(text: string)

  datatype Response<+T> =
    | Success(message: string, payload: T)
    | Failure(code: Code, message: string, context: Diagnostic)
  {
    /** The same error, seen as a response with another payload type (what
        returning an `ErrorApp` from a method of another return type does). */
    function Forward<U>(): (r: Response<U>)
      requires Failure?
      ensures r.Failure? && r.code == code && r.message == message && r.context == context
    {
      Failure(code, message, context)
    }
  }
}
