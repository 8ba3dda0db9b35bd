/** Option, Result and Outcome: the model's stand-ins for Python's None and its exceptions. */
module Wrappers {

  datatype Option<+T> = None | Some(value: T)

  /** The value of an operation that either returns `value` or raises `error`. */
  datatype Result<+T, +E> = Ok(value: T) | Err(error: E)

  /** The outcome of an operation that returns nothing or raises `error`. */
  datatype Outcome<+E> = Pass | Fail(error: E)
}

/** The exceptions the modelled code raises or lets through, by their Python names. */
module Exceptions {

  datatype Exception =
    | AttributeError      // an attribute looked up on None, or a name an object does not have
    | ValueError          // a malformed date, address or argument
    | TypeError           // a subscript of None
    | NotADirectoryError  // a cache path that exists but is not a directory
    | IsADirectoryError   // a file to write that is a directory
    | FileNotFoundError   // a file to read, or the directory of a file to write, that does not exist
    | FileExistsError     // a directory to create that already exists
    | UnicodeDecodeError  // a cached file that is not text in the file encoding
    | OSError             // a download that is not a gzip stream
    | URLError            // a download that fails
    | DatabaseError       // a downloaded database the reader cannot use
    | GeoIPError          // an address the GeoIP databases do not know
}
