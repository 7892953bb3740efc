/** Option, Result and the error kinds that the modelled code raises. */
module Wrappers {

  datatype Option<+T> = None | Some(value: T)

  /** The exceptions of the modelled .NET code, one constructor per kind. */
  datatype Error =
    | EndOfStream          // BinaryReader ran past the end of the stream
    | InvalidStringFormat  // ReadString met a marker other than 0x00 or 0x0B
    | ExpectedIntPair      // star-rating entry without its 0x08 marker
    | ExpectedDouble       // star-rating value without its 0x0d marker (before 20250107)
    | ExpectedFloat        // star-rating value without its 0x0c marker (from 20250107)
    | DuplicateKey         // Dictionary.Add with a key already present
    | ArgumentOutOfRange   // negative count or length, or a substring past the end
    | FileNotFound         // a file opened for reading does not exist
    | DirectoryNotFound    // a directory listed, or the folder of a file opened, does not exist

  datatype Result<+T> = Ok(value: T) | Err(error: Error) {
    predicate IsFailure() { Err? }

    function PropagateFailure<U>(): Result<U>
      requires Err?
    {
      Err(error)
    }

    function Extract(): T
      requires Ok?
    {
      value
    }
  }
}
