/** Failure-compatible result types and the error kinds the decoders report. */
module Wrappers {

  /** The distinct failures of the codec.  `Overflow` stands for an integer
      overflow or underflow that makes a debug build of the decoders panic
      (attempt to add, subtract or shift with overflow). */
  datatype Error =
    | OutOfBounds             // an index or slice past the available bytes
    | Overflow                // arithmetic overflow or underflow (a panic in a debug build)
    | CompressedSizeTooSmall  // a section header declaring fewer than 10 bytes
    | ChecksumMismatch        // XOR of the payload differs from the header's checksum
    | SizeMismatch            // decompressed length differs from the header's size
    | BadOpcode               // a decompressor opcode outside {0, 1, 4, 5, 6, 7}
    | BadBpp                  // more than 8 bit planes
    | BadDimensions           // a pixel count that is not a multiple of 8
    | BadLength               // a fixed-size record of the wrong length
    | BadIndex                // a terrain or object slot index past its table
    | BadSection              // a special-background band that is not 14400 bytes
    | TooManySections         // a special-background file with other than one section
    | BadGraphicsSet          // a level naming a tile set or special background that is absent

  datatype Option<+T> = None | Some(value: T)

  datatype Result<+T> = Ok(value: T) | Err(error: Error) {
    predicate IsFailure() { Err? }

    function PropagateFailure<U>(): Result<U>
      requires Err?
    {
      Err(error)
    }

    function Extract(): T
      requires Ok?
    {
      value
    }
  }
}
