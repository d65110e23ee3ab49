/** Values shared by the Presto string kernels: bytes, the ASCII test and the
    per-row error outcome that a failed VELOX_USER_CHECK or VELOX_UNSUPPORTED
    stands for. */
module Common {

  /** One byte of a VARCHAR or VARBINARY value. */
  newtype byte = b: int | 0 <= b < 256

  /** True when every byte is 7-bit ASCII, so that byte offsets and character
      offsets coincide (the fast path of every kernel). */
  predicate IsAscii(s: seq<byte>) {
    forall i :: 0 <= i < |s| ==> s[i] < 128
  }

  /** The hard per-row errors the kernels raise. */
  datatype Error =
    | UnsupportedTrimCharacters
    | HammingLengthMismatch
    | LevenshteinInputTooLarge

  datatype Result<T> = Success(value: T) | Failure(error: Error)

  datatype Option<T> = None | Some(value: T)
}
