/** Why a decoder rejects its input. */
module EncodingErrors {
  datatype EncodingError = Truncated | BadHeader | UnsupportedStride(stride: nat) | InvalidUtf8 | Corrupt
}
