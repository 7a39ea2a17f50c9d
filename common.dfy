/** Values shared by every part of the model: bytes, paths, options and the
    failing steps that the encryption and decryption routines report. */
module Common {

  /** A Go `byte`. */
  newtype byte = b: int | 0 <= b < 256

  type Bytes = seq<byte>

  /** A filesystem path, as given on the command line. */
  type Path = string

  datatype Option<T> = None | Some(value: T)

  /** The step whose error a routine returns; the wording of Go's wrapped
      errors is not modelled, only which step produced them. */
  datatype Step =
    | ReadInput        // "failed to read input file"
    | GenerateSalt     // "failed to generate salt"
    | GenerateNonce    // "failed to generate nonce"
    | CreateCipher     // "failed to create AES cipher"
    | CreateOutput     // "failed to create output file"
    | WriteSalt        // "failed to write salt"
    | WriteNonce       // "failed to write nonce"
    | WriteCiphertext  // "failed to write ciphertext"
    | RemoveSource     // "failed to delete source file"
    | TooShort         // "file too short to contain salt, nonce, and ciphertext"
    | DecryptData      // "failed to decrypt data"
    | WriteOutput      // "failed to write decrypted file"

  /** What a routine returns: `Done` is Go's `nil` error. */
  datatype Status = Done | Failed(step: Step)

  function Min(a: int, b: int): int
  {
    if a <= b then a else b
  }
}
