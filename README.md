# encryptor — a Dafny model of password-based file encryption

encryptor is a command-line tool. It encrypts one file into a container
under a password, and decrypts such a container back into a file. This
project models that pipeline and proves properties of the model.

Encryption reads the plaintext and draws a 16-byte salt. It derives a 32-byte
key with PBKDF2-HMAC-SHA-256 (section 5.2 of RFC 8018, 100000 iterations) and
draws a 12-byte nonce. It seals the plaintext with AES-256-GCM (sections 7.1
and 7.2 of NIST SP 800-38D). It then writes `salt ++ nonce ++ ciphertext-with-tag`
to the output and deletes the source. Decryption reads the container and
refuses it when it is shorter than the 28-byte header. Otherwise it slices the
container at offsets 16 and 28, derives the key again, opens the ciphertext
and writes the plaintext out. The command line selects encryption or
decryption from the `--encrypt`, `--decrypt`, `--input` and `--output` flags
and reads the password from standard input.

Modules, one per part of the program:

- `Common`: bytes, paths, `Option`, and the step whose error a routine returns.
- `Crypto`: the primitives (PBKDF2, GCM seal and open). They are passed in as
  a value, and the hypothesis `Sound` says what the routines rely on about
  them. `SoundIsSatisfiable` shows the hypothesis can be met.
- `Container`: the on-disk framing (`Encode`, `Decode`) and the container a
  plaintext is sealed into.
- `Storage`: the filesystem as a class, `FileSystem`, holding a map from
  paths to bytes and a ghost trace of every step taken.
  - `Replay` gives the effect of a sequence of steps.
  - Each failure the OS can report is an argument: a read fault, a create
    fault, a short write, a remove fault.
- `Encryption` and `Decryption`: each routine has two forms.
  - A method (`EncryptFile`, `DecryptFile`) runs the Go routine step by step
    against a `FileSystem`.
  - A pure function (`EncryptRun`, `DecryptRun`) gives that run's result and
    steps. A closed-form function of the final files (`EncryptedFiles`,
    `DecryptedFiles`) is proved equal to the replayed steps.
  - The properties are lemmas about these functions. Randomness enters as an
    argument too: a salt or nonce draw that succeeded, or one that failed.
- `Files`: the filename helpers. The directory listing that `os.ReadDir`
  would return is passed in.
- `Cli`: the command dispatch of `main` and the main test file's scenarios.

main.go repeats `encryptFile` and `decryptFile` from internal/encrypt.go and
internal/decrypt.go, with the same steps, constants and error wording. They
are modelled once, and `Cli.Run` calls the shared methods.

The round-trip test's content, "This is a test content.", is 23 bytes. Its
container is therefore 28 + 23 + 16 = 67 bytes (`Cli.TestEncryptDecryptFile`).

## Model

| member | source | states |
|---|---|---|
| Crypto.DeriveKey | internal/encrypt.go:28 | the key is derived with 100000 iterations and a requested length of 32; with sound primitives it is 32 bytes long |
| Crypto.DerivedKeyFitsAes | internal/encrypt.go:28-40 | with sound primitives `aes.NewCipher` never refuses the derived key, so its error branch is unreachable |
| Crypto.OpenRefusesShortCiphertext | internal/decrypt.go:47-50 | GCM open fails on a ciphertext shorter than the 16-byte tag |
| Container.Decode | internal/decrypt.go:22-29 | refuses exactly the inputs shorter than 28 bytes; otherwise yields a 16-byte salt and a 12-byte nonce, and the three slices concatenate back to the input |
| Container.DecodeEncode | internal/decrypt.go:27-29 | a salt and nonce of the written lengths are sliced back exactly as encryption wrote them, with the ciphertext after them |
| Container.Encode | internal/encrypt.go:58-66 | the container is the salt, then the nonce, then the ciphertext, each starting where the one before it ends; its length is the sum of theirs |
| Container.SealedLength | internal/encrypt.go:49-66 | a container is 28 + plaintext length + 16 bytes long |
| Container.OpenSealed | internal/decrypt.go:27-50 | decoding a sealed container gives back its salt and nonce; the key derived again from that salt opens the ciphertext to the original plaintext |
| Container.ShortContainerNeverOpens | internal/decrypt.go:22-50 | no input shorter than 44 bytes gets past the open step, whatever the password |
| Storage.TransferredPrefix | internal/encrypt.go:58-66 | a write puts a prefix of its chunk in the file: all of it when it succeeds, strictly less when it reports an error |
| Storage.FileSystem.ReadFile | internal/encrypt.go:16-19 | returns the file's bytes, or an error for a missing path or an I/O fault, and changes no file |
| Storage.FileSystem.Create | internal/encrypt.go:52-55 | on success the path exists and is empty (created or truncated); on failure nothing changes |
| Storage.FileSystem.Write | internal/encrypt.go:58-66 | appends the transferred bytes to the open file and reports an error exactly when the write was short |
| Storage.FileSystem.Remove | internal/encrypt.go:69-72 | succeeds exactly when the path exists and no fault occurs, and then the path is gone; on failure nothing changes |
| Storage.FileSystem.Close | internal/encrypt.go:56 | closing changes no file |
| Encryption.EncryptRun | internal/encrypt.go:14-75 | every run starts by reading the input; it fails at the read exactly when the input is missing or unreadable, and then takes no other step |
| Encryption.OutputIsContainerPrefix | internal/encrypt.go:58-66 | the output always holds a prefix of the container: all of it exactly when all three writes completed, less of it otherwise |
| Encryption.WriteEffect | internal/encrypt.go:52-72 | the steps from the create on, replayed, leave the output holding what reached it, and remove the input only when all writes completed and the removal succeeded |
| Encryption.EncryptEffect | internal/encrypt.go:14-75 | the steps of a whole run, replayed, give the closed-form final filesystem |
| Encryption.EncryptFile | internal/encrypt.go:14-75 | returns the run's status, appends exactly the run's steps to the trace, and leaves the filesystem in the closed-form final state |
| Encryption.SealAndWrite | internal/encrypt.go:27-66 | from the key derivation on: a failed nonce draw or a refused AES key returns before anything is written; otherwise the sealed container goes to the write phase; its status, steps and final files are those that `SealRun` and `SealedFiles` give |
| Encryption.WriteContainer | internal/encrypt.go:52-75 | creates the output, runs the writes and the removal, then closes the output on every return after the create (the deferred `Close`) |
| Encryption.WriteParts | internal/encrypt.go:58-72 | three writes, each only after the previous one completed, then the removal of the input only after all three; an error from any of them is returned at once |
| Encryption.WritesRunOrder | internal/encrypt.go:58-72 | between the create and the close, the input is removed only on success, and then as the last step after the three complete writes |
| Encryption.DoneIffEveryStepSucceeds | internal/encrypt.go:14-75 | `nil` is returned if and only if every step succeeds; with sound primitives the AES step never fails |
| Encryption.EarlyFailureChangesNothing | internal/encrypt.go:16-55 | a failure at the read, either random draw, the AES constructor or the create leaves every file unchanged |
| Encryption.MissingInputFails | internal/encrypt.go:16-19 | a missing input fails at the read and changes nothing |
| Encryption.SuccessWritesContainer | internal/encrypt.go:49-72 | on success the output is exactly salt ++ nonce ++ seal(derived key, nonce, plaintext), 44 bytes longer than the plaintext; the input is gone; no other path changed |
| Encryption.SourceSurvivesFailure | internal/encrypt.go:16-72 | whenever an error is returned, the input still holds its original bytes |
| Encryption.FailedWriteLeavesPartialContainer | internal/encrypt.go:58-66 | after a failed write the output exists and holds a proper prefix of the container |
| Encryption.FailedRemovalKeepsBoth | internal/encrypt.go:69-72 | when the removal fails, the output holds the complete container and the input is unchanged |
| Encryption.RemovalFollowsAllWrites | internal/encrypt.go:52-72 | no failing run removes anything; a successful run is exactly read, derive, seal, create, the three writes, remove, then close |
| Encryption.SamePathEndsDeleted | internal/encrypt.go:52-72 | encrypting a file onto its own path truncates it, and on success deletes the container just written, so the path no longer exists |
| Encryption.SamePathFailedWriteLosesSource | internal/encrypt.go:52-60 | encrypting a file onto its own path and failing at the salt write leaves the path holding a proper prefix of the salt: a plaintext of 16 bytes or more is gone although an error is returned |
| Decryption.DecryptRun | internal/decrypt.go:14-24 | every run starts by reading the input; it fails at the read exactly when the input is missing or unreadable, and with "too short" exactly when the input is read but shorter than 28 bytes; either way no other step is taken |
| Decryption.WriteFileEffect | internal/decrypt.go:53-56 | `os.WriteFile` leaves the output holding the bytes that reached it, or changes nothing when the open fails |
| Decryption.DecryptEffect | internal/decrypt.go:14-59 | the steps of a whole run, replayed, give the closed-form final filesystem |
| Decryption.DecryptFile | internal/decrypt.go:14-59 | returns the run's status, appends exactly the run's steps to the trace, and leaves the filesystem in the closed-form final state |
| Decryption.WriteFile | internal/decrypt.go:53-56 | open (create or truncate), write, close; an error if the open fails, the write is short or the close fails |
| Decryption.DoneIffEveryStepSucceeds | internal/decrypt.go:14-59 | `nil` is returned if and only if the input is read, an authenticated plaintext comes out, and the write and close succeed |
| Decryption.UnreadableInputFails | internal/decrypt.go:16-19 | a missing or unreadable input fails at the read and changes nothing |
| Decryption.ShortInputRejectedBeforeCrypto | internal/decrypt.go:22-24 | an input shorter than 28 bytes is refused right after the read, before any key derivation, open or write |
| Decryption.SlicesAt16And28 | internal/decrypt.go:27-50 | the key is derived from bytes 0-16; the ciphertext from byte 28 on is opened with the nonce at bytes 16-28 |
| Decryption.NoPlaintextNoWrite | internal/decrypt.go:46-56 | without an authenticated plaintext the output is never created or written, and no file changes |
| Decryption.SuccessWritesPlaintext | internal/decrypt.go:46-58 | on success the output holds exactly the opened plaintext, no other path changed, and the plaintext is 44 bytes shorter than the container |
| Decryption.InputNeverModified | internal/decrypt.go:14-59 | decryption never removes a file, and with a different output path it leaves the input as it was |
| Decryption.EncryptThenDecrypt | main_test.go:8-62 | decrypting, with the same password, the container a successful encryption wrote gives back the original plaintext |
| Files.GetFilePathForEncryptedFile | internal/files.go:25-27 | the name is the file name followed by the four characters of ".enc" |
| Files.IsEncryptedFile | internal/files.go:29-31 | a name of at least four characters is recognised exactly when it is its own first part followed by ".enc" |
| Files.EncryptedNameIsRecognised | internal/files.go:25-31 | every name made for an encrypted copy is recognised as encrypted |
| Files.IsEncryptedFileIffSuffixed | internal/files.go:29-31 | a name is recognised as encrypted exactly when it is the encrypted name of some name |
| Files.GetFilePathByFileName | internal/files.go:8-23 | returns the name when some directory entry has it, and "" when none does |
| Files.FindAllFiledInCurrentDir | internal/files.go:34-49 | the names of all entries, in listing order |
| Cli.Dispatch | main.go:138-165 | both paths are required; `--encrypt` wins when both mode flags are set; `--decrypt` runs only without `--encrypt` |
| Cli.StripNewline | main.go:146-151 | the password is the line read without its final newline |
| Cli.Run | main.go:127-166 | runs the selected routine with the stripped password and has its effect; with a path missing, no mode flag, or an unreadable password it changes nothing |
| Cli.TestEncryptDecryptFile | main_test.go:8-62 | a 23-byte content gives a 67-byte container, and decrypting that container with the same password writes the content back |
| Cli.TestNonexistentInput | main_test.go:64-78 | both routines return an error for a nonexistent input and change nothing |

## Left out

- PBKDF2, HMAC-SHA-256, AES and GCM are not computed. They are parameters. The model relies only on `Sound`: key length, tag length, and open undoing seal.
- The confidentiality and authenticity guarantees of AES-GCM are left out, because they are probabilistic. The wrong-password test (main_test.go:80-124) therefore has no lemma of its own. `Decryption.NoPlaintextNoWrite` gives its consequence: when open fails, nothing is written.
- `crypto/rand` is an argument. The model fixes whether each draw succeeded and which bytes it gave.
- The OS is an argument too: whether each read, create, write, remove and close fails, and how many bytes a short write moved.
- `cipher.NewGCM` fails only for a block size other than 16, which AES never has. Its error branch is not modelled.
- The error of the deferred `Close` in encryption is discarded by Go, so the model records the close and ignores its result.
- The file permission bits (0644, and 0666 for `os.Create`) are not modelled, and neither is the exact wording of the errors. Only the failing step is kept.
- Printing to standard output and `os.Exit` are not modelled. A failed `os.ReadDir` is outside `Files`, which takes the directory listing as an argument.
- Flag parsing is not modelled. `Cli.Run` starts from the parsed flags and from what the password read returned.
- Paths are sequences of characters, whereas Go measures strings in bytes. `Files.IsEncryptedFile` requires a name of at least four characters, where Go panics on a shorter one. For a name with multi-byte characters, Go's byte-length threshold is not modelled.
- main.go imports PBKDF2 from golang.org/x/crypto, and internal/ imports it from github.com/xdg-go/pbkdf2. Both compute the same function and are modelled as one.
- `Encryption.SealAndWrite`, `Encryption.WriteContainer`, `Encryption.WriteParts` and `Decryption.WriteFile` are stretches of one Go function each, split off as methods of their own. They add no behaviour.
- Paths are compared as strings. Two spellings of one file (`a.txt` and `./a.txt`), symlinks and hard links are not modelled. Where a lemma requires `input != output` (`Encryption.SuccessWritesContainer`, `Encryption.SourceSurvivesFailure`, `Encryption.FailedRemovalKeepsBoth`, `Decryption.InputNeverModified`), it means different files only under that assumption. When both paths name one file, `os.Create` truncates the input and `os.Remove` deletes the container just written. The model shows these effects only for identical strings (`Encryption.SamePathEndsDeleted`, `Encryption.SamePathFailedWriteLosesSource`).
- A short write is modelled as moving a proper prefix of its chunk, the contract of Go's `io.Writer`. How many bytes it moves is an argument.
