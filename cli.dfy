/** The command-line entry point of main.go, reduced to its decisions: both
    paths must be given, then `--encrypt` wins over `--decrypt`, and with
    neither flag nothing runs.  main.go's `encryptFile` and `decryptFile`
    are the same routines as internal/encrypt.go and internal/decrypt.go
    and are modelled once, by `Encryption.EncryptFile` and
    `Decryption.DecryptFile`. */
module Cli {
  import opened Common
  import opened Crypto
  import opened Storage
  import Encryption
  import Decryption

  datatype Flags = Flags(encrypt: bool, decrypt: bool, input: Path, output: Path)

  datatype Command = MissingPaths | EncryptCommand | DecryptCommand | NoMode

  /** Which routine `main` runs for the given flags. */
  function Dispatch(flags: Flags): (cmd: Command)
    ensures cmd == MissingPaths <==> flags.input == "" || flags.output == ""
    ensures cmd == EncryptCommand <==> flags.input != "" && flags.output != "" && flags.encrypt
    ensures cmd == DecryptCommand
            <==> flags.input != "" && flags.output != "" && !flags.encrypt && flags.decrypt
  {
    if flags.input == "" || flags.output == "" then MissingPaths
    else if flags.encrypt then EncryptCommand
    else if flags.decrypt then DecryptCommand
    else NoMode
  }

  const Newline: byte := 10

  /** The password typed on standard input: the line read, which ends with
      its newline whenever the read succeeds, without that newline. */
  function StripNewline(line: Bytes): (password: Bytes)
    requires |line| > 0 && line[|line| - 1] == Newline
    ensures password + [Newline] == line
  {
    line[..|line| - 1]
  }

  /** `main` after the flags are parsed.  `line` is what reading the
      password line returned (None: the read failed, and `main` stops).
      Errors of the routines are only reported, so their status is returned
      as is; `status` is None when no routine ran. */
  method Run(fs: FileSystem, flags: Flags, line: Option<Bytes>, c: Primitives,
             encEnv: Encryption.EncryptEnv, decEnv: Decryption.DecryptEnv)
    returns (cmd: Command, status: Option<Status>)
    requires line.Some? ==> |line.value| > 0 && line.value[|line.value| - 1] == Newline
    requires Encryption.DrawsFit(encEnv)
    modifies fs
    ensures cmd == Dispatch(flags)
    ensures cmd == EncryptCommand && line.Some? ==>
              var password := StripNewline(line.value);
              && status == Some(Encryption.EncryptRun(old(fs.files), flags.input, flags.output, password, c, encEnv).status)
              && fs.files == Encryption.EncryptedFiles(old(fs.files), flags.input, flags.output, password, c, encEnv)
    ensures cmd == DecryptCommand && line.Some? ==>
              var password := StripNewline(line.value);
              && status == Some(Decryption.DecryptRun(old(fs.files), flags.input, flags.output, password, c, decEnv).status)
              && fs.files == Decryption.DecryptedFiles(old(fs.files), flags.input, flags.output, password, c, decEnv)
    ensures cmd == MissingPaths || cmd == NoMode || line.None? ==>
              status == None && fs.files == old(fs.files) && fs.trace == old(fs.trace)
  {
    cmd := Dispatch(flags);
    if cmd == MissingPaths || line.None? {
      return cmd, None;
    }
    var password := StripNewline(line.value);
    match cmd
    case EncryptCommand =>
      var s := Encryption.EncryptFile(fs, flags.input, flags.output, password, c, encEnv);
      status := Some(s);
    case DecryptCommand =>
      var s := Decryption.DecryptFile(fs, flags.input, flags.output, password, c, decEnv);
      status := Some(s);
    case _ =>
      status := None;
  }

  /** The bytes of "This is a test content.", the file content of the
      round-trip test: 23 bytes. */
  const TestContent: Bytes :=
    [84, 104, 105, 115, 32, 105, 115, 32, 97, 32, 116, 101, 115, 116, 32,
     99, 111, 110, 116, 101, 110, 116, 46]

  /** The round-trip test, for every successful run of it: the container is
      28 + 23 + 16 = 67 bytes, and decrypting it with the same password
      writes the original content back. */
  lemma TestEncryptDecryptFile(files: Files, source: Path, container: Path, target: Path,
                               password: Bytes, c: Primitives,
                               encEnv: Encryption.EncryptEnv, decEnv: Decryption.DecryptEnv)
    requires Sound(c) && Encryption.DrawsFit(encEnv)
    requires source != container && source in files && files[source] == TestContent
    requires Encryption.EncryptRun(files, source, container, password, c, encEnv).status == Done
    requires !decEnv.readFault && !decEnv.createFault && decEnv.write.Complete? && !decEnv.closeFault
    ensures var encrypted := Replay(files, Encryption.EncryptRun(files, source, container, password, c, encEnv).events);
            && container in encrypted && |encrypted[container]| == 67
            && var run := Decryption.DecryptRun(encrypted, container, target, password, c, decEnv);
               && run.status == Done && target in Replay(encrypted, run.events)
               && Replay(encrypted, run.events)[target] == TestContent
  {
    Encryption.SuccessWritesContainer(files, source, container, password, c, encEnv);
    Decryption.EncryptThenDecrypt(files, source, container, target, password, c, encEnv, decEnv);
  }

  /** The invalid-input tests: both routines report an error for a path
      that does not exist, and change nothing. */
  lemma TestNonexistentInput(files: Files, input: Path, output: Path, password: Bytes, c: Primitives,
                             encEnv: Encryption.EncryptEnv, decEnv: Decryption.DecryptEnv)
    requires Encryption.DrawsFit(encEnv)
    requires input !in files
    ensures var enc := Encryption.EncryptRun(files, input, output, password, c, encEnv);
            enc.status == Failed(ReadInput) && Replay(files, enc.events) == files
    ensures var dec := Decryption.DecryptRun(files, input, output, password, c, decEnv);
            dec.status == Failed(ReadInput) && Replay(files, dec.events) == files
  {
    Encryption.MissingInputFails(files, input, output, password, c, encEnv);
    Decryption.UnreadableInputFails(files, input, output, password, c, decEnv);
  }
}
