/** `DecryptFile` (internal/decrypt.go, duplicated as `decryptFile` in
    main.go): read the container, refuse it if shorter than the header,
    slice it at 16 and 28, derive the key from the salt it carries, open the
    ciphertext, and write the plaintext with `os.WriteFile`.  The input is
    never removed. */
module Decryption {
  import opened Common
  import opened Crypto
  import opened Container
  import opened Storage
  import Encryption

  /** How each step that can fail turns out on one run.  `os.WriteFile`
      opens (creating or truncating) the output, writes, and closes it,
      returning the close error when the write succeeded. */
  datatype DecryptEnv = DecryptEnv(
    readFault: bool,
    createFault: bool,
    write: WriteOutcome,
    closeFault: bool)

  /** The run of `DecryptFile(input, output, password)` on `files`. */
  function DecryptRun(files: Files, input: Path, output: Path, password: Bytes,
                      c: Primitives, env: DecryptEnv): (r: Run)
    ensures |r.events| > 0 && r.events[0] == Read(input)
    ensures r.status == Failed(ReadInput) <==> env.readFault || input !in files
    ensures r.status == Failed(TooShort)
            <==> !env.readFault && input in files && |files[input]| < HeaderLen
    ensures r.status in {Failed(ReadInput), Failed(TooShort)} ==> r.events == [Read(input)]
  {
    var read := [Read(input)];
    if env.readFault || input !in files then Run(Failed(ReadInput), read)
    else match Decode(files[input])
      case None => Run(Failed(TooShort), read)
      case Some(p) =>
        var key := DeriveKey(c, password, p.salt);
        var derived := read + [Derive(p.salt)];
        if !AesKeySizeOk(|key|) then Run(Failed(CreateCipher), derived)
        else
          var unsealed := derived + [Open(p.nonce)];
          match c.open(key, p.nonce, p.ciphertext)
          case None => Run(Failed(DecryptData), unsealed)
          case Some(plaintext) =>
            var written := WriteFileRun(output, plaintext, env);
            Run(written.status, unsealed + written.events)
  }

  /** `os.WriteFile(output, data, 0644)`. */
  function WriteFileRun(output: Path, data: Bytes, env: DecryptEnv): Run
  {
    if env.createFault then Run(Failed(WriteOutput), [])
    else
      var events := [Create(output), Append(output, Transferred(data, env.write)), Close(output)];
      if !env.write.Complete? || env.closeFault then Run(Failed(WriteOutput), events)
      else Run(Done, events)
  }

  /** The plaintext a container yields under a password, if the run gets as
      far as the write: the header is there, the AES key is accepted, and
      `open` authenticates the ciphertext. */
  function Plaintext(c: Primitives, password: Bytes, data: Bytes): Option<Bytes>
  {
    match Decode(data)
    case None => None
    case Some(p) =>
      var key := DeriveKey(c, password, p.salt);
      if !AesKeySizeOk(|key|) then None else c.open(key, p.nonce, p.ciphertext)
  }

  /** The filesystem after a run, in closed form: the output is touched only
      once a plaintext has been authenticated and the output could be
      opened; it then holds the bytes of the plaintext that reached it.  No
      other path changes. */
  ghost function DecryptedFiles(files: Files, input: Path, output: Path, password: Bytes,
                                c: Primitives, env: DecryptEnv): Files
  {
    if env.readFault || input !in files || env.createFault then files
    else match Plaintext(c, password, files[input])
      case None => files
      case Some(plaintext) => files[output := Transferred(plaintext, env.write)]
  }

  /** The write of `os.WriteFile`, replayed. */
  lemma WriteFileEffect(files: Files, output: Path, data: Bytes, env: DecryptEnv)
    ensures Replay(files, WriteFileRun(output, data, env).events)
            == if env.createFault then files else files[output := Transferred(data, env.write)]
  {
    if !env.createFault {
      var w := Transferred(data, env.write);
      assert Replay(files, [Create(output)]) == files[output := []] by {
        ReplaySnoc(files, [], Create(output));
        assert [] + [Create(output)] == [Create(output)];
      }
      assert Replay(files, [Create(output), Append(output, w)]) == files[output := w] by {
        ReplaySnoc(files, [Create(output)], Append(output, w));
        assert [Create(output)] + [Append(output, w)] == [Create(output), Append(output, w)];
        assert [] + w == w;
      }
      ReplaySnoc(files, [Create(output), Append(output, w)], Close(output));
      assert [Create(output), Append(output, w)] + [Close(output)]
             == [Create(output), Append(output, w), Close(output)];
    }
  }

  /** The events of a run, replayed on the filesystem, give the closed
      form. */
  lemma DecryptEffect(files: Files, input: Path, output: Path, password: Bytes,
                      c: Primitives, env: DecryptEnv)
    ensures Replay(files, DecryptRun(files, input, output, password, c, env).events)
            == DecryptedFiles(files, input, output, password, c, env)
  {
    var read := [Read(input)];
    assert Replay(files, read) == files by {
      ReplaySnoc(files, [], Read(input));
      assert [] + [Read(input)] == read;
    }
    if !env.readFault && input in files && Decode(files[input]).Some? {
      var p := Decode(files[input]).value;
      var derived := read + [Derive(p.salt)];
      ReplaySnoc(files, read, Derive(p.salt));
      var key := DeriveKey(c, password, p.salt);
      if AesKeySizeOk(|key|) {
        var unsealed := derived + [Open(p.nonce)];
        ReplaySnoc(files, derived, Open(p.nonce));
        if c.open(key, p.nonce, p.ciphertext).Some? {
          var plaintext := c.open(key, p.nonce, p.ciphertext).value;
          ReplayConcat(files, unsealed, WriteFileRun(output, plaintext, env).events);
          WriteFileEffect(files, output, plaintext, env);
        }
      }
    }
  }

  /** Go's `DecryptFile`, step by step against the filesystem. */
  method DecryptFile(fs: FileSystem, input: Path, output: Path, password: Bytes,
                     c: Primitives, env: DecryptEnv) returns (status: Status)
    modifies fs
    ensures var run := DecryptRun(old(fs.files), input, output, password, c, env);
            && status == run.status
            && fs.trace == old(fs.trace) + run.events
            && fs.files == DecryptedFiles(old(fs.files), input, output, password, c, env)
  {
    var data := fs.ReadFile(input, env.readFault);
    if data.None? {
      return Failed(ReadInput);
    }
    if |data.value| < HeaderLen {
      return Failed(TooShort);
    }
    var salt := data.value[..SaltLen];
    var nonce := data.value[SaltLen..HeaderLen];
    var ciphertext := data.value[HeaderLen..];
    var key := DeriveKey(c, password, salt);
    fs.Note(Derive(salt));
    if !AesKeySizeOk(|key|) {
      return Failed(CreateCipher);
    }
    var plaintext := c.open(key, nonce, ciphertext);
    fs.Note(Open(nonce));
    if plaintext.None? {
      return Failed(DecryptData);
    }
    DecryptedFilesAfterOpen(fs.files, input, output, password, c, env);
    status := WriteFile(fs, output, plaintext.value, env);
  }

  /** Once a plaintext is authenticated, the closed form of a run is that of
      `os.WriteFile`. */
  lemma DecryptedFilesAfterOpen(files: Files, input: Path, output: Path, password: Bytes,
                                c: Primitives, env: DecryptEnv)
    requires !env.readFault && input in files && Plaintext(c, password, files[input]).Some?
    ensures var plaintext := Plaintext(c, password, files[input]).value;
            DecryptedFiles(files, input, output, password, c, env)
            == if env.createFault then files else files[output := Transferred(plaintext, env.write)]
  {
  }

  /** `os.WriteFile`: open the output (creating or truncating it), write,
      close; a failed write or close is reported as a failed write. */
  method WriteFile(fs: FileSystem, output: Path, data: Bytes, env: DecryptEnv) returns (status: Status)
    modifies fs
    ensures var run := WriteFileRun(output, data, env);
            && status == run.status
            && fs.trace == old(fs.trace) + run.events
            && fs.files == if env.createFault then old(fs.files)
                           else old(fs.files)[output := Transferred(data, env.write)]
  {
    var ok := fs.Create(output, env.createFault);
    if !ok {
      return Failed(WriteOutput);
    }
    ok := fs.Write(output, data, env.write);
    assert [] + Transferred(data, env.write) == Transferred(data, env.write);
    fs.Close(output);
    if !ok || env.closeFault {
      return Failed(WriteOutput);
    }
    return Done;
  }

  // Properties of a run.

  /** `nil` comes back exactly when the container was read, yielded an
      authenticated plaintext, and `os.WriteFile` succeeded. */
  lemma DoneIffEveryStepSucceeds(files: Files, input: Path, output: Path, password: Bytes,
                                 c: Primitives, env: DecryptEnv)
    ensures DecryptRun(files, input, output, password, c, env).status == Done
            <==> && !env.readFault && input in files && Plaintext(c, password, files[input]).Some?
                 && !env.createFault && env.write.Complete? && !env.closeFault
  {
  }

  /** A missing or unreadable input makes decryption fail at the read,
      changing nothing. */
  lemma UnreadableInputFails(files: Files, input: Path, output: Path, password: Bytes,
                             c: Primitives, env: DecryptEnv)
    requires env.readFault || input !in files
    ensures var run := DecryptRun(files, input, output, password, c, env);
            run.status == Failed(ReadInput) && Replay(files, run.events) == files
  {
    DecryptEffect(files, input, output, password, c, env);
  }

  /** A container shorter than the 28-byte header is refused right after
      the read: no key is derived, nothing is opened, nothing is written. */
  lemma ShortInputRejectedBeforeCrypto(files: Files, input: Path, output: Path, password: Bytes,
                                       c: Primitives, env: DecryptEnv)
    requires !env.readFault && input in files && |files[input]| < HeaderLen
    ensures var run := DecryptRun(files, input, output, password, c, env);
            run.status == Failed(TooShort) && run.events == [Read(input)]
            && Replay(files, run.events) == files
  {
    DecryptEffect(files, input, output, password, c, env);
  }

  /** For a container of at least 28 bytes, the key is derived from its
      first 16 bytes, and the ciphertext from byte 28 on is opened with the
      nonce at bytes 16 to 28; the three slices make up the whole input. */
  lemma SlicesAt16And28(files: Files, input: Path, output: Path, password: Bytes,
                        c: Primitives, env: DecryptEnv)
    requires !env.readFault && input in files && |files[input]| >= HeaderLen
    ensures var data := files[input];
            var run := DecryptRun(files, input, output, password, c, env);
            var key := DeriveKey(c, password, data[..SaltLen]);
            && data[..SaltLen] + data[SaltLen..HeaderLen] + data[HeaderLen..] == data
            && |run.events| >= 2 && run.events[1] == Derive(data[..SaltLen])
            && (AesKeySizeOk(|key|) ==>
                  && |run.events| >= 3 && run.events[2] == Open(data[SaltLen..HeaderLen])
                  && Plaintext(c, password, data) == c.open(key, data[SaltLen..HeaderLen], data[HeaderLen..]))
  {
    var data := files[input];
    assert data[..SaltLen] + data[SaltLen..HeaderLen] + data[HeaderLen..] == data;
  }

  /** Fail closed: unless `open` authenticates the ciphertext, the output is
      never created or written, and no file changes. */
  lemma NoPlaintextNoWrite(files: Files, input: Path, output: Path, password: Bytes,
                           c: Primitives, env: DecryptEnv)
    requires input in files && Plaintext(c, password, files[input]).None?
    ensures var run := DecryptRun(files, input, output, password, c, env);
            && run.status != Done
            && (forall i :: 0 <= i < |run.events| ==> !Touches(run.events[i], output))
            && Replay(files, run.events) == files
  {
    DecryptEffect(files, input, output, password, c, env);
  }

  /** On success the output holds exactly the plaintext `open` returned, and
      no other path changed; with sound primitives that plaintext is 44
      bytes shorter than the container. */
  lemma SuccessWritesPlaintext(files: Files, input: Path, output: Path, password: Bytes,
                               c: Primitives, env: DecryptEnv)
    requires DecryptRun(files, input, output, password, c, env).status == Done
    ensures var after := Replay(files, DecryptRun(files, input, output, password, c, env).events);
            && input in files && Plaintext(c, password, files[input]).Some?
            && after == files[output := Plaintext(c, password, files[input]).value]
            && (Sound(c) ==> |after[output]| + HeaderLen + TagLen == |files[input]|)
  {
    DecryptEffect(files, input, output, password, c, env);
    TransferredPrefix(Plaintext(c, password, files[input]).value, env.write);
  }

  /** Decryption never removes anything, and, written to another path, it
      leaves its input exactly as it was, on every path through it. */
  lemma InputNeverModified(files: Files, input: Path, output: Path, password: Bytes,
                           c: Primitives, env: DecryptEnv)
    ensures var run := DecryptRun(files, input, output, password, c, env);
            var after := Replay(files, run.events);
            && (forall i :: 0 <= i < |run.events| ==> !run.events[i].Remove?)
            && (input != output ==>
                  (input in after <==> input in files) && (input in files ==> after[input] == files[input]))
  {
    DecryptEffect(files, input, output, password, c, env);
  }

  /** Round trip: decrypting, with the same password, the container that a
      successful encryption wrote gives back the original plaintext. */
  lemma EncryptThenDecrypt(files: Files, source: Path, container: Path, target: Path,
                           password: Bytes, c: Primitives,
                           encEnv: Encryption.EncryptEnv, decEnv: DecryptEnv)
    requires Sound(c) && Encryption.DrawsFit(encEnv)
    requires source != container
    requires Encryption.EncryptRun(files, source, container, password, c, encEnv).status == Done
    requires !decEnv.readFault && !decEnv.createFault && decEnv.write.Complete? && !decEnv.closeFault
    ensures var encrypted := Replay(files, Encryption.EncryptRun(files, source, container, password, c, encEnv).events);
            var run := DecryptRun(encrypted, container, target, password, c, decEnv);
            && run.status == Done
            && target in Replay(encrypted, run.events)
            && Replay(encrypted, run.events)[target] == files[source]
  {
    Encryption.SuccessWritesContainer(files, source, container, password, c, encEnv);
    var encrypted := Replay(files, Encryption.EncryptRun(files, source, container, password, c, encEnv).events);
    var salt, nonce := encEnv.salt.bytes, encEnv.nonce.bytes;
    OpenSealed(c, password, salt, nonce, files[source]);
    DerivedKeyFitsAes(c, password, salt);
    assert encrypted[container] == Encode(Container.Seal(c, password, salt, nonce, files[source]));
    assert Plaintext(c, password, encrypted[container]) == Some(files[source]);
    SuccessWritesPlaintext(encrypted, container, target, password, c, decEnv);
  }
}
