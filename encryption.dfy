/** `EncryptFile` (internal/encrypt.go, duplicated as `encryptFile` in
    main.go): read the plaintext, draw a salt, derive the key, draw a nonce,
    seal, create the output, write salt, nonce and ciphertext through the
    open handle, remove the source; the deferred `Close` of the output runs
    on every return after the create. */
module Encryption {
  import opened Common
  import opened Crypto
  import opened Container
  import opened Storage

  /** A draw from crypto/rand: the bytes it filled, or an error. */
  datatype Draw = Drawn(bytes: Bytes) | DrawFailed

  /** How each step that can fail turns out on one run. */
  datatype EncryptEnv = EncryptEnv(
    readFault: bool,
    salt: Draw,
    nonce: Draw,
    createFault: bool,
    writeSalt: WriteOutcome,
    writeNonce: WriteOutcome,
    writeCiphertext: WriteOutcome,
    removeFault: bool)

  /** crypto/rand fills the whole buffer when it reports no error. */
  predicate DrawsFit(env: EncryptEnv)
  {
    && (env.salt.Drawn? ==> |env.salt.bytes| == SaltLen)
    && (env.nonce.Drawn? ==> |env.nonce.bytes| == NonceLen)
  }

  /** The run of `EncryptFile(input, output, password)` on `files`: its
      result and the steps it takes, in order. */
  function EncryptRun(files: Files, input: Path, output: Path, password: Bytes,
                      c: Primitives, env: EncryptEnv): (r: Run)
    requires DrawsFit(env)
    ensures |r.events| > 0 && r.events[0] == Read(input)
    ensures r.status == Failed(ReadInput) <==> env.readFault || input !in files
    ensures r.status == Failed(ReadInput) ==> r.events == [Read(input)]
  {
    var read := [Read(input)];
    if env.readFault || input !in files then Run(Failed(ReadInput), read)
    else if env.salt.DrawFailed? then Run(Failed(GenerateSalt), read)
    else
      var rest := SealRun(input, output, files[input], password, c, env);
      Run(rest.status, read + rest.events)
  }

  /** The part of a run from the key derivation on, once the plaintext is
      read and the salt drawn: the nonce draw, the AES constructor, the seal,
      and the write phase. */
  function SealRun(input: Path, output: Path, plaintext: Bytes, password: Bytes,
                   c: Primitives, env: EncryptEnv): Run
    requires env.salt.Drawn?
  {
    var salt := env.salt.bytes;
    var key := DeriveKey(c, password, salt);
    var derived := [Derive(salt)];
    if env.nonce.DrawFailed? then Run(Failed(GenerateNonce), derived)
    else if !AesKeySizeOk(|key|) then Run(Failed(CreateCipher), derived)
    else
      var nonce := env.nonce.bytes;
      var written := WriteRun(input, output, Parts(salt, nonce, c.seal(key, nonce, plaintext)), env);
      Run(written.status, derived + [Seal(nonce)] + written.events)
  }

  /** The part of a run from `os.Create(output)` on: nothing more if the
      create fails; otherwise the writes and the removal, followed by the
      deferred `Close` of the output, whichever way they end. */
  function WriteRun(input: Path, output: Path, p: Parts, env: EncryptEnv): Run
  {
    if env.createFault then Run(Failed(CreateOutput), [])
    else
      var body := WritesRun(input, output, p, env);
      Run(body.status, [Create(output)] + body.events + [Close(output)])
  }

  /** Between the create and the close: the three writes, each only if the
      one before completed, and the removal of the input only if all three
      completed. */
  function WritesRun(input: Path, output: Path, p: Parts, env: EncryptEnv): Run
  {
    var a1 := [Append(output, Transferred(p.salt, env.writeSalt))];
    if !env.writeSalt.Complete? then Run(Failed(WriteSalt), a1)
    else
      var a2 := a1 + [Append(output, Transferred(p.nonce, env.writeNonce))];
      if !env.writeNonce.Complete? then Run(Failed(WriteNonce), a2)
      else
        var a3 := a2 + [Append(output, Transferred(p.ciphertext, env.writeCiphertext))];
        if !env.writeCiphertext.Complete? then Run(Failed(WriteCiphertext), a3)
        else if env.removeFault then Run(Failed(RemoveSource), a3)
        else Run(Done, a3 + [Remove(input)])
  }

  /** The container this run would write: the drawn salt and nonce, and the
      plaintext sealed under the key derived from that salt. */
  function Sealed(files: Files, input: Path, password: Bytes, c: Primitives, env: EncryptEnv): Parts
    requires input in files && env.salt.Drawn? && env.nonce.Drawn?
  {
    Container.Seal(c, password, env.salt.bytes, env.nonce.bytes, files[input])
  }

  /** The bytes that reach the output handle, given how the three writes
      end: each write runs only if the one before it completed. */
  function OutputBytes(p: Parts, env: EncryptEnv): Bytes
  {
    var s := Transferred(p.salt, env.writeSalt);
    if !env.writeSalt.Complete? then s
    else
      var n := Transferred(p.nonce, env.writeNonce);
      if !env.writeNonce.Complete? then p.salt + n
      else p.salt + p.nonce + Transferred(p.ciphertext, env.writeCiphertext)
  }

  /** The output always holds a prefix of the container; all of it exactly
      when every write completed, and less of it otherwise, since none of
      the three parts is empty. */
  lemma OutputIsContainerPrefix(p: Parts, env: EncryptEnv)
    ensures OutputBytes(p, env) <= Encode(p)
    ensures AllWritesComplete(env) ==> OutputBytes(p, env) == Encode(p)
    ensures !AllWritesComplete(env) && p.salt != [] && p.nonce != [] && p.ciphertext != []
            ==> |OutputBytes(p, env)| < |Encode(p)|
  {
    TransferredPrefix(p.salt, env.writeSalt);
    TransferredPrefix(p.nonce, env.writeNonce);
    TransferredPrefix(p.ciphertext, env.writeCiphertext);
  }

  /** Whether the run gets as far as creating the output: the input was
      read, both draws succeeded, the AES key was accepted and the create
      succeeded. */
  predicate ReachesCreate(files: Files, input: Path, password: Bytes, c: Primitives, env: EncryptEnv)
  {
    && !env.readFault && input in files
    && env.salt.Drawn? && env.nonce.Drawn?
    && AesKeySizeOk(|DeriveKey(c, password, env.salt.bytes)|)
  }

  /** The filesystem after the write phase, in closed form. */
  ghost function WrittenFiles(files: Files, input: Path, output: Path, p: Parts, env: EncryptEnv): Files
  {
    if env.createFault then files else AfterWrites(files, input, output, p, env)
  }

  /** The filesystem after the writes and the removal, in closed form: the
      output holds the bytes that reached it, and the input is gone only if
      every write completed and the removal succeeded. */
  ghost function AfterWrites(files: Files, input: Path, output: Path, p: Parts, env: EncryptEnv): Files
  {
    var written := files[output := OutputBytes(p, env)];
    if AllWritesComplete(env) && !env.removeFault then written - {input} else written
  }

  predicate AllWritesComplete(env: EncryptEnv)
  {
    env.writeSalt.Complete? && env.writeNonce.Complete? && env.writeCiphertext.Complete?
  }

  /** The filesystem after a run, in closed form: nothing changes unless the
      output is created; then the output holds the bytes that reached it, and
      the input is gone only if every write completed and the removal
      succeeded. */
  ghost function EncryptedFiles(files: Files, input: Path, output: Path, password: Bytes,
                                c: Primitives, env: EncryptEnv): Files
  {
    if !ReachesCreate(files, input, password, c, env) then files
    else WrittenFiles(files, input, output, Sealed(files, input, password, c, env), env)
  }

  /** The filesystem after the part of a run from the key derivation on, in
      closed form. */
  ghost function SealedFiles(files: Files, input: Path, output: Path, plaintext: Bytes, password: Bytes,
                             c: Primitives, env: EncryptEnv): Files
    requires env.salt.Drawn?
  {
    if env.nonce.DrawFailed? || !AesKeySizeOk(|DeriveKey(c, password, env.salt.bytes)|) then files
    else WrittenFiles(files, input, output, Container.Seal(c, password, env.salt.bytes, env.nonce.bytes, plaintext), env)
  }

  /** The write phase, replayed: nothing changes if the create fails;
      otherwise the output holds the bytes that reached it, and the input is
      gone only if every write completed and the removal succeeded. */
  lemma WriteEffect(files: Files, input: Path, output: Path, p: Parts, env: EncryptEnv)
    ensures Replay(files, WriteRun(input, output, p, env).events) == WrittenFiles(files, input, output, p, env)
  {
    if !env.createFault {
      var body := WritesRun(input, output, p, env).events;
      var created := files[output := []];
      assert Replay(files, [Create(output)]) == created by {
        ReplaySnoc(files, [], Create(output));
        assert [] + [Create(output)] == [Create(output)];
      }
      ReplayConcat(files, [Create(output)], body);
      WritesEffect(created, input, output, p, env);
      ReplaySnoc(files, [Create(output)] + body, Close(output));
      AfterWritesOverwrites(files, input, output, p, env);
    }
  }

  /** The writes and the removal, replayed on a state where the output has
      just been created empty. */
  lemma WritesEffect(files: Files, input: Path, output: Path, p: Parts, env: EncryptEnv)
    requires output in files && files[output] == []
    ensures Replay(files, WritesRun(input, output, p, env).events) == AfterWrites(files, input, output, p, env)
  {
    var s1 := Transferred(p.salt, env.writeSalt);
    assert Replay(files, [Append(output, s1)]) == files[output := s1] by {
      ReplaySnoc(files, [], Append(output, s1));
      assert [] + [Append(output, s1)] == [Append(output, s1)];
      assert [] + s1 == s1;
    }
    if env.writeSalt.Complete? {
      NonceOnwardsEffect(files, input, output, p, env);
    }
  }

  /** The same, once the salt has been written in full. */
  lemma NonceOnwardsEffect(files: Files, input: Path, output: Path, p: Parts, env: EncryptEnv)
    requires output in files && env.writeSalt.Complete?
    requires Replay(files, [Append(output, p.salt)]) == files[output := p.salt]
    ensures Replay(files, WritesRun(input, output, p, env).events) == AfterWrites(files, input, output, p, env)
  {
    var a1 := [Append(output, p.salt)];
    var s2 := Transferred(p.nonce, env.writeNonce);
    ReplaySnoc(files, a1, Append(output, s2));
    if env.writeNonce.Complete? {
      CiphertextOnwardsEffect(files, input, output, p, env);
    }
  }

  /** The same, once the salt and the nonce have been written in full. */
  lemma CiphertextOnwardsEffect(files: Files, input: Path, output: Path, p: Parts, env: EncryptEnv)
    requires output in files && env.writeSalt.Complete? && env.writeNonce.Complete?
    requires Replay(files, [Append(output, p.salt)] + [Append(output, p.nonce)])
             == files[output := p.salt + p.nonce]
    ensures Replay(files, WritesRun(input, output, p, env).events) == AfterWrites(files, input, output, p, env)
  {
    var a2 := [Append(output, p.salt)] + [Append(output, p.nonce)];
    var s3 := Transferred(p.ciphertext, env.writeCiphertext);
    var a3 := a2 + [Append(output, s3)];
    ReplaySnoc(files, a2, Append(output, s3));
    if env.writeCiphertext.Complete? && !env.removeFault {
      assert WritesRun(input, output, p, env).events == a3 + [Remove(input)];
      assert AfterWrites(files, input, output, p, env) == files[output := Encode(p)] - {input};
      ReplaySnoc(files, a3, Remove(input));
    } else {
      assert WritesRun(input, output, p, env).events == a3;
      assert AfterWrites(files, input, output, p, env) == files[output := p.salt + p.nonce + s3];
    }
  }

  /** The events of a run, replayed on the filesystem, give the closed
      form. */
  lemma EncryptEffect(files: Files, input: Path, output: Path, password: Bytes,
                      c: Primitives, env: EncryptEnv)
    requires DrawsFit(env)
    ensures Replay(files, EncryptRun(files, input, output, password, c, env).events)
            == EncryptedFiles(files, input, output, password, c, env)
  {
    var read := [Read(input)];
    assert Replay(files, read) == files by {
      ReplaySnoc(files, [], Read(input));
      assert [] + [Read(input)] == read;
    }
    if !env.readFault && input in files && env.salt.Drawn? {
      ReplayConcat(files, read, SealRun(input, output, files[input], password, c, env).events);
      SealEffect(files, input, output, files[input], password, c, env);
    }
  }

  /** The same for the part of a run from the key derivation on. */
  lemma SealEffect(files: Files, input: Path, output: Path, plaintext: Bytes, password: Bytes,
                   c: Primitives, env: EncryptEnv)
    requires env.salt.Drawn?
    ensures Replay(files, SealRun(input, output, plaintext, password, c, env).events)
            == SealedFiles(files, input, output, plaintext, password, c, env)
  {
    if env.nonce.Drawn? && AesKeySizeOk(|DeriveKey(c, password, env.salt.bytes)|) {
      SealEffectOnceCipherBuilt(files, input, output, plaintext, password, c, env);
    } else {
      SealRunBeforeCipher(files, input, output, plaintext, password, c, env);
      ReplaySnoc(files, [], Derive(env.salt.bytes));
      assert [] + [Derive(env.salt.bytes)] == [Derive(env.salt.bytes)];
    }
  }

  /** A run that stops at the nonce draw or the AES constructor has only
      derived the key, and changes no file. */
  lemma SealRunBeforeCipher(files: Files, input: Path, output: Path, plaintext: Bytes, password: Bytes,
                            c: Primitives, env: EncryptEnv)
    requires env.salt.Drawn?
    requires env.nonce.DrawFailed? || !AesKeySizeOk(|DeriveKey(c, password, env.salt.bytes)|)
    ensures SealRun(input, output, plaintext, password, c, env).events == [Derive(env.salt.bytes)]
    ensures SealedFiles(files, input, output, plaintext, password, c, env) == files
  {
  }

  /** The same, once the nonce is drawn and the AES key accepted. */
  lemma SealEffectOnceCipherBuilt(files: Files, input: Path, output: Path, plaintext: Bytes, password: Bytes,
                                  c: Primitives, env: EncryptEnv)
    requires env.salt.Drawn? && env.nonce.Drawn?
    requires AesKeySizeOk(|DeriveKey(c, password, env.salt.bytes)|)
    ensures Replay(files, SealRun(input, output, plaintext, password, c, env).events)
            == SealedFiles(files, input, output, plaintext, password, c, env)
  {
    SealRunAfterCipher(files, input, output, plaintext, password, c, env);
    SealedEffect(files, input, output, Container.Seal(c, password, env.salt.bytes, env.nonce.bytes, plaintext), env);
  }

  /** Deriving the key and sealing change no file; the write phase then
      leaves its closed form. */
  lemma SealedEffect(files: Files, input: Path, output: Path, p: Parts, env: EncryptEnv)
    ensures Replay(files, [Derive(p.salt)] + [Seal(p.nonce)] + WriteRun(input, output, p, env).events)
            == WrittenFiles(files, input, output, p, env)
  {
    var derived := [Derive(p.salt)];
    ReplaySnoc(files, [], Derive(p.salt));
    assert [] + derived == derived;
    ReplaySnoc(files, derived, Seal(p.nonce));
    ReplayConcat(files, derived + [Seal(p.nonce)], WriteRun(input, output, p, env).events);
    WriteEffect(files, input, output, p, env);
  }

  /** Go's `EncryptFile`: the steps of `EncryptRun`, taken one after the
      other against the filesystem, with an early return after each failing
      step. */
  method EncryptFile(fs: FileSystem, input: Path, output: Path, password: Bytes,
                     c: Primitives, env: EncryptEnv) returns (status: Status)
    requires DrawsFit(env)
    modifies fs
    ensures var run := EncryptRun(old(fs.files), input, output, password, c, env);
            && status == run.status
            && fs.trace == old(fs.trace) + run.events
            && fs.files == EncryptedFiles(old(fs.files), input, output, password, c, env)
  {
    var plaintext := fs.ReadFile(input, env.readFault);
    if plaintext.None? {
      EncryptRunBeforeSalt(old(fs.files), input, output, password, c, env);
      return Failed(ReadInput);
    }
    if env.salt.DrawFailed? {
      EncryptRunBeforeSalt(old(fs.files), input, output, password, c, env);
      return Failed(GenerateSalt);
    }
    EncryptedFilesAfterSalt(fs.files, input, output, password, c, env);
    status := SealAndWrite(fs, input, output, plaintext.value, password, c, env);
  }

  /** A run that stops at the read or the salt draw has only read, and
      changes no file. */
  lemma EncryptRunBeforeSalt(files: Files, input: Path, output: Path, password: Bytes,
                             c: Primitives, env: EncryptEnv)
    requires DrawsFit(env)
    requires env.readFault || input !in files || env.salt.DrawFailed?
    ensures EncryptRun(files, input, output, password, c, env)
            == Run(Failed(if env.readFault || input !in files then ReadInput else GenerateSalt), [Read(input)])
    ensures EncryptedFiles(files, input, output, password, c, env) == files
  {
  }

  /** Once the plaintext is read and the salt drawn, the closed form of a
      whole run is that of its part from the key derivation on. */
  lemma EncryptedFilesAfterSalt(files: Files, input: Path, output: Path, password: Bytes,
                                c: Primitives, env: EncryptEnv)
    requires DrawsFit(env)
    requires !env.readFault && input in files && env.salt.Drawn?
    ensures var rest := SealRun(input, output, files[input], password, c, env);
            EncryptRun(files, input, output, password, c, env) == Run(rest.status, [Read(input)] + rest.events)
    ensures EncryptedFiles(files, input, output, password, c, env)
            == SealedFiles(files, input, output, files[input], password, c, env)
  {
  }

  /** Once the nonce is drawn and the AES key accepted, the part of a run
      from the key derivation on is the derivation, the seal, and the write
      phase for the sealed container. */
  lemma SealRunAfterCipher(files: Files, input: Path, output: Path, plaintext: Bytes, password: Bytes,
                           c: Primitives, env: EncryptEnv)
    requires env.salt.Drawn? && env.nonce.Drawn?
    requires AesKeySizeOk(|DeriveKey(c, password, env.salt.bytes)|)
    ensures var p := Container.Seal(c, password, env.salt.bytes, env.nonce.bytes, plaintext);
            var written := WriteRun(input, output, p, env);
            && SealRun(input, output, plaintext, password, c, env)
               == Run(written.status, [Derive(p.salt)] + [Seal(p.nonce)] + written.events)
            && SealedFiles(files, input, output, plaintext, password, c, env)
               == WrittenFiles(files, input, output, p, env)
  {
  }

  /** The rest of `EncryptFile` once the plaintext is read and the salt
      drawn: derive the key, draw the nonce, build the AES-GCM cipher, seal,
      and write the container. */
  method SealAndWrite(fs: FileSystem, input: Path, output: Path, plaintext: Bytes, password: Bytes,
                      c: Primitives, env: EncryptEnv) returns (status: Status)
    requires env.salt.Drawn? && input in fs.files
    modifies fs
    ensures var run := SealRun(input, output, plaintext, password, c, env);
            && status == run.status
            && fs.trace == old(fs.trace) + run.events
            && fs.files == SealedFiles(old(fs.files), input, output, plaintext, password, c, env)
  {
    var salt := env.salt.bytes;
    var key := DeriveKey(c, password, salt);
    fs.Note(Derive(salt));
    if env.nonce.DrawFailed? {
      SealRunBeforeCipher(old(fs.files), input, output, plaintext, password, c, env);
      return Failed(GenerateNonce);
    }
    var nonce := env.nonce.bytes;
    if !AesKeySizeOk(|key|) {
      SealRunBeforeCipher(old(fs.files), input, output, plaintext, password, c, env);
      return Failed(CreateCipher);
    }
    var ciphertext := c.seal(key, nonce, plaintext);
    fs.Note(Seal(nonce));
    SealRunAfterCipher(old(fs.files), input, output, plaintext, password, c, env);
    status := WriteContainer(fs, input, output, Parts(salt, nonce, ciphertext), env);
  }

  /** The tail of `EncryptFile` from `os.Create(output)` on: create (or
      truncate) the output, then write and remove, then run the deferred
      `Close` of the output whichever way they ended. */
  method WriteContainer(fs: FileSystem, input: Path, output: Path, p: Parts, env: EncryptEnv)
    returns (status: Status)
    requires input in fs.files
    modifies fs
    ensures var run := WriteRun(input, output, p, env);
            && status == run.status
            && fs.trace == old(fs.trace) + run.events
            && fs.files == WrittenFiles(old(fs.files), input, output, p, env)
  {
    ghost var files := fs.files;
    var ok := fs.Create(output, env.createFault);
    if !ok {
      return Failed(CreateOutput);
    }
    status := WriteParts(fs, input, output, p, env);
    fs.Close(output);
    AfterWritesOverwrites(files, input, output, p, env);
  }

  /** What the output held before it was created again does not matter:
      its contents are replaced. */
  lemma AfterWritesOverwrites(files: Files, input: Path, output: Path, p: Parts, env: EncryptEnv)
    ensures AfterWrites(files[output := []], input, output, p, env) == AfterWrites(files, input, output, p, env)
  {
    assert files[output := []][output := OutputBytes(p, env)] == files[output := OutputBytes(p, env)];
  }

  /** The three writes through the open output, each only if the one before
      completed, then the removal of the input. */
  method WriteParts(fs: FileSystem, input: Path, output: Path, p: Parts, env: EncryptEnv)
    returns (status: Status)
    requires input in fs.files && output in fs.files && fs.files[output] == []
    modifies fs
    ensures var run := WritesRun(input, output, p, env);
            && status == run.status
            && fs.trace == old(fs.trace) + run.events
            && fs.files == AfterWrites(old(fs.files), input, output, p, env)
  {
    ghost var files := fs.files;
    ghost var s1 := Transferred(p.salt, env.writeSalt);
    var ok := fs.Write(output, p.salt, env.writeSalt);
    assert fs.files == files[output := s1] by {
      assert [] + s1 == s1;
    }
    if !ok {
      return Failed(WriteSalt);
    }
    ok := fs.Write(output, p.nonce, env.writeNonce);
    if !ok {
      return Failed(WriteNonce);
    }
    ok := fs.Write(output, p.ciphertext, env.writeCiphertext);
    if !ok {
      return Failed(WriteCiphertext);
    }
    ok := fs.Remove(input, env.removeFault);
    if !ok {
      return Failed(RemoveSource);
    }
    return Done;
  }

  // Properties of a run.

  /** `nil` comes back exactly when every step succeeded; with sound
      primitives the AES constructor cannot be the step that fails. */
  lemma DoneIffEveryStepSucceeds(files: Files, input: Path, output: Path, password: Bytes,
                                 c: Primitives, env: EncryptEnv)
    requires DrawsFit(env)
    ensures EncryptRun(files, input, output, password, c, env).status == Done
            <==> ReachesCreate(files, input, password, c, env) && !env.createFault
                 && AllWritesComplete(env) && !env.removeFault
    ensures Sound(c) ==>
              (ReachesCreate(files, input, password, c, env)
               <==> !env.readFault && input in files && env.salt.Drawn? && env.nonce.Drawn?)
  {
    if Sound(c) && env.salt.Drawn? {
      DerivedKeyFitsAes(c, password, env.salt.bytes);
    }
  }

  /** A failure before the output is created (unreadable input, either
      random draw, the AES constructor, `os.Create` itself) leaves every
      file as it was. */
  lemma EarlyFailureChangesNothing(files: Files, input: Path, output: Path, password: Bytes,
                                   c: Primitives, env: EncryptEnv)
    requires DrawsFit(env)
    ensures var run := EncryptRun(files, input, output, password, c, env);
            run.status in {Failed(ReadInput), Failed(GenerateSalt), Failed(GenerateNonce),
                           Failed(CreateCipher), Failed(CreateOutput)}
            ==> Replay(files, run.events) == files
  {
    EncryptEffect(files, input, output, password, c, env);
  }

  /** A missing input makes encryption fail at the read, changing nothing. */
  lemma MissingInputFails(files: Files, input: Path, output: Path, password: Bytes,
                          c: Primitives, env: EncryptEnv)
    requires DrawsFit(env)
    requires input !in files
    ensures var run := EncryptRun(files, input, output, password, c, env);
            run.status == Failed(ReadInput) && Replay(files, run.events) == files
  {
    EncryptEffect(files, input, output, password, c, env);
  }

  /** On success the output holds exactly salt ++ nonce ++ Seal(key, nonce,
      plaintext), with the key derived from the password and the fresh
      salt; it is 44 bytes longer than the plaintext; the input is gone; no
      other path changed. */
  lemma SuccessWritesContainer(files: Files, input: Path, output: Path, password: Bytes,
                               c: Primitives, env: EncryptEnv)
    requires DrawsFit(env) && Sound(c)
    requires input != output
    requires EncryptRun(files, input, output, password, c, env).status == Done
    ensures var after := Replay(files, EncryptRun(files, input, output, password, c, env).events);
            && input in files && env.salt.Drawn? && env.nonce.Drawn?
            && output in after
            && after[output] == env.salt.bytes + env.nonce.bytes
                                + c.seal(DeriveKey(c, password, env.salt.bytes), env.nonce.bytes, files[input])
            && |after[output]| == HeaderLen + |files[input]| + TagLen
            && input !in after
            && forall q :: q != input && q != output ==>
                 (q in after <==> q in files) && (q in after ==> after[q] == files[q])
  {
    EncryptEffect(files, input, output, password, c, env);
    DoneIffEveryStepSucceeds(files, input, output, password, c, env);
    var p := Sealed(files, input, password, c, env);
    OutputIsContainerPrefix(p, env);
    SealedLength(c, password, env.salt.bytes, env.nonce.bytes, files[input]);
  }

  /** Move semantics only on success: whenever encryption reports an error
      (including a failed removal) the input still holds its original
      bytes. */
  lemma SourceSurvivesFailure(files: Files, input: Path, output: Path, password: Bytes,
                              c: Primitives, env: EncryptEnv)
    requires DrawsFit(env)
    requires input != output && input in files
    requires EncryptRun(files, input, output, password, c, env).status != Done
    ensures var after := Replay(files, EncryptRun(files, input, output, password, c, env).events);
            input in after && after[input] == files[input]
  {
    EncryptEffect(files, input, output, password, c, env);
    DoneIffEveryStepSucceeds(files, input, output, password, c, env);
  }

  /** Writes are not atomic: after a failed write the output exists and
      holds a proper prefix of the container. */
  lemma FailedWriteLeavesPartialContainer(files: Files, input: Path, output: Path, password: Bytes,
                                          c: Primitives, env: EncryptEnv)
    requires DrawsFit(env) && Sound(c)
    requires var s := EncryptRun(files, input, output, password, c, env).status;
             s == Failed(WriteSalt) || s == Failed(WriteNonce) || s == Failed(WriteCiphertext)
    ensures var after := Replay(files, EncryptRun(files, input, output, password, c, env).events);
            && input in files && env.salt.Drawn? && env.nonce.Drawn?
            && var container := Encode(Sealed(files, input, password, c, env));
               output in after && after[output] <= container && |after[output]| < |container|
  {
    EncryptEffect(files, input, output, password, c, env);
    DoneIffEveryStepSucceeds(files, input, output, password, c, env);
    var p := Sealed(files, input, password, c, env);
    OutputIsContainerPrefix(p, env);
  }

  /** A failed removal is reported although the output already holds the
      complete container, and the input is still there. */
  lemma FailedRemovalKeepsBoth(files: Files, input: Path, output: Path, password: Bytes,
                               c: Primitives, env: EncryptEnv)
    requires DrawsFit(env)
    requires input != output
    requires EncryptRun(files, input, output, password, c, env).status == Failed(RemoveSource)
    ensures var after := Replay(files, EncryptRun(files, input, output, password, c, env).events);
            && input in files && env.salt.Drawn? && env.nonce.Drawn?
            && output in after && after[output] == Encode(Sealed(files, input, password, c, env))
            && input in after && after[input] == files[input]
  {
    EncryptEffect(files, input, output, password, c, env);
    DoneIffEveryStepSucceeds(files, input, output, password, c, env);
    OutputIsContainerPrefix(Sealed(files, input, password, c, env), env);
  }

  /** The order of effects.  The input is removed only on a run that
      succeeds, and that run is exactly: read, derive, seal, create, the
      three complete writes, remove, and only then the deferred close of the
      output.  No failing run removes anything. */
  lemma RemovalFollowsAllWrites(files: Files, input: Path, output: Path, password: Bytes,
                                c: Primitives, env: EncryptEnv)
    requires DrawsFit(env)
    ensures var run := EncryptRun(files, input, output, password, c, env);
            && (run.status != Done ==> forall i :: 0 <= i < |run.events| ==> !run.events[i].Remove?)
            && (run.status == Done ==>
                  && input in files && env.salt.Drawn? && env.nonce.Drawn?
                  && var p := Sealed(files, input, password, c, env);
                     run.events == [Read(input), Derive(p.salt), Seal(p.nonce), Create(output),
                                    Append(output, p.salt), Append(output, p.nonce),
                                    Append(output, p.ciphertext), Remove(input), Close(output)])
  {
    if input in files && env.salt.Drawn? && env.nonce.Drawn? {
      var p := Sealed(files, input, password, c, env);
      WritesRunOrder(input, output, p, env);
      if EncryptRun(files, input, output, password, c, env).status == Done {
        var body := WritesRun(input, output, p, env).events;
        assert [Read(input)] + ([Derive(p.salt)] + [Seal(p.nonce)] + ([Create(output)] + body + [Close(output)]))
               == [Read(input), Derive(p.salt), Seal(p.nonce), Create(output),
                   Append(output, p.salt), Append(output, p.nonce),
                   Append(output, p.ciphertext), Remove(input), Close(output)];
      }
    }
  }

  /** Between the create and the close, a run removes the input only when it
      succeeds, and then as its last step after the three complete writes. */
  lemma WritesRunOrder(input: Path, output: Path, p: Parts, env: EncryptEnv)
    ensures var run := WritesRun(input, output, p, env);
            && (run.status != Done ==> forall i :: 0 <= i < |run.events| ==> !run.events[i].Remove?)
            && (run.status == Done ==>
                  run.events == [Append(output, p.salt), Append(output, p.nonce),
                                 Append(output, p.ciphertext), Remove(input)])
  {
  }

  /** Encrypting a file onto its own path: `os.Create` truncates the
      plaintext away, and on success the final `os.Remove` deletes the
      container just written, so nothing is left at that path. */
  lemma SamePathEndsDeleted(files: Files, path: Path, password: Bytes, c: Primitives, env: EncryptEnv)
    requires DrawsFit(env)
    requires EncryptRun(files, path, path, password, c, env).status == Done
    ensures path !in Replay(files, EncryptRun(files, path, path, password, c, env).events)
  {
    EncryptEffect(files, path, path, password, c, env);
    DoneIffEveryStepSucceeds(files, path, path, password, c, env);
  }

  /** Encrypting a file onto its own path and failing at the salt write:
      `os.Create` has already truncated the plaintext, and the path is left
      holding the part of the salt that reached it, fewer than 16 bytes, so
      a plaintext of 16 bytes or more is lost although an error is
      reported. */
  lemma SamePathFailedWriteLosesSource(files: Files, path: Path, password: Bytes,
                                       c: Primitives, env: EncryptEnv)
    requires DrawsFit(env)
    requires EncryptRun(files, path, path, password, c, env).status == Failed(WriteSalt)
    ensures var after := Replay(files, EncryptRun(files, path, path, password, c, env).events);
            && path in files && env.salt.Drawn?
            && path in after && after[path] < env.salt.bytes
            && (|files[path]| >= SaltLen ==> after[path] != files[path])
  {
    EncryptEffect(files, path, path, password, c, env);
    DoneIffEveryStepSucceeds(files, path, path, password, c, env);
    TransferredPrefix(env.salt.bytes, env.writeSalt);
  }
}
