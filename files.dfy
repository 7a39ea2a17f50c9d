/** The filename helpers of internal/files.go.  `os.ReadDir(".")` is I/O:
    the directory listing it would return is passed in instead. */
module Files {

  /** One entry of a directory listing; only its name is used. */
  datatype DirEntry = DirEntry(name: string)

  const EncryptedSuffix: string := ".enc"

  /** The name an encrypted copy of `fileName` is given. */
  function GetFilePathForEncryptedFile(fileName: string): (path: string)
    ensures |path| == |fileName| + |EncryptedSuffix|
    ensures path[..|fileName|] == fileName
  {
    fileName + EncryptedSuffix
  }

  /** Whether the last four characters of `fileName` are ".enc".  Go slices
      `fileName[len(fileName)-4:]`, which panics on a shorter name. */
  function IsEncryptedFile(fileName: string): (r: bool)
    requires |fileName| >= |EncryptedSuffix|
    ensures r <==> fileName == GetFilePathForEncryptedFile(fileName[..|fileName| - |EncryptedSuffix|])
  {
    var stem := |fileName| - |EncryptedSuffix|;
    assert fileName == fileName[..stem] + fileName[stem..];
    fileName[stem..] == EncryptedSuffix
  }

  /** Every name produced for an encrypted copy is recognised as one. */
  lemma EncryptedNameIsRecognised(fileName: string)
    ensures IsEncryptedFile(GetFilePathForEncryptedFile(fileName))
  {
    var path := GetFilePathForEncryptedFile(fileName);
    assert path[|path| - |EncryptedSuffix|..] == EncryptedSuffix;
  }

  /** A name is recognised as encrypted exactly when it is the encrypted
      name of some other name, the part before ".enc". */
  lemma IsEncryptedFileIffSuffixed(fileName: string)
    requires |fileName| >= |EncryptedSuffix|
    ensures IsEncryptedFile(fileName)
            <==> exists stem :: GetFilePathForEncryptedFile(stem) == fileName
  {
    var stem := fileName[..|fileName| - |EncryptedSuffix|];
    if IsEncryptedFile(fileName) {
      assert GetFilePathForEncryptedFile(stem) == fileName;
    }
    if exists stem :: GetFilePathForEncryptedFile(stem) == fileName {
      var s :| GetFilePathForEncryptedFile(s) == fileName;
      EncryptedNameIsRecognised(s);
    }
  }

  /** `GetFilePathByFileName`: `fileName` itself if an entry of the listing
      has that name, and "" otherwise. */
  method GetFilePathByFileName(listing: seq<DirEntry>, fileName: string) returns (path: string)
    ensures (exists i :: 0 <= i < |listing| && listing[i].name == fileName) ==> path == fileName
    ensures (forall i :: 0 <= i < |listing| ==> listing[i].name != fileName) ==> path == ""
  {
    for i := 0 to |listing|
      invariant forall j :: 0 <= j < i ==> listing[j].name != fileName
    {
      if listing[i].name == fileName {
        return listing[i].name;
      }
    }
    return "";
  }

  /** `FindAllFiledInCurrentDir`: the names of the listing's entries, in
      the listing's order. */
  method FindAllFiledInCurrentDir(listing: seq<DirEntry>) returns (names: seq<string>)
    ensures |names| == |listing|
    ensures forall i :: 0 <= i < |listing| ==> names[i] == listing[i].name
  {
    names := [];
    for i := 0 to |listing|
      invariant |names| == i
      invariant forall j :: 0 <= j < i ==> names[j] == listing[j].name
    {
      names := names + [listing[i].name];
    }
  }
}
