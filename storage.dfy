/** The local filesystem as the file routines see it: a map from paths to
    contents, changed by `os.Create` (create or truncate), writes to an open
    handle, and `os.Remove`.  Every step a routine takes is also recorded as
    an `Event`, so that the order of effects can be stated; the crypto calls
    are recorded too, although they change no file. */
module Storage {
  import opened Common

  type Files = map<Path, Bytes>

  datatype Event =
    | Read(path: Path)                  // os.ReadFile; changes nothing
    | Create(path: Path)                // os.Create or the open of os.WriteFile: empty file
    | Append(path: Path, bytes: Bytes)  // bytes that reached a file through its open handle
    | Remove(path: Path)                // os.Remove
    | Close(path: Path)                 // closing the handle; changes nothing
    | Derive(salt: Bytes)               // key derivation with this salt
    | Seal(nonce: Bytes)                // AES-GCM seal with this nonce
    | Open(nonce: Bytes)                // AES-GCM open with this nonce

  /** What a run of one of the file routines returns, and the steps it
      took, in order. */
  datatype Run = Run(status: Status, events: seq<Event>)

  /** The change one event makes to the filesystem. */
  function Apply(files: Files, e: Event): Files
  {
    match e
    case Create(p) => files[p := []]
    case Append(p, b) => if p in files then files[p := files[p] + b] else files
    case Remove(p) => files - {p}
    case _ => files
  }

  /** The filesystem after a sequence of events, applied first to last. */
  function Replay(files: Files, events: seq<Event>): Files
    decreases |events|
  {
    if |events| == 0 then files
    else Apply(Replay(files, events[..|events| - 1]), events[|events| - 1])
  }

  /** Replaying one more event applies it to the state reached so far. */
  lemma ReplaySnoc(files: Files, events: seq<Event>, e: Event)
    ensures Replay(files, events + [e]) == Apply(Replay(files, events), e)
  {
    assert (events + [e])[..|events|] == events;
  }

  /** Replaying two stretches of events one after the other is replaying
      them together. */
  lemma {:induction false} ReplayConcat(files: Files, first: seq<Event>, second: seq<Event>)
    ensures Replay(files, first + second) == Replay(Replay(files, first), second)
    decreases |second|
  {
    if second == [] {
      assert first + second == first;
    } else {
      var init := second[..|second| - 1];
      var last := second[|second| - 1];
      assert first + second == (first + init) + [last];
      assert (first + second)[..|first + second| - 1] == first + init;
      ReplayConcat(files, first, init);
    }
  }

  /** The state-changing events that concern `p`. */
  predicate Touches(e: Event, p: Path)
  {
    (e.Create? || e.Append? || e.Remove?) && e.path == p
  }

  /** How a write to an open handle ends: with every byte written, or with an
      error after a short write. */
  datatype WriteOutcome = Complete | Short(count: nat)

  /** The bytes of `chunk` that reach the file.  A write that reports an
      error has transferred fewer bytes than it was asked to (Go's io.Writer
      contract), so a short write keeps a proper prefix. */
  function Transferred(chunk: Bytes, outcome: WriteOutcome): Bytes
  {
    match outcome
    case Complete => chunk
    case Short(n) => if |chunk| == 0 then [] else chunk[..Min(n, |chunk| - 1)]
  }

  /** What reaches the file is a prefix of the chunk: all of it exactly when
      the write completed, and less of it after a short write. */
  lemma TransferredPrefix(chunk: Bytes, outcome: WriteOutcome)
    ensures Transferred(chunk, outcome) <= chunk
    ensures outcome.Complete? ==> Transferred(chunk, outcome) == chunk
    ensures outcome.Short? && chunk != [] ==> |Transferred(chunk, outcome)| < |chunk|
  {
  }

  /** The filesystem.  Failures that the OS may report are decided by the
      arguments the caller passes (`fault`, `outcome`). */
  class FileSystem {
    var files: Files
    /** Every step taken against this filesystem so far, oldest first. */
    ghost var trace: seq<Event>

    constructor (initial: Files)
      ensures files == initial && trace == []
    {
      files := initial;
      trace := [];
    }

    /** os.ReadFile: fails on a missing path or an I/O fault. */
    method ReadFile(p: Path, fault: bool) returns (data: Option<Bytes>)
      modifies this`trace
      ensures data == if fault || p !in files then None else Some(files[p])
      ensures trace == old(trace) + [Event.Read(p)]
    {
      data := if fault || p !in files then None else Some(files[p]);
      trace := trace + [Event.Read(p)];
    }

    /** os.Create (and the open inside os.WriteFile): creates the file, or
        truncates it if it exists. */
    method Create(p: Path, fault: bool) returns (ok: bool)
      modifies this
      ensures ok == !fault
      ensures ok ==> files == Apply(old(files), Event.Create(p)) && trace == old(trace) + [Event.Create(p)]
      ensures !ok ==> files == old(files) && trace == old(trace)
    {
      ok := !fault;
      if ok {
        files := files[p := []];
        trace := trace + [Event.Create(p)];
      }
    }

    /** A write through the handle open on `p`. */
    method Write(p: Path, chunk: Bytes, outcome: WriteOutcome) returns (ok: bool)
      modifies this
      ensures ok == outcome.Complete?
      ensures files == Apply(old(files), Event.Append(p, Transferred(chunk, outcome)))
      ensures trace == old(trace) + [Event.Append(p, Transferred(chunk, outcome))]
    {
      var written := Transferred(chunk, outcome);
      if p in files {
        files := files[p := files[p] + written];
      }
      trace := trace + [Event.Append(p, written)];
      ok := outcome.Complete?;
    }

    /** os.Remove: fails on a missing path or an I/O fault. */
    method Remove(p: Path, fault: bool) returns (ok: bool)
      modifies this
      ensures ok == (!fault && p in old(files))
      ensures ok ==> files == Apply(old(files), Event.Remove(p)) && trace == old(trace) + [Event.Remove(p)]
      ensures !ok ==> files == old(files) && trace == old(trace)
    {
      ok := !fault && p in files;
      if ok {
        files := files - {p};
        trace := trace + [Event.Remove(p)];
      }
    }

    /** Closing the handle open on `p`. */
    method Close(p: Path)
      modifies this`trace
      ensures trace == old(trace) + [Event.Close(p)]
    {
      trace := trace + [Event.Close(p)];
    }

    /** Records a crypto call, which touches no file. */
    ghost method Note(e: Event)
      requires e.Derive? || e.Seal? || e.Open?
      modifies this`trace
      ensures trace == old(trace) + [e]
    {
      trace := trace + [e];
    }
  }
}
