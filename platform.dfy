/**
 * The collaborators CachedDownloader works through, reduced to what it
 * observes of them: the network stream it reads, the job context it polls
 * for cancellation, the cache files it writes, the connection it opens and
 * the storage directories it chooses between.
 */
module Platform {
  import opened Wrappers

  newtype byte = x: int | 0 <= x < 256

  /** The size of the buffer dump reads into (CachedDownloader.java:80). */
  const BufferSize: nat := 8192

  /** The bytes one read can deliver: read(buffer, 0, len) never returns more than the len bytes it is asked for. */
  type Block = s: seq<byte> | |s| <= BufferSize

  /**
   * What one call of InputStream.read(buffer, 0, BufferSize) does: deliver
   * bytes (rc = their number, which may be 0), report the end of the stream
   * (rc = -1), or throw an IOException.
   */
  datatype ReadResult = Chunk(bytes: Block) | EndOfStream | ReadError

  /** The value read returns; a thrown exception returns nothing. */
  function Rc(r: ReadResult): int
    requires !r.ReadError?
  {
    if r.Chunk? then |r.bytes| else -1
  }

  /** The read returns rc > 0, the condition that keeps dump's loop going. */
  predicate Delivers(r: ReadResult) {
    r.Chunk? && |r.bytes| > 0
  }

  /** The i-th read of a stream; a stream whose answers are used up is at its end. */
  function ReadAt(results: seq<ReadResult>, i: nat): ReadResult {
    if i < |results| then results[i] else EndOfStream
  }

  /** The i-th poll of isCancelled() answers true. */
  predicate Polled(polls: seq<bool>, i: nat) {
    i < |polls| && polls[i]
  }

  /** What is left of a sequence of answers once n of them are used. */
  function Drop<T>(s: seq<T>, n: nat): seq<T> {
    if n <= |s| then s[n..] else []
  }

  /** A stream opened on a URL; `pending` lists what its next reads return. */
  class InputStream {
    var pending: seq<ReadResult>

    constructor (results: seq<ReadResult>)
      ensures pending == results
    {
      pending := results;
    }

    /** read(buffer, 0, buffer.length): returns rc, or fails for a thrown IOException. */
    method Read(buffer: array<byte>) returns (failed: bool, rc: int)
      requires buffer.Length == BufferSize
      modifies this, buffer
      ensures failed <==> ReadAt(old(pending), 0).ReadError?
      ensures !failed ==> rc == Rc(ReadAt(old(pending), 0))
      ensures rc > 0 ==> !failed && buffer[..rc] == ReadAt(old(pending), 0).bytes
      ensures pending == Drop(old(pending), 1)
    {
      var r := ReadAt(pending, 0);
      pending := Drop(pending, 1);
      match r
      case ReadError =>
        failed, rc := true, -1;
      case EndOfStream =>
        failed, rc := false, -1;
      case Chunk(bytes) =>
        forall i | 0 <= i < |bytes| {
          buffer[i] := bytes[i];
        }
        failed, rc := false, |bytes|;
    }
  }

  /** CancelListener; the one dump installs interrupts the downloading thread. */
  datatype CancelListener = InterruptThread

  /** The job context of the thread pool; `pending` lists what isCancelled() will answer. */
  class JobContext {
    var pending: seq<bool>
    var listener: Option<CancelListener>

    constructor (polls: seq<bool>)
      ensures pending == polls && listener == None
    {
      pending := polls;
      listener := None;
    }

    method IsCancelled() returns (cancelled: bool)
      modifies this
      ensures cancelled == Polled(old(pending), 0)
      ensures pending == Drop(old(pending), 1) && listener == old(listener)
    {
      cancelled := Polled(pending, 0);
      pending := Drop(pending, 1);
    }

    /** setCancelListener; None stands for null. */
    method SetCancelListener(l: Option<CancelListener>)
      modifies this
      ensures listener == l && pending == old(pending)
    {
      listener := l;
    }
  }

  /** The base directory a cache root sits in. */
  datatype CacheBase = ExternalCacheBase | InternalCacheBase

  /** A cache root: the directory `dirName` under a base directory. */
  datatype CacheRoot = CacheRoot(base: CacheBase, dirName: string)

  /** A cache file: new File(root, name). */
  datatype Path = Path(root: CacheRoot, name: string)

  /** The files on disk; a path in `files` exists and holds that content. */
  class FileStore {
    var files: map<Path, seq<byte>>

    constructor (initial: map<Path, seq<byte>>)
      ensures files == initial
    {
      files := initial;
    }

    /** new FileOutputStream(file): creates the file, or truncates it to length 0. */
    method Create(path: Path)
      modifies this
      ensures files == old(files)[path := []]
    {
      files := files[path := []];
    }

    /** FileOutputStream.write(buffer, 0, len): appends the first len bytes of the buffer. */
    method Write(path: Path, buffer: array<byte>, len: int)
      requires path in files && 0 <= len <= buffer.Length
      modifies this
      ensures files == old(files)[path := old(files[path]) + old(buffer[..len])]
    {
      files := files[path := files[path] + buffer[..len]];
    }
  }

  /**
   * The network as new URL(url).openStream() sees it: a URL in `served`
   * opens onto a stream whose reads return served[url]; any other URL
   * throws an IOException. `requested` logs every URL a stream was asked for.
   */
  class Network {
    const served: map<string, seq<ReadResult>>
    var requested: seq<string>

    constructor (content: map<string, seq<ReadResult>>)
      ensures served == content && requested == []
    {
      served := content;
      requested := [];
    }

    method OpenStream(url: string) returns (s: InputStream?)
      modifies this
      ensures requested == old(requested) + [url]
      ensures (s != null) <==> url in served
      ensures s != null ==> fresh(s) && s.pending == served[url]
    {
      requested := requested + [url];
      if url in served {
        s := new InputStream(served[url]);
      } else {
        s := null;
      }
    }
  }

  /**
   * What getBestCacheDir finds on the device: whether getExternalCacheDir
   * returns a directory, whether the cache subdirectory under it is already
   * a directory, and whether mkdirs would create it.
   */
  datatype Storage = Storage(externalIsDirectory: bool, subdirIsDirectory: bool, mkdirsSucceeds: bool)
}
