/**
 * CachedDownloader (src/org/mariotaku/gallery3d/data/CachedDownloader.java):
 * a write-once disk cache of downloaded images. A URL's cache file is the
 * sanitised URL under the cache root; download serves that file when it
 * exists and is non-empty, and otherwise fills it from the network.
 */
module Downloader {
  import opened Wrappers
  import opened CacheNames
  import opened Platform
  import opened Transfer

  /** CACHE_DIR_NAME (CachedDownloader.java:36). */
  const CacheDirName: string := "cached_images"

  /** getBestCacheDir calls mkdirs only when the external base is a directory and the subdirectory is not. */
  predicate CallsMkdirs(env: Storage) {
    env.externalIsDirectory && !env.subdirIsDirectory
  }

  /** The storage as getBestCacheDir leaves it: mkdirs, when called and successful, has made the subdirectory. */
  function StorageAfter(env: Storage): (after: Storage)
    ensures after.externalIsDirectory == env.externalIsDirectory && after.mkdirsSucceeds == env.mkdirsSucceeds
    ensures env.subdirIsDirectory ==> after.subdirIsDirectory
    ensures after.subdirIsDirectory && !env.subdirIsDirectory ==> env.externalIsDirectory && env.mkdirsSucceeds
  {
    env.(subdirIsDirectory := env.subdirIsDirectory || (CallsMkdirs(env) && env.mkdirsSucceeds))
  }

  /**
   * getBestCacheDir (CachedDownloader.java:61-68): the subdirectory of the
   * external cache when that subdirectory is a directory once the call is
   * over, otherwise the subdirectory of the internal cache, which is taken
   * unchecked.
   */
  function BestCacheDir(dirName: string, env: Storage): (root: CacheRoot)
    ensures root.dirName == dirName
    ensures root.base == ExternalCacheBase <==>
      StorageAfter(env).externalIsDirectory && StorageAfter(env).subdirIsDirectory
  {
    if env.externalIsDirectory && (env.subdirIsDirectory || env.mkdirsSucceeds)
    then CacheRoot(ExternalCacheBase, dirName)
    else CacheRoot(InternalCacheBase, dirName)
  }

  /**
   * Resolving the root again, on the storage the first resolution left,
   * picks the same root; and once the external root is chosen, mkdirs is
   * not called again.
   */
  lemma BestCacheDirStable(dirName: string, env: Storage)
    ensures BestCacheDir(dirName, StorageAfter(env)) == BestCacheDir(dirName, env)
    ensures BestCacheDir(dirName, env).base == ExternalCacheBase ==> !CallsMkdirs(StorageAfter(env))
  {
  }

  /** What download hands back: null, the cache file, or a thrown IOException. */
  datatype Fetch = NoResult | CachedFile(file: Path) | IoFailure

  /** One call of download: its result, the files afterwards, whether a stream was opened, and dump's effect if it ran. */
  datatype Outcome = Outcome(result: Fetch, files: map<Path, seq<byte>>, contacted: bool, copy: Option<Copy>)

  /**
   * The listener dump leaves installed: when its first read throws it has
   * not installed one yet, and otherwise only a normal exit removes it.
   */
  function ListenerAfter(firstReadFailed: bool, status: CopyStatus, before: Option<CancelListener>): (l: Option<CancelListener>)
    ensures firstReadFailed ==> l == before
    ensures !firstReadFailed ==> (l.None? <==> status == Completed)
  {
    if firstReadFailed then before
    else if status == Completed then None
    else Some(InterruptThread)
  }

  /**
   * download (CachedDownloader.java:46-59), stated as a whole. A null URL
   * has no cache file. A file that exists with length > 0 is returned as it
   * is. Otherwise the URL is opened (failing leaves the files alone), the
   * file is created or truncated, and dump appends to it as Run describes; the file is
   * returned only when dump ends normally.
   */
  function DownloadEffect(root: CacheRoot, files: map<Path, seq<byte>>, url: Option<string>,
                          served: map<string, seq<ReadResult>>, polls: seq<bool>): (e: Outcome)
    ensures e.result.NoResult? <==> url.None?
    ensures !e.contacted ==> e.files == files && e.copy.None?
    ensures e.copy.Some? ==> url.Some? && url.value in served
  {
    match url
    case None => Outcome(NoResult, files, false, None)
    case Some(u) =>
      var file := Path(root, Sanitize(u));
      if file in files && |files[file]| > 0 then Outcome(CachedFile(file), files, false, None)
      else if u !in served then Outcome(IoFailure, files, true, None)
      else
        var c := Run(served[u], polls);
        Outcome(if c.status == Completed then CachedFile(file) else IoFailure, files[file := c.written], true, Some(c))
  }

  /** A null URL yields no file, and neither the network nor the disk is touched. */
  lemma DownloadNullUrl(root: CacheRoot, files: map<Path, seq<byte>>, served: map<string, seq<ReadResult>>, polls: seq<bool>)
    ensures DownloadEffect(root, files, None, served, polls) == Outcome(NoResult, files, false, None)
  {
  }

  /** A cache file that exists with length > 0 is returned untouched, and no stream is opened. */
  lemma DownloadHit(root: CacheRoot, files: map<Path, seq<byte>>, u: string, served: map<string, seq<ReadResult>>, polls: seq<bool>)
    requires Path(root, Sanitize(u)) in files && |files[Path(root, Sanitize(u))]| > 0
    ensures DownloadEffect(root, files, Some(u), served, polls) == Outcome(CachedFile(Path(root, Sanitize(u))), files, false, None)
  {
  }

  /** A missing or empty cache file is always fetched again. */
  lemma DownloadMissContacts(root: CacheRoot, files: map<Path, seq<byte>>, u: string, served: map<string, seq<ReadResult>>, polls: seq<bool>)
    requires Path(root, Sanitize(u)) !in files || files[Path(root, Sanitize(u))] == []
    ensures DownloadEffect(root, files, Some(u), served, polls).contacted
  {
  }

  /** download only ever changes the URL's own cache file; every other file keeps its content. */
  lemma DownloadTouchesOnlyItsFile(root: CacheRoot, files: map<Path, seq<byte>>, u: string, served: map<string, seq<ReadResult>>, polls: seq<bool>, p: Path)
    requires p != Path(root, Sanitize(u))
    ensures var after := DownloadEffect(root, files, Some(u), served, polls).files;
      (p in after <==> p in files) && (p in files ==> after[p] == files[p])
  {
  }

  /** A file download returns is the URL's cache file, whose name has only [A-Za-z0-9_] characters, and it exists afterwards. */
  lemma DownloadReturnsCacheFile(root: CacheRoot, files: map<Path, seq<byte>>, url: Option<string>, served: map<string, seq<ReadResult>>, polls: seq<bool>)
    ensures var e := DownloadEffect(root, files, url, served, polls);
      e.result.CachedFile? ==>
        url.Some? && e.result.file == Path(root, Sanitize(url.value)) &&
        e.result.file.root == root && AllWordChars(e.result.file.name) && e.result.file in e.files
  {
  }

  /**
   * On a miss, when no poll answers true and the read that ends the loop
   * does not throw, the cache file ends up holding exactly the content the
   * server sent before its first read with rc <= 0, and it is returned.
   */
  lemma DownloadMissStoresBody(root: CacheRoot, files: map<Path, seq<byte>>, u: string, served: map<string, seq<ReadResult>>, polls: seq<bool>)
    requires Path(root, Sanitize(u)) !in files || files[Path(root, Sanitize(u))] == []
    requires u in served
    requires forall j :: 0 <= j < Leading(served[u]) ==> !Polled(polls, j)
    requires !ReadAt(served[u], Leading(served[u])).ReadError?
    ensures var e := DownloadEffect(root, files, Some(u), served, polls);
      e.result == CachedFile(Path(root, Sanitize(u))) &&
      e.files == files[Path(root, Sanitize(u)) := Body(served[u])]
  {
    RunIsDumpEffect(served[u], polls);
    DumpCompletes(served[u], polls);
  }

  /**
   * A failed download leaves the cache file as it was (the stream did not
   * open) or holding a prefix of the server's content (no rollback); when
   * it was cancelled, a strict prefix.
   */
  lemma DownloadFailureLeavesPrefix(root: CacheRoot, files: map<Path, seq<byte>>, u: string, served: map<string, seq<ReadResult>>, polls: seq<bool>)
    ensures var e := DownloadEffect(root, files, Some(u), served, polls);
      e.result == IoFailure ==>
        (e.files == files && e.copy == None) ||
        (u in served && e.files == files[Path(root, Sanitize(u)) := e.files[Path(root, Sanitize(u))]] &&
         e.files[Path(root, Sanitize(u))] <= Body(served[u]) &&
         (e.copy.value.status == Cancelled ==> |e.files[Path(root, Sanitize(u))]| < |Body(served[u])|))
  {
    if u in served {
      RunIsDumpEffect(served[u], polls);
      DumpWritesPrefixOfBody(served[u], polls);
      DumpCancelled(served[u], polls);
    }
  }

  /**
   * Once a download has succeeded with non-empty content, downloading the
   * same URL again is a hit: the same file, the same content, no stream opened.
   */
  lemma DownloadThenHit(root: CacheRoot, files: map<Path, seq<byte>>, u: string, served: map<string, seq<ReadResult>>,
                        polls: seq<bool>, polls': seq<bool>)
    requires DownloadEffect(root, files, Some(u), served, polls).result.CachedFile?
    requires u in served ==> Body(served[u]) != []
    ensures var first := DownloadEffect(root, files, Some(u), served, polls);
      DownloadEffect(root, first.files, Some(u), served, polls') == Outcome(first.result, first.files, false, None)
  {
    if u in served {
      RunIsDumpEffect(served[u], polls);
      DumpCompletes(served[u], polls);
    }
  }

  /**
   * Two URLs with the same sanitised name (such as "http://a/b" and "a_b",
   * DistinctUrlsShareName) share a cache file: once it holds content, either
   * URL is served that content.
   */
  lemma DownloadCollision(root: CacheRoot, files: map<Path, seq<byte>>, u1: string, u2: string,
                          served: map<string, seq<ReadResult>>, polls: seq<bool>)
    requires Sanitize(u1) == Sanitize(u2)
    requires Path(root, Sanitize(u1)) in files && |files[Path(root, Sanitize(u1))]| > 0
    ensures DownloadEffect(root, files, Some(u1), served, polls) == DownloadEffect(root, files, Some(u2), served, polls)
  {
  }

  /** Using up m answers and then n more uses up m + n. */
  lemma DropDrop<T>(s: seq<T>, m: nat, n: nat)
    ensures Drop(Drop(s, m), n) == Drop(s, m + n)
  {
    if m + n <= |s| {
      assert s[m..][n..] == s[m + n..];
    }
  }

  /** The next read after m reads is read m. */
  lemma ReadAtDrop(s: seq<ReadResult>, m: nat)
    ensures ReadAt(Drop(s, m), 0) == ReadAt(s, m)
  {
  }

  /** Appending a chunk to the file that holds `start + written`. */
  lemma AppendChunk(m: map<Path, seq<byte>>, path: Path, start: seq<byte>, written: seq<byte>, chunk: seq<byte>)
    ensures m[path := start + written][path := m[path := start + written][path] + chunk] == m[path := start + (written + chunk)]
  {
    assert start + written + chunk == start + (written + chunk);
  }

  /** The next poll after m polls is poll m. */
  lemma PolledDrop(polls: seq<bool>, m: nat)
    ensures Polled(Drop(polls, m), 0) == Polled(polls, m)
  {
  }

  class CachedDownloader {
    /** mCacheRoot. */
    var cacheRoot: CacheRoot

    /** The constructor resolves the cache root, as initCacheDir does. */
    constructor (env: Storage)
      ensures cacheRoot == BestCacheDir(CacheDirName, env)
    {
      cacheRoot := BestCacheDir(CacheDirName, env);
    }

    /** initCacheDir (CachedDownloader.java:75-77): re-resolves the cache root. */
    method InitCacheDir(env: Storage)
      modifies this
      ensures cacheRoot == BestCacheDir(CacheDirName, env)
    {
      cacheRoot := BestCacheDir(CacheDirName, env);
    }

    /** getCacheFile (CachedDownloader.java:70-73). */
    function GetCacheFile(url: Option<string>): (file: Option<Path>)
      reads this
      ensures file.None? <==> url.None?
      ensures file.Some? ==> file.value.root == cacheRoot && AllWordChars(file.value.name)
    {
      match CacheFileName(url)
      case None => None
      case Some(name) => Some(Path(cacheRoot, name))
    }

    /** download (CachedDownloader.java:46-59). */
    method Download(jc: JobContext, url: Option<string>, net: Network, fs: FileStore) returns (r: Fetch)
      modifies jc, net, fs
      ensures var e := DownloadEffect(cacheRoot, old(fs.files), url, net.served, old(jc.pending));
        r == e.result && fs.files == e.files &&
        net.requested == old(net.requested) + (if e.contacted then [url.value] else []) &&
        match e.copy
        case None => jc.pending == old(jc.pending) && jc.listener == old(jc.listener)
        case Some(c) =>
          jc.pending == Drop(old(jc.pending), c.pollsTaken) &&
          jc.listener == ListenerAfter(ReadAt(net.served[url.value], 0).ReadError?, c.status, old(jc.listener))
    {
      var file := GetCacheFile(url);
      if file.None? {
        return NoResult;
      }
      var path := file.value;
      if path !in fs.files || |fs.files[path]| == 0 {
        var input := net.OpenStream(url.value);
        if input == null {
          return IoFailure;
        }
        fs.Create(path);
        var status := Dump(jc, input, fs, path);
        assert [] + Run(net.served[url.value], old(jc.pending)).written
            == Run(net.served[url.value], old(jc.pending)).written;
        if status != Completed {
          return IoFailure;
        }
      }
      return CachedFile(path);
    }

    /**
     * dump (CachedDownloader.java:79-96): copies the stream into the file at
     * `path`, one loop iteration at a time, exactly as Run describes.
     */
    static method Dump(jc: JobContext, input: InputStream, fs: FileStore, path: Path) returns (status: CopyStatus)
      requires path in fs.files
      modifies jc, input, fs
      ensures status == Run(old(input.pending), old(jc.pending)).status
      ensures fs.files == old(fs.files)[path := old(fs.files[path]) + Run(old(input.pending), old(jc.pending)).written]
      ensures input.pending == Drop(old(input.pending), Run(old(input.pending), old(jc.pending)).readsTaken)
      ensures jc.pending == Drop(old(jc.pending), Run(old(input.pending), old(jc.pending)).pollsTaken)
      ensures jc.listener == ListenerAfter(ReadAt(old(input.pending), 0).ReadError?, status, old(jc.listener))
    {
      ghost var results, polls, start := input.pending, jc.pending, fs.files[path];
      var buffer := new byte[BufferSize];
      var failed, rc := input.Read(buffer);
      RunFromStart(results, polls);
      if failed {
        RunFromStops(results, polls, 0, []);
        assert start + [] == start;
        return ReadFailed;
      }
      jc.SetCancelListener(Some(InterruptThread));
      ghost var i: nat, written: seq<byte> := 0, [];
      assert start + [] == start;
      while rc > 0
        invariant !ReadAt(results, 0).ReadError?
        invariant !ReadAt(results, i).ReadError? && rc == Rc(ReadAt(results, i))
        invariant rc > 0 ==> buffer[..rc] == ReadAt(results, i).bytes
        invariant buffer.Length == BufferSize
        invariant input.pending == Drop(results, i + 1)
        invariant jc.pending == Drop(polls, i)
        invariant jc.listener == Some(InterruptThread)
        invariant path in fs.files && fs.files == old(fs.files)[path := start + written]
        invariant RunFrom(results, polls, i, written)
        decreases |results| - i
      {
        var cancelled := jc.IsCancelled();
        PolledDrop(polls, i);
        DropDrop(polls, i, 1);
        if cancelled {
          RunFromCancelled(results, polls, i, written);
          return Cancelled;
        }
        ghost var chunk := ReadAt(results, i).bytes;
        AppendChunk(old(fs.files), path, start, written, chunk);
        fs.Write(path, buffer, rc);
        RunFromNext(results, polls, i, written);
        written := written + chunk;
        ReadAtDrop(results, i + 1);
        failed, rc := input.Read(buffer);
        DropDrop(results, i + 1, 1);
        i := i + 1;
        if failed {
          RunFromStops(results, polls, i, written);
          return ReadFailed;
        }
      }
      RunFromStops(results, polls, i, written);
      jc.SetCancelListener(None);
      return Completed;
    }
  }
}
