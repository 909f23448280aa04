# CachedDownloader, modelled in Dafny

A model of `CachedDownloader`, the write-once disk cache that the image
viewer uses for downloaded images. Three pieces of it are modelled:

- The cache-file name a URL gets, computed by `getCacheFile`. The name is
  built in two passes: delete every `http://` / `https://` match, then turn
  every character outside `[A-Za-z0-9_]` into `_`.
- The fetch-or-serve decision made by `download`. A null URL gives no file.
  A cache file that exists and is non-empty is served as it is. Otherwise the
  URL is opened, the file is created or truncated, and `dump` fills it.
- The cancellable copy loop `dump`. It reads 8192-byte chunks into one reused
  buffer and polls the job context before each write, throwing when the poll
  answers true. It removes its cancel listener only when the loop ends normally.

The choice of cache root (`getBestCacheDir`, `initCacheDir`) is modelled as
a decision over what the device reports about its storage.

Files:

- `wrappers.dfy`: `Option`, which stands for a nullable reference.
- `cache_names.dfy` (module `CacheNames`): the two passes as functions. It
  also gives a declarative account of the first pass: a *scan* splits the URL
  into kept characters and deleted schemes. The properties of both passes are
  proved here.
- `platform.dfy` (module `Platform`): the collaborators, cut down to what
  `CachedDownloader` observes of them.
  - The stream is a class whose reads answer from a list of results. A result
    is a chunk of at most 8192 bytes, the end of the stream, or a thrown
    `IOException`.
  - The job context is a class whose `isCancelled()` polls answer from a list
    of booleans.
  - The files are a class holding a `map` from path to content.
  - The network is a class that maps URLs to streams and logs the URLs it was
    asked to open.
- `transfer.dfy` (module `Transfer`): what `dump` does, stated two ways.
  - `DumpEffect` is a closed form: how many reads deliver, which poll first
    answers true, what ends up written.
  - `Run` is a step-by-step reference, one loop iteration at a time.
  - `RunIsDumpEffect` proves the two agree. The other lemmas state the copy
    properties on `DumpEffect`.
- `downloader.dfy` (module `Downloader`): the cache-root decision, and
  `DownloadEffect`, which states `download` as a whole, with its lemmas. It
  also holds the class `CachedDownloader`, whose `Download` and `Dump`
  methods are imperative and are proved against `DownloadEffect` and `Run`.

Two consequences of the code that a reader might not expect:

- **Every scheme is removed.** `replaceAll` deletes every match of
  `https?:\/\/` anywhere in the URL, not only a leading one, in one
  left-to-right pass. See `StripSchemesInMiddle` and `StripSchemesSinglePass`.
- **`.` becomes `_`.** Like every other character outside `[A-Za-z0-9_]`,
  so `http://a.b/c?d=1` is named `a_b_c_d_1`. See `ReplaceNonWordExample`
  and `SanitizeExample`.

## Model

| member | source | states |
|---|---|---|
| CacheNames.StripSchemes | src/org/mariotaku/gallery3d/data/CachedDownloader.java:72 | the first pass never lengthens the URL |
| CacheNames.ReplaceNonWord | src/org/mariotaku/gallery3d/data/CachedDownloader.java:72 | the second pass keeps the length and leaves only [A-Za-z0-9_] characters |
| CacheNames.Sanitize | src/org/mariotaku/gallery3d/data/CachedDownloader.java:72 | the cache name has only [A-Za-z0-9_] characters and exactly as many characters as the URL after scheme removal, which is no more than the URL had |
| CacheNames.CacheFileName | src/org/mariotaku/gallery3d/data/CachedDownloader.java:70-72 | a null URL has no name, a non-null URL always has one, and that name has only word characters and is no longer than the URL |
| CacheNames.ReplaceNonWordAt | src/org/mariotaku/gallery3d/data/CachedDownloader.java:72 | character for character, the second pass keeps each word character in its position and turns every other character into exactly one '_' |
| CacheNames.ReplaceNonWordKeepsWordStrings | src/org/mariotaku/gallery3d/data/CachedDownloader.java:72 | a string of word characters passes the second pass unchanged |
| CacheNames.StripSchemesKeepsSchemeFree | src/org/mariotaku/gallery3d/data/CachedDownloader.java:72 | a string in which no match starts at any position passes the first pass unchanged |
| CacheNames.SchemeFreeWithoutHOrColon | src/org/mariotaku/gallery3d/data/CachedDownloader.java:72 | every match holds an 'h' and a ':', so a string lacking either holds no match |
| CacheNames.SanitizeIdempotent | src/org/mariotaku/gallery3d/data/CachedDownloader.java:72 | sanitising a sanitised name gives the same name |
| CacheNames.ScanIsScan | src/org/mariotaku/gallery3d/data/CachedDownloader.java:72 | every URL has a left-to-right split into kept characters and deleted schemes, with no kept character starting a match |
| CacheNames.StripSchemesDeletesScannedSchemes | src/org/mariotaku/gallery3d/data/CachedDownloader.java:72 | for any such split, the first pass returns exactly the kept characters, and the URL is 7 characters longer per deleted "http://" and 8 per deleted "https://" |
| CacheNames.StripSchemesLeadingOnly | src/org/mariotaku/gallery3d/data/CachedDownloader.java:72 | a URL whose only scheme is the leading one (no match starts anywhere after it) loses exactly that scheme and nothing else |
| CacheNames.StripSchemesInMiddle | src/org/mariotaku/gallery3d/data/CachedDownloader.java:72 | a scheme in the middle of the URL is deleted too: "a/http://b" becomes "a/b" |
| CacheNames.StripSchemesJoinsAround | src/org/mariotaku/gallery3d/data/CachedDownloader.java:72 | after "ht", a deleted "http://" joins the text around it and the scan goes on after the match without rescanning the join |
| CacheNames.StripSchemesSinglePass | src/org/mariotaku/gallery3d/data/CachedDownloader.java:72 | a scheme formed only by a deletion is not deleted: "hthttp://tp://" becomes "http://" |
| CacheNames.StripSchemesExample | src/org/mariotaku/gallery3d/data/CachedDownloader.java:72 | "http://a.b/c?d=1" loses only its scheme in the first pass |
| CacheNames.StripSchemesKeepsPort | src/org/mariotaku/gallery3d/data/CachedDownloader.java:72 | a host starting with 'h' and a port's ':' survive the first pass: "http://h:80/x" becomes "h:80/x" |
| CacheNames.ReplaceNonWordExample | src/org/mariotaku/gallery3d/data/CachedDownloader.java:72 | '.', '/', '?' and '=' each become one '_': "a.b/c?d=1" becomes "a_b_c_d_1" |
| CacheNames.SanitizeExample | src/org/mariotaku/gallery3d/data/CachedDownloader.java:72 | the cache name of "http://a.b/c?d=1" is "a_b_c_d_1" |
| CacheNames.SanitizeKeepsRuns | src/org/mariotaku/gallery3d/data/CachedDownloader.java:72 | runs of separators are not collapsed: "https://a//b" becomes "a__b" |
| CacheNames.DistinctUrlsShareName | src/org/mariotaku/gallery3d/data/CachedDownloader.java:72 | two different URLs, "http://a/b" and "a_b", get the same cache name |
| Platform.InputStream.Read | src/org/mariotaku/gallery3d/data/CachedDownloader.java:81 | a read consumes one answer: it fails exactly when that answer is a thrown IOException, otherwise it returns rc (-1 at the end of the stream) with the rc bytes in the buffer |
| Platform.JobContext.IsCancelled | src/org/mariotaku/gallery3d/data/CachedDownloader.java:90 | a poll consumes one answer (false once they run out) and leaves the listener alone |
| Platform.JobContext.SetCancelListener | src/org/mariotaku/gallery3d/data/CachedDownloader.java:83-88 | installs the given listener, or none for null, and consumes no poll |
| Platform.FileStore.Create | src/org/mariotaku/gallery3d/data/CachedDownloader.java:51 | opening the output creates the file or truncates it to length 0 and changes no other file |
| Platform.FileStore.Write | src/org/mariotaku/gallery3d/data/CachedDownloader.java:91 | a write appends exactly the first len bytes of the buffer to that file and changes no other file |
| Platform.Network.OpenStream | src/org/mariotaku/gallery3d/data/CachedDownloader.java:50 | opening a URL logs it, and yields a fresh stream over what the server sends exactly when the URL can be opened |
| Transfer.Run | src/org/mariotaku/gallery3d/data/CachedDownloader.java:79-96 | dump's loop one iteration at a time: a thrown read ends it failed, a read with rc <= 0 ends it normally, a true poll ends it cancelled, otherwise the buffer's bytes are written and the next read follows |
| Transfer.RunCounts | src/org/mariotaku/gallery3d/data/CachedDownloader.java:81-93 | every read but the last is followed by a poll, a true poll by no further read, and at most 8192 bytes are written per poll |
| Transfer.DumpEffect | src/org/mariotaku/gallery3d/data/CachedDownloader.java:79-96 | dump as a whole: it polls only after reads with rc > 0, and makes one read more than polls unless a poll cancelled it |
| Transfer.Leading | src/org/mariotaku/gallery3d/data/CachedDownloader.java:89 | counts the reads, from the first, that return rc > 0; the next read returns rc <= 0 (0 included) or throws |
| Transfer.FirstCancel | src/org/mariotaku/gallery3d/data/CachedDownloader.java:90 | the first poll in a range that answers true, or the end of the range when none does |
| Transfer.RunFromStart | src/org/mariotaku/gallery3d/data/CachedDownloader.java:80-81 | before the loop's first iteration nothing is written and the whole copy is still ahead |
| Transfer.RunFromNext | src/org/mariotaku/gallery3d/data/CachedDownloader.java:89-93 | an iteration whose read delivered and whose poll answers false appends exactly that read's bytes and moves to the next read and poll |
| Transfer.RunFromCancelled | src/org/mariotaku/gallery3d/data/CachedDownloader.java:90 | a poll that answers true ends the copy, cancelled, with nothing more written |
| Transfer.RunFromStops | src/org/mariotaku/gallery3d/data/CachedDownloader.java:89-94 | a read with rc <= 0 ends the copy normally and a thrown read ends it failed, with nothing more written |
| Transfer.DumpEffectCons | src/org/mariotaku/gallery3d/data/CachedDownloader.java:89-93 | the closed form obeys the one-iteration recurrence of the loop |
| Transfer.RunIsDumpEffect | src/org/mariotaku/gallery3d/data/CachedDownloader.java:79-96 | the loop run iteration by iteration has exactly the closed-form effect |
| Transfer.DumpWritesPrefixOfBody | src/org/mariotaku/gallery3d/data/CachedDownloader.java:89-93 | whatever happens, dump writes a prefix of the content the server sends |
| Transfer.DumpCompletes | src/org/mariotaku/gallery3d/data/CachedDownloader.java:89-95 | dump ends normally if and only if no poll before a write answers true and the read that stops the loop does not throw; then it has written exactly the concatenation of the chunks read before the first read with rc <= 0 |
| Transfer.DumpCancelled | src/org/mariotaku/gallery3d/data/CachedDownloader.java:89-91 | dump is cancelled if and only if a poll before some write answers true; with k the first such poll, exactly the first k chunks are written, and chunk k, in the buffer when the flag was seen, never is, so a strict prefix of the content is written |
| Transfer.DumpWriteBound | src/org/mariotaku/gallery3d/data/CachedDownloader.java:80-92 | dump writes at most 8192 bytes per poll it makes |
| Downloader.CallsMkdirs | src/org/mariotaku/gallery3d/data/CachedDownloader.java:65 | the short-circuit `||`: mkdirs runs only when the external base is a directory and the subdirectory is not |
| Downloader.StorageAfter | src/org/mariotaku/gallery3d/data/CachedDownloader.java:65 | the storage after getBestCacheDir: the base directory is untouched, an existing subdirectory stays, and a new one appears only through a successful mkdirs under an external directory |
| Downloader.BestCacheDir | src/org/mariotaku/gallery3d/data/CachedDownloader.java:61-68 | the root is the named subdirectory, under external storage exactly when the external cache is a directory and so is the subdirectory once mkdirs has been tried |
| Downloader.BestCacheDirStable | src/org/mariotaku/gallery3d/data/CachedDownloader.java:61-68 | resolving the root again on the storage the first call left gives the same root, and after the external root is chosen mkdirs is not called again |
| Downloader.DownloadEffect | src/org/mariotaku/gallery3d/data/CachedDownloader.java:46-59 | download as a whole: null exactly for a null URL, no stream opened means no file changed and no copy, and a copy runs only for a URL that opens |
| Downloader.ListenerAfter | src/org/mariotaku/gallery3d/data/CachedDownloader.java:81-94 | the listener dump leaves: the caller's when the first read throws, otherwise none exactly when the loop ended normally |
| Downloader.DownloadNullUrl | src/org/mariotaku/gallery3d/data/CachedDownloader.java:47-48 | a null URL returns null and touches neither the network nor the files |
| Downloader.DownloadHit | src/org/mariotaku/gallery3d/data/CachedDownloader.java:49-58 | a cache file that exists with length > 0 is returned, the files are unchanged and no stream is opened |
| Downloader.DownloadMissContacts | src/org/mariotaku/gallery3d/data/CachedDownloader.java:49-50 | a missing or empty cache file is always fetched again |
| Downloader.DownloadTouchesOnlyItsFile | src/org/mariotaku/gallery3d/data/CachedDownloader.java:47-58 | download changes no file other than the URL's own cache file |
| Downloader.DownloadReturnsCacheFile | src/org/mariotaku/gallery3d/data/CachedDownloader.java:47-58 | a returned file is the URL's cache file under the cache root, its name has only word characters, and it exists afterwards |
| Downloader.DownloadMissStoresBody | src/org/mariotaku/gallery3d/data/CachedDownloader.java:49-58 | on a miss with no cancellation and no failed read, the file is returned and holds exactly the content the server sent |
| Downloader.DownloadFailureLeavesPrefix | src/org/mariotaku/gallery3d/data/CachedDownloader.java:50-56 | a failed download leaves the files as they were when the URL did not open; otherwise it leaves a prefix of the content in the cache file, and a strict prefix when cancelled |
| Downloader.DownloadThenHit | src/org/mariotaku/gallery3d/data/CachedDownloader.java:49-58 | once a download of non-empty content succeeds, downloading the URL again is a hit on the same file with nothing opened |
| Downloader.DownloadCollision | src/org/mariotaku/gallery3d/data/CachedDownloader.java:47-49 | two URLs with the same cache name are served the same existing file |
| Downloader.CachedDownloader.constructor | src/org/mariotaku/gallery3d/data/CachedDownloader.java:41-44 | the constructor resolves the cache root |
| Downloader.CachedDownloader.InitCacheDir | src/org/mariotaku/gallery3d/data/CachedDownloader.java:75-77 | initCacheDir sets the cache root to the best cache directory |
| Downloader.CachedDownloader.GetCacheFile | src/org/mariotaku/gallery3d/data/CachedDownloader.java:70-73 | null for a null URL, otherwise a file under the current cache root whose name has only word characters |
| Downloader.CachedDownloader.Download | src/org/mariotaku/gallery3d/data/CachedDownloader.java:46-59 | the result, the files, the URLs opened, the polls consumed and the listener left are exactly those DownloadEffect gives |
| Downloader.CachedDownloader.Dump | src/org/mariotaku/gallery3d/data/CachedDownloader.java:79-96 | how it ends, what it appends to the file, the reads and polls it consumes, and the listener it leaves are exactly those Run gives; the listener stays as it was when the first read throws, is removed on a normal exit and stays installed on a cancel or a later failed read |

## Left out

- The network is a parameter. `new URL(url).openStream()` either throws or
  gives a stream whose reads answer from a list fixed in advance. Timing,
  partial reads beyond what that list says, and URL syntax errors are not
  modelled.
- Threads: the listener's `thread.interrupt()`, `Thread.interrupted()` and
  the downloading thread itself. Cancellation is a list of answers to
  `isCancelled()`, one per poll. An interrupt that would make a blocking read
  throw is covered only as a read that throws.
- Concurrent downloads of the same URL, or of two URLs that share a cache
  name. The code does not coordinate them.
- `Utils.closeSilently(input)` and stream closing. The output stream is never
  closed in the code; this is a resource concern with no functional effect here.
- `FileOutputStream` failures. Opening the output when the cache directory
  does not exist, and writes that throw, are not modelled: `Create` and `Write`
  always succeed.
- `getExternalCacheDir`, `getCacheDir` and `mkdirs` are reduced to three
  booleans that describe the device. The directories mkdirs creates on disk
  are recorded only as whether the subdirectory exists afterwards.
- The directory-versus-file distinction. A cache name that sanitises to ""
  names the cache root itself in the code, which `File.exists()` reports as
  present. The model treats it as an ordinary entry named "".
- Java's `\w` is taken as ASCII `[A-Za-z0-9_]`, the default of
  `java.util.regex`. A platform regex engine with Unicode-aware `\w` would keep
  more characters.
- Supplementary characters. A Java string is modelled as a sequence of
  characters that each match on their own, so a surrogate pair counts as two
  characters here, where the regex engine would turn it into a single '_'.
