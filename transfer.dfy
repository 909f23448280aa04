/**
 * What CachedDownloader.dump does to the cache file, as a function of the
 * answers its reads and its polls of the job context receive
 * (src/org/mariotaku/gallery3d/data/CachedDownloader.java:79-96).
 *
 * dump reads once, installs its cancel listener, and then loops while the
 * last read returned rc > 0: it polls isCancelled() (throwing when it
 * answers true), writes the rc bytes in the buffer, and reads again.
 */
module Transfer {
  import opened Platform

  datatype CopyStatus =
    | Completed   // the loop saw a read with rc <= 0
    | Cancelled   // isCancelled() answered true: InterruptedIOException
    | ReadFailed  // a read threw an IOException

  /** One call of dump: how it ended, what it appended, how many reads and polls it made. */
  datatype Copy = Copy(status: CopyStatus, written: seq<byte>, readsTaken: nat, pollsTaken: nat)

  /** The number of reads, from the first, that return rc > 0. */
  function Leading(results: seq<ReadResult>): (n: nat)
    ensures n <= |results|
    ensures forall i :: 0 <= i < n ==> Delivers(results[i])
    ensures n < |results| ==> !Delivers(results[n])
  {
    if results == [] || !Delivers(results[0]) then 0 else 1 + Leading(results[1..])
  }

  /** The first poll at or after `from` and before `bound` that answers true, or `bound` if none does. */
  function FirstCancel(polls: seq<bool>, from: nat, bound: nat): (k: nat)
    requires from <= bound
    ensures from <= k <= bound
    ensures forall j :: from <= j < k ==> !Polled(polls, j)
    ensures k < bound ==> Polled(polls, k)
    decreases bound - from
  {
    if from == bound || Polled(polls, from) then from else FirstCancel(polls, from + 1, bound)
  }

  /** The bytes a read delivers into the buffer. */
  function BytesOf(r: ReadResult): seq<byte> {
    if r.Chunk? then r.bytes else []
  }

  /** The bytes a sequence of reads delivers, one after the other. */
  function Flatten(results: seq<ReadResult>): seq<byte> {
    if results == [] then [] else Flatten(results[..|results| - 1]) + BytesOf(results[|results| - 1])
  }

  /** The content the server sends: every byte read before the first read with rc <= 0. */
  function Body(results: seq<ReadResult>): seq<byte> {
    Flatten(results[..Leading(results)])
  }

  /**
   * dump, stated as a whole: with n reads returning rc > 0 before the first
   * that does not, the loop polls before each of those n writes. If poll k
   * (k < n) is the first to answer true, the first k chunks are written and
   * the call is cancelled; otherwise all n are written, and the call ends
   * normally unless read n threw.
   */
  function DumpEffect(results: seq<ReadResult>, polls: seq<bool>): (c: Copy)
    ensures c.pollsTaken <= Leading(results)
    ensures c.readsTaken == c.pollsTaken + (if c.status == Cancelled then 0 else 1)
  {
    var n := Leading(results);
    var k := FirstCancel(polls, 0, n);
    if k < n then Copy(Cancelled, Flatten(results[..k]), k + 1, k + 1)
    else if ReadAt(results, n).ReadError? then Copy(ReadFailed, Flatten(results[..n]), n + 1, n)
    else Copy(Completed, Flatten(results[..n]), n + 1, n)
  }

  /**
   * dump's loop run one iteration at a time, as a reference semantics:
   * the first read of `results` is the one in the buffer.
   */
  function Run(results: seq<ReadResult>, polls: seq<bool>): Copy
    decreases |results|
  {
    var current := ReadAt(results, 0);
    if current.ReadError? then Copy(ReadFailed, [], 1, 0)
    else if !Delivers(current) then Copy(Completed, [], 1, 0)
    else if Polled(polls, 0) then Copy(Cancelled, [], 1, 1)
    else
      Extend(current.bytes, 1, Run(results[1..], Drop(polls, 1)))
  }

  /** The effect of a copy that `steps` loop iterations, writing `prefix`, had already advanced. */
  function Extend(prefix: seq<byte>, steps: nat, c: Copy): Copy {
    Copy(c.status, prefix + c.written, c.readsTaken + steps, c.pollsTaken + steps)
  }

  /**
   * The order of dump's calls: every read but the last is followed by a
   * poll, and a poll that answers true by no further read; and each poll
   * lets at most one buffer's worth of bytes through to the file.
   */
  lemma {:induction false} RunCounts(results: seq<ReadResult>, polls: seq<bool>)
    ensures var c := Run(results, polls);
      c.readsTaken == c.pollsTaken + (if c.status == Cancelled then 0 else 1) &&
      |c.written| <= BufferSize * c.pollsTaken
    decreases |results|
  {
    var current := ReadAt(results, 0);
    if Delivers(current) && !Polled(polls, 0) {
      RunCounts(results[1..], Drop(polls, 1));
    }
  }

  /** The content of a nonempty run of reads is its first chunk followed by the rest. */
  lemma {:induction false} FlattenCons(s: seq<ReadResult>)
    requires s != []
    ensures Flatten(s) == BytesOf(s[0]) + Flatten(s[1..])
    decreases |s|
  {
    if |s| > 1 {
      var init := s[..|s| - 1];
      FlattenCons(init);
      assert init[1..] == s[1..][..|s[1..]| - 1];
    }
  }

  /** Reading more chunks only extends what is delivered. */
  lemma {:induction false} FlattenPrefix(s: seq<ReadResult>, i: nat, j: nat)
    requires i <= j <= |s|
    ensures Flatten(s[..i]) <= Flatten(s[..j])
    decreases j - i
  {
    if i < j {
      FlattenPrefix(s, i, j - 1);
      assert s[..j][..j - 1] == s[..j - 1];
    }
  }

  /** A read delivers at most BufferSize bytes, so k reads deliver at most BufferSize * k bytes. */
  lemma {:induction false} FlattenBound(s: seq<ReadResult>)
    ensures |Flatten(s)| <= BufferSize * |s|
    decreases |s|
  {
    if s != [] {
      FlattenBound(s[..|s| - 1]);
      assert BufferSize * (|s| - 1) + BufferSize == BufferSize * |s|;
    }
  }

  /** A unique number satisfies FirstCancel's contract. */
  lemma FirstCancelUnique(polls: seq<bool>, bound: nat, k: nat)
    requires k <= bound
    requires forall j :: 0 <= j < k ==> !Polled(polls, j)
    requires k < bound ==> Polled(polls, k)
    ensures k == FirstCancel(polls, 0, bound)
  {
  }

  /** Advancing by two stretches of iterations is advancing by both at once. */
  lemma ExtendExtend(a: seq<byte>, i: nat, b: seq<byte>, j: nat, c: Copy)
    ensures Extend(a, i, Extend(b, j, c)) == Extend(a + b, i + j, c)
  {
    assert a + (b + c.written) == a + b + c.written;
  }

  /**
   * Run seen from loop iteration i: `written` is what iterations 0..i-1 have
   * written, and what is left to do is Run on the remaining reads and polls.
   */
  ghost predicate RunFrom(results: seq<ReadResult>, polls: seq<bool>, i: nat, written: seq<byte>) {
    Run(results, polls) == Extend(written, i, Run(Drop(results, i), Drop(polls, i)))
  }

  /** Before the first iteration nothing is written. */
  lemma RunFromStart(results: seq<ReadResult>, polls: seq<bool>)
    ensures RunFrom(results, polls, 0, [])
  {
    assert Drop(results, 0) == results && Drop(polls, 0) == polls;
    assert [] + Run(results, polls).written == Run(results, polls).written;
  }

  /** An iteration whose poll answers false writes read i and moves on to read i + 1. */
  lemma RunFromNext(results: seq<ReadResult>, polls: seq<bool>, i: nat, written: seq<byte>)
    requires RunFrom(results, polls, i, written)
    requires Delivers(ReadAt(results, i)) && !Polled(polls, i)
    ensures RunFrom(results, polls, i + 1, written + ReadAt(results, i).bytes)
  {
    var rest := Run(Drop(results, i + 1), Drop(polls, i + 1));
    assert Drop(results, i)[1..] == Drop(results, i + 1);
    assert Drop(Drop(polls, i), 1) == Drop(polls, i + 1);
    assert ReadAt(Drop(results, i), 0) == ReadAt(results, i);
    assert Run(Drop(results, i), Drop(polls, i)) == Extend(ReadAt(results, i).bytes, 1, rest);
    ExtendExtend(written, i, ReadAt(results, i).bytes, 1, rest);
  }

  /** An iteration whose poll answers true ends the copy, cancelled, with what was written so far. */
  lemma RunFromCancelled(results: seq<ReadResult>, polls: seq<bool>, i: nat, written: seq<byte>)
    requires RunFrom(results, polls, i, written)
    requires Delivers(ReadAt(results, i)) && Polled(polls, i)
    ensures Run(results, polls) == Copy(Cancelled, written, i + 1, i + 1)
  {
    assert ReadAt(Drop(results, i), 0) == ReadAt(results, i);
    assert written + [] == written;
  }

  /** A read i with rc <= 0, or one that throws, ends the copy with what was written so far. */
  lemma RunFromStops(results: seq<ReadResult>, polls: seq<bool>, i: nat, written: seq<byte>)
    requires RunFrom(results, polls, i, written)
    requires !Delivers(ReadAt(results, i))
    ensures Run(results, polls) == Copy(if ReadAt(results, i).ReadError? then ReadFailed else Completed, written, i + 1, i)
  {
    assert ReadAt(Drop(results, i), 0) == ReadAt(results, i);
    assert written + [] == written;
  }

  /** A stream whose first read delivers has one more leading chunk than its tail. */
  lemma LeadingCons(results: seq<ReadResult>)
    requires Delivers(ReadAt(results, 0))
    ensures Leading(results) == Leading(results[1..]) + 1
  {
  }

  /** When the first poll answers false, the first poll to answer true comes one later than in the remaining polls. */
  lemma FirstCancelCons(polls: seq<bool>, bound: nat)
    requires !Polled(polls, 0)
    ensures FirstCancel(polls, 0, bound + 1) == FirstCancel(Drop(polls, 1), 0, bound) + 1
  {
    var later := Drop(polls, 1);
    var k' := FirstCancel(later, 0, bound);
    forall j | 0 <= j < k' + 1 ensures !Polled(polls, j) {
      if j > 0 {
        assert Polled(later, j - 1) == Polled(polls, j);
      }
    }
    assert Polled(later, k') == Polled(polls, k' + 1);
    FirstCancelUnique(polls, bound + 1, k' + 1);
  }

  /** The first k + 1 chunks are the first chunk followed by the first k of the rest. */
  lemma FlattenTake(results: seq<ReadResult>, k: nat)
    requires k < |results|
    ensures Flatten(results[..k + 1]) == BytesOf(results[0]) + Flatten(results[1..][..k])
  {
    assert results[..k + 1][1..] == results[1..][..k];
    FlattenCons(results[..k + 1]);
  }

  /** DumpEffect obeys the same one-iteration recurrence as Run. */
  lemma DumpEffectCons(results: seq<ReadResult>, polls: seq<bool>)
    requires Delivers(ReadAt(results, 0)) && !Polled(polls, 0)
    ensures DumpEffect(results, polls) == Extend(results[0].bytes, 1, DumpEffect(results[1..], Drop(polls, 1)))
  {
    var tail, later := results[1..], Drop(polls, 1);
    LeadingCons(results);
    var n' := Leading(tail);
    FirstCancelCons(polls, n');
    var k' := FirstCancel(later, 0, n');
    FlattenTake(results, k');
    assert BytesOf(results[0]) == results[0].bytes;
    if k' == n' {
      assert ReadAt(results, n' + 1) == ReadAt(tail, n');
    }
  }

  /** The loop run step by step has exactly the effect DumpEffect states as a whole. */
  lemma {:induction false} RunIsDumpEffect(results: seq<ReadResult>, polls: seq<bool>)
    ensures Run(results, polls) == DumpEffect(results, polls)
    decreases |results|
  {
    var current := ReadAt(results, 0);
    if current.ReadError? || !Delivers(current) || Polled(polls, 0) {
      assert Leading(results) == 0 || FirstCancel(polls, 0, Leading(results)) == 0;
    } else {
      RunIsDumpEffect(results[1..], Drop(polls, 1));
      DumpEffectCons(results, polls);
    }
  }

  /** dump only ever writes a prefix of the server's content. */
  lemma DumpWritesPrefixOfBody(results: seq<ReadResult>, polls: seq<bool>)
    ensures DumpEffect(results, polls).written <= Body(results)
  {
    var n := Leading(results);
    FlattenPrefix(results, FirstCancel(polls, 0, n), n);
  }

  /**
   * dump ends normally exactly when no poll before the loop's last write
   * answers true and the read that stops the loop does not throw; the file
   * then holds the server's whole content.
   */
  lemma DumpCompletes(results: seq<ReadResult>, polls: seq<bool>)
    ensures DumpEffect(results, polls).status == Completed <==>
      (forall j :: 0 <= j < Leading(results) ==> !Polled(polls, j)) &&
      !ReadAt(results, Leading(results)).ReadError?
    ensures DumpEffect(results, polls).status == Completed ==>
      DumpEffect(results, polls).written == Body(results)
  {
    var n := Leading(results);
    var k := FirstCancel(polls, 0, n);
    if k < n {
      assert Polled(polls, k);
    }
  }

  /**
   * dump is cancelled exactly when a poll before one of its writes answers
   * true. Then, with k the first such poll, the first k chunks are written,
   * and the chunk in the buffer when the flag was seen is never written:
   * what is written, followed by that chunk, is still a prefix of the content.
   */
  lemma DumpCancelled(results: seq<ReadResult>, polls: seq<bool>)
    ensures DumpEffect(results, polls).status == Cancelled <==>
      exists j :: 0 <= j < Leading(results) && Polled(polls, j)
    ensures var c := DumpEffect(results, polls);
      c.status == Cancelled ==>
        var k := c.pollsTaken - 1;
        k < Leading(results) && Polled(polls, k) &&
        (forall j :: 0 <= j < k ==> !Polled(polls, j)) &&
        c.written == Flatten(results[..k]) &&
        c.written + results[k].bytes <= Body(results) &&
        |c.written| < |Body(results)|
  {
    var n := Leading(results);
    var k := FirstCancel(polls, 0, n);
    if k < n {
      assert results[..k + 1][..k] == results[..k];
      assert Flatten(results[..k + 1]) == Flatten(results[..k]) + results[k].bytes;
      FlattenPrefix(results, k + 1, n);
    }
  }

  /** Every write appends at most one buffer, so dump writes at most BufferSize bytes per poll. */
  lemma DumpWriteBound(results: seq<ReadResult>, polls: seq<bool>)
    ensures |DumpEffect(results, polls).written| <= BufferSize * DumpEffect(results, polls).pollsTaken
  {
    var n := Leading(results);
    var k := FirstCancel(polls, 0, n);
    FlattenBound(results[..k]);
    assert BufferSize * k <= BufferSize * DumpEffect(results, polls).pollsTaken;
  }
}
