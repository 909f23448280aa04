/**
 * The name CachedDownloader.getCacheFile gives a URL's cache entry
 * (src/org/mariotaku/gallery3d/data/CachedDownloader.java:70-73):
 *
 *   url.replaceAll("https?:\\/\\/", "").replaceAll("[^\\w\\d]", "_")
 *
 * A Java string is modelled as a sequence of chars, each of which one
 * regex match consumes whole (no surrogate pairs).
 */
module CacheNames {
  import opened Wrappers

  /** Java's `\w` without UNICODE_CHARACTER_CLASS is [a-zA-Z_0-9]; `\d` adds nothing to it. */
  predicate IsWordChar(c: char) {
    ('a' <= c <= 'z') || ('A' <= c <= 'Z') || ('0' <= c <= '9') || c == '_'
  }

  predicate AllWordChars(s: string) {
    forall i :: 0 <= i < |s| ==> IsWordChar(s[i])
  }

  /** The two strings the pattern `https?:\/\/` can match. */
  predicate IsScheme(m: string) {
    m == "http://" || m == "https://"
  }

  /** The pattern `https?:\/\/` matches at the start of `s`. */
  predicate StartsWithScheme(s: string) {
    "http://" <= s || "https://" <= s
  }

  /** No match of the pattern starts anywhere in `s`. */
  predicate SchemeFree(s: string) {
    forall i :: 0 <= i <= |s| ==> !StartsWithScheme(s[i..])
  }

  /**
   * The first pass, replaceAll("https?:\\/\\/", ""): scanning left to right,
   * every match is deleted and the scan resumes after it; where nothing
   * matches, one character is kept and the scan moves on by one.
   */
  function StripSchemes(s: string): (r: string)
    ensures |r| <= |s|
    decreases |s|
  {
    if "https://" <= s then StripSchemes(s[8..])
    else if "http://" <= s then StripSchemes(s[7..])
    else if s == [] then []
    else [s[0]] + StripSchemes(s[1..])
  }

  /** The second pass, replaceAll("[^\\w\\d]", "_"). */
  function ReplaceNonWord(s: string): (r: string)
    ensures |r| == |s|
    ensures AllWordChars(r)
  {
    if s == [] then []
    else [if IsWordChar(s[0]) then s[0] else '_'] + ReplaceNonWord(s[1..])
  }

  /** Both passes applied to a non-null URL. */
  function Sanitize(url: string): (name: string)
    ensures AllWordChars(name)
    ensures |name| == |StripSchemes(url)| <= |url|
  {
    ReplaceNonWord(StripSchemes(url))
  }

  /** The file name getCacheFile uses under the cache root; a null URL has none. */
  function CacheFileName(url: Option<string>): (name: Option<string>)
    ensures url.None? <==> name.None?
    ensures name.Some? ==> AllWordChars(name.value) && |name.value| <= |url.value|
  {
    match url
    case None => None
    case Some(u) => Some(Sanitize(u))
  }

  /** The second pass works character by character: word characters stay where they are, every other character becomes exactly one '_'. */
  lemma {:induction false} ReplaceNonWordAt(s: string, i: nat)
    requires i < |s|
    ensures ReplaceNonWord(s)[i] == if IsWordChar(s[i]) then s[i] else '_'
  {
    if i > 0 {
      ReplaceNonWordAt(s[1..], i - 1);
    }
  }

  /** A name made only of word characters passes the second pass unchanged. */
  lemma {:induction false} ReplaceNonWordKeepsWordStrings(s: string)
    requires AllWordChars(s)
    ensures ReplaceNonWord(s) == s
  {
    if s != [] {
      assert AllWordChars(s[1..]) by {
        forall i | 0 <= i < |s[1..]| ensures IsWordChar(s[1..][i]) {
          assert s[1..][i] == s[i + 1];
        }
      }
      ReplaceNonWordKeepsWordStrings(s[1..]);
    }
  }

  /** A string in which no match starts passes the first pass unchanged. */
  lemma {:induction false} StripSchemesKeepsSchemeFree(s: string)
    requires SchemeFree(s)
    ensures StripSchemes(s) == s
  {
    if s != [] {
      assert s[0..] == s;
      assert SchemeFree(s[1..]) by {
        forall i | 0 <= i <= |s[1..]| ensures !StartsWithScheme(s[1..][i..]) {
          assert s[1..][i..] == s[i + 1..];
        }
      }
      StripSchemesKeepsSchemeFree(s[1..]);
      assert s == [s[0]] + s[1..];
    }
  }

  /** A match starting at position i puts an 'h' and a ':' in the string. */
  lemma SchemeHasHAndColon(s: string, i: nat)
    requires i <= |s| && StartsWithScheme(s[i..])
    ensures 'h' in s && ':' in s
  {
    var m := if "http://" <= s[i..] then "http://" else "https://";
    var j := |m| - 3;
    assert m <= s[i..] && m[0] == 'h' && m[j] == ':';
    assert s[i] == 'h' && s[i + j] == ':';
    assert s[i] in s && s[i + j] in s;
  }

  /** Every match contains both 'h' and ':', so a string lacking either holds none. */
  lemma SchemeFreeWithoutHOrColon(s: string)
    requires ':' !in s || 'h' !in s
    ensures SchemeFree(s)
  {
    forall i | 0 <= i <= |s| ensures !StartsWithScheme(s[i..]) {
      if StartsWithScheme(s[i..]) {
        SchemeHasHAndColon(s, i);
      }
    }
  }

  /** Putting a character that does not start a match in front of a scheme-free string keeps it scheme-free. */
  lemma SchemeFreeCons(c: char, s: string)
    requires SchemeFree(s) && !StartsWithScheme([c] + s)
    ensures SchemeFree([c] + s)
  {
    forall i | 0 <= i <= |[c] + s| ensures !StartsWithScheme(([c] + s)[i..]) {
      if i > 0 {
        assert ([c] + s)[i..] == s[i - 1..];
      }
    }
  }

  /** Sanitising a name that is already sanitised changes nothing. */
  lemma SanitizeIdempotent(url: string)
    ensures Sanitize(Sanitize(url)) == Sanitize(url)
  {
    var name := Sanitize(url);
    assert ':' !in name by {
      forall i | 0 <= i < |name| ensures name[i] != ':' {
        assert IsWordChar(name[i]);
      }
    }
    SchemeFreeWithoutHOrColon(name);
    StripSchemesKeepsSchemeFree(name);
    ReplaceNonWordKeepsWordStrings(name);
  }

  /**
   * A declarative account of the first pass. A scan splits the URL, from left
   * to right, into characters that are kept and schemes that are deleted, such
   * that no kept character is the start of a scheme. Because a kept character
   * never starts a match, every match is taken as soon as the scan reaches it
   * (leftmost first); because a deleted scheme is skipped whole, matches never
   * overlap; and because a scan covers the input and nothing else, a scheme
   * that only appears once another has been deleted is not a match.
   */
  datatype Piece = Kept(c: char) | Deleted(scheme: string)

  ghost predicate IsScan(s: string, ps: seq<Piece>)
    decreases ps
  {
    if ps == [] then s == []
    else match ps[0]
      case Kept(c) => s != [] && s[0] == c && !StartsWithScheme(s) && IsScan(s[1..], ps[1..])
      case Deleted(m) => IsScheme(m) && m <= s && IsScan(s[|m|..], ps[1..])
  }

  /** What a scan keeps, in order. */
  function KeptText(ps: seq<Piece>): string {
    if ps == [] then []
    else (if ps[0].Kept? then [ps[0].c] else []) + KeptText(ps[1..])
  }

  /** How many schemes of the given spelling a scan deletes. */
  function CountDeleted(ps: seq<Piece>, m: string): nat {
    if ps == [] then 0
    else (if ps[0] == Deleted(m) then 1 else 0) + CountDeleted(ps[1..], m)
  }

  /** The scan the regex engine performs. */
  function Scan(s: string): seq<Piece>
    decreases |s|
  {
    if "https://" <= s then [Deleted("https://")] + Scan(s[8..])
    else if "http://" <= s then [Deleted("http://")] + Scan(s[7..])
    else if s == [] then []
    else [Kept(s[0])] + Scan(s[1..])
  }

  /** Every URL has a scan. */
  lemma {:induction false} ScanIsScan(s: string)
    ensures IsScan(s, Scan(s))
    decreases |s|
  {
    if "https://" <= s {
      ScanIsScan(s[8..]);
    } else if "http://" <= s {
      ScanIsScan(s[7..]);
    } else if s != [] {
      ScanIsScan(s[1..]);
    }
  }

  /**
   * The first pass returns what any scan keeps, and removes 7 characters for
   * every "http://" and 8 for every "https://" the scan deletes.
   */
  lemma {:induction false} StripSchemesDeletesScannedSchemes(s: string, ps: seq<Piece>)
    requires IsScan(s, ps)
    ensures StripSchemes(s) == KeptText(ps)
    ensures |s| == |StripSchemes(s)| + 7 * CountDeleted(ps, "http://") + 8 * CountDeleted(ps, "https://")
    decreases ps
  {
    if ps != [] {
      match ps[0]
      case Kept(c) =>
        StripSchemesDeletesScannedSchemes(s[1..], ps[1..]);
        assert StripSchemes(s) == [c] + StripSchemes(s[1..]);
      case Deleted(m) =>
        DropScheme(s, m);
        StripSchemesDeletesScannedSchemes(s[|m|..], ps[1..]);
    }
  }

  /** A URL whose first character cannot begin "http" keeps that character. */
  lemma KeepFirst(s: string, j: nat)
    requires j < 4 && j < |s| && s[j] != "http"[j]
    ensures StripSchemes(s) == [s[0]] + StripSchemes(s[1..])
  {
    assert "http://"[j] == "http"[j] && "https://"[j] == "http"[j];
  }

  /** A leading scheme is deleted. */
  lemma DropScheme(s: string, m: string)
    requires IsScheme(m) && m <= s
    ensures StripSchemes(s) == StripSchemes(s[|m|..])
  {
    if m == "http://" {
      assert "https://"[4] != m[4];
    }
  }

  /** A URL whose only scheme is the leading one loses exactly that scheme. */
  lemma StripSchemesLeadingOnly(m: string, rest: string)
    requires IsScheme(m)
    requires SchemeFree(rest)
    ensures StripSchemes(m + rest) == rest
  {
    DropScheme(m + rest, m);
    assert (m + rest)[|m|..] == rest;
    StripSchemesKeepsSchemeFree(rest);
  }

  /** A second pass that agrees with ReplaceNonWord character by character is ReplaceNonWord. */
  lemma ReplaceNonWordIs(s: string, r: string)
    requires |r| == |s|
    requires forall i :: 0 <= i < |s| ==> r[i] == if IsWordChar(s[i]) then s[i] else '_'
    ensures ReplaceNonWord(s) == r
  {
    forall i | 0 <= i < |s| ensures ReplaceNonWord(s)[i] == r[i] {
      ReplaceNonWordAt(s, i);
    }
  }

  /** The first pass deletes schemes anywhere in the URL, not only a leading one. */
  lemma StripSchemesInMiddle()
    ensures StripSchemes("a/http://b") == "a/b"
  {
    var s := "a/http://b";
    KeepFirst(s, 0);
    KeepFirst(s[1..], 0);
    assert s[2..] == "http://b";
    DropScheme(s[2..], "http://");
    assert s[2..][7..] == "b";
    KeepFirst("b", 0);
  }

  /** "ht" followed by an 'h' cannot begin a scheme, so both its characters are kept. */
  lemma KeepHt(x: string)
    requires x != [] && x[0] == 'h'
    ensures StripSchemes("ht" + x) == "ht" + StripSchemes(x)
  {
    var s := "ht" + x;
    assert s[0] == 'h' && s[2] == x[0];
    KeepFirst(s, 2);
    var t := s[1..];
    assert t == "t" + x;
    KeepFirst(t, 0);
    assert t[1..] == x;
    var r := StripSchemes(x);
    assert StripSchemes(s) == [s[0]] + ([t[0]] + r);
    assert [s[0]] + ([t[0]] + r) == ([s[0]] + [t[0]]) + r;
    assert [s[0]] + [t[0]] == "ht";
  }

  /**
   * Deleting a scheme joins the text around it without scanning the join
   * again: "ht" is kept, the scheme after it is deleted, and the scan goes
   * on from `rest`.
   */
  lemma StripSchemesJoinsAround(rest: string)
    ensures StripSchemes("ht" + "http://" + rest) == "ht" + StripSchemes(rest)
  {
    var inner := "http://" + rest;
    assert "ht" + "http://" + rest == "ht" + inner;
    KeepHt(inner);
    DropScheme(inner, "http://");
    assert inner[7..] == rest;
  }

  /** A scheme that only appears once another one has been deleted survives the single pass. */
  lemma StripSchemesSinglePass()
    ensures StripSchemes("ht" + "http://" + "tp://") == "http://"
  {
    StripSchemesJoinsAround("tp://");
    assert 'h' !in "tp://";
    SchemeFreeWithoutHOrColon("tp://");
    StripSchemesKeepsSchemeFree("tp://");
    assert "ht" + "tp://" == "http://";
  }

  /** The first pass on a typical image URL removes only its scheme. */
  lemma StripSchemesExample()
    ensures StripSchemes("http://a.b/c?d=1") == "a.b/c?d=1"
  {
    assert "http://a.b/c?d=1" == "http://" + "a.b/c?d=1";
    assert ':' !in "a.b/c?d=1";
    SchemeFreeWithoutHOrColon("a.b/c?d=1");
    StripSchemesLeadingOnly("http://", "a.b/c?d=1");
  }

  /** A string too short to hold "http://" holds no match. */
  lemma SchemeFreeShort(s: string)
    requires |s| < 7
    ensures SchemeFree(s)
  {
  }

  /**
   * A URL whose host begins with 'h' and that names a port keeps both its
   * 'h' and its ':' once the leading scheme is gone.
   */
  lemma StripSchemesKeepsPort()
    ensures StripSchemes("http://h:80/x") == "h:80/x"
  {
    SchemeFreeShort("h:80/x");
    assert "http://h:80/x" == "http://" + "h:80/x";
    StripSchemesLeadingOnly("http://", "h:80/x");
  }

  /** Every character outside [A-Za-z0-9_] turns into its own '_', including '.'. */
  lemma ReplaceNonWordExample()
    ensures ReplaceNonWord("a.b/c?d=1") == "a_b_c_d_1"
  {
    ReplaceNonWordIs("a.b/c?d=1", "a_b_c_d_1");
  }

  /** The cache file name of a typical image URL. */
  lemma SanitizeExample()
    ensures Sanitize("http://a.b/c?d=1") == "a_b_c_d_1"
  {
    StripSchemesExample();
    ReplaceNonWordExample();
  }

  /** Runs of separators are not collapsed: each becomes its own '_'. */
  lemma SanitizeKeepsRuns()
    ensures Sanitize("https://a//b") == "a__b"
  {
    assert "https://a//b" == "https://" + "a//b";
    assert ':' !in "a//b";
    SchemeFreeWithoutHOrColon("a//b");
    StripSchemesLeadingOnly("https://", "a//b");
    ReplaceNonWordIs("a//b", "a__b");
  }

  /** Two different URLs can share one cache entry: nothing in getCacheFile tells them apart. */
  lemma DistinctUrlsShareName()
    ensures "http://a/b" != "a_b" && Sanitize("http://a/b") == Sanitize("a_b")
  {
    assert "http://a/b" == "http://" + "a/b";
    assert ':' !in "a/b" && ':' !in "a_b";
    SchemeFreeWithoutHOrColon("a/b");
    SchemeFreeWithoutHOrColon("a_b");
    StripSchemesLeadingOnly("http://", "a/b");
    ReplaceNonWordIs("a/b", "a_b");
    StripSchemesKeepsSchemeFree("a_b");
    ReplaceNonWordIs("a_b", "a_b");
  }
}
