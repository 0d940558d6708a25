/**
 What the extractor promises its callers: the shape of its result, where in
 the input the result comes from, and what it returns for the link shapes a
 user pastes.
 */
module ExtractorProperties {
  import opened Wrappers
  import opened LinkPattern
  import opened LinkExtractor
  import opened ExtractorCorrectness

  lemma NoSlashFromSlice(s: string, a: nat, b: nat)
    requires a <= b <= |s|
    requires '/' !in s[a..b]
    ensures NoSlash(s, a, b)
  {
    forall t | a <= t < b
      ensures s[t] != '/'
    {
      assert s[t] == s[a..b][t - a];
    }
  }

  /** A match can only start where "http" or "youtu.be/" starts, so on an 'h' or a 'y'. */
  lemma MatchAtStart(s: string, i: nat)
    ensures MatchAt(s, i).Some? ==> HasAt(s, i, "http") || HasAt(s, i, "youtu.be/")
    ensures MatchAt(s, i).Some? ==> i < |s| && (s[i] == 'h' || s[i] == 'y')
  {
    if LongFormCapture(s, i).Some? {
      if HasAt(s, i, "https://") {
        assert s[i..i + 4] == s[i..i + 8][..4];
        assert s[i] == s[i..i + 8][0];
      } else {
        assert s[i..i + 4] == s[i..i + 7][..4];
        assert s[i] == s[i..i + 7][0];
      }
    } else if ShortLinkCapture(s, i).Some? {
      assert s[i] == s[i..i + 9][0];
    }
  }

  /** The host prefix always ends in "youtube.com/". */
  lemma HostEndsWithDomain(s: string, i: nat)
    requires HostEnd(s, i).Some?
    ensures HasAt(s, HostEnd(s, i).value - 12, "youtube.com/")
  {
    var p := HostEnd(s, i).value;
    if HasAt(s, p - 16, "www.youtube.com/") {
      assert s[p - 12..p] == s[p - 16..p][4..];
    }
  }

  /** The id starts at least nine characters after the start of one of the two domains. */
  lemma MatchAtFootprint(s: string, i: nat)
    requires MatchAt(s, i).Some?
    ensures exists m: nat :: i <= m && m + 9 <= MatchAt(s, i).value
                             && (HasAt(s, m, "youtu.be/") || HasAt(s, m, "youtube.com/"))
  {
    if LongFormCapture(s, i).Some? {
      var p := HostEnd(s, i).value;
      HostEndsWithDomain(s, i);
      assert HasAt(s, p - 12, "youtube.com/");
    } else {
      assert HasAt(s, i, "youtu.be/");
    }
  }

  /** A match at `i` with none further left decides the result. */
  lemma ExtractAt(s: string, i: nat)
    requires MatchAt(s, i).Some?
    requires forall j: nat :: j < i ==> MatchAt(s, j).None?
    ensures Extract(s) == s[MatchAt(s, i).value..MatchAt(s, i).value + 11]
  {
    var f := FirstMatchFrom(s, 0);
    assert f.Some? && f.value == i;
  }

  lemma ExtractNothing(s: string)
    requires forall i: nat :: i <= |s| ==> MatchAt(s, i).None?
    ensures Extract(s) == ""
  {
    assert FirstMatchFrom(s, 0).None?;
  }

  /** "youtu.be/" or "youtube.com/" starts at `m`, and an id could start at `k`. */
  predicate IdAfterDomain(s: string, m: nat, k: nat) {
    && m + 9 <= k && k + 11 <= |s|
    && (HasAt(s, m, "youtu.be/") || HasAt(s, m, "youtube.com/"))
  }

  /** A non-empty result is eleven consecutive characters of the input, preceded
      somewhere by "youtu.be/" or "youtube.com/". */
  lemma ExtractFootprint(s: string)
    ensures Extract(s) != "" ==>
      exists m: nat, k: nat :: IdAfterDomain(s, m, k) && Extract(s) == s[k..k + 11]
  {
    if Extract(s) != "" {
      var i := FirstMatchFrom(s, 0).value;
      var k := MatchAt(s, i).value;
      MatchAtFootprint(s, i);
      var m: nat :| i <= m && m + 9 <= k && (HasAt(s, m, "youtu.be/") || HasAt(s, m, "youtube.com/"));
      assert IdAfterDomain(s, m, k) && Extract(s) == s[k..k + 11];
    }
  }

  /** The shortest input with an id is "youtu.be/" and eleven id characters. */
  lemma ShortInputHasNoId(s: string)
    requires |s| < 20
    ensures Extract(s) == ""
  {
    ExtractFootprint(s);
  }

  /** Where neither 'h' nor 'y' occurs, no match starts. */
  lemma NoMatchWithoutLetter(s: string, a: nat, b: nat)
    requires a <= b <= |s|
    requires 'h' !in s[a..b] && 'y' !in s[a..b]
    ensures forall i: nat :: a <= i < b ==> MatchAt(s, i).None?
  {
    forall i: nat | a <= i < b
      ensures MatchAt(s, i).None?
    {
      assert s[i] == s[a..b][i - a];
      MatchAtStart(s, i);
    }
  }

  lemma HttpsShortLinkNoHost(s: string, id: string)
    requires s == "https://" + ("youtu.be/" + id)
    ensures HostEnd(s, 0).None?
  {
    assert s[..8] == "https://";
    assert s[8] == 'y' && s[13] == '.';
    Mismatch(s, 8, "www.youtube.com/", 0);
    Mismatch(s, 8, "youtube.com/", 5);
  }

  lemma HttpsShortLinkNoEarlyMatch(s: string, id: string)
    requires s == "https://" + ("youtu.be/" + id)
    ensures forall i: nat :: i < 8 ==> MatchAt(s, i).None?
  {
    HttpsShortLinkNoHost(s, id);
    assert s[0] == 'h';
    Mismatch(s, 0, "youtu.be/", 0);
    assert s[1..8] == "ttps://";
    NoMatchWithoutLetter(s, 1, 8);
  }

  lemma HttpShortLinkNoHost(s: string, id: string)
    requires s == "http://" + ("youtu.be/" + id)
    ensures HostEnd(s, 0).None?
  {
    assert s[4] == ':';
    Mismatch(s, 0, "https://", 4);
    assert s[7] == 'y' && s[12] == '.';
    Mismatch(s, 7, "www.youtube.com/", 0);
    Mismatch(s, 7, "youtube.com/", 5);
  }

  lemma HttpShortLinkNoEarlyMatch(s: string, id: string)
    requires s == "http://" + ("youtu.be/" + id)
    ensures forall i: nat :: i < 7 ==> MatchAt(s, i).None?
  {
    HttpShortLinkNoHost(s, id);
    assert s[0] == 'h';
    Mismatch(s, 0, "youtu.be/", 0);
    assert s[1..7] == "ttp://";
    NoMatchWithoutLetter(s, 1, 7);
  }

  /** "youtu.be/" and an id at `m`, with no match further left, yields that id. */
  lemma ShortLinkAt(s: string, m: nat, id: string)
    requires IsVideoId(id)
    requires m <= |s| && s[m..] == "youtu.be/" + id
    requires forall i: nat :: i < m ==> MatchAt(s, i).None?
    ensures Extract(s) == id
  {
    assert s[m..m + 9] == "youtu.be/";
    assert s[m + 9..] == id;
    assert s[m] == 'y';
    Mismatch(s, m, "https://", 0);
    Mismatch(s, m, "http://", 0);
    assert MatchAt(s, m) == Some(m + 9);
    ExtractAt(s, m);
  }

  /** The short-link shape, bare or behind either scheme: the id right after "youtu.be/". */
  lemma ShortLinkRoundTrip(scheme: string, id: string)
    requires scheme in {"", "http://", "https://"}
    requires IsVideoId(id)
    ensures Extract(scheme + "youtu.be/" + id) == id
  {
    var s := scheme + "youtu.be/" + id;
    assert s[|scheme|..] == "youtu.be/" + id;
    if scheme == "https://" {
      assert s == "https://" + ("youtu.be/" + id);
      HttpsShortLinkNoEarlyMatch(s, id);
    } else if scheme == "http://" {
      assert s == "http://" + ("youtu.be/" + id);
      HttpShortLinkNoEarlyMatch(s, id);
    }
    ShortLinkAt(s, |scheme|, id);
  }

  /** The first '/' at or after `a` is the one the caller has found. */
  lemma FirstSlashIs(s: string, a: nat, q: nat)
    requires a <= q < |s| && s[q] == '/' && NoSlash(s, a, q)
    ensures FirstSlash(s, a) == Some(q)
  {
  }

  /** Each short path ends in its only '/'. */
  lemma ShortPathShape(path: string)
    requires path in {"v/", "embed/", "e/"}
    ensures 2 <= |path| && path[|path| - 1] == '/' && '/' !in path[..|path| - 1]
  {
    if path == "embed/" {
      assert path[..5] == "embed";
    } else {
      assert path[..1] == [path[0]];
    }
  }

  /** A short path and an id after the host prefix: the id is the only thing
      after the path's '/', so the segments alternative fails and the
      short-path alternative takes the id. */
  lemma ShortPathAfterHost(s: string, p: nat, path: string, id: string)
    requires path in {"v/", "embed/", "e/"}
    requires IsVideoId(id)
    requires p <= |s| && s[p..] == path + id
    ensures PathCapture(s, p) == Some(p + |path|)
  {
    ShortPathShape(path);
    var k := p + |path|;
    var q := k - 1;
    assert s[p..k] == path;
    assert s[k..] == id;
    assert IdAt(s, k);
    assert s[q] == path[|path| - 1];
    assert s[p..q] == path[..|path| - 1];
    NoSlashFromSlice(s, p, q);
    FirstSlashIs(s, p, q);
    assert SegmentsCapture(s, p).None?;
    ShortPathCaptureCorrect(s, p);
    assert ShortPathMatch(s, p, k);
  }

  /** The long-form shapes: any of the four host prefixes, then "v/",
      "embed/" or "e/", then the id. */
  lemma LongLinkRoundTrip(host: string, path: string, id: string)
    requires host in HostForms
    requires path in {"v/", "embed/", "e/"}
    requires IsVideoId(id)
    ensures Extract(host + path + id) == id
  {
    var s := host + path + id;
    var p := |host|;
    assert s[0..p] == host;
    HostEndComplete(s, 0, p);
    assert s[p..] == path + id;
    ShortPathAfterHost(s, p, path, id);
    assert MatchAt(s, 0) == Some(p + |path|);
    assert s[p + |path|..] == id;
    ExtractAt(s, 0);
  }

  /** The embedded player's address shape: the id right after "https://www.youtube.com/embed/". */
  lemma EmbedLinkRoundTrip(id: string)
    requires IsVideoId(id)
    ensures Extract("https://www.youtube.com/embed/" + id) == id
  {
    LongLinkRoundTrip("https://www.youtube.com/", "embed/", id);
    assert "https://www.youtube.com/" + "embed/" == "https://www.youtube.com/embed/";
  }

  lemma ExampleIdIsVideoId()
    ensures IsVideoId("dQw4w9WgXcQ")
  {
    var id := "dQw4w9WgXcQ";
    forall t | 0 <= t < 11
      ensures IsIdChar(id[t])
    {
      assert id[t] in id;
    }
  }

  /** The address is written as concatenated pieces; it is the same string
      as the single literal, spelled this way to keep the proof small. */
  lemma ShortLinkExample()
    ensures Extract("https://" + "youtu.be/" + "dQw4w9WgXcQ") == "dQw4w9WgXcQ"
  {
    ExampleIdIsVideoId();
    ShortLinkRoundTrip("https://", "dQw4w9WgXcQ");
  }

  /** The address is written as concatenated pieces; it is the same string
      as the single literal, spelled this way to keep the proof small. */
  lemma EmbedLinkExample()
    ensures Extract("https://www.youtube.com/" + "embed/" + "dQw4w9WgXcQ") == "dQw4w9WgXcQ"
  {
    ExampleIdIsVideoId();
    LongLinkRoundTrip("https://www.youtube.com/", "embed/", "dQw4w9WgXcQ");
  }

  /** The address is written as concatenated pieces; it is the same string
      as the single literal, spelled this way to keep the proof small. */
  lemma VideoPathExample()
    ensures Extract("https://youtube.com/" + "v/" + "dQw4w9WgXcQ") == "dQw4w9WgXcQ"
  {
    ExampleIdIsVideoId();
    LongLinkRoundTrip("https://youtube.com/", "v/", "dQw4w9WgXcQ");
  }

  lemma PlainTextExample()
    ensures Extract("not a link") == ""
  {
    ShortInputHasNoId("not a link");
  }

  /** Only a match starting early enough can leave room for an id. */
  lemma ExtractNothingBefore(s: string, last: nat)
    requires forall i: nat :: i <= last ==> MatchAt(s, i).None?
    requires |s| <= last + 20
    ensures Extract(s) == ""
  {
    ExtractNothing(s);
  }

  lemma WatchLinkPrefix(s: string, id: string)
    requires s == "https://www.youtube.com/" + ("watch?v=" + id)
    ensures HostEnd(s, 0) == Some(24)
    ensures !HasAt(s, 0, "youtu.be/")
  {
    assert HostAt(s, 0, 24) by {
      assert s[0..24] == "https://www.youtube.com/";
    }
    HostEndComplete(s, 0, 24);
    Mismatch(s, 0, "youtu.be/", 0);
  }

  /** After the host, "watch?v=" starts none of the three paths. */
  lemma WatchLinkPathFails(s: string, id: string)
    requires IsVideoId(id)
    requires s == "https://www.youtube.com/" + ("watch?v=" + id)
    ensures PathCapture(s, 24).None?
  {
    assert s[24..32] == "watch?v=";
    assert s[32..] == id;
    NoSlashFromSlice(s, 24, 32);
    assert NoSlash(s, 24, |s|);
    assert SegmentsCapture(s, 24).None?;
    Mismatch(s, 24, "v/", 0);
    Mismatch(s, 24, "embed/", 0);
    Mismatch(s, 24, "e/", 0);
    assert s[29] == '?';
    assert !IdAt(s, 24);
  }

  /** At the start of a watch address the host prefix matches, but none of the three paths does. */
  lemma WatchLinkHostOnly(s: string, id: string)
    requires IsVideoId(id)
    requires s == "https://www.youtube.com/" + ("watch?v=" + id)
    ensures MatchAt(s, 0).None?
  {
    WatchLinkPrefix(s, id);
    WatchLinkPathFails(s, id);
  }

  /** The 'y' of "youtube.com" in a watch address starts no match. */
  lemma WatchLinkDomainLetter(s: string, id: string)
    requires s == "https://www." + ("youtube.com/" + ("watch?v=" + id))
    ensures MatchAt(s, 12).None?
  {
    assert s[12..24] == "youtube.com/";
    assert s[12] == 'y' && s[17] == 'b';
    assert !HasAt(s, 12, "https://") by {
      assert s[12] == s[12..20][0];
    }
    assert !HasAt(s, 12, "http://") by {
      assert s[12] == s[12..19][0];
    }
    assert !HasAt(s, 12, "youtu.be/") by {
      assert s[17] == s[12..21][5];
    }
  }

  /** The canonical watch address is none of the recognised shapes: after
      "youtube.com/" it has no '/', does not start with "v/" or "e", and
      "watch?v=" is not made of id characters. */
  lemma WatchLinkNotRecognised(id: string)
    requires IsVideoId(id)
    ensures Extract("https://www.youtube.com/watch?v=" + id) == ""
  {
    var s := "https://www.youtube.com/watch?v=" + id;
    assert s == "https://www.youtube.com/" + ("watch?v=" + id);
    assert s == "https://www." + ("youtube.com/" + ("watch?v=" + id));
    WatchLinkHostOnly(s, id);
    WatchLinkDomainLetter(s, id);
    WatchLinkLetters(s, id);
    ExtractNothingBefore(s, 23);
  }

  /** Before "watch?v=", a watch address has an 'h' or a 'y' only at 0 and 12. */
  lemma WatchLinkLetters(s: string, id: string)
    requires s == "https://www." + ("youtube.com/" + ("watch?v=" + id))
    ensures forall i: nat :: 0 < i < 12 || 12 < i < 24 ==> MatchAt(s, i).None?
  {
    assert s[1..12] == "ttps://www.";
    NoMatchWithoutLetter(s, 1, 12);
    assert s[12..24] == "youtube.com/";
    assert s[13..24] == s[12..24][1..];
    NoMatchWithoutLetter(s, 13, 24);
  }

  /** The address is written as concatenated pieces; it is the same string
      as the single literal, spelled this way to keep the proof small. */
  lemma WatchLinkExample()
    ensures Extract("https://www.youtube.com/watch?v=" + "dQw4w9WgXcQ") == ""
  {
    ExampleIdIsVideoId();
    WatchLinkNotRecognised("dQw4w9WgXcQ");
  }
}
