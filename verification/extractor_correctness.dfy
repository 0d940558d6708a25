/**
 The extractor computes what the pattern denotes: each stage of
 `LinkExtractor` reports exactly the capture `LinkPattern` describes for it,
 in both directions, and `Extract` reports the capture of the leftmost match.
 */
module ExtractorCorrectness {
  import opened Wrappers
  import opened LinkPattern
  import opened LinkExtractor

  /** A literal does not occur where one of its characters differs from the input. */
  lemma Mismatch(s: string, i: nat, lit: string, t: nat)
    requires t < |lit| && i + t < |s| && s[i + t] != lit[t]
    ensures !HasAt(s, i, lit)
  {
  }

  lemma ConcatAt(s: string, i: nat, a: string, b: string)
    requires HasAt(s, i, a) && HasAt(s, i + |a|, b)
    ensures HasAt(s, i, a + b)
  {
    assert s[i..i + |a| + |b|] == s[i..i + |a|] + s[i + |a|..i + |a| + |b|];
  }

  /** Each host form is a scheme followed by a domain. */
  lemma HostFormsSpelled()
    ensures "https://" + "www.youtube.com/" in HostForms
    ensures "https://" + "youtube.com/" in HostForms
    ensures "http://" + "www.youtube.com/" in HostForms
    ensures "http://" + "youtube.com/" in HostForms
  {
    assert "https://" + "www.youtube.com/" == "https://www.youtube.com/";
    assert "https://" + "youtube.com/" == "https://youtube.com/";
    assert "http://" + "www.youtube.com/" == "http://www.youtube.com/";
    assert "http://" + "youtube.com/" == "http://youtube.com/";
  }

  lemma HostEndSound(s: string, i: nat)
    ensures HostEnd(s, i).Some? ==> HostAt(s, i, HostEnd(s, i).value)
  {
    if HostEnd(s, i).Some? {
      var scheme := if HasAt(s, i, "https://") then "https://" else "http://";
      var j := i + |scheme|;
      var host := if HasAt(s, j, "www.youtube.com/") then "www.youtube.com/" else "youtube.com/";
      ConcatAt(s, i, scheme, host);
      assert HostEnd(s, i).value == i + |scheme + host|;
      HostFormsSpelled();
    }
  }

  lemma HostEndCompleteHttpsWww(s: string, i: nat, p: nat)
    requires i <= p <= |s| && s[i..p] == "https://www.youtube.com/"
    ensures HostEnd(s, i) == Some(p)
  {
    var h := s[i..p];
    assert s[i..i + 8] == h[..8];
    assert s[i + 8..i + 24] == h[8..];
  }

  lemma HostEndCompleteHttps(s: string, i: nat, p: nat)
    requires i <= p <= |s| && s[i..p] == "https://youtube.com/"
    ensures HostEnd(s, i) == Some(p)
  {
    var h := s[i..p];
    assert s[i..i + 8] == h[..8];
    assert s[i + 8..i + 20] == h[8..];
    Mismatch(s, i + 8, "www.youtube.com/", 0);
  }

  lemma HostEndCompleteHttpWww(s: string, i: nat, p: nat)
    requires i <= p <= |s| && s[i..p] == "http://www.youtube.com/"
    ensures HostEnd(s, i) == Some(p)
  {
    var h := s[i..p];
    Mismatch(s, i, "https://", 4);
    assert s[i..i + 7] == h[..7];
    assert s[i + 7..i + 23] == h[7..];
  }

  lemma HostEndCompleteHttp(s: string, i: nat, p: nat)
    requires i <= p <= |s| && s[i..p] == "http://youtube.com/"
    ensures HostEnd(s, i) == Some(p)
  {
    var h := s[i..p];
    Mismatch(s, i, "https://", 4);
    assert s[i..i + 7] == h[..7];
    assert s[i + 7..i + 19] == h[7..];
    Mismatch(s, i + 7, "www.youtube.com/", 0);
  }

  lemma HostEndComplete(s: string, i: nat, p: nat)
    requires HostAt(s, i, p)
    ensures HostEnd(s, i) == Some(p)
  {
    var h := s[i..p];
    if h == "https://www.youtube.com/" {
      HostEndCompleteHttpsWww(s, i, p);
    } else if h == "https://youtube.com/" {
      HostEndCompleteHttps(s, i, p);
    } else if h == "http://www.youtube.com/" {
      HostEndCompleteHttpWww(s, i, p);
    } else {
      HostEndCompleteHttp(s, i, p);
    }
  }

  /** The host prefix is found exactly where the pattern's prefix spans. */
  lemma HostEndCorrect(s: string, i: nat)
    ensures forall p: nat :: HostEnd(s, i) == Some(p) <==> HostAt(s, i, p)
  {
    HostEndSound(s, i);
    forall p: nat | HostAt(s, i, p)
      ensures HostEnd(s, i) == Some(p)
    {
      HostEndComplete(s, i, p);
    }
  }

  lemma SegmentsCaptureSound(s: string, p: nat)
    requires p <= |s|
    ensures SegmentsCapture(s, p).Some? ==> SegmentsMatch(s, p, SegmentsCapture(s, p).value)
  {
    if SegmentsCapture(s, p).Some? {
      var q := FirstSlash(s, p).value;
      var e := NonSpaceEnd(s, q + 1);
      var j := LastSlashBeforeId(s, q + 2, e).value;
      var k := j + 1;
      assert NoSpace(s, q + 1, k - 1);
      assert p < q && q + 2 < k && s[q] == '/' && NoSlash(s, p, q) && NoSpace(s, q + 1, k - 1);
    }
  }

  /** Any segments match is found, and none lies to the right of the one found. */
  lemma SegmentsMatchFound(s: string, p: nat, k': nat)
    requires p <= |s|
    requires SegmentsMatch(s, p, k')
    ensures SegmentsCapture(s, p).Some? && k' <= SegmentsCapture(s, p).value
  {
    var q: nat :| p < q && q + 2 < k' && s[q] == '/' && NoSlash(s, p, q) && NoSpace(s, q + 1, k' - 1);
    assert FirstSlash(s, p) == Some(q);
    var e := NonSpaceEnd(s, q + 1);
    var j' := k' - 1;
    assert SlashBeforeId(s, j');
    assert j' < e;
  }

  /** The segments stage reports the greedy capture, and reports none exactly
      when the alternative cannot match. */
  lemma SegmentsCaptureCorrect(s: string, p: nat)
    requires p <= |s|
    ensures forall k: nat :: SegmentsCapture(s, p) == Some(k) <==> GreedySegmentsMatch(s, p, k)
    ensures SegmentsCapture(s, p).None? <==> NoSegmentsMatch(s, p)
  {
    forall k': nat | SegmentsMatch(s, p, k')
      ensures SegmentsCapture(s, p).Some? && k' <= SegmentsCapture(s, p).value
    {
      SegmentsMatchFound(s, p, k');
    }
    SegmentsCaptureSound(s, p);
  }

  lemma ShortPathCaptureCorrect(s: string, p: nat)
    ensures forall k: nat :: ShortPathCapture(s, p) == Some(k) <==> ShortPathMatch(s, p, k)
    ensures ShortPathCapture(s, p).None? <==> NoShortPathMatch(s, p)
  {
    forall k: nat | ShortPathMatch(s, p, k)
      ensures ShortPathCapture(s, p) == Some(k)
    {
      var w := s[p..k];
      if w == "embed/" {
        assert s[p] == w[0];
        Mismatch(s, p, "v/", 0);
      } else if w == "e/" {
        assert s[p] == w[0];
        assert s[p + 1] == w[1];
        Mismatch(s, p, "v/", 0);
        Mismatch(s, p, "embed/", 1);
      }
    }
    if ShortPathCapture(s, p).Some? {
      assert ShortPathMatch(s, p, ShortPathCapture(s, p).value);
    }
  }

  /** The path stage reports exactly the capture of the three alternatives in priority order. */
  lemma PathCaptureCorrect(s: string, p: nat)
    requires p <= |s|
    ensures forall k: nat :: PathCapture(s, p) == Some(k) <==> PathMatch(s, p, k)
  {
    SegmentsCaptureCorrect(s, p);
    ShortPathCaptureCorrect(s, p);
  }

  lemma LongFormCaptureCorrect(s: string, i: nat)
    ensures forall k: nat :: LongFormCapture(s, i) == Some(k) <==> LongFormMatch(s, i, k)
  {
    HostEndCorrect(s, i);
    match HostEnd(s, i)
    case None =>
    case Some(p) =>
      PathCaptureCorrect(s, p);
      if LongFormCapture(s, i).Some? {
        assert HostAt(s, i, p) && PathMatch(s, p, LongFormCapture(s, i).value);
      }
  }

  /** Trying the whole expression at `i` reports exactly the capture the pattern yields there. */
  lemma MatchAtCorrect(s: string, i: nat)
    ensures forall k: nat :: MatchAt(s, i) == Some(k) <==> RegexMatchAt(s, i, k)
  {
    LongFormCaptureCorrect(s, i);
  }

  /** `Extract` is "" exactly when the expression matches nowhere; otherwise it
      is the id the leftmost match captures. */
  lemma ExtractCorrect(s: string)
    ensures Extract(s) == "" <==> NoRegexMatch(s)
    ensures Extract(s) != "" ==>
      exists i: nat, k: nat :: LeftmostMatch(s, i, k) && Extract(s) == s[k..k + 11]
  {
    match FirstMatchFrom(s, 0)
    case None =>
      forall i: nat, k: nat
        ensures !RegexMatchAt(s, i, k)
      {
        MatchAtCorrect(s, i);
        if i <= |s| {
          assert MatchAt(s, i).None?;
        }
      }
    case Some(i) =>
      var k := MatchAt(s, i).value;
      MatchAtCorrect(s, i);
      forall i': nat, k': nat | i' < i
        ensures !RegexMatchAt(s, i', k')
      {
        MatchAtCorrect(s, i');
      }
      assert LeftmostMatch(s, i, k);
  }
}
