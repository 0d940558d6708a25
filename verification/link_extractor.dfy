/**
 The video-id extractor of the posts feed (`handleYouTubeLink`): the regular
 expression of `LinkPattern` run as JavaScript's matcher runs it, trying each
 start index from the left and, at each index, the alternatives in order.
 `ExtractorCorrectness` proves that this procedure reports exactly the
 capture `LinkPattern` describes.
 */
module LinkExtractor {
  import opened Wrappers
  import opened LinkPattern

  /** End of `https?:\/\/(?:www\.)?youtube\.com\/` when it starts at `i`.
      The four prefixes exclude one another, so backtracking into `s?` or
      `(?:www\.)?` never yields a second candidate. */
  function HostEnd(s: string, i: nat): (p: Option<nat>)
    ensures p.Some? ==> i + 19 <= p.value <= |s|
  {
    var afterScheme :=
      if HasAt(s, i, "https://") then Some(i + 8)
      else if HasAt(s, i, "http://") then Some(i + 7)
      else None;
    match afterScheme
    case None => None
    case Some(j) =>
      if HasAt(s, j, "www.youtube.com/") then Some(j + 16)
      else if HasAt(s, j, "youtube.com/") then Some(j + 12)
      else None
  }

  /** The first '/' at or after `from`: where `[^/]+` has to stop. */
  function FirstSlash(s: string, from: nat): (q: Option<nat>)
    requires from <= |s|
    decreases |s| - from
    ensures q.Some? ==> from <= q.value < |s| && s[q.value] == '/' && NoSlash(s, from, q.value)
    ensures q.None? ==> NoSlash(s, from, |s|)
  {
    if from == |s| then None
    else if s[from] == '/' then Some(from)
    else FirstSlash(s, from + 1)
  }

  /** The end of the run of non-space characters starting at `from`: how far `\S+` can reach. */
  function NonSpaceEnd(s: string, from: nat): (e: nat)
    requires from <= |s|
    decreases |s| - from
    ensures from <= e <= |s|
    ensures NoSpace(s, from, e)
    ensures e < |s| ==> IsSpace(s[e])
  {
    if from == |s| || IsSpace(s[from]) then from
    else NonSpaceEnd(s, from + 1)
  }

  /** A '/' at `j` with an id right after it. */
  predicate SlashBeforeId(s: string, j: nat) {
    j < |s| && s[j] == '/' && IdAt(s, j + 1)
  }

  /** Backtracking out of the greedy `\S+`: the last `j` in `[lo, hi)` with a
      '/' followed by an id. */
  function LastSlashBeforeId(s: string, lo: nat, hi: nat): (j: Option<nat>)
    requires hi <= |s|
    decreases hi
    ensures j.Some? ==> lo <= j.value < hi && SlashBeforeId(s, j.value)
    ensures j.Some? ==> forall t :: j.value < t < hi ==> !SlashBeforeId(s, t)
    ensures j.None? ==> forall t :: lo <= t < hi ==> !SlashBeforeId(s, t)
  {
    if hi <= lo then None
    else if SlashBeforeId(s, hi - 1) then Some(hi - 1)
    else LastSlashBeforeId(s, lo, hi - 1)
  }

  /** `[^/]+\/\S+\/` then the id, from the end `p` of the host prefix;
      the result is where the id starts. */
  function SegmentsCapture(s: string, p: nat): (k: Option<nat>)
    requires p <= |s|
    ensures k.Some? ==> p < k.value && IdAt(s, k.value)
  {
    match FirstSlash(s, p)
    case None => None
    case Some(q) =>
      if q == p then None
      else
        match LastSlashBeforeId(s, q + 2, NonSpaceEnd(s, q + 1))
        case None => None
        case Some(j) => Some(j + 1)
  }

  /** `(?:v|e(?:mbed)?)\/` then the id, alternatives in the order tried. */
  function ShortPathCapture(s: string, p: nat): (k: Option<nat>)
    ensures k.Some? ==> p + 2 <= k.value && IdAt(s, k.value)
  {
    if HasAt(s, p, "v/") && IdAt(s, p + 2) then Some(p + 2)
    else if HasAt(s, p, "embed/") && IdAt(s, p + 6) then Some(p + 6)
    else if HasAt(s, p, "e/") && IdAt(s, p + 2) then Some(p + 2)
    else None
  }

  /** `(?:[\w-]{11})` then the id. */
  function WordPathCapture(s: string, p: nat): (k: Option<nat>)
    ensures k.Some? ==> k.value == p + 11 && IdAt(s, k.value)
  {
    if IdAt(s, p) && IdAt(s, p + 11) then Some(p + 11) else None
  }

  /** The three path alternatives after the host prefix, left to right. */
  function PathCapture(s: string, p: nat): (k: Option<nat>)
    requires p <= |s|
    ensures k.Some? ==> p < k.value && IdAt(s, k.value)
  {
    var seg := SegmentsCapture(s, p);
    if seg.Some? then seg
    else
      var short := ShortPathCapture(s, p);
      if short.Some? then short else WordPathCapture(s, p)
  }

  /** `youtu\.be\/` then the id. */
  function ShortLinkCapture(s: string, i: nat): (k: Option<nat>)
    ensures k.Some? ==> k.value == i + 9 && HasAt(s, i, "youtu.be/") && IdAt(s, k.value)
  {
    if HasAt(s, i, "youtu.be/") && IdAt(s, i + 9) then Some(i + 9) else None
  }

  /** The first top-level alternative at `i`. */
  function LongFormCapture(s: string, i: nat): (k: Option<nat>)
    ensures k.Some? ==> i + 19 < k.value && IdAt(s, k.value)
  {
    match HostEnd(s, i)
    case None => None
    case Some(p) => PathCapture(s, p)
  }

  /** Where the captured id starts when the whole expression is tried at `i`. */
  function MatchAt(s: string, i: nat): (k: Option<nat>)
    ensures k.Some? ==> i + 9 <= k.value && IdAt(s, k.value)
  {
    var long := LongFormCapture(s, i);
    if long.Some? then long else ShortLinkCapture(s, i)
  }

  /** The leftmost start index at or after `from` where the expression matches. */
  function FirstMatchFrom(s: string, from: nat): (i: Option<nat>)
    requires from <= |s|
    decreases |s| - from
    ensures i.Some? ==> from <= i.value < |s| && MatchAt(s, i.value).Some?
    ensures i.Some? ==> forall j :: from <= j < i.value ==> MatchAt(s, j).None?
    ensures i.None? ==> forall j :: from <= j <= |s| ==> MatchAt(s, j).None?
  {
    if from == |s| then None
    else if MatchAt(s, from).Some? then Some(from)
    else FirstMatchFrom(s, from + 1)
  }

  /** `handleYouTubeLink`: group 1 of the leftmost match, or "" when nothing matches. */
  function Extract(link: string): (id: string)
    ensures id == "" || IsVideoId(id)
  {
    match FirstMatchFrom(link, 0)
    case None => ""
    case Some(i) =>
      var k := MatchAt(link, i).value;
      link[k..k + 11]
  }
}
