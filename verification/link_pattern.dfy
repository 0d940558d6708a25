/**
 The video-id pattern of the posts feed, stated declaratively.

 The feed extracts a video id with the JavaScript regular expression

   (?:https?:\/\/(?:www\.)?youtube\.com\/(?:[^/]+\/\S+\/|(?:v|e(?:mbed)?)\/|(?:[\w-]{11}))|youtu\.be\/)([a-zA-Z0-9_-]{11})

 (no flags, not anchored). This module says, without any search procedure,
 which capture that expression reports when its match starts at index `i`,
 including the priority JavaScript's backtracking gives to the alternatives:
 left alternatives before right ones, and the greedy `\S+` before shorter runs.
 */
module LinkPattern {

  /** `\w`: ASCII letters, digits and underscore. */
  predicate IsWordChar(c: char) {
    ('a' <= c <= 'z') || ('A' <= c <= 'Z') || ('0' <= c <= '9') || c == '_'
  }

  /** `[a-zA-Z0-9_-]`, the class of the captured id; `[\w-]` is the same class. */
  predicate IsIdChar(c: char) {
    IsWordChar(c) || c == '-'
  }

  /** `\s` of ECMAScript: the WhiteSpace and LineTerminator code points. */
  predicate IsSpace(c: char) {
    var n := c as int;
    || (0x09 <= n <= 0x0D) || n == 0x20 || n == 0xA0 || n == 0x1680
    || (0x2000 <= n <= 0x200A) || n == 0x2028 || n == 0x2029
    || n == 0x202F || n == 0x205F || n == 0x3000 || n == 0xFEFF
  }

  /** The literal `lit` occurs in `s` starting at index `i`. */
  predicate HasAt(s: string, i: nat, lit: string) {
    i + |lit| <= |s| && s[i..i + |lit|] == lit
  }

  /** Eleven id characters start at index `k`: the capture group `([a-zA-Z0-9_-]{11})`. */
  predicate IdAt(s: string, k: nat) {
    k + 11 <= |s| && forall t :: k <= t < k + 11 ==> IsIdChar(s[t])
  }

  /** A well-formed video id: exactly eleven id characters. */
  predicate IsVideoId(id: string) {
    |id| == 11 && forall t :: 0 <= t < 11 ==> IsIdChar(id[t])
  }

  predicate NoSlash(s: string, a: nat, b: nat)
    requires a <= b <= |s|
  {
    forall t :: a <= t < b ==> s[t] != '/'
  }

  predicate NoSpace(s: string, a: nat, b: nat)
    requires a <= b <= |s|
  {
    forall t :: a <= t < b ==> !IsSpace(s[t])
  }

  /** The four strings `https?:\/\/(?:www\.)?youtube\.com\/` denotes. */
  const HostForms: set<string> :=
    {"http://youtube.com/", "http://www.youtube.com/", "https://youtube.com/", "https://www.youtube.com/"}

  /** The host prefix spans `s[i..p]`. */
  predicate HostAt(s: string, i: nat, p: nat) {
    i <= p <= |s| && s[i..p] in HostForms
  }

  /** `[^/]+\/\S+\/` spans `s[p..k]` and an id starts at `k`: some `q` is the
      slash after the `[^/]+` run, and `s[q+1..k-1]` is the non-empty `\S+` run. */
  ghost predicate SegmentsMatch(s: string, p: nat, k: nat) {
    && p < k
    && IdAt(s, k)
    && s[k - 1] == '/'
    && exists q: nat :: p < q && q + 2 < k && s[q] == '/' && NoSlash(s, p, q) && NoSpace(s, q + 1, k - 1)
  }

  /** The greedy `\S+` tries the longest run first, so the capture that wins
      is the one that starts furthest right. */
  ghost predicate GreedySegmentsMatch(s: string, p: nat, k: nat) {
    SegmentsMatch(s, p, k) && forall k': nat :: SegmentsMatch(s, p, k') ==> k' <= k
  }

  ghost predicate NoSegmentsMatch(s: string, p: nat) {
    forall k: nat :: !SegmentsMatch(s, p, k)
  }

  /** `(?:v|e(?:mbed)?)\/` spans `s[p..k]` and an id starts at `k`. */
  predicate ShortPathMatch(s: string, p: nat, k: nat) {
    p <= k <= |s| && s[p..k] in {"v/", "embed/", "e/"} && IdAt(s, k)
  }

  ghost predicate NoShortPathMatch(s: string, p: nat) {
    forall k: nat :: !ShortPathMatch(s, p, k)
  }

  /** `(?:[\w-]{11})` spans `s[p..k]` and an id starts at `k`. */
  predicate WordPathMatch(s: string, p: nat, k: nat) {
    k == p + 11 && IdAt(s, p) && IdAt(s, k)
  }

  /** The capture of the three path alternatives after the host prefix,
      each tried only when every alternative to its left failed. */
  ghost predicate PathMatch(s: string, p: nat, k: nat) {
    || GreedySegmentsMatch(s, p, k)
    || (NoSegmentsMatch(s, p) && ShortPathMatch(s, p, k))
    || (NoSegmentsMatch(s, p) && NoShortPathMatch(s, p) && WordPathMatch(s, p, k))
  }

  /** The first top-level alternative captures at `k` for a match starting at `i`. */
  ghost predicate LongFormMatch(s: string, i: nat, k: nat) {
    exists p: nat :: HostAt(s, i, p) && PathMatch(s, p, k)
  }

  ghost predicate NoLongFormMatch(s: string, i: nat) {
    forall k: nat :: !LongFormMatch(s, i, k)
  }

  /** `youtu\.be\/` starts at `i` and an id follows it. */
  predicate ShortLinkMatch(s: string, i: nat, k: nat) {
    k == i + 9 && HasAt(s, i, "youtu.be/") && IdAt(s, k)
  }

  /** The capture the whole expression reports for a match starting at `i`. */
  ghost predicate RegexMatchAt(s: string, i: nat, k: nat) {
    LongFormMatch(s, i, k) || (NoLongFormMatch(s, i) && ShortLinkMatch(s, i, k))
  }

  /** The match `String.prototype.match` reports: the one starting leftmost. */
  ghost predicate LeftmostMatch(s: string, i: nat, k: nat) {
    RegexMatchAt(s, i, k) && forall i': nat, k': nat :: i' < i ==> !RegexMatchAt(s, i', k')
  }

  ghost predicate NoRegexMatch(s: string) {
    forall i: nat, k: nat :: !RegexMatchAt(s, i, k)
  }
}
