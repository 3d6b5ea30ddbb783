/**
 * The JavaScript string operations the extractor relies on, over `seq<char>`:
 * `trim`, `indexOf`, `lastIndexOf`, `substring`, and `match` with the regex `/\{[\s\S]*\}/`.
 */
module Text {
  import opened Wrappers

  /**
   * The characters `String.prototype.trim` removes and the regex class `\s` matches: ECMAScript's
   * WhiteSpace (tab, vertical tab, form feed, the byte order mark and the space separators) and
   * LineTerminator (line feed, carriage return, line and paragraph separators).
   */
  predicate IsSpace(c: char) {
    || c == '\t' || c == '\n' || c == '\U{000B}' || c == '\U{000C}' || c == '\r' || c == ' '
    || c == '\U{00A0}' || c == '\U{1680}' || ('\U{2000}' <= c <= '\U{200A}')
    || c == '\U{2028}' || c == '\U{2029}' || c == '\U{202F}' || c == '\U{205F}'
    || c == '\U{3000}' || c == '\U{FEFF}'
  }

  predicate AllSpace(s: string) {
    forall k | 0 <= k < |s| :: IsSpace(s[k])
  }

  /** `r` is the piece of `s` that starts at position `i`. */
  ghost predicate InfixAt(r: string, s: string, i: nat) {
    i + |r| <= |s| && forall k | 0 <= k < |r| :: r[k] == s[i + k]
  }

  /** The length of the longest all-whitespace prefix of `s`. */
  function LeadingSpaces(s: string): (n: nat)
    ensures n <= |s|
    ensures forall k | 0 <= k < n :: IsSpace(s[k])
    ensures n < |s| ==> !IsSpace(s[n])
  {
    if |s| > 0 && IsSpace(s[0]) then 1 + LeadingSpaces(s[1..]) else 0
  }

  /** The length of the longest all-whitespace suffix of `s`. */
  function TrailingSpaces(s: string): (n: nat)
    ensures n <= |s|
    ensures forall k | |s| - n <= k < |s| :: IsSpace(s[k])
    ensures n < |s| ==> !IsSpace(s[|s| - 1 - n])
  {
    if |s| > 0 && IsSpace(s[|s| - 1]) then 1 + TrailingSpaces(s[..|s| - 1]) else 0
  }

  /** A count of leading whitespace is determined by where the whitespace stops. */
  lemma LeadingSpacesUnique(s: string, n: nat)
    requires n <= |s|
    requires forall k | 0 <= k < n :: IsSpace(s[k])
    requires n < |s| ==> !IsSpace(s[n])
    ensures LeadingSpaces(s) == n
  {
  }

  /** A count of trailing whitespace is determined by where the whitespace starts. */
  lemma TrailingSpacesUnique(s: string, n: nat)
    requires n <= |s|
    requires forall k | |s| - n <= k < |s| :: IsSpace(s[k])
    requires n < |s| ==> !IsSpace(s[|s| - 1 - n])
    ensures TrailingSpaces(s) == n
  {
  }

  /** Drops the leading whitespace (the regex `^\s*` replaced by nothing). */
  function TrimStart(s: string): string {
    s[LeadingSpaces(s)..]
  }

  /** Drops the trailing whitespace (the regex `\s*$` replaced by nothing). */
  function TrimEnd(s: string): string {
    s[..|s| - TrailingSpaces(s)]
  }

  /** `String.prototype.trim`. */
  function Trim(s: string): (r: string)
    ensures |r| <= |s|
    ensures r == [] || (!IsSpace(r[0]) && !IsSpace(r[|r| - 1]))
  {
    TrimEnd(TrimStart(s))
  }

  /** Trimming keeps one contiguous piece of the text and removes only whitespace around it. */
  lemma TrimInfix(s: string) returns (i: nat)
    ensures InfixAt(Trim(s), s, i)
    ensures forall k | 0 <= k < i :: IsSpace(s[k])
    ensures forall k | i + |Trim(s)| <= k < |s| :: IsSpace(s[k])
  {
    var t := TrimStart(s);
    i := LeadingSpaces(s);
    var m := TrailingSpaces(t);
    forall k | i + |Trim(s)| <= k < |s| ensures IsSpace(s[k]) {
      assert s[k] == t[k - i];
    }
  }

  /** Text that starts and ends with a non-whitespace character is left alone by `trim`. */
  lemma TrimKeepsTrimmed(s: string)
    requires s == [] || (!IsSpace(s[0]) && !IsSpace(s[|s| - 1]))
    ensures TrimStart(s) == s && TrimEnd(s) == s && Trim(s) == s
  {
    LeadingSpacesUnique(s, 0);
    TrailingSpacesUnique(s, 0);
  }

  /** `s.indexOf(c)`: the first position of `c`, or -1. */
  function IndexOf(s: string, c: char): (r: int)
    ensures -1 <= r < |s|
    ensures r == -1 <==> c !in s
    ensures 0 <= r ==> s[r] == c && c !in s[..r]
  {
    if |s| == 0 then -1
    else if s[0] == c then 0
    else
      var k := IndexOf(s[1..], c);
      if k == -1 then -1
      else
        assert s[..k + 1] == [s[0]] + s[1..][..k];
        k + 1
  }

  /** `s.lastIndexOf(c)`: the last position of `c`, or -1. */
  function LastIndexOf(s: string, c: char): (r: int)
    ensures -1 <= r < |s|
    ensures r == -1 <==> c !in s
    ensures 0 <= r ==> s[r] == c && c !in s[r + 1..]
  {
    if |s| == 0 then -1
    else if s[|s| - 1] == c then |s| - 1
    else
      var init := s[..|s| - 1];
      var k := LastIndexOf(init, c);
      if k == -1 then
        assert s == init + [s[|s| - 1]];
        -1
      else
        assert s[k + 1..] == init[k + 1..] + [s[|s| - 1]];
        k
  }

  lemma IndexOfUnique(s: string, c: char, i: nat)
    requires i < |s| && s[i] == c && c !in s[..i]
    ensures IndexOf(s, c) == i
  {
  }

  lemma LastIndexOfUnique(s: string, c: char, j: nat)
    requires j < |s| && s[j] == c && c !in s[j + 1..]
    ensures LastIndexOf(s, c) == j
  {
  }

  /**
   * The text from the first `open` to the last `close`, both included, provided the last `close`
   * comes after the first `open`.
   */
  function Span(s: string, open: char, close: char): (r: Option<string>)
    ensures r.Some? <==> exists i, j | 0 <= i < j < |s| :: s[i] == open && s[j] == close
    ensures r.Some? ==> |r.value| >= 2 && r.value[0] == open && r.value[|r.value| - 1] == close
  {
    var first := IndexOf(s, open);
    var last := LastIndexOf(s, close);
    if first != -1 && last != -1 && last > first then
      Some(s[first..last + 1])
    else
      None
  }

  /** The span runs from the first `open` to the last `close`, wherever those are. */
  lemma SpanIsWidest(s: string, open: char, close: char, i: nat, j: nat)
    requires i < j < |s| && s[i] == open && s[j] == close
    requires open !in s[..i] && close !in s[j + 1..]
    ensures Span(s, open, close) == Some(s[i..j + 1])
  {
    IndexOfUnique(s, open, i);
    LastIndexOfUnique(s, close, j);
  }

  /**
   * `s.match(/\{[\s\S]*\}/)` with `open` and `close` for the braces: start positions are tried
   * from the left; at a start holding `open`, `[\s\S]*` first takes the rest of the text and then
   * gives characters back until a `close` is found, so the match ends at the last `close`.
   */
  function GreedyMatch(s: string, open: char, close: char): (r: Option<string>)
    ensures r.Some? ==> |r.value| >= 2 && r.value[0] == open && r.value[|r.value| - 1] == close
  {
    MatchFrom(s, open, close, 0)
  }

  /** The match, trying start positions from `p` on. */
  function MatchFrom(s: string, open: char, close: char, p: nat): (r: Option<string>)
    ensures r.Some? ==> |r.value| >= 2 && r.value[0] == open && r.value[|r.value| - 1] == close
    decreases |s| - p
  {
    if p >= |s| then None
    else if s[p] == open && LastIndexOf(s[p + 1..], close) != -1 then
      Some(s[p..p + 2 + LastIndexOf(s[p + 1..], close)])
    else MatchFrom(s, open, close, p + 1)
  }

  lemma {:induction false} MatchFromNone(s: string, open: char, close: char, p: nat)
    requires p <= |s| && close !in s[p..]
    ensures MatchFrom(s, open, close, p) == None
    decreases |s| - p
  {
    if p < |s| {
      assert s[p + 1..] == s[p..][1..];
      MatchFromNone(s, open, close, p + 1);
    }
  }

  lemma {:induction false} MatchFromIsSpan(s: string, open: char, close: char, p: nat)
    requires p <= |s| && open !in s[..p]
    ensures MatchFrom(s, open, close, p) == Span(s, open, close)
    decreases |s| - p
  {
    if p == |s| {
      assert s[..p] == s;
    } else if s[p] != open {
      assert s[..p + 1] == s[..p] + [s[p]];
      MatchFromIsSpan(s, open, close, p + 1);
    } else {
      MatchAtFirstOpen(s, open, close, p);
    }
  }

  /** At the first `open` the scan stops: it matches up to the last `close`, or there is no match. */
  lemma MatchAtFirstOpen(s: string, open: char, close: char, p: nat)
    requires p < |s| && s[p] == open && open !in s[..p]
    ensures MatchFrom(s, open, close, p) == Span(s, open, close)
  {
    IndexOfUnique(s, open, p);
    var q := LastIndexOf(s[p + 1..], close);
    if q != -1 {
      assert s[p + 1..][q + 1..] == s[p + 2 + q..];
      LastIndexOfUnique(s, close, p + 1 + q);
    } else {
      MatchFromNone(s, open, close, p + 1);
      assert close !in s[p + 1..];
    }
  }

  /** The regex sweep finds exactly the `indexOf`/`lastIndexOf` span. */
  lemma GreedyMatchIsSpan(s: string, open: char, close: char)
    ensures GreedyMatch(s, open, close) == Span(s, open, close)
  {
    MatchFromIsSpan(s, open, close, 0);
  }
}
