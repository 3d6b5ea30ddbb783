/**
 * The escape decoding the extractor applies when a direct parse fails: five global replacements,
 * one after the other, turning a backslash followed by `n`, `r`, `t`, a double quote or a single
 * quote into a newline, a carriage return, a tab, a double quote and a single quote.
 */
module Escapes {

  /**
   * The five escape sequences, in the order the chain applies them: the letter that follows the
   * backslash, and the character the pair is replaced with.
   */
  const Pairs: seq<(char, char)> := [('n', '\n'), ('r', '\r'), ('t', '\t'), ('"', '"'), ('\'', '\'')]

  /**
   * One global replacement: scanning from the left, every backslash immediately followed by `code`
   * becomes `ch`; matches do not overlap.
   */
  function ReplaceEscape(s: string, code: char, ch: char): (r: string)
    ensures |r| <= |s|
    ensures |r| == |s| ==> r == s
  {
    if |s| < 2 then s
    else if s[0] == '\\' && s[1] == code then [ch] + ReplaceEscape(s[2..], code, ch)
    else [s[0]] + ReplaceEscape(s[1..], code, ch)
  }

  /** The chain from its `k`-th replacement on. */
  function UnescapeFrom(s: string, k: nat): (r: string)
    ensures |r| <= |s|
    ensures |r| == |s| ==> r == s
    decreases |Pairs| - k
  {
    if k >= |Pairs| then s
    else UnescapeFrom(ReplaceEscape(s, Pairs[k].0, Pairs[k].1), k + 1)
  }

  /**
   * The whole chain. Every replacement turns two characters into one, so decoding either leaves the
   * text as it was or makes it strictly shorter: a round of the parse loop that continues because
   * decoding changed the text always shortens it.
   */
  function Unescape(s: string): (r: string)
    ensures |r| <= |s|
    ensures r != s ==> |r| < |s|
  {
    UnescapeFrom(s, 0)
  }

  /** Where `x` stands in `Pairs` as a decoded character, or -1. */
  function EscapeIndex(x: char): (k: int)
    ensures -1 <= k < |Pairs|
    ensures k >= 0 ==> Pairs[k].1 == x
  {
    if x == '\n' then 0
    else if x == '\r' then 1
    else if x == '\t' then 2
    else if x == '"' then 3
    else if x == '\'' then 4
    else -1
  }

  /** The encoding of `x` when the replacements from the `k`-th on are still to be undone. */
  function EscapeCharFrom(x: char, which: set<char>, k: nat): string {
    var j := EscapeIndex(x);
    if x in which && j >= k then ['\\', Pairs[j].0] else [x]
  }

  function EscapeFrom(s: string, which: set<char>, k: nat): string {
    if s == [] then [] else EscapeCharFrom(s[0], which, k) + EscapeFrom(s[1..], which, k)
  }

  /**
   * The encoding a model applies to its output when it escapes the characters in `which` (any of
   * newline, carriage return, tab, double quote and single quote) with a backslash: for instance
   * `JSON.stringify` of a backslash-free string escapes its newlines, carriage returns, tabs and
   * double quotes.
   */
  function Escape(s: string, which: set<char>): string {
    EscapeFrom(s, which, 0)
  }

  lemma ReplaceEscapeSkip(x: char, t: string, code: char, ch: char)
    requires x != '\\'
    ensures ReplaceEscape([x] + t, code, ch) == [x] + ReplaceEscape(t, code, ch)
  {
    assert ([x] + t)[1..] == t;
  }

  lemma ReplaceEscapeHit(t: string, code: char, ch: char)
    ensures ReplaceEscape(['\\', code] + t, code, ch) == [ch] + ReplaceEscape(t, code, ch)
  {
    assert (['\\', code] + t)[2..] == t;
  }

  lemma ReplaceEscapeMiss(y: char, t: string, code: char, ch: char)
    requires y != code && y != '\\'
    ensures ReplaceEscape(['\\', y] + t, code, ch) == ['\\', y] + ReplaceEscape(t, code, ch)
  {
    var s := ['\\', y] + t;
    assert s[0] == '\\' && s[1] == y && s[1..] == [y] + t;
    assert ReplaceEscape(s, code, ch) == [s[0]] + ReplaceEscape(s[1..], code, ch);
    ReplaceEscapeSkip(y, t, code, ch);
    assert [s[0]] + ([y] + ReplaceEscape(t, code, ch)) == ['\\', y] + ReplaceEscape(t, code, ch);
  }

  /** The `k`-th replacement of the chain undoes exactly the `k`-th escape. */
  lemma {:induction false} ReplaceUndoesStage(s: string, which: set<char>, k: nat)
    requires k < |Pairs| && '\\' !in s
    ensures ReplaceEscape(EscapeFrom(s, which, k), Pairs[k].0, Pairs[k].1) == EscapeFrom(s, which, k + 1)
  {
    if s != [] {
      var x, rest := s[0], s[1..];
      assert '\\' !in rest;
      ReplaceUndoesStage(rest, which, k);
      var tail := EscapeFrom(rest, which, k);
      var j := EscapeIndex(x);
      if x in which && j >= k {
        if j == k {
          ReplaceEscapeHit(tail, Pairs[k].0, Pairs[k].1);
        } else {
          ReplaceEscapeMiss(Pairs[j].0, tail, Pairs[k].0, Pairs[k].1);
        }
      } else {
        ReplaceEscapeSkip(x, tail, Pairs[k].0, Pairs[k].1);
      }
    }
  }

  lemma {:induction false} EscapeFromEnd(s: string, which: set<char>)
    ensures EscapeFrom(s, which, |Pairs|) == s
  {
    if s != [] {
      EscapeFromEnd(s[1..], which);
    }
  }

  lemma {:induction false} UnescapeFromUndoes(s: string, which: set<char>, k: nat)
    requires k <= |Pairs| && '\\' !in s
    ensures UnescapeFrom(EscapeFrom(s, which, k), k) == s
    decreases |Pairs| - k
  {
    if k == |Pairs| {
      EscapeFromEnd(s, which);
    } else {
      ReplaceUndoesStage(s, which, k);
      UnescapeFromUndoes(s, which, k + 1);
    }
  }

  /** Decoding undoes the escaping of any backslash-free text. */
  lemma UnescapeInvertsEscape(s: string, which: set<char>)
    requires '\\' !in s
    ensures Unescape(Escape(s, which)) == s
  {
    UnescapeFromUndoes(s, which, 0);
  }

  /** Text without a backslash has nothing to decode. */
  lemma UnescapeWithoutBackslash(s: string)
    requires '\\' !in s
    ensures Unescape(s) == s
  {
    UnescapeFromUndoes(s, {}, 0);
    EscapeFromNothing(s);
  }

  lemma {:induction false} EscapeFromNothing(s: string)
    ensures EscapeFrom(s, {}, 0) == s
  {
    if s != [] {
      EscapeFromNothing(s[1..]);
    }
  }

  /**
   * The chain does not know that `\\` is itself an escape: the JSON encoding of a backslash
   * followed by `n` (the characters `\`, `\`, `n`) decodes to a backslash followed by a newline.
   */
  lemma EscapedBackslashIsMisread()
    ensures Unescape(['\\', '\\', 'n']) == ['\\', '\n']
  {
    var s := ['\\', '\\', 'n'];
    assert s[1..] == ['\\', 'n'];
    assert ReplaceEscape(s, 'n', '\n') == ['\\', '\n'];
    assert ReplaceEscape(['\\', '\n'], 'r', '\r') == ['\\', '\n'];
    assert ReplaceEscape(['\\', '\n'], 't', '\t') == ['\\', '\n'];
    assert ReplaceEscape(['\\', '\n'], '"', '"') == ['\\', '\n'];
    assert ReplaceEscape(['\\', '\n'], '\'', '\'') == ['\\', '\n'];
  }
}
