/**
 * What the extractor does to the text before its parse loop: trim it, strip one leading and one
 * trailing markdown fence, and strip one pair of enclosing double quotes.
 */
module Normalisation {
  import opened Text

  const Fence := "```"

  /** The optional language tag after an opening fence: `json` in any mix of cases. */
  predicate IsJsonTag(t: string) {
    |t| == 4 && t[0] in "jJ" && t[1] in "sS" && t[2] in "oO" && t[3] in "nN"
  }

  /**
   * The regex `^\s*```(?:json)?\s*` (case-insensitive) replaced by nothing: leading whitespace, a
   * fence, an optional `json` tag and the whitespace after it are removed, once, at the start only.
   */
  function StripLeadingFence(s: string): (r: string)
    ensures |r| <= |s|
    ensures r != s ==> |TrimStart(s)| >= 3 && TrimStart(s)[..3] == Fence
  {
    var t := TrimStart(s);
    if |t| >= 3 && t[..3] == Fence then
      var u := t[3..];
      TrimStart(if |u| >= 4 && IsJsonTag(u[..4]) then u[4..] else u)
    else s
  }

  /**
   * The regex `\s*```\s*$` (case-insensitive) replaced by nothing: a fence that is the last
   * non-whitespace of the text is removed, once, together with the whitespace around it.
   */
  function StripTrailingFence(s: string): (r: string)
    ensures |r| <= |s|
    ensures r != s ==> |TrimEnd(s)| >= 3 && TrimEnd(s)[|TrimEnd(s)| - 3..] == Fence
  {
    var t := TrimEnd(s);
    if |t| >= 3 && t[|t| - 3..] == Fence then TrimEnd(t[..|t| - 3]) else s
  }

  /** `r` is what is left of `s` once a prefix is cut off. */
  predicate IsSuffix(r: string, s: string) {
    |r| <= |s| && r == s[|s| - |r|..]
  }

  lemma SuffixOfSlice(s: string, k: nat)
    requires k <= |s|
    ensures IsSuffix(s[k..], s)
  {
  }

  lemma SuffixTrans(a: string, b: string, c: string)
    requires IsSuffix(a, b) && IsSuffix(b, c)
    ensures IsSuffix(a, c)
  {
    assert a == c[|c| - |b|..][|b| - |a|..];
  }

  lemma TrimStartIsSuffix(s: string)
    ensures IsSuffix(TrimStart(s), s)
  {
    SuffixOfSlice(s, LeadingSpaces(s));
  }

  /** Stripping a leading fence only ever cuts a prefix off the text. */
  lemma StripLeadingFenceIsSuffix(s: string)
    ensures IsSuffix(StripLeadingFence(s), s)
  {
    var t := TrimStart(s);
    TrimStartIsSuffix(s);
    if |t| >= 3 && t[..3] == Fence {
      var u := t[3..];
      SuffixOfSlice(t, 3);
      SuffixTrans(u, t, s);
      if |u| >= 4 && IsJsonTag(u[..4]) {
        SuffixOfSlice(u, 4);
        SuffixTrans(u[4..], u, s);
        TrimStartIsSuffix(u[4..]);
        SuffixTrans(TrimStart(u[4..]), u[4..], s);
      } else {
        TrimStartIsSuffix(u);
        SuffixTrans(TrimStart(u), u, s);
      }
    } else {
      SuffixOfSlice(s, 0);
    }
  }

  /** Stripping a trailing fence only ever cuts a suffix off the text. */
  lemma StripTrailingFenceIsPrefix(s: string)
    ensures StripTrailingFence(s) <= s
  {
    var t := TrimEnd(s);
    if |t| >= 3 && t[|t| - 3..] == Fence {
      var u := t[..|t| - 3];
      assert u == s[..|t| - 3];
      assert TrimEnd(u) == s[..|u| - TrailingSpaces(u)];
    }
  }

  /**
   * Text that both begins and ends with a double quote loses its first and last character; a text
   * that is a single double quote becomes empty.
   */
  function StripOuterQuotes(s: string): (r: string)
    ensures r != s <==> |s| > 0 && s[0] == '"' && s[|s| - 1] == '"'
    ensures r != s ==> (|s| >= 2 && r == s[1..|s| - 1]) || (s == "\"" && r == [])
  {
    if |s| > 0 && s[0] == '"' && s[|s| - 1] == '"' then
      if |s| >= 2 then s[1..|s| - 1] else []
    else s
  }

  /** The text the parse loop starts from: a piece of the answer, with its ends cut away. */
  function Normalise(s: string): (r: string)
    ensures |r| <= |s|
    ensures s == [] ==> r == []
  {
    StripOuterQuotes(StripTrailingFence(StripLeadingFence(Trim(s))))
  }

  /** Normalising starts by trimming: whitespace around the answer makes no difference. */
  lemma NormaliseTrims(s: string)
    ensures Normalise(s) == Normalise(Trim(s))
  {
    TrimKeepsTrimmed(Trim(s));
  }

  /** An answer padded with whitespace normalises as the answer itself does. */
  lemma NormalisePadded(ws1: string, x: string, ws2: string)
    requires AllSpace(ws1) && AllSpace(ws2)
    requires x != [] && !IsSpace(x[0]) && !IsSpace(x[|x| - 1])
    ensures Normalise(ws1 + x + ws2) == Normalise(x)
  {
    var s := ws1 + x + ws2;
    assert s == ws1 + (x + ws2);
    assert (x + ws2)[0] == x[0];
    TrimStartOf(ws1, x + ws2);
    TrimEndOf(x, ws2);
    assert Trim(s) == x;
    TrimKeepsTrimmed(x);
  }

  lemma NotInSlice(s: string, c: char, i: nat, j: nat)
    requires i <= j <= |s| && c !in s
    ensures c !in s[i..j]
  {
  }

  lemma TrimStartKeepsOut(s: string, c: char)
    requires c !in s
    ensures c !in TrimStart(s)
  {
    NotInSlice(s, c, LeadingSpaces(s), |s|);
  }

  lemma TrimEndKeepsOut(s: string, c: char)
    requires c !in s
    ensures c !in TrimEnd(s)
  {
    NotInSlice(s, c, 0, |s| - TrailingSpaces(s));
  }

  lemma LeadingFenceKeepsOut(s: string, c: char)
    requires c !in s
    ensures c !in StripLeadingFence(s)
  {
    var t := TrimStart(s);
    TrimStartKeepsOut(s, c);
    if |t| >= 3 && t[..3] == Fence {
      NotInSlice(t, c, 3, |t|);
      var u := t[3..];
      if |u| >= 4 && IsJsonTag(u[..4]) {
        NotInSlice(u, c, 4, |u|);
        TrimStartKeepsOut(u[4..], c);
      } else {
        TrimStartKeepsOut(u, c);
      }
    }
  }

  lemma TrailingFenceKeepsOut(s: string, c: char)
    requires c !in s
    ensures c !in StripTrailingFence(s)
  {
    var t := TrimEnd(s);
    TrimEndKeepsOut(s, c);
    if |t| >= 3 && t[|t| - 3..] == Fence {
      NotInSlice(t, c, 0, |t| - 3);
      TrimEndKeepsOut(t[..|t| - 3], c);
    }
  }

  /** Normalising never brings in a character the text did not have. */
  lemma NormaliseKeepsOut(s: string, c: char)
    requires c !in s
    ensures c !in Normalise(s)
  {
    TrimStartKeepsOut(s, c);
    TrimEndKeepsOut(TrimStart(s), c);
    LeadingFenceKeepsOut(Trim(s), c);
    TrailingFenceKeepsOut(StripLeadingFence(Trim(s)), c);
    var x := StripTrailingFence(StripLeadingFence(Trim(s)));
    if |x| >= 2 {
      NotInSlice(x, c, 1, |x| - 1);
    }
  }

  /** A character that cannot begin or end a fence, an outer quote or surrounding whitespace. */
  predicate Plain(c: char) {
    !IsSpace(c) && c != '`' && c != '"'
  }

  /** Text that starts and ends with a plain character (a JSON object or array, say) is not changed. */
  lemma NormaliseKeepsPlain(s: string)
    requires |s| > 0 && Plain(s[0]) && Plain(s[|s| - 1])
    ensures Normalise(s) == s
  {
    TrimKeepsTrimmed(s);
    assert StripLeadingFence(s) == s by {
      assert |s| >= 3 ==> s[..3][0] != Fence[0];
    }
    assert StripTrailingFence(s) == s by {
      assert |s| >= 3 ==> s[|s| - 3..][2] != Fence[2];
    }
  }

  /** Whitespace in front of a non-whitespace character is exactly what `TrimStart` removes. */
  lemma TrimStartOf(ws: string, rest: string)
    requires AllSpace(ws) && rest != [] && !IsSpace(rest[0])
    ensures TrimStart(ws + rest) == rest
  {
    var s := ws + rest;
    assert forall k | 0 <= k < |ws| :: IsSpace(s[k]);
    assert s[|ws|] == rest[0];
    LeadingSpacesUnique(s, |ws|);
    assert s[|ws|..] == rest;
  }

  /** Whitespace after a non-whitespace character is exactly what `TrimEnd` removes. */
  lemma TrimEndOf(rest: string, ws: string)
    requires AllSpace(ws) && rest != [] && !IsSpace(rest[|rest| - 1])
    ensures TrimEnd(rest + ws) == rest
  {
    var s := rest + ws;
    assert forall k | |s| - |ws| <= k < |s| :: IsSpace(s[k]) by {
      forall k | |s| - |ws| <= k < |s| ensures IsSpace(s[k]) {
        assert s[k] == ws[k - |rest|];
      }
    }
    assert s[|s| - 1 - |ws|] == rest[|rest| - 1];
    TrailingSpacesUnique(s, |ws|);
    assert s[..|rest|] == rest;
  }

  /** Text that opens with a fence loses the fence and what may follow it. */
  lemma LeadingFenceAt(u: string)
    ensures StripLeadingFence(Fence + u)
         == TrimStart(if |u| >= 4 && IsJsonTag(u[..4]) then u[4..] else u)
  {
    var s := Fence + u;
    assert !IsSpace(s[0]);
    LeadingSpacesUnique(s, 0);
    assert TrimStart(s) == s;
    assert s[..3] == Fence && s[3..] == u;
  }

  /** Text that starts with whitespace does not start with a `json` tag. */
  lemma SpaceStartsNoTag(u: string)
    requires |u| > 0 && IsSpace(u[0])
    ensures !(|u| >= 4 && IsJsonTag(u[..4]))
  {
    if |u| >= 4 {
      assert u[..4][0] == u[0];
    }
  }

  /** An opening fence and the whitespace after it are removed. */
  lemma LeadingFenceUntagged(before: string, rest: string)
    requires |before| > 0 && AllSpace(before)
    requires rest != [] && !IsSpace(rest[0])
    ensures StripLeadingFence(Fence + (before + rest)) == rest
  {
    var u := before + rest;
    assert u[0] == before[0];
    SpaceStartsNoTag(u);
    LeadingFenceAt(u);
    TrimStartOf(before, rest);
  }

  /** An opening fence, its `json` tag and the whitespace after it are removed. */
  lemma LeadingFenceTagged(tag: string, before: string, rest: string)
    requires IsJsonTag(tag)
    requires AllSpace(before)
    requires rest != [] && !IsSpace(rest[0])
    ensures StripLeadingFence(Fence + tag + before + rest) == rest
  {
    var u := tag + (before + rest);
    assert Fence + tag + before + rest == Fence + u;
    LeadingFenceAt(u);
    assert u[..4] == tag;
    assert u[4..] == before + rest;
    TrimStartOf(before, rest);
  }

  /**
   * An opening fence, its optional tag and the whitespace after it are removed. With no tag and no
   * whitespace, text that itself begins with `json` would lose those letters as a tag.
   */
  lemma LeadingFenceOf(tag: string, before: string, rest: string)
    requires tag == [] || IsJsonTag(tag)
    requires AllSpace(before)
    requires tag == [] && before == [] ==> !(|rest| >= 4 && IsJsonTag(rest[..4]))
    requires rest != [] && !IsSpace(rest[0])
    ensures StripLeadingFence(Fence + tag + before + rest) == rest
  {
    if tag != [] {
      LeadingFenceTagged(tag, before, rest);
    } else if before != [] {
      assert Fence + tag + before + rest == Fence + (before + rest);
      LeadingFenceUntagged(before, rest);
    } else {
      assert Fence + tag + before + rest == Fence + rest;
      LeadingFenceAt(rest);
      TrimStartOf([], rest);
      assert [] + rest == rest;
    }
  }

  /** A character that cannot start a `json` tag keeps the text in front of it from being one. */
  lemma NoTagBefore(body: string, tail: string)
    requires !(|body| >= 4 && IsJsonTag(body[..4]))
    requires tail != [] && (IsSpace(tail[0]) || tail[0] == '`')
    ensures !(|body + tail| >= 4 && IsJsonTag((body + tail)[..4]))
  {
    var s := body + tail;
    if |body| >= 4 {
      assert s[..4] == body[..4];
    } else if |s| >= 4 {
      assert s[|body|] == tail[0];
      assert s[..4][|body|] == tail[0];
    }
  }

  /** A closing fence and the whitespace around it are removed. */
  lemma TrailingFenceOf(body: string, after: string)
    requires AllSpace(after)
    requires body != [] && !IsSpace(body[|body| - 1])
    ensures StripTrailingFence(body + after + Fence) == body
  {
    var s := body + after + Fence;
    TrimEndOf(s, []);
    assert s + [] == s;
    assert s[|s| - 3..] == Fence;
    assert s[..|s| - 3] == body + after;
    TrimEndOf(body, after);
  }

  /** A fenced block with an optional `json` tag gives back exactly its contents. */
  lemma FenceRoundTrip(tag: string, before: string, body: string, after: string)
    requires tag == [] || IsJsonTag(tag)
    requires AllSpace(before) && AllSpace(after)
    requires tag == [] && before == [] ==> !(|body| >= 4 && IsJsonTag(body[..4]))
    requires |body| > 0 && !IsSpace(body[0]) && !IsSpace(body[|body| - 1])
    ensures StripTrailingFence(StripLeadingFence(Fence + tag + before + body + after + Fence)) == body
  {
    var rest := body + after + Fence;
    assert Fence + tag + before + body + after + Fence == Fence + tag + before + rest;
    if tag == [] && before == [] {
      assert rest == body + (after + Fence);
      NoTagBefore(body, after + Fence);
    }
    LeadingFenceOf(tag, before, rest);
    TrailingFenceOf(body, after);
  }

  /** A fenced block whose contents start and end plainly normalises to exactly its contents. */
  lemma NormaliseFenced(tag: string, before: string, body: string, after: string)
    requires tag == [] || IsJsonTag(tag)
    requires AllSpace(before) && AllSpace(after)
    requires tag == [] && before == [] ==> !(|body| >= 4 && IsJsonTag(body[..4]))
    requires |body| > 0 && Plain(body[0]) && Plain(body[|body| - 1])
    ensures Normalise(Fence + tag + before + body + after + Fence) == body
  {
    var text := Fence + tag + before + body + after + Fence;
    assert text[0] == '`' && text[|text| - 1] == '`';
    FenceRoundTrip(tag, before, body, after);
    NormaliseOfFenced(text, body);
  }

  /** Text with a fence at both ends is not trimmed, and only its fences and quotes count. */
  lemma NormaliseOfFenced(text: string, body: string)
    requires |text| > 0 && text[0] == '`' && text[|text| - 1] == '`'
    requires StripTrailingFence(StripLeadingFence(text)) == body
    requires |body| > 0 && Plain(body[0])
    ensures Normalise(text) == body
  {
    TrimKeepsTrimmed(text);
  }

  /** Quoted text is unquoted once: whatever sits between the quotes comes back unchanged. */
  lemma NormaliseQuoted(t: string)
    ensures Normalise("\"" + t + "\"") == t
  {
    var s := "\"" + t + "\"";
    assert s[0] == '"' && s[|s| - 1] == '"';
    TrimKeepsTrimmed(s);
    assert StripLeadingFence(s) == s by {
      assert |s| >= 3 ==> s[..3][0] != Fence[0];
    }
    assert StripTrailingFence(s) == s by {
      assert |s| >= 3 ==> s[|s| - 3..][2] != Fence[2];
    }
    assert s[1..|s| - 1] == t;
  }

  /**
   * Normalising is not idempotent: text quoted twice loses one pair of quotes per pass.
   */
  lemma NormaliseNotIdempotent()
    ensures Normalise("\"\"x\"\"") == "\"x\""
    ensures Normalise(Normalise("\"\"x\"\"")) == "x"
  {
    assert "\"\"x\"\"" == "\"" + "\"x\"" + "\"";
    NormaliseQuoted("\"x\"");
    assert "\"x\"" == "\"" + "x" + "\"";
    NormaliseQuoted("x");
  }
}
