/**
 * The resilient extractor `tryParseJsonFromText`: normalise the text, then run at most six rounds
 * of "parse, else unescape, else cut out a `{...}` or `[...]` span", then one last regex sweep.
 *
 * `Round`, `Loop` and `Extract` say what it computes; the method `TryParseJsonFromText` does it
 * step by step on a local `attempt`, as the program does, and is proved to agree with `Extract`.
 */
module Extractor {
  import opened Wrappers
  import opened JsonValue
  import opened Text
  import opened Escapes
  import opened Normalisation

  /** The number of rounds of the parse loop. */
  const MaxRounds: nat := 6

  /** How one round ends: with a new text to try, with a value, or by breaking out of the loop. */
  datatype Step = Next(attempt: string) | Done(value: Json) | Stop

  /** The `{...}` span cut out of the text and parsed; `None` when there is no span or it does not parse. */
  function BraceCandidate(parse: Parser, a: string): (r: Option<Json>)
    ensures r.Some? ==> Span(a, '{', '}').Some? && parse(Span(a, '{', '}').value) == r
    ensures Span(a, '{', '}').Some? && parse(Span(a, '{', '}').value).Some? ==> r.Some?
  {
    match Span(a, '{', '}')
    case None => None
    case Some(c) => parse(c)
  }

  /**
   * The `[...]` span cut out of the text and parsed: only an array counts, and it comes back wrapped
   * as an object whose one key `routes` holds it.
   */
  function BracketCandidate(parse: Parser, a: string): (r: Option<Json>)
    ensures r.Some? <==> Span(a, '[', ']').Some? && parse(Span(a, '[', ']').value).Some?
                         && parse(Span(a, '[', ']').value).value.JArray?
    ensures r.Some? ==> r.value == JObject(map["routes" := parse(Span(a, '[', ']').value).value])
  {
    match Span(a, '[', ']')
    case None => None
    case Some(c) =>
      match parse(c)
      case Some(JArray(items)) => Some(JObject(map["routes" := JArray(items)]))
      case _ => None
  }

  /**
   * One round of the loop. A text that parses to a string is replaced by that string; any other
   * parsed value is the answer. A text that does not parse is unescaped when that changes it;
   * otherwise its brace span, then its bracket span, is tried, and failing both the loop breaks.
   * Continuing by unescaping always makes the text shorter.
   */
  function Round(parse: Parser, a: string): (r: Step)
    ensures r.Next? && parse(a).None? ==> |r.attempt| < |a|
  {
    match parse(a)
    case Some(JString(t)) => Next(t)
    case Some(v) => Done(v)
    case None =>
      var u := Unescape(a);
      if u != a then Next(u)
      else if BraceCandidate(parse, a).Some? then Done(BraceCandidate(parse, a).value)
      else if BracketCandidate(parse, a).Some? then Done(BracketCandidate(parse, a).value)
      else Stop
  }

  /** How the loop ends: a value returned, a `break` at some text, or all rounds used up at some text. */
  datatype LoopEnd = Returned(value: Json) | Broke(at: string) | Exhausted(at: string)

  /**
   * At most `rounds` rounds, starting from text `a`. The loop breaks only at a text on which every
   * attempt of a round fails, and it stops at the starting text when it has no rounds to run.
   */
  function Loop(parse: Parser, a: string, rounds: nat): (r: LoopEnd)
    ensures r.Broke? ==> Round(parse, r.at).Stop?
    ensures rounds == 0 ==> r == Exhausted(a)
    decreases rounds
  {
    if rounds == 0 then Exhausted(a)
    else
      match Round(parse, a)
      case Next(b) => Loop(parse, b, rounds - 1)
      case Done(v) => Returned(v)
      case Stop => Broke(a)
  }

  /**
   * The last resort after the loop: the regex `\{[\s\S]*\}` matched against the current text and
   * the match parsed. It finds exactly the span the loop's brace step cuts out.
   */
  function FinalSweep(parse: Parser, a: string): (r: Option<Json>)
    ensures r == BraceCandidate(parse, a)
  {
    GreedyMatchIsSpan(a, '{', '}');
    match GreedyMatch(a, '{', '}')
    case None => None
    case Some(c) => parse(c)
  }

  /**
   * What `tryParseJsonFromText` returns. Both `None` and `Some(JNull)` stand for `null`: the first
   * when nothing parsed, the second when the answer was the literal `null`. Neither is truthy, so
   * what is shown is the same.
   */
  function Extract(parse: Parser, text: string): (r: Option<Json>)
    ensures text == [] ==> r == None
  {
    if text == [] then None
    else
      match Loop(parse, Normalise(text), MaxRounds)
      case Returned(v) => Some(v)
      case Broke(b) => FinalSweep(parse, b)
      case Exhausted(b) => FinalSweep(parse, b)
  }

  /**
   * The extractor as the program runs it: `attempt` is reassigned round by round, a round either
   * `continue`s, `return`s or `break`s, and the regex sweep runs on whatever `attempt` holds last.
   */
  method TryParseJsonFromText(parse: Parser, text: string) returns (r: Option<Json>)
    ensures r == Extract(parse, text)
    ensures text == [] ==> r == None
  {
    if text == [] {
      return None;
    }
    var attempt := Normalise(text);
    ghost var ending := Loop(parse, attempt, MaxRounds);
    for i := 0 to MaxRounds
      invariant Loop(parse, attempt, MaxRounds - i) == ending
    {
      var step := RunRound(parse, attempt);
      LoopStep(parse, attempt, MaxRounds - i);
      match step
      case Next(next) =>
        attempt := next;
      case Done(v) =>
        ExtractReturned(parse, text, v);
        return Some(v);
      case Stop =>
        break;
    }
    ExtractSwept(parse, text, attempt);
    var braceMatch := GreedyMatch(attempt, '{', '}');
    GreedyMatchIsSpan(attempt, '{', '}');
    if braceMatch.Some? {
      var swept := parse(braceMatch.value);
      if swept.Some? {
        return swept;
      }
    }
    return None;
  }

  /**
   * The body of one round, on the current `attempt`: the direct parse in its `try`, and in its
   * `catch` the unescape, the brace span and the bracket span, each parse again in a `try`.
   */
  method RunRound(parse: Parser, attempt: string) returns (step: Step)
    ensures step == Round(parse, attempt)
  {
    var parsed := parse(attempt);
    if parsed.Some? {
      if parsed.value.JString? {
        return Next(parsed.value.str);
      }
      return Done(parsed.value);
    }
    var unescaped := Unescape(attempt);
    if unescaped != attempt {
      return Next(unescaped);
    }
    var firstBrace := IndexOf(attempt, '{');
    var lastBrace := LastIndexOf(attempt, '}');
    SpanAt(attempt, '{', '}', firstBrace, lastBrace);
    if firstBrace != -1 && lastBrace != -1 && lastBrace > firstBrace {
      var candidate := attempt[firstBrace..lastBrace + 1];
      var fromBrace := parse(candidate);
      if fromBrace.Some? {
        return Done(fromBrace.value);
      }
    }
    var firstBracket := IndexOf(attempt, '[');
    var lastBracket := LastIndexOf(attempt, ']');
    SpanAt(attempt, '[', ']', firstBracket, lastBracket);
    if firstBracket != -1 && lastBracket != -1 && lastBracket > firstBracket {
      var candidateArr := attempt[firstBracket..lastBracket + 1];
      var parsedArr := parse(candidateArr);
      if parsedArr.Some? && parsedArr.value.JArray? {
        return Done(JObject(map["routes" := parsedArr.value]));
      }
    }
    return Stop;
  }

  /** `Extract` when the loop returns a value. */
  lemma ExtractReturned(parse: Parser, text: string, v: Json)
    requires text != [] && Loop(parse, Normalise(text), MaxRounds) == Returned(v)
    ensures Extract(parse, text) == Some(v)
  {
  }

  /** `Extract` when the loop breaks or runs out of rounds at text `b`. */
  lemma ExtractSwept(parse: Parser, text: string, b: string)
    requires text != []
    requires Loop(parse, Normalise(text), MaxRounds) == Broke(b)
             || Loop(parse, Normalise(text), MaxRounds) == Exhausted(b)
    ensures Extract(parse, text) == BraceCandidate(parse, b)
  {
  }

  /** The span the program cuts out by hand is the one `Span` names. */
  lemma SpanAt(s: string, open: char, close: char, first: int, last: int)
    requires first == IndexOf(s, open) && last == LastIndexOf(s, close)
    ensures Span(s, open, close)
            == if first != -1 && last != -1 && last > first then Some(s[first..last + 1]) else None
  {
  }

  /**
   * What each outcome of a round says about the text: a new text is the parsed string or the
   * shorter unescaped text; a value is the direct parse, or the brace span's, or the wrapped
   * bracket array; and the loop breaks exactly when all of these fail.
   */
  lemma RoundCases(parse: Parser, a: string)
    ensures Round(parse, a).Next? ==>
              parse(a) == Some(JString(Round(parse, a).attempt))
              || (parse(a) == None && Round(parse, a).attempt == Unescape(a) && |Round(parse, a).attempt| < |a|)
    ensures Round(parse, a).Done? && parse(a).Some? ==>
              parse(a) == Some(Round(parse, a).value) && !Round(parse, a).value.JString?
    ensures Round(parse, a).Done? && parse(a).None? ==>
              Unescape(a) == a
              && (BraceCandidate(parse, a) == Some(Round(parse, a).value)
                  || (BraceCandidate(parse, a).None? && BracketCandidate(parse, a) == Some(Round(parse, a).value)))
    ensures Round(parse, a).Stop? <==> parse(a).None? && Unescape(a) == a
                                       && BraceCandidate(parse, a).None? && BracketCandidate(parse, a).None?
  {
  }

  /** Once the loop breaks, the final sweep has nothing left to find: its span already failed to parse. */
  lemma {:induction false} BreakMeansSweepFails(parse: Parser, a: string, rounds: nat)
    requires Loop(parse, a, rounds).Broke?
    ensures FinalSweep(parse, Loop(parse, a, rounds).at) == None
    decreases rounds
  {
    match Round(parse, a)
    case Next(b) => BreakMeansSweepFails(parse, b, rounds - 1);
    case Done(_) =>
    case Stop =>
  }

  /**
   * A string that a parser produces is shorter than the text it came from. `JSON.parse` has this
   * property: a JSON string literal is its value between two quotes, with some characters escaped.
   */
  ghost predicate ShrinksStrings(parse: Parser) {
    forall x :: parse(x).Some? && parse(x).value.JString? ==> |parse(x).value.str| < |x|
  }

  /** With such a parser every round that continues shortens the text. */
  lemma NextShortens(parse: Parser, a: string)
    requires ShrinksStrings(parse) && Round(parse, a).Next?
    ensures |Round(parse, a).attempt| < |a|
  {
    RoundCases(parse, a);
    if parse(a).Some? {
      assert parse(a).value.JString?;
    }
  }

  /** One round of the loop, unfolded. */
  lemma LoopStep(parse: Parser, a: string, rounds: nat)
    requires rounds > 0
    ensures Loop(parse, a, rounds) == match Round(parse, a)
                                      case Next(b) => Loop(parse, b, rounds - 1)
                                      case Done(v) => Returned(v)
                                      case Stop => Broke(a)
  {
  }

  /**
   * When parsed strings are shorter than their text, every round that continues shortens the text,
   * so more rounds than the text has characters are never all used up.
   */
  lemma {:induction false} LoopEndsEarly(parse: Parser, a: string, rounds: nat)
    requires ShrinksStrings(parse) && rounds > |a|
    ensures !Loop(parse, a, rounds).Exhausted?
    decreases rounds
  {
    LoopStep(parse, a, rounds);
    if Round(parse, a).Next? {
      NextShortens(parse, a);
      LoopEndsEarly(parse, Round(parse, a).attempt, rounds - 1);
    }
  }

  /** Rounds beyond the ones the loop needs change nothing. */
  lemma {:induction false} LoopStabilises(parse: Parser, a: string, n: nat, m: nat)
    requires ShrinksStrings(parse) && n > |a| && m > |a|
    ensures Loop(parse, a, n) == Loop(parse, a, m)
    decreases n
  {
    LoopStep(parse, a, n);
    LoopStep(parse, a, m);
    if Round(parse, a).Next? {
      NextShortens(parse, a);
      LoopStabilises(parse, Round(parse, a).attempt, n - 1, m - 1);
    }
  }

  /** Text that already is a JSON object or array, once normalised, is returned as parsed. */
  lemma ExtractDirect(parse: Parser, text: string, v: Json)
    requires text != [] && parse(Normalise(text)) == Some(v) && !v.JString?
    ensures Extract(parse, text) == Some(v)
  {
  }

  /** A normalised text that still parses to a string is parsed again, and that string's value is returned. */
  lemma ExtractDoubleEncoded(parse: Parser, text: string, t: string, v: Json)
    requires text != [] && parse(Normalise(text)) == Some(JString(t))
    requires parse(t) == Some(v) && !v.JString?
    ensures Extract(parse, text) == Some(v)
  {
    assert Round(parse, Normalise(text)) == Next(t);
    assert Round(parse, t) == Done(v);
  }

  /** Text that does not parse, has nothing to unescape and has a parsing brace span gives that span's value. */
  lemma ExtractViaBrace(parse: Parser, text: string, v: Json)
    requires text != [] && parse(Normalise(text)) == None && Unescape(Normalise(text)) == Normalise(text)
    requires BraceCandidate(parse, Normalise(text)) == Some(v)
    ensures Extract(parse, text) == Some(v)
  {
    assert Round(parse, Normalise(text)) == Done(v);
  }

  /**
   * Text that does not parse, has nothing to unescape and no parsing brace span, but whose bracket
   * span parses to an array, gives that array under `routes`.
   */
  lemma ExtractViaBracket(parse: Parser, text: string, items: seq<Json>)
    requires text != [] && parse(Normalise(text)) == None && Unescape(Normalise(text)) == Normalise(text)
    requires BraceCandidate(parse, Normalise(text)) == None
    requires Span(Normalise(text), '[', ']').Some?
    requires parse(Span(Normalise(text), '[', ']').value) == Some(JArray(items))
    ensures Extract(parse, text) == Some(JObject(map["routes" := JArray(items)]))
  {
    var n := Normalise(text);
    var wrapped := JObject(map["routes" := JArray(items)]);
    assert BracketCandidate(parse, n) == Some(wrapped);
    assert Round(parse, n) == Done(wrapped);
    LoopStep(parse, n, MaxRounds);
    ExtractReturned(parse, text, wrapped);
  }

  /** A top-level array that parses directly is returned as it is, not wrapped under `routes`. */
  lemma DirectArrayNotWrapped(parse: Parser, text: string, items: seq<Json>)
    requires text != [] && parse(Normalise(text)) == Some(JArray(items))
    ensures Extract(parse, text) == Some(JArray(items))
  {
  }

  /** A bracket span that parses to something other than an array is passed over. */
  lemma NonArrayBracketIgnored(parse: Parser, a: string)
    requires parse(a) == None && Unescape(a) == a && BraceCandidate(parse, a) == None
    requires Span(a, '[', ']').Some? && parse(Span(a, '[', ']').value).Some?
    requires !parse(Span(a, '[', ']').value).value.JArray?
    ensures Round(parse, a) == Stop
  {
  }
}
