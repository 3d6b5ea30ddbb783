/**
 * What the screen ends up showing for a model reply: the parsed itinerary when the extractor found
 * a value whose `routes` is a non-empty array, and otherwise a display string, which is the parsed
 * value pretty-printed or, when nothing usable parsed, the reply trimmed.
 */
module Outcome {
  import opened Wrappers
  import opened JsonValue
  import opened Text
  import opened Escapes
  import opened Normalisation
  import opened Extractor

  /** The two things the screen can show: a structured document or a text. */
  datatype Outcome = Structured(document: Json) | Fallback(display: string)

  /**
   * The test `handleGenerate` applies to the extracted value: the value is truthy, its `routes`
   * property is truthy, is an array and is not empty. Only an object has a `routes` property, and
   * an object and a non-empty array are always truthy, so the test comes down to "an object whose
   * `routes` is a non-empty array".
   */
  predicate HasRoutes(parsed: Option<Json>)
    ensures HasRoutes(parsed) <==>
              && parsed.Some?
              && parsed.value.JObject?
              && "routes" in parsed.value.fields
              && parsed.value.fields["routes"].JArray?
              && |parsed.value.fields["routes"].items| > 0
  {
    && parsed.Some?
    && Truthy(parsed.value)
    && parsed.value.JObject?
    && "routes" in parsed.value.fields
    && Truthy(parsed.value.fields["routes"])
    && parsed.value.fields["routes"].JArray?
    && |parsed.value.fields["routes"].items| > 0
  }

  /**
   * `makePrettyFallback`: the extracted value pretty-printed when it is truthy, else the reply
   * trimmed (the raw reply, not the normalised one).
   */
  function MakePrettyFallback(parse: Parser, pretty: Printer, text: string): (r: string)
    ensures (Extract(parse, text).Some? && Truthy(Extract(parse, text).value))
              ==> r == pretty(Extract(parse, text).value)
    ensures (Extract(parse, text).None? || !Truthy(Extract(parse, text).value))
              ==> |r| <= |text| && (r == [] || (!IsSpace(r[0]) && !IsSpace(r[|r| - 1])))
  {
    var parsed := Extract(parse, text);
    if parsed.Some? && Truthy(parsed.value) then pretty(parsed.value) else Trim(text)
  }

  /** The classification made in `handleGenerate` once the reply text is known. */
  function Classify(parse: Parser, pretty: Printer, text: string): (o: Outcome)
    ensures o.Structured? <==> HasRoutes(Extract(parse, text))
    ensures o.Structured? ==> Extract(parse, text) == Some(o.document)
    ensures o.Fallback? ==> o.display == MakePrettyFallback(parse, pretty, text)
  {
    var parsed := Extract(parse, text);
    if HasRoutes(parsed) then Structured(parsed.value)
    else Fallback(MakePrettyFallback(parse, pretty, text))
  }

  /**
   * The part of `handleGenerate` after the reply text is known: it runs the extractor and hands
   * `setRoutesParsed` and `setTravel` their new values.
   */
  method HandleGenerate(parse: Parser, pretty: Printer, text: string)
    returns (routesParsed: Option<Json>, travel: string)
    ensures routesParsed.Some? ==> HasRoutes(routesParsed) && travel == []
    ensures Classify(parse, pretty, text)
            == (if routesParsed.Some? then Structured(routesParsed.value) else Fallback(travel))
  {
    var parsed := TryParseJsonFromText(parse, text);
    if HasRoutes(parsed) {
      routesParsed := parsed;
      travel := "";
    } else {
      routesParsed := None;
      travel := MakePrettyFallback(parse, pretty, text);
    }
  }

  /** A value with routes is shown as an itinerary. */
  lemma ShownStructured(parse: Parser, pretty: Printer, text: string, v: Json)
    requires Extract(parse, text) == Some(v) && HasRoutes(Some(v))
    ensures Classify(parse, pretty, text) == Structured(v)
  {
  }

  /** A truthy value without routes is shown pretty-printed. */
  lemma ShownPretty(parse: Parser, pretty: Printer, text: string, v: Json)
    requires Extract(parse, text) == Some(v) && Truthy(v) && !HasRoutes(Some(v))
    ensures Classify(parse, pretty, text) == Fallback(pretty(v))
  {
  }

  /** Without a truthy value the reply is shown trimmed. */
  lemma ShownTrimmed(parse: Parser, pretty: Printer, text: string)
    requires Extract(parse, text).None? || !Truthy(Extract(parse, text).value)
    ensures Classify(parse, pretty, text) == Fallback(Trim(text))
  {
  }

  /** A document is shown as an itinerary exactly when it carries a non-empty list of routes. */
  lemma HasRoutesOfDocument(p: ParsedRoutes)
    ensures HasRoutes(Some(ToJson(p))) <==> p.routes.Some? && |p.routes.value| > 0
  {
  }

  /**
   * When nothing usable parsed, the fallback is the reply with the whitespace around it removed,
   * and nothing else: the reply is whitespace, then the fallback, then whitespace.
   */
  lemma FallbackIsReplyTrimmed(parse: Parser, pretty: Printer, text: string) returns (i: nat)
    requires Extract(parse, text).None? || !Truthy(Extract(parse, text).value)
    ensures InfixAt(MakePrettyFallback(parse, pretty, text), text, i)
    ensures forall k | 0 <= k < i :: IsSpace(text[k])
    ensures forall k | i + |MakePrettyFallback(parse, pretty, text)| <= k < |text| :: IsSpace(text[k])
  {
    i := TrimInfix(text);
  }

  /** An empty reply is shown as an empty text. */
  lemma EmptyReplyShowsNothing(parse: Parser, pretty: Printer)
    ensures Classify(parse, pretty, []) == Fallback([])
  {
  }

  /**
   * A bare JSON document with routes, with or without whitespace around it, is shown as an
   * itinerary.
   */
  lemma DirectDocument(parse: Parser, pretty: Printer, ws1: string, text: string, ws2: string,
                       doc: ParsedRoutes)
    requires AllSpace(ws1) && AllSpace(ws2)
    requires |text| > 0 && Plain(text[0]) && Plain(text[|text| - 1])
    requires parse(text) == Some(ToJson(doc))
    requires doc.routes.Some? && |doc.routes.value| > 0
    ensures Classify(parse, pretty, ws1 + text + ws2) == Structured(ToJson(doc))
  {
    var reply := ws1 + text + ws2;
    assert Normalise(reply) == text by {
      NormalisePadded(ws1, text, ws2);
      NormaliseKeepsPlain(text);
    }
    ExtractDirect(parse, reply, ToJson(doc));
    HasRoutesOfDocument(doc);
    ShownStructured(parse, pretty, reply, ToJson(doc));
  }

  /**
   * A document inside a markdown fence, with or without a `json` tag and with or without whitespace
   * around the whole reply, is shown as an itinerary.
   */
  lemma FencedDocument(parse: Parser, pretty: Printer, ws1: string, tag: string, before: string,
                       body: string, after: string, ws2: string, doc: ParsedRoutes)
    requires AllSpace(ws1) && AllSpace(ws2)
    requires tag == [] || IsJsonTag(tag)
    requires AllSpace(before) && AllSpace(after)
    requires tag == [] && before == [] ==> !(|body| >= 4 && IsJsonTag(body[..4]))
    requires |body| > 0 && Plain(body[0]) && Plain(body[|body| - 1])
    requires parse(body) == Some(ToJson(doc))
    requires doc.routes.Some? && |doc.routes.value| > 0
    ensures Classify(parse, pretty, ws1 + (Fence + tag + before + body + after + Fence) + ws2)
            == Structured(ToJson(doc))
  {
    var fenced := Fence + tag + before + body + after + Fence;
    var reply := ws1 + fenced + ws2;
    assert Normalise(reply) == body by {
      assert fenced[0] == '`' && fenced[|fenced| - 1] == '`';
      NormalisePadded(ws1, fenced, ws2);
      NormaliseFenced(tag, before, body, after);
    }
    ExtractDirect(parse, reply, ToJson(doc));
    HasRoutesOfDocument(doc);
    ShownStructured(parse, pretty, reply, ToJson(doc));
  }

  /**
   * A document sent back as the inside of a JSON string literal (quotes around it, its quotes and
   * newlines escaped) is unquoted, unescaped and shown as an itinerary, provided the document itself
   * has no backslash.
   */
  lemma EscapedDocument(parse: Parser, pretty: Printer, s: string, which: set<char>, doc: ParsedRoutes)
    requires '\\' !in s
    requires parse(Escape(s, which)) == None
    requires parse(s) == Some(ToJson(doc))
    requires doc.routes.Some? && |doc.routes.value| > 0
    ensures Classify(parse, pretty, "\"" + Escape(s, which) + "\"") == Structured(ToJson(doc))
  {
    var text := "\"" + Escape(s, which) + "\"";
    assert Extract(parse, text) == Some(ToJson(doc)) by {
      NormaliseQuoted(Escape(s, which));
      UnescapeInvertsEscape(s, which);
      assert Round(parse, Escape(s, which)) == Next(s);
      assert Round(parse, s) == Done(ToJson(doc));
    }
    HasRoutesOfDocument(doc);
    ShownStructured(parse, pretty, text, ToJson(doc));
  }

  /**
   * A reply whose normalised text still parses to a JSON string holding the document, such as a
   * string literal inside a second pair of quotes, is shown as an itinerary. A reply that is a
   * single string literal loses its quotes in normalisation and is covered by `EscapedDocument`.
   */
  lemma DoubleEncodedDocument(parse: Parser, pretty: Printer, text: string, t: string, doc: ParsedRoutes)
    requires text != [] && parse(Normalise(text)) == Some(JString(t))
    requires parse(t) == Some(ToJson(doc))
    requires doc.routes.Some? && |doc.routes.value| > 0
    ensures Classify(parse, pretty, text) == Structured(ToJson(doc))
  {
    ExtractDoubleEncoded(parse, text, t, ToJson(doc));
    HasRoutesOfDocument(doc);
    ShownStructured(parse, pretty, text, ToJson(doc));
  }

  /** A document with prose before and after it is cut out from its first `{` to its last `}`. */
  lemma EmbeddedDocument(parse: Parser, pretty: Printer, before: string, body: string, after: string,
                         doc: ParsedRoutes)
    requires '{' !in before && '}' !in after
    requires |body| >= 2 && body[0] == '{' && body[|body| - 1] == '}'
    requires '\\' !in before + body + after
    requires Plain((before + body + after)[0]) && Plain((before + body + after)[|before + body + after| - 1])
    requires parse(before + body + after) == None
    requires parse(body) == Some(ToJson(doc))
    requires doc.routes.Some? && |doc.routes.value| > 0
    ensures Classify(parse, pretty, before + body + after) == Structured(ToJson(doc))
  {
    var text := before + body + after;
    assert Extract(parse, text) == Some(ToJson(doc)) by {
      NormaliseKeepsPlain(text);
      UnescapeWithoutBackslash(text);
      SpanOfEmbedded(before, body, after, '{', '}');
      ExtractViaBrace(parse, text, ToJson(doc));
    }
    HasRoutesOfDocument(doc);
    ShownStructured(parse, pretty, text, ToJson(doc));
  }

  /** The span of prose, a block from `open` to `close` and more prose is the block. */
  lemma SpanOfEmbedded(before: string, body: string, after: string, open: char, close: char)
    requires open !in before && close !in after
    requires |body| >= 2 && body[0] == open && body[|body| - 1] == close
    ensures Span(before + body + after, open, close) == Some(body)
  {
    var text := before + body + after;
    var i, j := |before|, |before| + |body| - 1;
    assert text[..i] == before;
    assert text[j + 1..] == after;
    assert text[i..j + 1] == body;
    SpanIsWidest(text, open, close, i, j);
  }

  /** An array wrapped under `routes` is shown as an itinerary exactly when it is not empty. */
  lemma WrappedArrayHasRoutes(items: seq<Json>)
    ensures HasRoutes(Some(JObject(map["routes" := JArray(items)]))) <==> |items| > 0
  {
    assert JObject(map["routes" := JArray(items)]).fields["routes"] == JArray(items);
  }

  /**
   * An array of routes with prose around it is wrapped as `{routes: arr}` and shown as an itinerary,
   * provided the brace span does not parse. For an array of two or more objects, the span from the
   * first `{` to the last `}` is `{...}, ..., {...}`, which is not JSON; for an array of one object
   * the span is that object, and it is returned instead.
   */
  lemma EmbeddedRouteArray(parse: Parser, pretty: Printer, before: string, arr: string, after: string,
                           items: seq<Json>)
    requires '[' !in before && ']' !in after && BraceCandidate(parse, before + arr + after).None?
    requires |arr| >= 2 && arr[0] == '[' && arr[|arr| - 1] == ']'
    requires '\\' !in before + arr + after
    requires Plain((before + arr + after)[0]) && Plain((before + arr + after)[|before + arr + after| - 1])
    requires parse(before + arr + after) == None
    requires parse(arr) == Some(JArray(items)) && |items| > 0
    ensures Classify(parse, pretty, before + arr + after) == Structured(JObject(map["routes" := JArray(items)]))
  {
    var text := before + arr + after;
    assert Extract(parse, text) == Some(JObject(map["routes" := JArray(items)])) by {
      NormaliseKeepsPlain(text);
      UnescapeWithoutBackslash(text);
      SpanOfEmbedded(before, arr, after, '[', ']');
      ExtractViaBracket(parse, text, items);
    }
    WrappedArrayHasRoutes(items);
    ShownStructured(parse, pretty, text, JObject(map["routes" := JArray(items)]));
  }

  /** Prose with no brace, bracket or backslash that does not parse is shown trimmed, as it came. */
  lemma ProseFallsBack(parse: Parser, pretty: Printer, text: string)
    requires '{' !in text && '[' !in text && '\\' !in text
    requires parse(Normalise(text)) == None
    ensures Classify(parse, pretty, text) == Fallback(Trim(text))
  {
    if text != [] {
      var n := Normalise(text);
      NormaliseKeepsOut(text, '{');
      NormaliseKeepsOut(text, '[');
      NormaliseKeepsOut(text, '\\');
      UnescapeWithoutBackslash(n);
      assert Extract(parse, text) == None by {
        assert Round(parse, n) == Stop;
      }
    }
    ShownTrimmed(parse, pretty, text);
  }

  /** A document without routes, or with an empty list of them, is shown pretty-printed. */
  lemma RoutelessDocumentShownAsText(parse: Parser, pretty: Printer, text: string, doc: ParsedRoutes)
    requires text != [] && parse(Normalise(text)) == Some(ToJson(doc))
    requires doc.routes.None? || doc.routes.value == []
    ensures Classify(parse, pretty, text) == Fallback(pretty(ToJson(doc)))
  {
    ExtractDirect(parse, text, ToJson(doc));
    HasRoutesOfDocument(doc);
    ShownPretty(parse, pretty, text, ToJson(doc));
  }

  /** A bare top-level array is not wrapped: it is shown pretty-printed, not as an itinerary. */
  lemma TopLevelArrayShownAsText(parse: Parser, pretty: Printer, text: string, items: seq<Json>)
    requires text != [] && parse(Normalise(text)) == Some(JArray(items))
    ensures Classify(parse, pretty, text) == Fallback(pretty(JArray(items)))
  {
    DirectArrayNotWrapped(parse, text, items);
    ShownPretty(parse, pretty, text, JArray(items));
  }

  /** A reply that parses to `0`, `false` or `null` is shown as the trimmed reply, not printed. */
  lemma FalsyValueShownAsReply(parse: Parser, pretty: Printer, text: string, v: Json)
    requires text != [] && parse(Normalise(text)) == Some(v) && !v.JString? && !Truthy(v)
    ensures Classify(parse, pretty, text) == Fallback(Trim(text))
  {
    ExtractDirect(parse, text, v);
    ShownTrimmed(parse, pretty, text);
  }
}
