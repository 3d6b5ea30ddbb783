# Roteirizando: the resilient JSON extractor, in Dafny

Roteirizando is a React Native app. It asks a language model for travel itineraries for a city and
a number of days. The model is told to answer with a JSON document
`{city, days, routes: [{title, itinerary: [{day, places}]}]}`. Its answers often arrive wrapped in
markdown fences, in quotes, escaped, double-encoded or buried in prose. This project models the code
in `App.tsx` that recovers the document from such an answer, and what the screen then shows.

- `tryParseJsonFromText` first normalises the answer:
  - it trims the text;
  - it strips one leading markdown fence, with an optional case-insensitive `json` tag, and one
    trailing fence;
  - it strips one pair of enclosing double quotes.

  It then runs at most six rounds. In each round it tries the following, in order:
  1. A direct `JSON.parse`. A string result becomes the next text; any other result is returned.
  2. The escape chain `\n \r \t \" \'`, when it changes the text.
  3. The span from the first `{` to the last `}`, parsed.
  4. The span from the first `[` to the last `]`, parsed. An array result is returned wrapped as
     `{routes: arr}`.

  When no round returns, the loop ends and a last greedy regex sweep `\{[\s\S]*\}` runs on the
  current text.
- `makePrettyFallback` gives the extracted value pretty-printed when the value is truthy, and the
  trimmed raw answer otherwise.
- `handleGenerate` shows a structured itinerary only when the extracted value has a non-empty
  `routes` array. Otherwise it shows the fallback text.

`JSON.parse` and `JSON.stringify` are library calls. They are parameters of the model:
`parse: string -> Option<Json>`, where `None` is the exception, and `pretty: Json -> string`. Every
property below holds for every such pair of functions. Where a property needs a particular parse
result, it says so as a precondition.

Modules, one per file:

- `JsonValue` (`json.dfy`): the JSON values, and the `DayObj`, `ItineraryRoute` and `ParsedRoutes`
  types with their JSON form.
- `Text` (`text.dfy`): `trim`, `indexOf` and `lastIndexOf`, the first-to-last span, and the greedy
  regex match.
- `Escapes` (`escapes.dfy`): the escape chain, plus an encoder used as its partner.
- `Normalisation` (`normalise.dfy`): the trim, fence-strip and quote-strip prologue.
- `Extractor` (`extractor.dfy`): the specification of the extractor as functions (`Round`, `Loop`,
  `FinalSweep` and `Extract`), plus the imperative method `TryParseJsonFromText` proved equal to
  `Extract`.
  - Its `for` loop reassigns `attempt` and ends each round by continuing, returning or breaking, as
    the source does.
  - The body of one round is the method `RunRound`.
  - The loop invariant ties the rounds still to run to the functional `Loop`.
- `Outcome` (`outcome.dfy`): `makePrettyFallback`, the classification in `handleGenerate`, and
  end-to-end lemmas from kinds of model answer to what is shown.

Where the code and its own description differ, the model follows the code. The lemmas below make
these points precise:

- Normalisation is not idempotent. `""x""` becomes `"x"`, and normalising that again gives `x`.
- The fallback text is the trimmed raw answer, not the normalised one. An answer in a fence that
  does not parse is shown with its fence.
- A value that parses to `0`, `false` or `null` counts as nothing. The trimmed answer is shown
  instead of the printed value.
- Any non-string value from a direct parse is returned, numbers and booleans included.
- A top-level array that parses directly is returned as it is. Only an array found by the bracket
  step is wrapped as `{routes: arr}`. So a bare array of routes is shown as text. The same array
  with prose around it is shown as an itinerary when it holds two or more routes: its brace span,
  `{...}, ..., {...}`, is then not JSON. With a single route the brace span is that route's object.
  It parses, and it is returned unwrapped and shown pretty-printed.
- The escape chain does not know `\\`. A JSON-escaped backslash followed by `n` decodes to a
  backslash and a newline (`EscapedBackslashIsMisread`), so escaped backslashes and escaped control
  characters inside the document's own strings are misread. Escaped quotes inside its strings come
  out of one pass still escaped once, and a later round can recover them.
- After a `break` the final sweep always fails. The span it parses is the brace span that the same
  round has just failed to parse (`BreakMeansSweepFails`). The sweep can only help after all six
  rounds have been used.

## Model

| member | source | states |
|---|---|---|
| `JsonValue.ToJson` | App.tsx:26-32 | a `ParsedRoutes` document is a JSON object; it has a `routes` key exactly when the document has routes, holding each route's object in order, and `city` / `days` keys exactly when those are set |
| `Text.Trim` | App.tsx:73 | the trimmed text is never longer and has no whitespace at either end |
| `Text.TrimInfix` | App.tsx:73 | the trimmed text is a piece of the original with only whitespace before and after it |
| `Text.TrimKeepsTrimmed` | App.tsx:73 | text with no whitespace at its ends is left unchanged by `Trim`, `TrimStart` and `TrimEnd` (the `^\s*` and `\s*$` removals) |
| `Text.IndexOf` | App.tsx:110 | `-1` exactly when the character is absent; otherwise a position holding it with no earlier occurrence |
| `Text.LastIndexOf` | App.tsx:111 | `-1` exactly when the character is absent; otherwise a position holding it with no later occurrence |
| `Text.Span` | App.tsx:110-113 | a span exists exactly when some `open` comes before some `close`; it begins with `open` and ends with `close` |
| `Text.SpanIsWidest` | App.tsx:110-113 | the span is the inclusive substring from the first `open` to the last `close` |
| `Text.GreedyMatch` | App.tsx:144 | a match begins with the opening brace and ends with the closing one |
| `Text.GreedyMatchIsSpan` | App.tsx:144 | the greedy regex `\{[\s\S]*\}` matches exactly the first-`{`-to-last-`}` span, and nothing when there is none |
| `Escapes.ReplaceEscape` | App.tsx:98 | one global replacement never lengthens the text and leaves it unchanged when it keeps its length |
| `Escapes.Unescape` | App.tsx:97-102 | the escape chain never lengthens the text, and any change makes it strictly shorter |
| `Escapes.UnescapeInvertsEscape` | App.tsx:97-102 | decoding undoes escaping any choice of newlines, returns, tabs and quotes in text without a backslash |
| `Escapes.UnescapeWithoutBackslash` | App.tsx:97-102 | text without a backslash is left unchanged by the escape chain |
| `Escapes.EscapedBackslashIsMisread` | App.tsx:97-102 | an escaped backslash before `n` decodes to a backslash and a newline |
| `Normalisation.StripLeadingFence` | App.tsx:76 | removing a leading fence never lengthens the text, and the text changes only when its first non-whitespace characters are a fence |
| `Normalisation.StripLeadingFenceIsSuffix` | App.tsx:76 | removing a leading fence only cuts a prefix off the text |
| `Normalisation.StripTrailingFence` | App.tsx:76 | removing a trailing fence never lengthens the text, and the text changes only when its last non-whitespace characters are a fence |
| `Normalisation.StripTrailingFenceIsPrefix` | App.tsx:76 | removing a trailing fence only cuts a suffix off the text |
| `Normalisation.Normalise` | App.tsx:73-81 | normalising never lengthens the text, and an empty text stays empty |
| `Normalisation.NormaliseTrims` | App.tsx:73 | normalising begins with a trim: the answer and its trimmed form normalise alike |
| `Normalisation.NormalisePadded` | App.tsx:73 | an answer with whitespace before and after it normalises exactly as the answer without it |
| `Normalisation.StripOuterQuotes` | App.tsx:79-81 | the text changes exactly when it starts and ends with `"`, and then it loses exactly its first and last character (a lone `"` becomes empty) |
| `Normalisation.LeadingFenceOf` | App.tsx:76 | a leading fence, its optional case-insensitive `json` tag and any whitespace after it are removed, and nothing more; with neither tag nor whitespace, text that itself begins with `json` is excluded, since its first four letters would be taken as the tag |
| `Normalisation.TrailingFenceOf` | App.tsx:76 | a trailing fence and the whitespace before it are removed, and nothing more |
| `Normalisation.FenceRoundTrip` | App.tsx:76 | stripping both fences from a fenced block, with or without a tag and whitespace after the opening fence, gives back exactly its contents |
| `Normalisation.NormaliseFenced` | App.tsx:73-81 | normalising a fenced block gives exactly its contents when they start and end plainly |
| `Normalisation.NormaliseQuoted` | App.tsx:79-81 | normalising quoted text removes one pair of quotes and nothing else |
| `Normalisation.NormaliseKeepsPlain` | App.tsx:73-81 | text that starts and ends with a character that is not whitespace, a backtick or a quote is not changed |
| `Normalisation.NormaliseKeepsOut` | App.tsx:73-81 | normalising never brings in a character that the text lacked |
| `Normalisation.NormaliseNotIdempotent` | App.tsx:79-81 | normalising twice-quoted text once leaves one pair of quotes; a second pass removes it |
| `Extractor.Round` | App.tsx:86-139 | a round that continues because the text did not parse (so by unescaping) makes the text strictly shorter |
| `Extractor.Loop` | App.tsx:84-141 | the loop breaks only at a text on which a whole round fails; with no rounds left it stops at the text it has |
| `Extractor.BraceCandidate` | App.tsx:110-118 | a value is found only from the first-`{`-to-last-`}` span, exactly when that span exists and parses |
| `Extractor.BracketCandidate` | App.tsx:122-136 | a value is found exactly when the first-`[`-to-last-`]` span exists and parses to an array, and it is that array under the one key `routes` |
| `Extractor.RoundCases` | App.tsx:86-139 | a round continues with the parsed string or with the strictly shorter unescaped text; it returns the direct parse, else the brace value, else the wrapped bracket array; it breaks exactly when all of these fail |
| `Extractor.NonArrayBracketIgnored` | App.tsx:126-139 | a bracket span that parses to something other than an array is ignored and the loop breaks |
| `Extractor.FinalSweep` | App.tsx:143-151 | the regex sweep yields exactly what the brace step would yield on the same text |
| `Extractor.BreakMeansSweepFails` | App.tsx:138-153 | after a `break` the final sweep always yields nothing |
| `Extractor.LoopEndsEarly` | App.tsx:84-141 | when every string a parse returns is shorter than the text it came from, as with `JSON.parse`, more rounds than the text has characters are never all used up |
| `Extractor.LoopStabilises` | App.tsx:84-141 | under the same condition on the parser, any two round limits above the text's length give the same result |
| `Extractor.Extract` | App.tsx:71 | an empty answer gives no value |
| `Extractor.TryParseJsonFromText` | App.tsx:70-154 | the imperative extractor returns exactly `Extract`'s value; an empty answer gives `null` |
| `Extractor.RunRound` | App.tsx:86-139 | one pass of the loop body computes exactly the round's outcome |
| `Extractor.ExtractDirect` | App.tsx:87-94 | a normalised answer that parses to a non-string is returned unchanged |
| `Extractor.ExtractDoubleEncoded` | App.tsx:87-94 | a normalised answer that still parses to a string, and that string to a document, yields that document |
| `Extractor.ExtractViaBrace` | App.tsx:109-118 | an answer that neither parses nor unescapes yields its parsing brace span |
| `Extractor.ExtractViaBracket` | App.tsx:121-132 | an answer with no usable brace span yields its bracket array wrapped under `routes` |
| `Extractor.DirectArrayNotWrapped` | App.tsx:87-94 | a top-level array that parses directly is returned as it is, not wrapped |
| `JsonValue.Truthy` | App.tsx:162 | the falsy JSON values are exactly `null`, `false`, `0` and the empty string |
| `Outcome.HasRoutes` | App.tsx:234 | the routes test holds exactly for an object whose `routes` is a non-empty array; its truthiness checks add nothing |
| `Outcome.MakePrettyFallback` | App.tsx:160-170 | a truthy extracted value is pretty-printed; otherwise the text is never longer than the answer and has no whitespace at its ends |
| `Outcome.FallbackIsReplyTrimmed` | App.tsx:169 | without a truthy value, the fallback is the raw answer with only the surrounding whitespace removed |
| `Outcome.Classify` | App.tsx:232-242 | the outcome is structured exactly when the extracted value has a non-empty `routes` array, and it then holds that value; otherwise it is the fallback text |
| `Outcome.HandleGenerate` | App.tsx:232-242 | `routesParsed` is set only to a value with routes, together with an empty `travel`; the pair agrees with the classification |
| `Outcome.HasRoutesOfDocument` | App.tsx:234 | a `ParsedRoutes` document passes the routes test exactly when it has a non-empty list of routes |
| `Outcome.WrappedArrayHasRoutes` | App.tsx:130-131 | an array wrapped under `routes` passes the routes test exactly when it is not empty |
| `Outcome.EmptyReplyShowsNothing` | App.tsx:71 | an empty answer is shown as empty text |
| `Outcome.DirectDocument` | App.tsx:73-94 | a bare document with routes, with or without whitespace around the reply, is shown as an itinerary |
| `Outcome.FencedDocument` | App.tsx:73-76 | a document in a markdown fence, with or without a `json` tag, whitespace after the opening fence and whitespace around the reply, is shown as an itinerary |
| `Outcome.EscapedDocument` | App.tsx:79-107 | a quoted and escaped document without backslashes is unquoted, unescaped and shown as an itinerary; a reply that is the document written as one JSON string literal is this case |
| `Outcome.DoubleEncodedDocument` | App.tsx:87-91 | a reply whose normalised text still parses to a string holding a document is shown as an itinerary; an example is a document string literal wrapped in a second pair of quotes |
| `Outcome.EmbeddedDocument` | App.tsx:109-115 | a document with prose around it is cut out from its first `{` to its last `}` and shown as an itinerary |
| `Outcome.EmbeddedRouteArray` | App.tsx:121-132 | a non-empty array with prose around it whose brace span does not parse is wrapped under `routes` and shown as an itinerary |
| `Outcome.ProseFallsBack` | App.tsx:143-169 | prose with no brace, bracket or backslash that does not parse is shown as the trimmed answer |
| `Outcome.RoutelessDocumentShownAsText` | App.tsx:234-241 | a document with no routes or an empty list of them is shown pretty-printed |
| `Outcome.TopLevelArrayShownAsText` | App.tsx:87-94 | a bare top-level array is shown pretty-printed, not as an itinerary |
| `Outcome.FalsyValueShownAsReply` | App.tsx:160-169 | an answer that parses to `0`, `false` or `null` is shown as the trimmed answer |

## Left out

- The `fetch` call to the model's endpoint, HTTP error handling, and digging the text out of the
  response envelope (App.tsx:189-229, 243-250). These are network I/O and asynchronous code. The
  model starts from the answer text.
- React state hooks, alerts, the keyboard, the slider and all rendering. These are UI. The two state
  setters in `handleGenerate` are modelled as the two values `HandleGenerate` returns.
- The `styles` object. It holds presentation constants.
- `buildPromptForJSON`. It is a string template with no behaviour to prove.
- `days.toFixed(0)`. It is floating-point formatting. JSON numbers are modelled as `real`.
- The internals of `JSON.parse` and `JSON.stringify`. They are library calls and stay abstract
  parameters. This means the catch around `JSON.stringify` in `makePrettyFallback` is not modelled:
  a printer here never fails, and for values that `JSON.parse` produced, `JSON.stringify` cannot
  fail either.
- The key order of JSON objects. `JObject` holds a map, so a `Printer` cannot see the order in which
  `JSON.parse` created the keys, and `JSON.stringify` writes them in that order. The pretty-printed
  fallback text (`MakePrettyFallback`, `RoutelessDocumentShownAsText`, `TopLevelArrayShownAsText`)
  is therefore fixed only up to key order. Duplicate keys in a reply are left to the parser. No
  other part of the extractor looks at key order.
- The `typeof text !== "string"` guard. The type of the parameter already rules it out; only the
  empty-string test is modelled.
- JavaScript strings are sequences of UTF-16 code units, while Dafny's `char` is a Unicode scalar
  value. None of the characters the extractor looks for is a surrogate, so the difference affects
  only where positions fall, not which branch is taken.
