# deepgram-cli rendering core in Dafny

A model of the output half of `deepgram.js`, a command-line front end for a
speech-to-text service, and of the option map it sends.

Before calling the service, the program builds the option map it sends with
the request: four defaults, the language choice, and `-O key=value,…`
overrides whose values are coerced to booleans, integers, floats or
strings.

After the service returns its utterances, the program does the following:

- It formats media offsets as `HH:MM:SS.mmm` timecodes (`makeTime`), plus a
  SubRip variant with a comma.
- It optionally translates every utterance through a translation service.
  The source language is the input language with its region subtag
  stripped. When a reply carries no text, the original text is used.
- It renders one of four documents:
  - `txt`: one line per utterance.
  - `vtt`: a WebVTT header, then one cue per utterance.
  - `srt`: one SubRip cue per utterance.
  - `vtt+`: one WebVTT cue per word, showing the utterance with that word
    in bold.

Module layout, one file each:

| module | contents |
|---|---|
| `Wrappers` | `Option` and `Result` |
| `Strings` | `join`, `split` on one character, first-occurrence `replace`, lines |
| `Decimal` | digit strings and `${n}` |
| `Timecode` | `makeTime` and its SubRip variant, plus a reader for timecodes |
| `Tokens` | `split(/\s+/)` with JavaScript's `\s`, and the highlighted captions |
| `Transcript` | words and utterances |
| `Translation` | the translation glue and the per-utterance text phase |
| `Cues` | cue blocks, their serialisation, and a reader for cue bodies |
| `Renderers` | the four loops, each with a reference definition of its output |
| `Documents` | what each document reads back as |
| `Dispatch` | format selection and the vtt+ guard |
| `Options` | the `-O` parser, value coercion and the option map |

Choices the model makes:

- **Time.** Times are whole milliseconds (`Millis`, bounded by the start of
  year 10000). The timecode is the time-of-day part of an ISO date, so
  hours wrap at 24.
- **Translator.** The translation service is a function parameter. It
  returns `Failure` for a rejected call, which aborts the run, or
  `Success(None)` for a reply without text.
- **Reading documents back.** Each document has a reader (`DecodeVtt`,
  `DecodeSrt`, `Lines`). For texts without a line break, the lemmas show
  that the reader recovers the texts, or the reference cues with their
  times reduced to a time of day: the timecode wraps at 24 hours, so a cue
  at 25:00:00 reads back as 01:00:00.

## Model

| member | source | states |
|---|---|---|
| Timecode.MakeTime | deepgram.js:151-152 | the result is always a 12-character `HH:MM:SS.mmm` timecode |
| Timecode.ParseMakeTime | deepgram.js:151-152 | reading the timecode back gives the offset modulo one day: hours wrap at 24 |
| Timecode.MakeTimeParse | deepgram.js:151-152 | every readable timecode is exactly what `makeTime` prints for the offset it denotes, so no two times of day share a timecode |
| Timecode.SrtTime | deepgram.js:205-206 | the SubRip timecode has the same shape with `,`; it is the WebVTT timecode with only its ninth character replaced |
| Timecode.ParseSrtTime | deepgram.js:205-206 | the SubRip timecode reads back as the offset modulo one day |
| Decimal.ParseNatToString | deepgram.js:179 | a printed cue counter reads back as the counter |
| Decimal.NatToStringParse | deepgram.js:134 | a canonical digit string is the printing of the number it denotes |
| Tokens.WsSplit | deepgram.js:174 | the tokens hold no white space and only the first and last may be empty; leading white space gives an empty first token, trailing white space an empty last token, and the last token is non-empty otherwise |
| Tokens.Gaps | deepgram.js:174 | the separators `split(/\s+/)` drops are non-empty white-space runs, one fewer than the tokens |
| Tokens.WsSplitWeave | deepgram.js:174 | every text is its tokens with the dropped white-space runs put back between them |
| Tokens.WeaveSplit | deepgram.js:174 | conversely, well-formed tokens separated by any white-space runs split back into exactly those tokens and runs, so the split of every text is determined |
| Tokens.SplitJoin | deepgram.js:174 | splitting tokens joined with single spaces gives those tokens back |
| Tokens.HighlightLength | deepgram.js:181-183 | for a word within the tokens, the caption is as long as the rejoined tokens plus the seven characters of `<b>` and `</b>` |
| Tokens.HighlightTokens | deepgram.js:181-183 | for a word within the tokens, splitting the caption gives the tokens with exactly token `j` in bold and every other token unchanged |
| Tokens.HighlightOverflow | deepgram.js:181-183 | for a word past the last token, the caption is the joined tokens, one space per array hole plus one, and `<b>undefined</b>` |
| Tokens.HighlightOneLine | deepgram.js:181-183 | a caption built from split tokens never contains a line break |
| Translation.SourceLanguage | deepgram.js:154 | the source language is the tag up to the first `-` that is followed by at least one character and by no line terminator up to the end; it is the whole tag when there is no such `-` |
| Translation.SourceLanguageExamples | deepgram.js:154 | `en-US` translates from `en`, `a-b-c` from `a`, while `en-` and `de` stay whole |
| Translation.TranslateText | deepgram.js:153-158 | a translation fails exactly when the service call fails; otherwise it is the reply's text, or the original text when the reply has none |
| Translation.Texts | deepgram.js:159-166 | every utterance contributes one text in order; without translation this is its transcript; the run succeeds exactly when every translation succeeds, and a failure carries the error of the first rejected utterance |
| Translation.TextsIgnoreTranslator | deepgram.js:163-164 | with `--translate none` the translator is never consulted |
| Cues.Block | deepgram.js:197-199 | a cue block is the counter, a line break, two 12-character timecodes around ` --> `, the text and a blank line: 33 characters besides the counter and the text, ending in two line breaks |
| Renderers.TxtLoop | deepgram.js:159-166 | the txt loop produces the reference document: every text followed by a line break |
| Renderers.TxtLines | deepgram.js:165 | reading the txt document line by line gives the texts and one final empty line |
| Renderers.VttLoop | deepgram.js:188-201 | the vtt loop produces the cue blocks of the reference cues: cue `k` is numbered `k + 1`, spans utterance `k`, and carries text `k` |
| Renderers.SrtLoop | deepgram.js:202-214 | the srt loop produces the SubRip blocks of the same reference cues |
| Renderers.PlusWordLoop | deepgram.js:176-185 | the inner vtt+ loop emits one word cue per remaining word and advances the counter by the number of words |
| Renderers.PlusLoop | deepgram.js:171-186 | the outer vtt+ loop emits the blocks of the reference word cues, with the counter carried across utterances |
| Cues.DecodeSerialize | deepgram.js:197-199 | reading back serialised cue blocks gives every cue, in order, at its time of day |
| Documents.TxtDocument | deepgram.js:159-166 | the txt document reads back as its texts; with no utterances it is empty |
| Documents.VttDocument | deepgram.js:188-201 | the vtt document reads back as the header and exactly the utterance cues; with no utterances it is the header alone |
| Documents.SrtDocument | deepgram.js:202-214 | the srt document reads back as exactly the utterance cues |
| Documents.SrtBlockIsVttBlock | deepgram.js:205-206 | an srt block is the vtt block of the same cue with the `.` of each timecode turned into `,` |
| Documents.PlusCuesCount | deepgram.js:173-186 | vtt+ has exactly one cue per word over all utterances |
| Documents.PlusCuesNumbered | deepgram.js:172-179 | the vtt+ counter runs 1, 2, 3, … across utterance boundaries |
| Documents.PlusCuesOneLine | deepgram.js:181-183 | no vtt+ caption contains a line break |
| Documents.PlusCuesAppend | deepgram.js:172-186 | the cues of two utterance lists in a row are the first list's cues, then the second's numbered on from where the first stopped |
| Documents.PlusDocument | deepgram.js:168-187 | the vtt+ document reads back as the header and exactly the word cues; without words it is the header alone |
| Documents.PlusDocumentCue | deepgram.js:173-185 | word `j` of utterance `u` is cue `1 + w + j`, where `w` is the number of words before `u`; it is timed as that word and shows the utterance's tokens with token `j` in bold |
| Dispatch.Select | deepgram.js:159-214 | only a known format can fail; vtt+ fails exactly when its guard rejects; txt, vtt and srt cannot fail without translation and otherwise fail with the translation phase's error |
| Dispatch.Render | deepgram.js:159-214 | as written, vtt+ succeeds exactly when `--translate` is `""`, and otherwise fails with the vtt+ error |
| Dispatch.RenderIntended | deepgram.js:169-170 | with the corrected guard, vtt+ succeeds exactly when translation is off; every other format renders as the program does |
| Dispatch.SelectOutcome | deepgram.js:159-214 | an unknown format renders the empty document without error; vtt+ fails only by its guard, with the vtt+ error; txt, vtt and srt succeed exactly when translation is off or every translation succeeds, and a failure carries the first rejected translation's error |
| Dispatch.PlusIgnoresTranslator | deepgram.js:168-187 | the vtt+ outcome does not depend on the translator, since that branch never translates |
| Dispatch.SelectDocument | deepgram.js:159-214 | a successful run of each format produces that format's reference document |
| Dispatch.UntranslatedIgnoresTranslator | deepgram.js:163-164 | with translation off, every format renders the same with any translator, and txt, vtt and srt succeed |
| Dispatch.TxtReadsBack | deepgram.js:159-166 | a successful txt run reads back as its texts |
| Dispatch.VttReadsBack | deepgram.js:188-201 | a successful vtt run reads back as one cue per utterance |
| Dispatch.SrtReadsBack | deepgram.js:202-214 | a successful srt run reads back as one cue per utterance |
| Dispatch.PlusReadsBack | deepgram.js:168-187 | a vtt+ run that the guard lets through reads back as one cue per word |
| Dispatch.EmptyTranscription | deepgram.js:159-214 | with no utterances, whatever `--translate` says, the txt and srt documents are empty, the vtt document is the header alone, and so is the vtt+ document when its guard lets it through |
| Dispatch.PlusRejectsDefault | deepgram.js:169-170 | as written, vtt+ with the default `--translate none` fails with the translation error; only `--translate ""` gets through |
| Dispatch.IntendedPlusAccepted | deepgram.js:169-170 | with the corrected guard, vtt+ succeeds exactly when translation is off and then yields the word-cue document; the other formats are unchanged |
| Options.ParsePiece | deepgram.js:129-131 | an accepted piece is exactly the key, `=` and value that the pattern captures, with no white space and no `=` in the value before its last character |
| Options.ParsePieceMatches | deepgram.js:129-131 | the parser returns exactly the key and value that `^(\S+)=(\S+)$` captures, with the greedy key ending at the last usable `=` |
| Options.ParsePieceAccepts | deepgram.js:129-130 | a piece is accepted exactly when it has no white space and has an `=` with a character on each side |
| Options.GreedyKeyExamples | deepgram.js:129-131 | `a=b=c` assigns `c` to the key `a=b`, and `a=b=` assigns `b=` to `a` |
| Options.RejectedPieceExamples | deepgram.js:129-130 | `a=` and `a = b` are not assignments |
| Options.Coerce | deepgram.js:132-135 | the coercion: `true`/`false` become booleans, all-digit values become integers, float literals become floats, and anything else stays a string; each class is recognised exactly |
| Options.NumberCoerceExamples | deepgram.js:134-135 | `007` is the integer 7, and `1.` and `.5` are floats |
| Options.TextCoerceExamples | deepgram.js:132-135 | `.` and `True` stay strings, and `false` is the boolean false |
| Options.CoerceSpelling | deepgram.js:132-135 | coercion loses nothing except the leading zeros of an integer |
| Options.SpellingCoerce | deepgram.js:132-135 | every value a coercion can produce comes back from its spelling |
| Options.Defaults | deepgram.js:116-125 | the default map holds the model and tier as strings, punctuate and utterances as true, and detect_language true for `auto` or the language as a string otherwise, and no other key |
| Options.ApplySettings | deepgram.js:127-137 | the only error is "invalid option specification"; a successful run keeps every earlier key and adds only keys some piece assigns |
| Options.BuildOptions | deepgram.js:116-138 | an empty `-O` always succeeds; the only error is "invalid option specification"; a successful run keeps every default key |
| Options.LastAssignmentMeaning | deepgram.js:136 | the value a key ends up with comes from its last assignment, and no later piece assigns that key |
| Options.ApplySettingsAccepts | deepgram.js:127-130 | applying the pieces succeeds exactly when every piece is an assignment; otherwise the error is "invalid option specification" |
| Options.ApplySettingsValue | deepgram.js:127-137 | each key holds the coercion of its last assignment, or its previous value when no piece assigns it |
| Options.BuildOptionsMeaning | deepgram.js:116-138 | an empty `-O` gives the defaults; otherwise the run fails exactly when some piece is malformed; a successful run gives the defaults overridden key by key by their last assignments |
| Strings.JoinSplitOn | deepgram.js:127 | for every string and separator character (`,` for `-O`), joining the `split` pieces with the separator gives the string back |
| Strings.SplitOnJoin | deepgram.js:127 | at least one piece, none containing the separator, joined with it, split back into exactly those pieces |
| Options.MalformedPieceExample | deepgram.js:126-130 | one malformed piece after a good one makes the whole option string invalid |
| Options.TrailingCommaRejected | deepgram.js:126-130 | a trailing comma leaves an empty piece, which makes the whole option string invalid |

## Left out

- Command-line parsing (yargs), environment variables and API keys, the
  calls to the transcription service, and reading the input (file, URL,
  stdin, MIME type) are left out. They are I/O; the transcription result
  and the translator are inputs instead.
- Writing the document to a file or stdout, verbose logging and the
  top-level error handler are left out. They are I/O; a run's result is a
  `Result<string, string>`.
- Times are given as whole milliseconds, `trunc(t * 1000)`. The
  floating-point product, negative offsets and offsets from year 10000 on
  are not modelled. From year 10000 on, `toISOString` switches to its
  extended-year form.
- Asynchronous calls are not modelled. Translations are awaited one after
  another before anything is written. The model therefore runs the
  translation phase (`Translation.Texts`) before the renderer, which gives
  the same output and the same first error.
- Options.Coerce: an integer keeps its exact value. JavaScript's `parseInt`
  returns a double, which loses precision above 2^53, and a float keeps its
  literal instead of the double `parseFloat` computes.
- Options.BuildOptions: the key `__proto__` is stored as an ordinary map
  entry. JavaScript ignores that assignment, because every coerced value is
  a boolean, number or string, so the key is dropped.
- `vtt+` with `--translate ""`: the program also builds a translation client
  and demands its API key, although the client is never used. This is
  environment handling, and it is left out.
- The read-back lemmas require that no text contains a line break,
  because a line break inside a text cannot be told apart from the document
  structure: Renderers.TxtLines, Cues.DecodeSerialize,
  Documents.TxtDocument, Documents.VttDocument, Documents.SrtDocument,
  Dispatch.TxtReadsBack, Dispatch.VttReadsBack and Dispatch.SrtReadsBack.
  The documents themselves are modelled for every text.
- A malformed service reply is not modelled, because the `Utterance` and
  `Word` records always carry their fields. In the program:
  - a missing `results.utterances` throws a TypeError in every format
    (deepgram.js:160, 173, 190, 203);
  - vtt+ also throws a TypeError for a missing `transcript` or `words`
    (deepgram.js:174, 176);
  - without translation, txt, vtt and srt print `undefined` for a missing
    transcript (deepgram.js:165, 199, 212);
  - a missing start or end time makes `toISOString` throw a RangeError
    (deepgram.js:152).

What the code does in three places where one might expect otherwise:

- An unknown `--format` is not rejected. It renders the empty document.
- A translation reply without text falls back to the original text. It is
  not an error.
- The vtt+ guard tests whether `--translate` is truthy, not whether it is
  `"none"`, although its error message (deepgram.js:170) speaks of a
  requested translation (see Findings).

## Findings

| source | as written | input that shows it | evidently intended | confidence | as-written member | corrected member |
|---|---|---|---|---|---|---|
| deepgram.js:169-170 | `if (argv.translate)` rejects vtt+ whenever `--translate` is non-empty, and its default is `"none"` (deepgram.js:52) | `-f vtt+` with no `--translate` fails with "sorry, VTT+ is not supported in combination with translation" | reject vtt+ only when a translation is requested, `argv.translate !== "none"`, as the other renderers test | high (not executed) | Dispatch.PlusRejectsDefault | Dispatch.IntendedPlusAccepted |
