# Flashcard recovery parser — a Dafny model

This project models the part of the flashcard back end that does real work on
data:

- `robustParseFlashcards` (api/flashcards.js). It turns the raw text of a
  Gemini completion into flashcard records `{q, a}` in four phases:
  - a normaliser that removes markdown fences and maps typographic quotes to
    ASCII quotes;
  - a cascade of `JSON.parse` attempts on more and more repaired versions of the
    text;
  - a line-driven question/answer extractor;
  - a fixed fallback record.
- The parse step of the PDF handler (api/pdfToFlashcards.js). It removes the
  fences, calls `JSON.parse` once, and gives a fixed error card on failure.
- The card-deletion handler (api/deleteFlashcard.js). It validates the
  request, picks a collection, removes one card with `Array.prototype.splice`
  (ECMA-262 section 23.1.3.31) and writes the list back.

Each regular-expression rewrite is written as an explicit left-to-right scan
over `seq<char>`, with the regular expression's own matching rules (the point
where the scan resumes, greedy runs, the `i` flag folding ASCII letters only).
The repairs of the cascade are each proved against a partner: an inverse that
deletes what they inserted (both backslash repairs, the double-quote escape), a
per-position reference definition (trailing commas), the characters they leave
in order (trailing commas, keys), or a count they preserve (single quotes). The
fence removals are proved to leave no fence behind, which makes the second
removal of api/flashcards.js:12 a no-op. The PDF handler's fence removals are
proved to leave no fence in the text it parses.

`JSON.parse` (ECMA-262 section 25.5.1) is a parameter `parse: string ->
Option<Json>`. It is left uninterpreted. `None` stands for a thrown
`SyntaxError`, which `tryParse` turns into `null`. Success is judged by
JavaScript truthiness (`Json.Truthy`): only `null`, `false`, `0` and `""` are
falsy, so a parsed `[]` or `{}` is returned, and so is any other truthy value:
a non-zero number, a non-empty string, `true`, or an object that is not a list
of cards.

Modules, one per concern:

| file | module | what it holds |
|---|---|---|
| json.dfy | `Json` | parsed values, truthiness, the `{q, a}` card |
| text.dfy | `Text` | JavaScript whitespace, `trim`, `indexOf`/`lastIndexOf`, counting |
| normalize.dfy | `Normalize` | the fence removal and the typographic-quote mapping |
| escapes.dfy | `Escapes` | the selective and the full backslash repairs |
| extraction.dfy | `Extraction` | `findJSON` and the array-before-object choice |
| commas.dfy | `Commas` | the trailing-comma repair |
| keys.dfy | `Keys` | the unquoted-key repair |
| quotes.dfy | `Quotes` | the single-to-double quote repair |
| qa.dfy | `Qa` | the question/answer line extractor (an imperative loop) |
| cascade.dfy | `Cascade` | the whole function: the cascade as a method, and the search it equals |
| pdf.dfy | `PdfParse` | the PDF handler's fence stripping and single parse |
| deleteflashcard.dfy | `DeleteFlashcard` | the deletion handler over a map-shaped document store |

The cascade `Cascade.RobustParseFlashcards` is a method written as the source
is. It reassigns `attempt` and `parsed` stage by stage and returns early. It is
proved equal to `Cascade.RobustParse`, which states the cascade as a search:
the first truthy parse in the ordered list `Cascade.Candidates`. The
question/answer loop `Qa.ExtractQa` is proved equal to a fold (`Qa.Run`) of a
one-line step function. The deletion handler is the method
`DeleteFlashcard.DeckStore.DeleteCard` on a class whose `docs` field is the
document store, a map from (collection, id) to the document's fields. Its
`splice` runs in place on an array (`DeleteFlashcard.SpliceInPlace`).

Behaviour of the code worth knowing; the model follows the code as written:

- Records use the keys `q` and `a`.
- The question/answer scan reads the raw text, not the normalised text.
- Stages 4 to 7 rewrite `attempt`. The extracted span is never carried
  forward.
- A `null` input is not modelled: api/flashcards.js:8 reads
  `rawText.slice` before anything else, so it would throw, and the only caller
  always passes a string.
- The marker class is `[:\s]`, so `Q`, `Question`, `A` or `Answer` followed by
  any whitespace counts as a marker. This includes prose lines starting with
  the article `A`.
- The comment at api/flashcards.js:5 says the PDF handler uses the same parser.
  It does not: api/pdfToFlashcards.js:62-71 strips fences case-sensitively,
  does no quote mapping, makes one parse with no truthiness test and no repair,
  and on failure returns its own error card.
- The first parse does not see a well-formed list exactly as it came. The
  normaliser of api/flashcards.js:10-18 runs before the first `tryParse`
  (api/flashcards.js:29-33) and knows nothing of JSON strings. A typographic
  quote inside a string value is mapped (`["it’s"]` is parsed as `["it's"]`),
  and three backticks inside a string value are removed (`["```"]` is parsed
  as `[""]`).
- The result is not always a non-empty list of cards. Any truthy value that
  any parse yields is returned as it is: a number, a string, `true`, or an
  object.

## Model

| member | source | states |
|---|---|---|
| `Json.EmptyContainersAreTruthy` | api/flashcards.js:30 | an empty array and an empty object are truthy; `null`, `false`, `0` and `""` are not |
| `Normalize.StripFences` | api/flashcards.js:11 | no contract of its own: the global, case-insensitive removal of three backticks with an optional `json` tag; stated by `Normalize.StripFencesLeavesNoFence`, `Normalize.JsonTagStripped`, `Normalize.OtherTagKept` and `Normalize.FenceExamples` |
| `Normalize.StripTicks` | api/flashcards.js:12 | no contract of its own: the removal of every three backticks in a row, left to right; stated by `Normalize.StripTicksLeavesNoFence` and `Normalize.SecondStripIsNoOp` |
| `Normalize.NormalizeText` | api/flashcards.js:10-18 | no contract of its own: both fence removals, `trim` and the two quote mappings, in the source's order; stated by `Normalize.NormalizeIsClean`, `Normalize.NormalizeIdempotent` and the rows below |
| `Normalize.NormalizeIsClean` | api/flashcards.js:10-18 | the normalised text contains no fence, none of the ten typographic quotes, and no whitespace at either end |
| `Normalize.NormalizeIdempotent` | api/flashcards.js:10-18 | normalising twice gives the same text as normalising once |
| `Normalize.SmartQuoteChanged` | api/flashcards.js:16-18 | a text holding a typographic quote anywhere, inside a string value or not, is changed by the normaliser |
| `Normalize.FenceChanged` | api/flashcards.js:11-12 | a text holding three backticks anywhere is changed by the normaliser |
| `Normalize.CurlyApostropheMapped` | api/flashcards.js:10-18 | `’` between text with no backtick and no typographic quote, and no whitespace at the ends, is replaced by `'` and nothing else changes |
| `Normalize.FenceBetweenRemoved` | api/flashcards.js:10-18 | three backticks between such text, with no `json` tag after them, are removed and nothing else changes |
| `Normalize.CurlyApostropheExample` | api/flashcards.js:10-18 | `["it’s"]` reaches the first parse as `["it's"]` |
| `Normalize.FenceInStringExample` | api/flashcards.js:10-18 | `["```"]` reaches the first parse as `[""]` |
| `Normalize.StripFencesLeavesNoFence` | api/flashcards.js:11 | the fence removal with its optional `json` tag already leaves no three backticks in a row; a text that does not start with a fence keeps its leading backticks |
| `Normalize.SecondStripIsNoOp` | api/flashcards.js:11-12 | the second fence removal changes nothing after the first |
| `Normalize.StripTicksLeavesNoFence` | api/flashcards.js:12 | after the plain fence removal no three backticks remain in a row; the run of k backticks at the start of the text is left with k mod 3 |
| `Normalize.NoFenceFixed` | api/flashcards.js:11-12 | text with no fence is left unchanged by both fence removals |
| `Normalize.JsonTagStripped` | api/flashcards.js:11 | a fenced block tagged `json` in any letter case loses both fences and the tag |
| `Normalize.OtherTagKept` | api/flashcards.js:11 | any text after an opening fence other than a `json` tag, such as another language name, is kept |
| `Normalize.FenceExamples` | api/flashcards.js:11 | the fenced `JSON[]` block becomes `[]`, and the fenced `js[]` block becomes `js[]` |
| `Normalize.ReplaceEach` | api/flashcards.js:16-18 | a one-character class replacement keeps the length and maps each position independently: class members become the substitute and all other characters are kept |
| `Escapes.EscapeStray` | api/flashcards.js:36 | the output length is the input length plus the number of backslashes that do not begin a JSON escape, counting one at the end of the text |
| `Escapes.EscapeStrayRoundTrip` | api/flashcards.js:36 | deleting the inserted backslashes restores the input |
| `Escapes.EscapeStrayNotIdempotent` | api/flashcards.js:36 | `\q` becomes `\\q`, and a second run gives `\\\q` |
| `Escapes.EscapeAll` | api/flashcards.js:96 | the output is longer than the input by exactly the number of backslashes in the input |
| `Escapes.EscapeAllCounts` | api/flashcards.js:96 | every backslash occurs twice as often in the output as in the input, and every other character exactly as often |
| `Escapes.EscapeAllRoundTrip` | api/flashcards.js:96 | deleting one backslash of every doubled pair restores the input |
| `Extraction.ExtractSpan` | api/flashcards.js:51-52 | a span it returns is never empty; which span it returns is stated by `Extraction.ArraySpanFirst` |
| `Extraction.FindJson` | api/flashcards.js:44-49 | a span is found exactly when some `open` precedes some `close`; a found span starts with `open` and ends with `close` |
| `Extraction.FindJsonSpan` | api/flashcards.js:44-49 | `null` exactly when `open` is absent, `close` is absent, or the last `close` is at or before the first `open`; otherwise the span runs from the first `open` to the last `close` inclusive |
| `Extraction.ArraySpanFirst` | api/flashcards.js:51-52 | an array span is preferred to an object span; the chosen span is bracketed by a matching pair |
| `Commas.DropTrailingCommas` | api/flashcards.js:69 | no contract of its own: the left-to-right scan of `/,(\s*[}\]])/g`; stated by `Commas.DropTrailingCommasDeletesExactly` and `Commas.OnlyCommasDeleted` |
| `Commas.DropTrailingCommasDeletesExactly` | api/flashcards.js:69 | the scan as the regular expression runs it equals the per-position deletion of each comma that is followed by optional whitespace and `}` or `]` |
| `Commas.OnlyCommasDeleted` | api/flashcards.js:69 | with every comma removed from both, output and input are equal, and the output is never longer; which commas go is stated by `Commas.DropTrailingCommasDeletesExactly` |
| `Commas.SinglePass` | api/flashcards.js:69 | a single pass: `,,]` becomes `,]` |
| `Commas.RewritesInsideStrings` | api/flashcards.js:69 | a comma inside a string literal before `]` is deleted too |
| `Keys.QuoteKeys` | api/flashcards.js:77-80 | no contract of its own: the left-to-right scan of the unquoted-key pattern; stated by `Keys.QuotesBareKey`, `Keys.OpenerWithoutKeyCopied` and `Keys.OnlyQuotesAndSpaceChange` |
| `Keys.OnlyQuotesAndSpaceChange` | api/flashcards.js:77-80 | with every `"` and every whitespace character removed from both, output and input are equal; where quotes go is stated by `Keys.QuotesBareKey` and `Keys.OpenerWithoutKeyCopied` |
| `Keys.QuotesBareKey` | api/flashcards.js:77-80 | an identifier after `{` or `,` and optional whitespace, followed by optional whitespace and `:`, is wrapped in `"`, and the whitespace before the colon is dropped |
| `Keys.NoOpenerUnchanged` | api/flashcards.js:77-80 | text without `{` and `,` is unchanged |
| `Keys.QuotedKeyUntouched` | api/flashcards.js:77-80 | an already quoted key is left alone: after any character, whitespace and a `"`, nothing is inserted and the scan goes on with the rest |
| `Keys.OpenerWithoutKeyCopied` | api/flashcards.js:77-80 | a `{` or `,` not followed by optional whitespace, an identifier, optional whitespace and `:` is copied, and the scan moves on by one character |
| `Keys.CopiesOpenerFree` | api/flashcards.js:77-80 | text containing no `{` and no `,`, placed before any other text, is copied unchanged |
| `Keys.QuotesExample` | api/flashcards.js:77-80 | `{ q : 1}` becomes `{ "q": 1}` |
| `Keys.RewritesInsideStrings` | api/flashcards.js:77-80 | `,b:` inside a string literal is quoted as if it were a member name |
| `Quotes.EscapeDq` | api/flashcards.js:88 | the callback's escaping of `"` never yields text that starts with `"`; its inverse is proved by `Quotes.EscapeDqRoundTrip` |
| `Quotes.SingleToDouble` | api/flashcards.js:88 | no contract of its own: the left-to-right pairing of `'`; stated by `Quotes.QuotesFirstPair`, `Quotes.SingleQuotesLeft` and `Quotes.LastQuoteKept` |
| `Quotes.EscapeDqRoundTrip` | api/flashcards.js:88 | escaping the double quotes of the quoted text loses nothing (unescaping gives it back) |
| `Quotes.QuotesFirstPair` | api/flashcards.js:88 | the text before the first `'` is kept; `'x'` becomes `"x"` with every `"` in x escaped; the scan resumes after the closing `'` |
| `Quotes.SingleQuotesLeft` | api/flashcards.js:88 | the number of `'` left is the original number mod 2 |
| `Quotes.NoSingleQuoteUnchanged` | api/flashcards.js:88 | text without `'` is unchanged |
| `Quotes.LastQuoteKept` | api/flashcards.js:88 | a `'` that is the only one in the text has no partner: it and all the text around it are kept unchanged |
| `Quotes.ApostropheBreaksPair` | api/flashcards.js:88 | pairing is left to right and blind to apostrophes: `'don't'` becomes `"don"t'` |
| `Qa.QuestionMarker` | api/flashcards.js:110-112 | the length of the question marker that starts the line: 0 for none, 2 for the `Q` form, 9 for the `Question` form, never more than the line; the cases are `Qa.QuestionLetterStarts` and `Qa.QuestionWordStarts` |
| `Qa.AnswerMarker` | api/flashcards.js:114-115 | the same for the answer marker: 0, 2 for the `A` form, 7 for the `Answer` form; the cases are `Qa.AnswerLetterOverwrites` and `Qa.AnswerWordOverwrites` |
| `Qa.Step` | api/flashcards.js:110-120 | no contract of its own: one pass of the loop body over the `q`/`a` buffers and the records; stated by `Qa.QuestionLineStarts`, `Qa.AnswerLineOverwrites` and `Qa.ContinuationJoins` |
| `Qa.Run` | api/flashcards.js:109-121 | no contract of its own: the loop as a fold of `Qa.Step` over the trimmed lines; `Qa.ExtractQa` is proved equal to it, and `Qa.RecordsOnlyGrow` states its monotonicity |
| `Qa.ExtractCards` | api/flashcards.js:104-123 | no contract of its own: splitting, trimming, the loop and the final push; stated by `Qa.ExtractedCardsGood`, `Qa.AtMostOneCardPerQuestion` and `Qa.TwoRecords` |
| `Qa.SplitLines` | api/flashcards.js:105 | splitting on `\r?\n` gives one more piece than there are `\n` |
| `Qa.SplitThenTrimSame` | api/flashcards.js:105-109 | after trimming, splitting on `\r?\n` and splitting on `\n` give the same lines |
| `Qa.ExtractQa` | api/flashcards.js:104-123 | the loop with its `q`/`a` buffers and the final push gives exactly the records of the fold of the line step over the trimmed lines |
| `Qa.ExtractedCardsGood` | api/flashcards.js:110-123 | every record has a non-empty question, and no question or answer has whitespace at either end |
| `Qa.AtMostOneCardPerQuestion` | api/flashcards.js:110-123 | there are at most as many records as question-marker lines |
| `Qa.RecordsOnlyGrow` | api/flashcards.js:109-121 | records of a prefix of the lines are a prefix of the records of all lines, so records come out in the order of their question lines |
| `Qa.AnswerBeforeFirstQuestionDropped` | api/flashcards.js:109-123 | lines before the first question line (answer text included) do not change the result |
| `Qa.QuestionLineStarts` | api/flashcards.js:110-113 | a `Q: ` line pushes the buffered question, if any, and starts a new question with an empty answer |
| `Qa.AnswerLineOverwrites` | api/flashcards.js:114-115 | an `A: ` line overwrites the answer buffer and changes nothing else |
| `Qa.QuestionLetterStarts` | api/flashcards.js:110-113 | any line starting with `Q` or `q` and then a colon or whitespace pushes the buffered question, if any, and starts a question from the trimmed rest of the line with an empty answer |
| `Qa.QuestionWordStarts` | api/flashcards.js:110-113 | the same for `Question` in any letter case followed by a colon or whitespace; the whole word is removed |
| `Qa.AnswerLetterOverwrites` | api/flashcards.js:114-115 | any line starting with `A` or `a` and then a colon or whitespace overwrites the answer with the trimmed rest of the line and changes nothing else |
| `Qa.AnswerWordOverwrites` | api/flashcards.js:114-115 | the same for `Answer` in any letter case followed by a colon or whitespace |
| `Qa.ContinuationJoins` | api/flashcards.js:116-120 | a blank line changes nothing; any other non-marker line is appended with one space to the answer if it holds text, otherwise to the question if that holds text, otherwise ignored |
| `Qa.ArticleIsAnswerMarker` | api/flashcards.js:114-115 | a prose line beginning `A ` is read as an answer marker and overwrites the answer |
| `Qa.TwoRecords` | api/flashcards.js:104-123 | alternating `Q:`/`A:` lines give exactly one record per pair, in order |
| `Cascade.Candidates` | api/flashcards.js:29-97 | six texts are tried, or eight when a span is extracted; their order is stated by `Cascade.CandidatesLayout` |
| `Cascade.StageFour` | api/flashcards.js:68-97 | no contract of its own: the texts of stages 4 to 7; stated by `Cascade.StageFourLayout` |
| `Cascade.FirstTruthy` | api/flashcards.js:29-101 | no contract of its own: the first truthy parse among the candidates; stated by `Cascade.FirstTruthyIsFirst` and `Cascade.FirstTruthyAppend` |
| `Cascade.Settle` | api/flashcards.js:103-136 | no contract of its own: a found value, else the question/answer records, else the fallback record; stated by `Cascade.RecordsNeverEmpty` and `Cascade.FallbackWhenNothingFound` |
| `Cascade.RobustParse` | api/flashcards.js:7-137 | no contract of its own: the whole function as a search; `Cascade.RobustParseFlashcards` is proved equal to it, and `Cascade.StructuredIsFirstTruthy` and `Cascade.RecordsOnlyWhenNoParse` state what it returns |
| `Cascade.FirstTruthyIsFirst` | api/flashcards.js:29-101 | the search finds a value exactly when some candidate parses to a truthy value, and then it is the value of the first such candidate |
| `Cascade.FirstTruthyAppend` | api/flashcards.js:29-101 | a value found in a prefix of the candidates is the value found in the whole list |
| `Cascade.CandidatesLayout` | api/flashcards.js:29-97 | the texts tried are, in order: the normalised text, its selective escape, the extracted span and its escape (only when a span exists), then stages 4 to 7 applied to the escaped text, never to the span |
| `Cascade.StageFourLayout` | api/flashcards.js:68-97 | stages 4 to 7 apply cumulatively: trailing commas, then keys, then single quotes, then the full escape |
| `Cascade.RobustParseFlashcards` | api/flashcards.js:7-137 | the function as written, stage by stage with early returns, returns exactly the search result: the first truthy parse, else the extracted records, else the fallback |
| `Cascade.StructuredIsFirstTruthy` | api/flashcards.js:28-101 | a returned parsed value is truthy and is the parse of the first candidate whose parse is truthy; falsy parses are passed over |
| `Cascade.RecordsOnlyWhenNoParse` | api/flashcards.js:28-128 | records are built exactly when no candidate parses to a truthy value |
| `Cascade.StrictParseWins` | api/flashcards.js:29-33 | when the normalised text parses to a truthy value, that value is returned unchanged |
| `Cascade.EmptyContainersReturned` | api/flashcards.js:29-33 | a parsed `[]` or `{}` is returned, not passed over |
| `Cascade.NonListReturned` | api/flashcards.js:29-33 | a non-zero number, a non-empty string, `true` or an object from the first parse is returned as it is |
| `Cascade.Fallback` | api/flashcards.js:131-136 | one record; its question is the failure sentence and its answer is the prefix of the raw text of length min(200, length) |
| `Cascade.RecordsNeverEmpty` | api/flashcards.js:123-136 | a list the function builds itself has at least one record, each with a non-empty question; an empty list can only come from a parse |
| `Cascade.FallbackWhenNothingFound` | api/flashcards.js:125-136 | with no truthy parse and no question line, the result is exactly the fallback record |
| `Cascade.EmptyInput` | api/flashcards.js:7-137 | for the empty text, when `""` does not parse to a truthy value, the result is the fallback record with an empty answer |
| `PdfParse.StripJsonFences` | api/pdfToFlashcards.js:67 | no contract of its own: the case-sensitive removal of three backticks followed by `json`; stated by `PdfParse.JsonBlockUnwrapped` and `PdfParse.OtherCaseTagKept` |
| `PdfParse.Cleaned` | api/pdfToFlashcards.js:67 | no contract of its own: both fence removals and `trim`; stated by `PdfParse.CleanedHasNoFence` and `PdfParse.PlainTextUnchanged` |
| `PdfParse.PdfFlashcards` | api/pdfToFlashcards.js:62-71 | no contract of its own: the default text, the cleaning and the single parse with its error card; stated by `PdfParse.ParsedValueReturned`, `PdfParse.FailureIgnoresInput`, `PdfParse.MissingTextIsEmptyList`, `PdfParse.NoRepair` and `PdfParse.ParsedOnce` |
| `PdfParse.RawText` | api/pdfToFlashcards.js:62 | a missing or empty model text becomes `"[]"`; any other text is kept |
| `PdfParse.CleanedHasNoFence` | api/pdfToFlashcards.js:67 | the text handed to `JSON.parse` contains no fence |
| `PdfParse.PlainTextUnchanged` | api/pdfToFlashcards.js:67 | text without backticks or end whitespace reaches `JSON.parse` as it is, with no quote mapping |
| `PdfParse.JsonBlockUnwrapped` | api/pdfToFlashcards.js:67 | a block opened by a lower-case `json`-tagged fence loses the tag and both fences |
| `PdfParse.OtherCaseTagKept` | api/pdfToFlashcards.js:67 | a `JSON` tag in any other letter case stays in front of the parsed text |
| `PdfParse.ParsedValueReturned` | api/pdfToFlashcards.js:65-68 | a successful parse is returned whatever it is, falsy values included |
| `PdfParse.FailureIgnoresInput` | api/pdfToFlashcards.js:69-71 | a failed parse gives the same single error card `{q: "Error", a: "Failed to parse Gemini output"}` for every input |
| `PdfParse.MissingTextIsEmptyList` | api/pdfToFlashcards.js:62-68 | with no model text, or an empty one, the result is the empty list |
| `PdfParse.NoRepair` | api/pdfToFlashcards.js:65-71 | plain text that does not parse as it stands gives the error card |
| `PdfParse.ParsedOnce` | api/pdfToFlashcards.js:65-71 | the result depends on `JSON.parse` at one text only |
| `DeleteFlashcard.Splice` | api/deleteFlashcard.js:28 | no contract of its own: `splice(index, 1)` on the card list; stated by `DeleteFlashcard.SpliceInRange`, `DeleteFlashcard.SpliceOutOfRange`, `DeleteFlashcard.SpliceNegative` and `DeleteFlashcard.SpliceInPlace` |
| `DeleteFlashcard.Delete` | api/deleteFlashcard.js:9-35 | no contract of its own: the handler as a function from the store and the request to a status and a new store; stated by the rows below, and `DeleteFlashcard.DeckStore.DeleteCard` is proved equal to it |
| `DeleteFlashcard.CollectionFor` | api/deleteFlashcard.js:15-16 | `"manual"` selects `flashcards`; anything else, or nothing, selects `flashcardDecks` |
| `DeleteFlashcard.SpliceStart` | api/deleteFlashcard.js:28 | the start position of `splice`: an index in range is kept, a large one stops at the length, a negative one counts from the end and stops at 0 |
| `DeleteFlashcard.SpliceInRange` | api/deleteFlashcard.js:28 | an index in range removes exactly that card: one shorter, others in order, same multiset plus the removed card |
| `DeleteFlashcard.SpliceOutOfRange` | api/deleteFlashcard.js:28 | an index at or past the end removes nothing |
| `DeleteFlashcard.SpliceNegative` | api/deleteFlashcard.js:28 | a negative index removes the card at max(len + index, 0) of a non-empty list and nothing from an empty one |
| `DeleteFlashcard.SpliceMinusOneDropsLast` | api/deleteFlashcard.js:28 | index -1 removes the last card |
| `DeleteFlashcard.SpliceInPlace` | api/deleteFlashcard.js:28 | the in-place removal on an array leaves, in its first n cells, exactly the spliced list |
| `DeleteFlashcard.StoredCards` | api/deleteFlashcard.js:26-28 | a missing or falsy field is the empty list, an array field is its elements, and a truthy non-array field makes `splice` throw |
| `DeleteFlashcard.MissingDataRejected` | api/deleteFlashcard.js:11-13 | status 400 exactly when the deck id is missing or empty or the index is missing (index 0 is accepted), and nothing is written |
| `DeleteFlashcard.MissingDeckNotFound` | api/deleteFlashcard.js:18-23 | status 404 exactly when the selected document does not exist, and nothing is written |
| `DeleteFlashcard.NotAListFails` | api/deleteFlashcard.js:26-35 | a truthy non-array `flashcards` field gives status 500 and no write |
| `DeleteFlashcard.OnlyTheListChanges` | api/deleteFlashcard.js:30 | no document appears or disappears, other documents are unchanged, and on success only the `flashcards` field of the selected document is written |
| `DeleteFlashcard.InRangeRemovesOne` | api/deleteFlashcard.js:26-30 | an in-range index (0 included) gives 200 and writes the list without that card |
| `DeleteFlashcard.OutOfRangeWritesBack` | api/deleteFlashcard.js:26-30 | an index past the end gives 200 and writes the list back unchanged |
| `DeleteFlashcard.DeckStore.DeleteCard` | api/deleteFlashcard.js:9-35 | the handler on the store: the returned status and the new store are those of the request function applied to the old store |

## Left out

- Calls to Gemini, prompt and title construction, and the HTTP handler around
  `robustParseFlashcards` (api/flashcards.js:140-245 and
  api/pdfToFlashcards.js:1-60, 73-110): network I/O with no logic of their own.
  The model text reaches the model as a parameter.
- Firestore reads and writes and the `firebase-admin` setup
  (api/firebaseAdmin.js): the document store is a map from (collection, id) to
  fields. `ref.get()` and `ref.update()` are a map lookup and a map update, and
  store failures other than a `splice` on a non-array are not modelled.
- The 405 answer to a non-POST request (api/deleteFlashcard.js:4-6): a routing
  check before the modelled part of the handler.
- Concurrency and a missing request body in the deletion handler. The source
  reads the deck with `await ref.get()` (api/deleteFlashcard.js:19) and writes
  it with a separate `await ref.update()` (line 30). Two deletes on the same
  deck can interleave, and one removal can then be lost.
  `DeleteFlashcard.DeckStore.DeleteCard` makes the read and the write one
  atomic step, so the model does not capture that lost update. A request with
  no body throws when line 9 destructures it, and the handler answers 500. The
  model takes the body's fields as parameters and does not model that case.
- PDF upload handling (`formidable`, `fs`, `pdf-parse`), api/uploadImage.js,
  api/getFlashcards.js, api/getDeck.js, api/deleteDeck.js and
  api/updateDeckTitle.js: I/O or single store lookups with no data
  transformation.
- `JSON.parse` itself: it is an uninterpreted parameter. The model therefore
  does not prove that a given malformation is actually recovered; that would
  need a JSON grammar.
- Logging (`console.log`, `console.error`) and the thrown error on a `null`
  input to `robustParseFlashcards` (api/flashcards.js:8).
- JavaScript coercions: `parseInt(limit) || 12`, and `splice`'s
  `ToIntegerOrInfinity` applied to a non-numeric index. The index is an `int`.
  A request body's `deckId` and `type` are optional strings, so falsy
  non-string ids (`0`, `false`, `null`) are not distinguished from a missing id.
  Two edges follow from this: a `null` index passes the `index === undefined`
  test of api/deleteFlashcard.js:11 and `splice(null, 1)` removes card 0 (the
  model's `Some(0)`), and a truthy non-string `deckId` makes `.doc(deckId)`
  throw, which answers 500; neither is a separate case in the model.
- UTF-16 detail: strings are sequences of Unicode scalar values, not UTF-16
  code units. Every character the rewrites test for is a single code unit, so
  the rewrites are unaffected. `Cascade.Fallback` takes the first 200
  characters; JavaScript's `slice(0, 200)` counts code units, which differs
  only for text containing characters outside the Basic Multilingual Plane.
- JSON numbers are kept as reals. Only their comparison with zero matters,
  for truthiness.
- `DeleteFlashcard.SpliceInPlace`: a JavaScript array shrinks on `splice`, a
  Dafny array keeps its size. The method returns the new length and the store
  keeps the first n cells.
