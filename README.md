# Google Maps permalink generator: a Dafny model

The page in `src/App.jsx` is a small tool for local-SEO work. The user types
four business fields: latitude, longitude, a location string and the
business's Google CID. They also type a list of search keywords, one input per
keyword or as free text in a bulk area. The page turns every non-blank keyword
into a Google Maps URL that embeds the fields and the keyword, with each
whitespace run of the keyword replaced by `+`. It can export the result as a
14-column CSV whose cells spell the URL out piece by piece.

This project models that core in Dafny:

- `strings.dfy` (module `Strings`) covers the JavaScript string primitives the
  page relies on. `IsWs` is the ECMAScript WhiteSpace and LineTerminator set,
  which `trim` and the regex class `\s` share. The module also defines
  `trim`, `split` on one character, `join`, and `replace(/\s+/g, '+')`
  (`CollapseWs`).
- `keywords.dfy` (module `Keywords`) covers the bulk tokenizer
  (`split('\n')`, `map(trim)`, `filter(k => k !== '')`) and removal by index.
- `permalinks.dfy` (module `Permalinks`) covers the business record, the link
  record, keyword formatting, the URL template and `generatePermalinks`'s pure
  part, `Generate`.
- `csv.dfy` (module `Csv`) covers the rows and the CSV text built by
  `downloadCSV`. It also has a decoder for exactly that layout, which serves as
  the serialiser's inverse.
- `page.dfy` (module `Page`) covers the page state. `class App` holds the
  fields `businessData`, `keywords`, `bulkKeywords`, `generatedLinks` and
  `isLoading`. Its event handlers are methods that update them, and each
  handler is one atomic state change.
- `wrappers.dfy` (module `Wrappers`) holds `Option`, `Result` and `Notice`.
  A `Notice` is one tag per `alert` message a handler can raise.

Three facts about the code shape the model:

- The business-field check rejects only `''`. A field of blanks passes
  (`WhitespaceFieldsAccepted`).
- The bulk tokenizer keeps duplicate keywords; nothing in the chain
  `split`, `map(trim)`, `filter` removes them.
- The URL template has no `=` after `ll` and inserts every field verbatim,
  without percent-encoding. The model keeps that form exactly.

## Model

| member | source | states |
|---|---|---|
| Strings.Trim | src/App.jsx:49 | the result starts and ends with a non-whitespace character, or is empty |
| Strings.TrimSplits | src/App.jsx:49 | `trim` removes exactly an all-whitespace prefix and an all-whitespace suffix: `s == lead + Trim(s) + trail` |
| Strings.TrimEmpty | src/App.jsx:42 | a string trims to `''` if and only if every character is whitespace |
| Strings.TrimIdempotent | src/App.jsx:49 | trimming an already trimmed string changes nothing |
| Strings.Split | src/App.jsx:48 | `split` gives at least one piece, no piece contains the separator, and joining the pieces with it gives back the text |
| Strings.SplitAtSeparator | src/App.jsx:48 | splitting `a + sep + b` is splitting `a` followed by splitting `b` |
| Strings.SplitJoin | src/App.jsx:48 | splitting the join of separator-free pieces gives the pieces back |
| Strings.Words | src/App.jsx:79 | every word is non-empty and free of whitespace; the four lemmas below fix which runs of the text they are |
| Strings.WordsSkipsGap | src/App.jsx:79 | a whitespace run in front of the text adds no word |
| Strings.WordsCons | src/App.jsx:79 | a non-empty whitespace-free run followed by whitespace or the end is the first word, and the rest of the words follow it |
| Strings.WordsOfWord | src/App.jsx:79 | a non-empty whitespace-free string is exactly one word |
| Strings.WordsOfSpacedWords | src/App.jsx:79 | words joined by single spaces are exactly the words of the joined text, in order |
| Strings.CollapseWs | src/App.jsx:79 | `replace(/\s+/g, '+')` leaves no whitespace |
| Strings.CollapseWsNoWs | src/App.jsx:79 | text without whitespace is left unchanged |
| Strings.CollapseWsIdempotent | src/App.jsx:79 | applying the replacement twice is the same as once |
| Strings.CollapseWsJoinsWords | src/App.jsx:79 | on trimmed text the replacement equals the text's words joined by `+` |
| Strings.CollapseWsSpacedWords | src/App.jsx:79 | words separated by single spaces are trimmed, and the replacement joins the same words with `+` |
| Keywords.Filter | src/App.jsx:50 | the kept elements are taken from the input and satisfy the predicate |
| Keywords.FilterAppend | src/App.jsx:50 | filtering distributes over concatenation, so order is kept |
| Keywords.ParseBulk | src/App.jsx:47-50 | every parsed keyword is non-empty, trimmed and free of line feeds |
| Keywords.ParseBulkLine | src/App.jsx:47-50 | a single line parses to its trim, or to no keyword when it is blank |
| Keywords.ParseBulkAppend | src/App.jsx:47-50 | parsing `a + "\n" + b` gives the keywords of `a` followed by those of `b` |
| Keywords.ParseBulkOfBlank | src/App.jsx:47-50 | all-whitespace text parses to no keyword |
| Keywords.ParseBulkOfNonBlank | src/App.jsx:47-50 | text with some non-whitespace character parses to at least one keyword |
| Keywords.ParseBulkEmpty | src/App.jsx:42-55 | the parse is empty if and only if the text trims to `''`, so the "no valid keywords" branch is dead |
| Keywords.ParseBulkJoin | src/App.jsx:47-50 | non-empty, trimmed, line-feed-free keywords joined by `\n` parse back to the same list |
| Keywords.ParseBulkIdempotent | src/App.jsx:47-50 | re-parsing the parsed list joined by `\n` gives the same list |
| Keywords.RemoveAt | src/App.jsx:31 | removes exactly the entry at an in-range index and keeps the rest in order; any other index leaves the list as it was |
| Permalinks.FormatKeyword | src/App.jsx:79 | the formatted keyword has no whitespace and is the trimmed keyword's words joined by `+` |
| Permalinks.FormatSpacedKeyword | src/App.jsx:79 | a keyword typed with single spaces is formatted by turning each space into `+` |
| Permalinks.MakeLink | src/App.jsx:78-88 | the record holds the given id, the trimmed keyword, its `+`-joined words and the template URL for them |
| Permalinks.Generate | src/App.jsx:63-92 | the empty-field notice comes exactly when some field is `''`. The no-keyword notice comes exactly when the fields are filled and every keyword is blank. Otherwise the result is one record per non-blank keyword, in order, with ids 1..N |
| Permalinks.GeneratedKeywordsTrimmed | src/App.jsx:84 | every generated `keyword` is non-empty and trimmed |
| Permalinks.ValidKeywordsEmpty | src/App.jsx:71-72 | no keyword survives the filter if and only if every keyword is all whitespace |
| Permalinks.WhitespaceFieldsAccepted | src/App.jsx:65 | business fields of blanks pass the field check, and generation succeeds |
| Permalinks.GenerateFromParsedList | src/App.jsx:57-88 | generating from the parsed bulk text succeeds, and record i carries parsed keyword i and its whitespace-collapsed form |
| Csv.Decimal | src/App.jsx:108 | an id is written as a non-empty string of decimal digits, with no leading zero for a positive id |
| Csv.DecimalRoundTrip | src/App.jsx:108 | reading those digits back gives the id |
| Csv.DataRowRebuildsPermalink | src/App.jsx:107-122 | a data row has 14 cells; cells 2 to 12 concatenate to the URL for the row's formatted keyword, and cells 13 and 14 hold the link's permalink |
| Csv.GeneratedRowIsConsistent | src/App.jsx:107-122 | for links generated from the same fields, cells 2 to 12 concatenate to the permalink in cells 13 and 14 |
| Csv.Export | src/App.jsx:99-126 | the export fails with the "no links" notice exactly when there are no links |
| Csv.DecodeEncodeRow | src/App.jsx:125 | a row of cells without `"` or line feed decodes back to the same cells |
| Csv.DecodeEncodeLines | src/App.jsx:124-126 | a list of such rows, encoded line by line, decodes back to the same rows |
| Csv.TableSafe | src/App.jsx:105-122 | with safe fields and links, every row of the table has 14 cells, none holding `"` or a line feed |
| Csv.ExportRoundTrip | src/App.jsx:124-126 | with safe fields and links, the CSV text has 1 + N lines and decodes to the header followed by one row per link |
| Csv.EmbeddedQuoteIsAmbiguous | src/App.jsx:125 | since `"` is not doubled, the one cell `x","y` is written exactly like the two cells `x` and `y` |
| Page.App.constructor | src/App.jsx:12-22 | the page starts with empty fields, a single empty keyword slot, empty bulk text, no links and no loading |
| Page.App.EditBusinessField | src/App.jsx:496-527 | typing into one business input replaces that field only |
| Page.App.EditBulkKeywords | src/App.jsx:590 | typing into the bulk area replaces the bulk text only |
| Page.App.AddKeyword | src/App.jsx:25-27 | the keyword list gains exactly one `''` at its end |
| Page.App.RemoveKeyword | src/App.jsx:29-33 | a single-slot list is left alone. Otherwise exactly the slot at `index` goes and the rest keep their order. The list never becomes empty |
| Page.App.UpdateKeyword | src/App.jsx:35-39 | slot `index` becomes `value`; the length and every other slot are unchanged |
| Page.App.GeneratePermalinks | src/App.jsx:63-92 | on success `generatedLinks` is replaced by the generated records; on either notice it is left as it was. `isLoading` is false on every path |
| Page.App.ProcessBulkKeywords | src/App.jsx:41-61 | blank text raises its notice and changes nothing. Otherwise `keywords` becomes the parsed list, the bulk text is cleared and generation runs on that list. The "no valid keywords" notice never occurs |
| Page.App.DownloadCsv | src/App.jsx:99-126 | the download content is the CSV export of the current fields and links, and is an error exactly when there are no links |

## Left out

- Page markup, marketing cards, icons, theme and `toggleTheme` (src/App.jsx:1-9 and 137-688): presentation only.
- `copyToClipboard` (src/App.jsx:94-97): a browser clipboard call with a notice.
- The Blob, object-URL and anchor-click download (src/App.jsx:128-134): browser file I/O. Only the CSV text handed to it is modelled.
- `alert` dialogs: they are returned as `Notice` values instead of being shown.
- React's state hooks and render batching: every handler is one atomic state change.
  - `processBulkKeywords` passes its parsed list to generation explicitly, so the model runs generation on that list, just as the code does.
  - `isLoading` is set and cleared within one event. The model keeps it false between events and clears it on every path of `GeneratePermalinks`.
- Page.App.GeneratePermalinks: takes the keyword list as an argument. The Generate button calls `generatePermalinks()` with the default argument `keywords` (src/App.jsx:63, 613), which in the model is `GeneratePermalinks(keywords)`.
- Page.App.UpdateKeyword: requires an index inside the list. The page only calls it for rendered slots; an out-of-range write in JavaScript would lengthen the array with holes, which the model does not capture.
- Page.App.DownloadCsv: the rows take the business fields as they are at download time, as the code does. Cells 2 to 12 therefore match the stored permalink only while the fields are unchanged since generation. `Csv.GeneratedRowIsConsistent` states the match under that condition.
- Csv.ExportRoundTrip: stated only for fields and links without `"` or line feeds. With them the text is ambiguous; `Csv.EmbeddedQuoteIsAmbiguous` shows one such case.
