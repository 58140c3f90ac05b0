# bull.js: CSV loading and faceted filtering, modelled in Dafny

`bull.js` draws the projects of a design lab as circles. It reads them from a
CSV file. A filter panel has three facets, Topic, Outcome and Status, each with
one checkbox per value. This project models the data side of that page:

- `cleanCSVField`: the clean-up applied to every header and field.
- `parseCSVLine`: splits one data line on the commas outside double quotes.
- `parseCSV`: drops blank lines, splits the header line and skips short rows.
  It builds one record per complete row, with the special `Dev (s)` and
  `Collaborator 1/2` columns.
- The option list of each facet: its distinct values, sorted as JavaScript's
  `sort()` sorts strings.
- The `filteredData` predicate, which decides which projects are shown.
- `countProjectsForFilter` and the initial counts, the numbers shown next to
  each checkbox.
- `escapeCSSSelector`: escapes an option value for the selector that finds its
  checkbox.

The page has no layout engine beyond `positionCirclesRandomly`, which places
circles at random. That code and everything else that draws is outside this
model. The behaviour modelled here follows the code.

Modules, one per concern:

- `JsText`: the parts of JavaScript's string library the CSV code relies on:
  the white space of `\s` and `trim`, `trim` itself, and `split`/`join` with a
  one-character separator.
- `CsvField`: `cleanCSVField` as its chain of four rewrites.
- `CsvLine`: `parseCSVLine`. It is a method with the source's loop, proved
  against the function `ParsedLine`, which reads the line one character at a
  time.
- `CsvParse`: `parseCSV`. Three methods keep the source's loops and callback:
  `ParseCSV`, `ParseRows` (the loop over data lines) and `FillEntry` (the
  `headers.forEach` loop). `ApplyHeader` is one call of the callback. They are
  proved against `ParsedCSV`, `BuildEntries`, `BuildEntry` and `EntryAfter`.
- `CssEscape`: `escapeCSSSelector`, a reference per-character meaning of it,
  and what a CSS reader reads back.
- `StringOrder`: JavaScript's default string order, proved equal to the order
  of UTF-16 code units, plus `[...new Set(…)]` and `sort()`.
- `Facets`: option lists, visibility and counts over a list of projects. The
  checked values are a parameter.

Three runtime effects are modelled:

- The JavaScript `TypeError` of `push` on a string comes out as the error
  `PushOnString`. It happens at a non-empty `Collaborator 1/2` cell when the
  `Collaborators` property holds a non-empty string. Only a non-empty cell of
  a column literally named `Collaborators` puts one there. An empty cell of
  that column leaves the empty string, which is falsy: it is replaced by an
  array and nothing throws.
- `parseCSV` returns early on fewer than two non-blank lines, and the model
  follows that path.
- Rows shorter than the header are skipped.

## Model

| member | source | states |
|---|---|---|
| JsText.Trim | bull.js:12 | `trim` yields a string that neither starts nor ends with white space and is no longer than its input |
| JsText.TrimKeepsNonSpaces | bull.js:12 | `trim` removes white space and nothing else |
| JsText.JoinSplit | bull.js:21 | joining the pieces of `split` with the separator gives back the text |
| JsText.SplitJoin | bull.js:28 | splitting the join of separator-free pieces gives back the pieces |
| JsText.SplitCount | bull.js:28 | `split` yields one piece more than there are separators |
| JsText.TrimAll | bull.js:67 | `map(s => s.trim())` keeps the length and trims each element |
| CsvField.StripEnclosingQuotes | bull.js:8 | the first rewrite leaves the text alone or drops exactly its first and last character, both double quotes |
| CsvField.RemoveQuotes | bull.js:9 | the second rewrite leaves no double quote and shortens the text by exactly its number of double quotes |
| CsvField.RemoveQuotesKeepsOthers | bull.js:9 | every character other than a double quote is kept, as often as it occurs |
| CsvField.RemoveQuotesAppend | bull.js:9 | removing the quotes of two joined texts joins the two results, so the kept characters stay in order |
| CsvField.StripThenRemoveQuotes | bull.js:8-9 | removing every quote gives the same text whether or not the enclosing pair was stripped first |
| CsvField.CollapseSpaces | bull.js:10 | after the third rewrite, white space occurs only as single plain spaces; the text is empty only if the input was, and the non-space characters are unchanged |
| CsvField.CollapseKeepsWords | bull.js:10 | the third rewrite keeps the words, the maximal runs of characters other than white space, so no run of white space between two words disappears |
| CsvField.CollapseEnds | bull.js:10 | the rewritten text starts and ends with white space exactly when the input does, so a leading or trailing run becomes one space |
| CsvField.TrimCollapseIsJoin | bull.js:10-11 | the third rewrite followed by `trim` gives the words of the text joined by single plain spaces |
| CsvField.CollapseNoop | bull.js:10 | text whose white space is already single plain spaces is left alone |
| CsvField.CleanCSVField | bull.js:6-12 | a cleaned field is the words of the field without its double quotes, joined by single plain spaces; so it has no double quote, no white space at either end and only single plain spaces inside |
| CsvField.CleanIdempotent | bull.js:6-12 | cleaning a cleaned field changes nothing |
| CsvField.CleanAll | bull.js:28 | `map(cleanCSVField)` keeps the length and cleans each element |
| CssEscape.EscapeCSSSelector | bull.js:15-17 | the three `replace` passes in source order: double quotes, then single quotes, then each white-space character |
| CssEscape.EscapeIsPerCharacter | bull.js:15-17 | the three passes together escape each character on its own: quotes get a backslash, white space becomes backslash-space |
| CssEscape.EscapeLength | bull.js:15-17 | the escaped value is one character longer per quote or white-space character |
| CssEscape.EscapeRoundTrip | bull.js:15-17 | for a value without a backslash and without U+0000, the selector string reads back as the value, with white space as plain spaces |
| CssEscape.BackslashBreaksRoundTrip | bull.js:15-17 | the value `\` is passed through unescaped and its selector string is malformed |
| CssEscape.FixedRoundTrip | bull.js:15-17 | with backslashes also escaped, every value without U+0000 reads back, with white space as plain spaces |
| CssEscape.ExactRoundTripForPlainSpaces | bull.js:15-17 | a value whose white space is plain spaces and which has no U+0000, as every cleaned field is, reads back exactly from its corrected escaping |
| CssEscape.TabReadsBackAsSpace | bull.js:15-17 | a tab is escaped as backslash-space, so `a<TAB>b` reads back as `a b` and not as itself |
| CssEscape.NulNeverReadsBack | bull.js:15-17 | a value holding U+0000 reads back from no selector text, because CSS replaces that character with U+FFFD before reading escapes |
| CssEscape.FixedAgreesWithoutBackslash | bull.js:15-17 | the correction changes nothing for values without a backslash |
| CsvLine.RawFields | bull.js:37-55 | the fields the scanner collects before they are cleaned: at least one, and none holding a double quote |
| CsvLine.ParseCSVLine | bull.js:32-57 | the loop returns `ParsedLine(line)`, one field more than there are commas outside quotes |
| CsvLine.InsideQuotesParity | bull.js:40-43 | the scanner is inside quotes exactly after an odd number of double quotes |
| CsvLine.FieldCount | bull.js:45-55 | the line has one raw field more than it has commas outside quotes |
| CsvLine.CommasSplitUp | bull.js:45-51 | every comma is either a separator or a comma inside quotes |
| CsvLine.QuotedCommasStayInFields | bull.js:37-52 | the commas inside quotes are kept in the fields, and they are the only commas the fields hold |
| CsvLine.FieldsJoinToUnquotedLine | bull.js:37-55 | joining the raw fields with commas gives back the line without its double quotes |
| CsvLine.UnquotedLineSplitsOnEveryComma | bull.js:37-55 | on a line without double quotes the scanner agrees with a plain `split(",")` |
| CsvLine.QuotedTextStaysInField | bull.js:40-51 | text read inside quotes goes whole into the current field, commas included |
| CsvLine.QuotedFieldKeepsComma | bull.js:40-51 | a quoted stretch adds its text, commas included, to the current field and ends outside quotes |
| CsvParse.Lines | bull.js:21 | the text split on `\n`, then the blank lines dropped |
| CsvParse.NonBlank | bull.js:21 | no kept line is blank, and there are no more kept lines than lines |
| CsvParse.NonBlankMembers | bull.js:21 | the kept lines are exactly the lines that are not blank |
| CsvParse.NonBlankAppend | bull.js:21 | filtering keeps the order and the number of occurrences of the lines: filtering two joined lists joins the two results |
| CsvParse.FirstKeptLine | bull.js:21-28 | the header line `lines[0]` is the first line of the text that is not blank |
| CsvParse.Headers | bull.js:28 | there is one header per comma of the header line plus one, and no header holds a double quote |
| CsvParse.DevTeamMembers | bull.js:67 | an empty cell gives no developers; otherwise there is one name per `;`-separated part, with no white space at either end |
| CsvParse.ApplyHeader | bull.js:65-78 | one callback call turns the entry of the first `j` columns into the entry of the first `j + 1`, or throws, and a throw is the result of the whole row |
| CsvParse.FillEntry | bull.js:64-78 | the `forEach` loop returns the entry of the whole row, or the error of the first call that throws |
| CsvParse.Step | bull.js:66-77 | one callback call: `devTeam` from the `Dev (s)` cell, the `Collaborators` push that fails on a non-empty string, and an empty cell read as `""` for every other header |
| CsvParse.EntryAfter | bull.js:65-78 | the entry after the first k callback calls, stopping at the first call that throws |
| CsvParse.StepWrites | bull.js:65-78 | a callback call adds its header's property and leaves every other property unchanged; outside `Collaborator 1/2` it sets the value written |
| CsvParse.FieldValue | bull.js:64-78 | every property other than `Collaborators` holds the value of the last column that writes it |
| CsvParse.EntryKeys | bull.js:64-78 | an entry has exactly the properties its headers write |
| CsvParse.CollaboratorsField | bull.js:68-72 | without a column named `Collaborators`, no call throws; `Collaborators` then lists the non-empty `Collaborator 1/2` cells in column order, and is present exactly when such a column exists |
| CsvParse.CollaboratorsColumnThrows | bull.js:68-72 | a row throws exactly when some non-empty `Collaborator 1/2` cell meets a `Collaborators` property holding a non-empty string, which only a column literally named `Collaborators` writes |
| CsvParse.EmptyCollaboratorsCellResets | bull.js:69-76 | an empty `Collaborators` cell leaves a falsy empty string, so a later non-empty `Collaborator 1` cell starts a fresh array and nothing throws |
| CsvParse.ErrorSticks | bull.js:65-78 | once a callback call has thrown, the entry of the row is that error |
| CsvParse.CompleteRows | bull.js:61-62 | the rows kept have at least one field per header, and there are no more of them than lines |
| CsvParse.BuildEntries | bull.js:60-80 | on success there is one entry per complete row, each the row's entry; the parse fails exactly when some complete row's callback throws |
| CsvParse.ParseRows | bull.js:60-80 | the loop returns `BuildEntries` of the complete rows of the data lines |
| CsvParse.ParsedCSV | bull.js:21-82 | the parse as a function: `[]` below two kept lines, otherwise one entry per complete data line, or the first row's error |
| CsvParse.ParseCSV | bull.js:20-83 | `parseCSV` returns `ParsedCSV(csvData)` |
| CsvParse.FailingRowFailsParse | bull.js:60-80 | a complete row whose callback throws makes the whole parse throw |
| CsvParse.ShortRowSkipped | bull.js:62 | a line with fewer fields than headers adds no row |
| CsvParse.HeaderQuotedCommasShiftColumns | bull.js:28 | the header line gets one extra header for each comma inside quotes, which a data line laid out the same way does not get |
| CsvParse.EntriesFollowHeaders | bull.js:20-83 | on success there is one entry per complete data line, never more than the data lines, and each has exactly the properties its headers write |
| CsvParse.NoCollaboratorsColumnNoError | bull.js:20-83 | without a header named `Collaborators`, `parseCSV` never throws |
| CsvParse.EveryCompleteLineGivesAnEntry | bull.js:60-80 | when every data line has a field per header, there is one entry per data line |
| StringOrder.LessIsCodeUnitOrder | bull.js:163 | the string order of the model is the order of UTF-16 code units that `sort()` uses |
| StringOrder.LessTransitive | bull.js:163 | the order is transitive |
| StringOrder.LessTotal | bull.js:163 | any two different strings are ordered one way or the other |
| StringOrder.Dedup | bull.js:163 | `[...new Set(values)]` holds the same values, each once |
| StringOrder.Sort | bull.js:163 | `sort()` of distinct values is strictly increasing with the same values |
| StringOrder.SortedUnique | bull.js:163 | a strictly sorted list is determined by its values |
| Facets.FacetOptions | bull.js:162-178 | a facet's options are strictly sorted, each value once, and are exactly the values some project has |
| Facets.OptionsIgnoreOrder | bull.js:162-178 | the options depend only on which values occur |
| Facets.Visible | bull.js:568-571 | a project passes each of the three facets: an empty selection or a selected value |
| Facets.FilteredData | bull.js:567-572 | the shown projects are all visible and no more than the projects |
| Facets.FilteredMembers | bull.js:567-572 | a project is shown exactly when it is in the data and every facet with checked values has its value checked |
| Facets.FilterAppend | bull.js:567-572 | filtering keeps the order of the data |
| Facets.FilteredIsSubsequence | bull.js:567-572 | the shown projects are a subsequence of the data |
| Facets.NoSelectionShowsAll | bull.js:567-572 | with nothing checked every project is shown |
| Facets.FilterIdempotent | bull.js:567-572 | filtering the shown projects again changes nothing |
| Facets.CountProjectsForFilter | bull.js:511-526 | an option's count is at most the number of projects |
| Facets.CountAtMostValueCount | bull.js:511-526 | an option's count is at most the number of projects with that value |
| Facets.CountIsFilteredSize | bull.js:511-526 | an option's count is the number of projects that would be shown if that option were the only one checked in its facet |
| Facets.CountWithoutOtherFilters | bull.js:511-526 | with nothing checked in the other facets, the count is the number of projects with that value |
| Facets.CountsAddUp | bull.js:511-526 | a facet's counts add up to the number of projects that the other facets let through |
| Facets.ValueCount | bull.js:695 | the initial count of an option is at most the number of projects |
| Facets.InitialCountsAddUp | bull.js:693-695 | a facet's initial counts add up to the number of projects |

## Left out

- `positionCirclesRandomly` (random placement and collision avoidance) is not modelled. It depends on a random source and the SVG size.
- The duration and radius computation is not modelled; it is date parsing and floating-point scales.
- `fetchCSV` (network I/O, console output) is not modelled. Its mapping of entries to `data` and `desc` is not modelled either. `Facets.Project` holds the fields the filter reads.
- The d3/DOM/SVG code, the burger menu and the color scales are not modelled. They are rendering, not data.
- Reading the checked boxes into `activeFilters` is not modelled. The selection is the parameter `Facets.Selection`.
- Console logging is not modelled.
- `Facets.CountProjectsForFilter`: `filters[X].find(f => f.value === v).test(d)` is modelled as the project's `X` value being `v`. This assumes every checked value is an option value, as the page's checkboxes are built from the options. For any other value `find` returns `undefined` and the call throws, which the model does not capture.
- Headers that JavaScript treats specially as property names (`__proto__`) are not modelled. Entries are plain maps from names to values.
- Strings are sequences of Unicode characters, not of UTF-16 code units. `split`, `trim` and the scanner of `parseCSVLine` agree on both views, since none of their special characters is a surrogate. The sort order is proved equal to code-unit order by `StringOrder.LessIsCodeUnitOrder`.
- Project fields missing from the CSV (`undefined` values) are not modelled. The option lists and counts assume every project has a string for each facet.
- CssEscape.Unescape: CSS replaces U+0000 with U+FFFD before it reads escapes, so a value holding U+0000 never reads back, whatever the escaping (`CssEscape.NulNeverReadsBack`). The reader models that replacement.
- CssEscape.EscapeRoundTrip: holds only for values without U+0000, because CSS replaces that character before reading escapes.
- CssEscape.FixedRoundTrip: holds only for values without U+0000, for the same reason.
- The parse model does not state that `ParseCSVLine`'s fields hold no double quote. That follows from `CsvField.CleanCSVField`, which states it for each field.

## Findings

| source | as written | input that shows it | evidently intended | confidence | as-written member | corrected member |
|---|---|---|---|---|---|---|
| bull.js:15-17 | `escapeCSSSelector` escapes quotes and white space but not the backslash | an option value `\`: the selector `input[value="\"]` has its closing quote escaped, so the lookup fails and the count is not shown | a backslash escaped as `\\`, so that every value without U+0000 reads back with its white space as plain spaces, and exactly when that white space is already plain spaces | medium, not executed | CssEscape.BackslashBreaksRoundTrip | CssEscape.FixedRoundTrip |

The header line is split on every comma with `split(",")`, while data lines
are split only on commas outside quotes. `CsvParse.HeaderQuotedCommasShiftColumns`
states the consequence: a quoted comma in a header shifts every later column by
one. It is stated as a property rather than listed as a defect: nothing in the
code says whether quoted commas in headers were meant to be supported.
