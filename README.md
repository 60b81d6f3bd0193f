# City of Mitcham development-application scraper, in Dafny

`scraper.js` reads the City of Mitcham eTrack listing of development
applications lodged in the last 28 days. It takes the text of every anchor in
the listing grid and trims it. It keeps the anchors whose text is an
application number of the form `NNN/NNNN/NN`. For each of those it fetches the
detail page at a fixed base URL followed by the percent-encoded number. From
that page it builds a record: the trimmed description, the lodgement date
re-written from `D/MM/YYYY` to `YYYY-MM-DD`, the scrape date, a fixed
`mailto:` comment address and an empty address. The record goes into the
`data` table of an SQLite file with `insert or ignore`, so the first row
stored under a `council_reference` is never overwritten.

The model has these modules:

- `Text` (`text.dfy`): JavaScript's `String.prototype.trim` over its
  whitespace set. It also has decimal numerals, read and written at a fixed
  zero-filled width.
- `Reference` (`reference.dfy`): the application-number pattern, both as the
  regular expression atom by atom and as a positional test. A lemma shows the
  two agree.
- `Uri` (`uri.dfy`): `encodeURIComponent` on ASCII text, with a
  percent-decoder as its inverse.
- `Dates` (`dates.dfy`): moment's strict parse of `D/MM/YYYY`, the Gregorian
  calendar check, the `YYYY-MM-DD` formatter and the `Invalid date` text that
  moment prints when the parse fails. The day may have one digit or two, as
  the comment on line 89 says. The month must have two digits and the year
  four.
- `Store` (`store.dfy`): the nine-column schema, the row built from a
  development application, and `insert or ignore` as a function. The class
  `DataTable` holds the table in a `map` field, and its `InsertRow` method
  updates that field in place.
- `Scraper` (`scraper.dfy`): the detail URL, the record passed to `insertRow`,
  the handling of one anchor, and the loop over all anchors. The loop appears
  twice: as a fold over the anchor texts, and as the method `ScrapeListing`,
  which updates a `DataTable` and is proved equal to the fold.

The network, the HTML selectors and the clock are parameters:

- `fetchListing` gives the anchor texts of the listing, or `None` when the
  request fails.
- `fetch` gives the description text and lodgement-date text of the detail
  page at a URL, or `None` when the request fails.
- `today` is the date of the run.

The model follows `scraper.js` as written, which means in particular:

- This file reads one listing page. It follows no pagination and sends no
  postback.
- The address is always the empty string, and a record with an empty address
  is still stored.
- A second record with a stored number is ignored, not written over it.
- A lodgement date that does not parse is stored as moment's `Invalid date`,
  not as an empty string.

## Model

| member | source | states |
|---|---|---|
| Text.IsWhitespace | scraper.js:72 | the characters `trim` removes: tab, line feed, vertical tab, form feed, carriage return, space, no-break space, the Unicode space separators, the line and paragraph separators and the byte-order mark; what removing them means is stated by `Text.Trim`, `Text.TrimIsSlice` and `Text.TrimIgnoresPadding` |
| Text.Trim | scraper.js:72 | the trimmed text has no whitespace at its first or last character |
| Text.TrimIsSlice | scraper.js:72 | the trimmed text is a contiguous slice of the input, and everything cut off before and after it is whitespace |
| Text.TrimIgnoresPadding | scraper.js:72 | any whitespace added around a text leaves its trim unchanged |
| Text.TrimOfTrimmed | scraper.js:72 | a text with no whitespace at either end is its own trim |
| Text.NumeralOfValue | scraper.js:89 | every digit string is the zero-filled numeral of its own value at its own width, so reading and re-writing a date field gives back the same digits |
| Reference.Matches | scraper.js:73 | the anchored match of the regular expression, taken atom by atom over `ApplicationNumberPattern` (three `[0-9]`, `/`, four `[0-9]`, `/`, two `[0-9]`); `Reference.ApplicationNumberIsPattern` ties it to the positional test |
| Reference.IsApplicationNumber | scraper.js:73 | the test the trimmed anchor text must pass; `Reference.ApplicationNumberIsPattern` proves it equal to the regular expression, and `Reference.AcceptanceIgnoresPadding` shows surrounding whitespace does not matter |
| Reference.ApplicationNumberIsPattern | scraper.js:73 | the positional test (length 11, `/` at positions 3 and 8, an ASCII digit everywhere else) holds exactly when the anchored regular expression matches |
| Reference.ApplicationNumberIsTrimmed | scraper.js:72-73 | an accepted number has no surrounding whitespace, so trimming it keeps it whole |
| Reference.AcceptanceIgnoresPadding | scraper.js:72-73 | whitespace around the anchor text changes neither whether it is accepted nor which number is taken |
| Reference.AcceptedExample | scraper.js:73 | `123/4567/89` matches the regular expression |
| Reference.RejectedExamples | scraper.js:73 | a two-digit first group, a three-digit last group and letters do not match |
| Uri.EncodeChar | scraper.js:74 | one character of `encodeURIComponent`: an unreserved character as itself, any other ASCII character as `%` and two upper-case hex digits; `Uri.DecodeEncode` shows the decoder undoes it |
| Uri.EncodeComponent | scraper.js:74 | the encoding is never shorter than its input and holds only unreserved characters and `%` |
| Uri.DecodeEncode | scraper.js:74 | percent-decoding the encoding of an ASCII text gives that text back |
| Uri.EncodeInjective | scraper.js:74 | distinct ASCII texts have distinct encodings |
| Uri.EncodeDigitsAndSlashes | scraper.js:74 | on digits and slashes, the encoding writes each `/` as `%2F` and leaves every digit as it is |
| Scraper.DetailUrl | scraper.js:74 | the detail URL of an accepted number; its properties are stated by `Scraper.DetailUrlEscapesSlashes`, `Scraper.DetailUrlDecodes` and `Scraper.DetailUrlInjective` |
| Scraper.DetailUrlEscapesSlashes | scraper.js:74 | the detail URL is the fixed base followed by the number with each `/` replaced by `%2F` |
| Scraper.DetailUrlDecodes | scraper.js:74 | decoding the part of the detail URL after the base gives the application number back |
| Scraper.DetailUrlInjective | scraper.js:74 | distinct application numbers have distinct detail URLs |
| Dates.IsLeapYear | scraper.js:89 | the Gregorian leap-year rule moment uses to decide whether the 29th of February exists; `Dates.NonLeapYearExample` shows it refusing 29/02/2019 |
| Dates.IsValidDate | scraper.js:89 | the overflow check of the strict parse: a month from 1 to 12 and a day that exists in that month; `Dates.ParseLodgementDate` returns only such dates |
| Dates.LodgementText | scraper.js:89 | the `D/MM/YYYY` rendering of a date, with or without the day's leading zero; `Dates.ParseLodgementText` and `Dates.ParsedTextIsCanonical` prove the parse accepts exactly these texts |
| Dates.ParseMonthYear | scraper.js:89 | the `MM/YYYY` part of the strict parse: two digits, `/`, four digits, then the calendar check; `Dates.ParsedTextIsCanonical` shows every accepted part is a zero-filled numeral of the date |
| Dates.DaysInMonth | scraper.js:89 | every month has between 28 and 31 days |
| Dates.ParseLodgementDate | scraper.js:89 | the strict parse returns only dates that exist in the calendar |
| Dates.ParseLodgementText | scraper.js:89 | every valid date, written with or without the leading zero of its day, parses back to itself |
| Dates.ParsedTextIsCanonical | scraper.js:89 | the parse is strict: every accepted text is exactly the `D/MM/YYYY` or `DD/MM/YYYY` rendering of the date it yields |
| Dates.FormatIsoDate | scraper.js:88-89 | `YYYY-MM-DD` is ten characters with `-` at positions 4 and 7, and its three digit groups read back as the year, month and day |
| Dates.FormatIsoDateInjective | scraper.js:88-89 | distinct dates give distinct ISO texts |
| Dates.NormaliseDate | scraper.js:89 | a successful normalisation is an ISO calendar-date text of a real date |
| Dates.NormaliseLodgementText | scraper.js:89 | either rendering of a date normalises to that date's ISO text |
| Dates.ReceivedDateText | scraper.js:89 | the received-date column is `Invalid date` exactly when the strict parse fails, and otherwise it is the `YYYY-MM-DD` text of the date that was parsed |
| Dates.OptionalLeadingZeroExample | scraper.js:89 | `5/03/2019` and `05/03/2019` both give `2019-03-05` |
| Dates.MalformedExamples | scraper.js:89 | a one-digit month, a two-digit year and free text are refused |
| Dates.NonLeapYearExample | scraper.js:89 | the 29th of February 2019 is refused, not rolled over |
| Dates.DayZeroExample | scraper.js:89 | day zero is refused |
| Store.RowOf | scraper.js:34-44 | the bound parameter list has exactly as many values as the schema has columns |
| Store.Position | scraper.js:22 | every column lies within the schema |
| Store.Name | scraper.js:22 | the schema holds each column's name at that column's position |
| Store.PositionsDistinct | scraper.js:22 | two columns share a position only when they are the same column |
| Store.RowColumns | scraper.js:34-44 | each field of the application lands in its own column: reference, address, description, info_url, comment_url, date_scraped, date_received; both notice columns are `NULL` |
| Store.RowRoundTrip | scraper.js:34-44 | the application can be read back from the row written for it |
| Store.StoredRowReadsBack | scraper.js:34-44 | a row of the shape `insertRow` writes (nine columns, the key first, text in the seven application columns, `NULL` in the two notice columns) reads back as an application whose number is the key, and is exactly the row written for that application |
| Store.StoredRowsReadBack | scraper.js:22 | every row of a well-formed table, the invariant `DataTable` keeps, reads back as the application whose number is the primary key it is stored under, and is the row written for that application |
| Store.InsertOrIgnore | scraper.js:33 | `changes` is 1 when the key was absent and 0 otherwise; the new key set is the old one plus the key; existing rows are unchanged; an absent key gets the new row; every row stays stored under its own key |
| Store.FirstWriteWins | scraper.js:33 | once a key is stored, inserting any application with that key changes nothing and reports 0 changes |
| Store.InsertIdempotent | scraper.js:33 | inserting the same application twice leaves the same table as inserting it once |
| Store.DataTable.Open | scraper.js:22 | `create table if not exists` keeps the rows of an existing table |
| Store.DataTable.InsertRow | scraper.js:30-57 | the new table and the `changes` count are those of `insert or ignore` on the old table, and a change is reported exactly when the key was absent |
| Scraper.BuiltApplicationFields | scraper.js:82-90 | the record has the accepted number, an empty address, the trimmed description, the detail URL of the same number, the fixed comment address and the `YYYY-MM-DD` text of the run's date; its received date is `Invalid date` exactly when the trimmed lodgement text fails the strict parse, and otherwise the `YYYY-MM-DD` text of the date parsed from it |
| Scraper.BuiltRowColumns | scraper.js:82-90 | the row built from the record holds the number, `""`, the trimmed description, the detail URL, the comment address, the scrape date and the received-date text of the trimmed lodgement text in their columns, and `NULL` in both notice columns: the whole nine-column row |
| Scraper.BuildApplication | scraper.js:82-90 | the object passed to `insertRow`; its fields are stated by `Scraper.BuiltApplicationFields` and its row by `Scraper.BuiltRowColumns` |
| Scraper.ProcessAnchor | scraper.js:72-91 | one run of the callback given to `.each`; what it does is stated by `Scraper.ProcessAnchorOutcome`, `Scraper.ProcessAnchorKeepsRows` and `Scraper.ProcessAnchorNewRow` |
| Scraper.ProcessAnchorOutcome | scraper.js:72-91 | an anchor is skipped exactly when its trimmed text is not an application number; the fetch fails exactly when the number is valid but the request fails; the row is inserted exactly when the page was fetched and the number was not yet stored |
| Scraper.ProcessAnchorKeepsRows | scraper.js:72-91 | stored rows are never changed; a fetched number is stored afterwards; an insertion adds exactly that key, and any other outcome leaves the table as it was |
| Scraper.ProcessAnchorNewRow | scraper.js:82-90 | the only key one anchor can add is its fetched number, and that key holds the row built from its own detail page |
| Scraper.Fold | scraper.js:68-92 | the anchors processed one after another in document order, giving one outcome per anchor; `Scraper.FoldSplit` and `Scraper.FoldAt` show the i-th anchor is processed on the table left by the anchors before it |
| Scraper.ProcessListing | scraper.js:68-92 | the `.each` loop over the anchors, as that fold of `Scraper.ProcessAnchor`; its properties are the `Scraper.Listing…` lemmas below |
| Scraper.ListingOutcomes | scraper.js:68-92 | there is one outcome per anchor; each anchor is skipped or fails to fetch exactly under the conditions above |
| Scraper.ListingKeepsRows | scraper.js:68-92 | no row that was stored before the run is changed by it |
| Scraper.ListingNewRows | scraper.js:68-92 | every row added by the run belongs to an anchor of the listing whose detail page was fetched, and holds the row built from that page |
| Scraper.ListingCoversAnchors | scraper.js:68-92 | after the run, every anchor whose detail page was fetched has its number stored |
| Scraper.RerunChangesNothing | scraper.js:61-93 | a second run over the same listing and the same pages, on the same day or any later one, leaves the table exactly as the first run left it, `date_scraped` included, because a stored number is never written again |
| Scraper.InsertedCountsNewRows | scraper.js:50-51 | the number of anchors reported as inserted is exactly the number of rows the run added |
| Scraper.ScrapeListing | scraper.js:68-92 | the loop that inserts into the `DataTable` leaves the table, and returns the outcomes, of the fold over the anchors |
| Scraper.Run | scraper.js:61-93 | a failed listing request ends the run with the table unchanged; otherwise the run scrapes every anchor of the listing fetched from the fixed listing URL |

## Left out

- HTTP requests (lines 63 and 76): the listing and each detail page come in through the `fetchListing` and `fetch` parameters. The responses are not modelled.
- HTML selection with cheerio (lines 67-68, 81, 85 and 89): the anchor texts of `table.grid td a` and the texts beside the `Description` and `Lodgement Date` header cells come in already extracted.
- The SQLite engine (lines 18-26 and 30-57): opening the file, `serialize`, `prepare`/`finalize`, callbacks and promises are not modelled. Only the keyed-table semantics are kept.
- Store.DataTable.Open: an existing table must hold only rows of the shape `insertRow` writes. Rows put there by other programs, such as a `NULL` description, are not modelled.
- Store.DataTable.InsertRow: the error path, where SQLite reports an error and the promise is rejected, is not modelled. The method always succeeds.
- Scraper.ScrapeListing: the callback given to `.each` is `async` and is not awaited, so in the source the detail requests and inserts of different anchors may interleave. The model runs them one after another in document order. For two anchors with the same number, it is the first in document order that is stored.
- Scraper.Run: the scrape date is one `today` parameter for the whole run. The source reads the clock with `moment()` for each record, so a run that crosses midnight is not modelled.
- Scraper.Run: a failed detail request (line 76) rejects the promise of that anchor's callback and nothing handles the rejection. The model records `FetchFailed` and carries on with the next anchor, which is what Node did before version 15; since version 15 an unhandled rejection ends the process.
- Scraper.Run: `fetch` is a function of the URL, so a number listed twice gets the same answer both times. The source sends two requests, and one could fail while the other succeeds.
- Dates.ParseLodgementDate: the model follows moment up to version 2.29, whose strict `D` token accepts a day with or without a leading zero, as the comment on line 89 expects. The version of moment the scraper installs is not part of this model; in later versions strict `D` may refuse `05`.
- Uri.EncodeComponent: only ASCII input is modelled. Every accepted application number is ASCII, but the UTF-8 percent-encoding of other characters is not modelled.
- `console.log` output (lines 31, 46, 51 and 75) is not modelled.
