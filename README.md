# IMDb chart scraper: a Dafny model of its core

The scraper is a small command. It fetches three IMDb charts and writes each
one to a CSV file in a data directory:

- the top 250;
- the most popular titles;
- the US weekend box office.

It also has a lookup that returns the IMDb identifier of the first search
result for a title.

This project models the part of that command that turns chart rows into
files, together with the way the command chooses those files. It covers:

- **Field normalisation.** The year loses its surrounding parentheses. The
  identifier is piece 2 of the link split at `/`. For the box-office chart,
  that piece is then cut at the first `?`.
- **Records.** A row's rank is its position plus one. Each file gets its
  chart's header, followed by one record per row.
- **Panics.** A link with fewer than two slashes makes the Go code panic while
  indexing piece 2. The deferred CSV flush still runs, so the file keeps the
  header and the records of the rows before the bad one.
- **Failed requests.** A failed request or a non-200 status stops the process
  before the file is created.
- **`getID`.** Only the first search result is used, and "" is returned when
  there is none.
- **`main`.**
  - Trailing slashes are removed from the data directory.
  - `getFilePath` joins the directory, a `/` and a file name.
  - The three IMDb scrapers run in a fixed order, and the process stops at the
    first one that does not complete.

The Go library functions the code relies on are written out in `go_strings.dfy`:

- `strings.Split` with a one-character separator;
- `Trim`, `TrimLeft`, `TrimRight` with a cutset;
- `HasSuffix`;
- `strconv.Itoa`.

The other files are:

- `imdb.dfy` holds the chart model. `Scrape` is one method for the three
  chart scrapers, which differ only in the page, the selectors and the record
  shape. It is proved against the function `ScrapeSpec`. Its loop over the rows
  is the method `WriteRows`, proved against `RowsOutcome` and the count-indexed
  function `WrittenLines`. `GetID` is a method
  that follows the source's loop over the results.
- `main.dfy` holds the directory clean-up, the file paths, and a `Driver`
  class. `Driver` holds the mutable `dataDir` flag and runs the three scrapers.

The page itself is not modelled. A fetch arrives as `RequestFailed`, or as a
status code with the rows the selectors matched, in document order. Each row
carries the title text, the link (`""` when the attribute is missing) and the
year text (`""` when the element is missing).

A missing element does not always give an empty field. That holds for the
title and the year, but not for the link: with a missing link, piece 2 of
`strings.Split("", "/")` does not exist, so the scraper panics. The model
follows the code here (`MissingHrefHasNoIdentifier`, `ScrapeRecordCount`).

## Model

| member | source | states |
|---|---|---|
| GoStrings.HasSuffix | cmd/scraper/main.go:16 | A string has a suffix exactly when it is some text followed by that suffix |
| GoStrings.Split | cmd/scraper/imdb.go:74 | A string with n separators splits into n+1 pieces, and no piece contains the separator |
| GoStrings.SplitThenJoin | cmd/scraper/imdb.go:74 | Joining the pieces with the separator gives back the original string |
| GoStrings.JoinThenSplit | cmd/scraper/imdb.go:74 | Splitting a join of separator-free pieces gives back exactly those pieces |
| GoStrings.SplitWithoutSeparator | cmd/scraper/imdb.go:181 | A string without the separator splits into the one-piece list of itself |
| GoStrings.SplitAppend | cmd/scraper/imdb.go:74 | Splitting `a + sep + b` gives the pieces of a followed by the pieces of b |
| GoStrings.SplitTwoSegments | cmd/scraper/imdb.go:74 | With separator-free a and b, `a sep b sep rest` splits into a, b, then the pieces of rest |
| GoStrings.SplitFirstPiece | cmd/scraper/imdb.go:181 | Piece 0 of a split is the text before the first separator |
| GoStrings.SplitHead | cmd/scraper/imdb.go:181 | Piece 0 is a separator-free prefix of the string, followed by the separator when it is shorter than the string |
| GoStrings.TrimLeft | cmd/scraper/imdb.go:73 | The result is a suffix of the input, every dropped character is in the cutset, and the result does not start with a cutset character |
| GoStrings.TrimRight | cmd/scraper/main.go:17 | The result is a prefix of the input, every dropped character is in the cutset, and the result does not end with a cutset character |
| GoStrings.Trim | cmd/scraper/imdb.go:73 | The result is the input with cutset characters dropped from both ends only, and it neither starts nor ends with one |
| GoStrings.TrimExact | cmd/scraper/imdb.go:73 | Trimming p + m + q, with p and q made of cutset characters and m not bordered by one, gives m |
| GoStrings.TrimIdempotent | cmd/scraper/imdb.go:73 | Trimming twice is trimming once |
| GoStrings.Itoa | cmd/scraper/imdb.go:76 | The decimal text is non-empty, all digits, and has no leading zero |
| GoStrings.ParseItoa | cmd/scraper/imdb.go:76 | Reading the decimal text back gives the number |
| GoStrings.ItoaInjective | cmd/scraper/imdb.go:76 | Two numbers have the same decimal text if and only if they are equal |
| Imdb.NormalizeYear | cmd/scraper/imdb.go:73 | The normalised year is no longer than the text and neither starts nor ends with a parenthesis |
| Imdb.NormalizeYearExact | cmd/scraper/imdb.go:127 | Any number of parentheses on either side of a year are removed, and nothing else is |
| Imdb.NormalizeYearIdempotent | cmd/scraper/imdb.go:73 | Normalising a normalised year changes nothing |
| Imdb.NormalizeYearParenthesised | cmd/scraper/imdb.go:73 | "(1994)" gives "1994" |
| Imdb.NormalizeYearDoublyParenthesised | cmd/scraper/imdb.go:73 | "((1994))" gives "1994": every parenthesis at either end is removed |
| Imdb.NormalizeYearPlain | cmd/scraper/imdb.go:126-127 | "1994" is kept, and the empty text of a missing year element stays empty |
| Imdb.Identifier | cmd/scraper/imdb.go:74 | The identifier never contains a slash |
| Imdb.IdentifierIsThirdSegment | cmd/scraper/imdb.go:128 | For a link `a/b/c` or `a/b/c/...` with slash-free segments, the link has a piece 2 and the identifier is c |
| Imdb.MissingHrefHasNoIdentifier | cmd/scraper/imdb.go:71-74 | The empty link of a missing attribute, and "/title", have no piece 2 |
| Imdb.IdentifierExample | cmd/scraper/imdb.go:74 | "/title/tt0111161/" gives "tt0111161" |
| Imdb.CutQuery | cmd/scraper/imdb.go:181 | The cut identifier is a prefix without `?`, followed in the input by `?` when it is shorter |
| Imdb.CutQueryExact | cmd/scraper/imdb.go:181 | An identifier without `?` is kept, and anything from the first `?` on is cut |
| Imdb.BoxOfficeIdentifier | cmd/scraper/imdb.go:180-181 | The box-office identifier contains neither `/` nor `?` |
| Imdb.BoxOfficeIdentifierOfLink | cmd/scraper/imdb.go:180-181 | For a link `a/b/id` or `a/b/id/...` the box-office identifier is id |
| Imdb.BoxOfficeIdentifierDropsQuery | cmd/scraper/imdb.go:180-181 | For a link `a/b/id?query` the box-office identifier is id, without the query |
| Imdb.BoxOfficeIdentifierQueryExample | cmd/scraper/imdb.go:181 | "/title/tt001?ref=x" gives "tt001" |
| Imdb.BoxOfficeIdentifierSlashExample | cmd/scraper/imdb.go:180 | "/title/tt0111161/?ref=abc" gives "tt0111161" |
| Imdb.Header | cmd/scraper/imdb.go:63 | The header has as many fields as the chart's records: four, or three for the box-office chart (imdb.go lines 117 and 171) |
| Imdb.BuildRecord | cmd/scraper/imdb.go:69-76 | A record has as many fields as its chart's header, starts with the decimal rank, then the title |
| Imdb.FirstBadRow | cmd/scraper/imdb.go:68-74 | The index of the first row whose link has no piece 2, or the row count; every earlier row has one |
| Imdb.FirstBadRowIs | cmd/scraper/imdb.go:68-74 | An index whose earlier rows all have a piece 2, and which is the row count or a row without one, is the first bad row |
| Imdb.WrittenLines | cmd/scraper/imdb.go:62-79 | After n rows the file holds n + 1 lines, each with as many fields as the header |
| Imdb.WrittenLinesNext | cmd/scraper/imdb.go:68-79 | Writing row n appends exactly its record, with rank n + 1, and changes no earlier line |
| Imdb.WrittenLinesHeader | cmd/scraper/imdb.go:62-66 | However many rows are written, the first line is the header |
| Imdb.WrittenLinesRecord | cmd/scraper/imdb.go:68-79 | After n rows, line k (1 <= k <= n) is the record of row k - 1 with rank k |
| Imdb.FileLines | cmd/scraper/imdb.go:68-81 | The file keeps one line per row before the first bad row, plus the header, each with the header's field count |
| Imdb.WriteRows | cmd/scraper/imdb.go:68-81 | The loop over the rows always leaves a file: it completes with every row written, or panics at the first row without piece 2, keeping the header and the records before it |
| Imdb.RowsOutcome | cmd/scraper/imdb.go:68-81 | Writing the rows always leaves a file with one line per row before the first bad row, plus the header. It completes exactly when every link has a piece 2; otherwise it panics at the first row without one |
| Imdb.ScrapeSpec | cmd/scraper/imdb.go:38-53 | A file is created exactly when the request succeeds with status 200 (also imdb.go lines 92-107 and 146-161). A failed request ends with the request error, and any other status ends with that status code |
| Imdb.ScrapeSpecLines | cmd/scraper/imdb.go:44-81 | A 200 response creates the file, holding the lines written up to the first bad row |
| Imdb.ScrapeRecordAt | cmd/scraper/imdb.go:68-79 | After a 200 response, line k + 1 of the file is the record of row k with rank k + 1, for every row before the first bad one |
| Imdb.RecordFields | cmd/scraper/imdb.go:73-76 | In a top-250 or most-popular record, field 2 is the normalised year and field 3 the identifier; in a box-office record (imdb.go lines 180-183) field 2 is the identifier cut at `?` |
| Imdb.ScrapeLines | cmd/scraper/imdb.go:62-81 | A created file holds the header, then for k = 1 .. n the record of row k-1 with rank k, where n is the first bad row; a file exists only after a 200 response |
| Imdb.ScrapeArity | cmd/scraper/imdb.go:63-76 | Every line has as many fields as the header, which has four fields, or three for the box-office chart |
| Imdb.ScrapeRanks | cmd/scraper/imdb.go:68-76 | Line k holds rank k in decimal digits and row k-1's title, so ranks run 1, 2, ... without gaps |
| Imdb.ScrapeRecordCount | cmd/scraper/imdb.go:68-81 | A completed file has one line per row plus the header; a crash at row k keeps rows 0 .. k-1, and row k is the first without piece 2 |
| Imdb.MissingYearKeepsRow | cmd/scraper/imdb.go:72-76 | A row whose year element is missing is still written, with an empty year field |
| Imdb.TitleLinkIdentifier | cmd/scraper/imdb.go:179-181 | A `/title/<id>/` link has a piece 2, and its box-office identifier is id |
| Imdb.BoxOfficeRecordOfTitleLink | cmd/scraper/imdb.go:176-183 | A row linked `/title/<id>/` gives the box-office record rank, title, id |
| Imdb.BoxOfficeEndToEnd | cmd/scraper/imdb.go:170-188 | For rows with `/title/<id>/` links, the box-office file is the header, then `rank,title,id` for each row, ranked from 1 |
| Imdb.Scrape | cmd/scraper/imdb.go:31-81 | The outcome is ScrapeSpec's, and a file is created exactly when the response has status 200 |
| Imdb.GetID | cmd/scraper/imdb.go:192-223 | The result depends only on the first search result. A request error or non-200 status fails. No results give "". Otherwise the result is the first link's identifier, or a panic when it has no piece 2 |
| ScraperMain.CleanedDataDir | cmd/scraper/main.go:16-18 | The cleaned directory is a prefix of the flag, only slashes were dropped, and it does not end in a slash |
| ScraperMain.CleanedDataDirIdempotent | cmd/scraper/main.go:16-18 | Cleaning twice is cleaning once |
| ScraperMain.CleanedDataDirKeeps | cmd/scraper/main.go:16 | A directory not ending in a slash is left as it is |
| ScraperMain.CleanedDataDirAllSlashes | cmd/scraper/main.go:16-18 | A directory made only of slashes cleans to the empty string |
| ScraperMain.FilePath | cmd/scraper/main.go:30-32 | The path is the directory, then a slash, then the file name |
| ScraperMain.FilePathSegments | cmd/scraper/main.go:30-32 | Splitting the path at slashes gives the directory's pieces then the file name, and joining all but the last gives the directory back |
| ScraperMain.FilePathUnderRoot | cmd/scraper/main.go:16-31 | A data directory made only of slashes puts the files at "/<name>" |
| ScraperMain.DefaultDirPath | cmd/scraper/main.go:9-32 | With the default directory "." every file is written at "./" followed by its name |
| ScraperMain.FirstIncomplete | cmd/scraper/main.go:23-25 | The index of the first scraper call that did not complete; all earlier ones completed |
| ScraperMain.Collect | cmd/scraper/main.go:23-25 | A run leaves at most one file per scraper call |
| ScraperMain.Kept | cmd/scraper/main.go:23-25 | The call that stops the run leaves a file exactly when it created one, that is when it panicked rather than aborted, and that file is the partial one at the call's path, holding the lines written before the panic |
| ScraperMain.CollectThree | cmd/scraper/main.go:23-25 | For the three IMDb calls: stop at the first that does not complete, keeping the files of the earlier ones and that call's own file if it has one |
| ScraperMain.CollectFiles | cmd/scraper/main.go:23-25 | The files left are those of the calls before the first incomplete one, in order, plus that call's file if it crashed after creating it. The process finishes exactly when all calls complete, and otherwise ends with that call's failure |
| ScraperMain.MainPaths | cmd/scraper/main.go:23-25 | The three output paths, in call order, are the top-250, most-popular and box-office files under the directory |
| ScraperMain.Driver.constructor | cmd/scraper/main.go:9 | The driver starts with the flag's value as its data directory |
| ScraperMain.Driver.CleanInput | cmd/scraper/main.go:16-18 | The data directory is replaced in place by its cleaned form |
| ScraperMain.Driver.Run | cmd/scraper/main.go:12-25 | The directory is cleaned, and the files and exit are Collect of the three scrapes under that directory |

## Left out

- The HTTP requests, the five-second timeout, the `accept-language` header and the closing of response bodies are left out. A fetch is a parameter: it either failed or carries a status and the matched rows.
- HTML parsing and the CSS selectors (goquery) are left out. The rows they match are the input.
- `log.Fatal` on a failed `http.NewRequest`, a failed `goquery.NewDocumentFromReader`, a failed `os.Create` or a failed CSV write is left out. These are I/O failures outside the model. Only the request error and the status error are modelled.
- CSV quoting and escaping (encoding/csv) and the bytes written to disk are left out. A file is modelled as its list of records.
- The `fmt.Printf` progress output is left out.
- In `getID`, `url.QueryEscape` and the search URL are left out. The search page arrives as the links of its results.
- `flag.Parse` is left out. The `Driver` constructor takes the flag's value.
- The Rotten Tomatoes client (`newRTClient` and `scrapeCertifiedFreshDVDstreaming`, main.go lines 21 and 26) is not part of this model, so `Driver.Run` ends after the third IMDb chart.
- Concurrency is not modelled. The Go program has none.
- Collect: its own contract bounds only the number of files. The full description of what a run leaves behind is the lemma CollectFiles.
