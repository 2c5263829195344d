/** The IMDb chart scrapers and the title lookup of the scraper command.

    Each scraper fetches one chart page, checks the status, creates the output
    file, writes a fixed header and then one record per matched table row, in
    document order. The HTTP exchange and the CSS selectors are not modelled:
    a `Fetch` is what came back (a transport failure, or a status code with the
    strings the selectors picked out of each matched row). */
module Imdb {
  import opened GoStrings

  /** What the selector layer hands over for one matched row: the text of the
      row's title link, the link's `href` attribute ("" when it has none) and the
      text of the chart's year element (the box-office chart never reads it). */
  datatype Row = Row(title: string, href: string, yearText: string)

  /** The answer to one GET request: a transport error, or a status code and the
      matched rows of the parsed page, in document order. */
  datatype Fetch<R> = RequestFailed | Response(status: int, rows: seq<R>)

  /** Why a run stopped: `log.Fatal` on a transport error, `log.Fatalf` on a
      non-200 status, or a runtime panic from indexing piece 2 of a split `href`
      that has fewer than three pieces, in the row with this 0-based index. */
  datatype Failure = RequestError | StatusError(code: int) | IndexOutOfRange(row: nat)

  datatype Result<T> = Ok(value: T) | Err(failure: Failure)

  /** One CSV line, as the list of its fields. */
  type Record = seq<string>

  /** The three IMDb charts: /chart/top/, /chart/moviemeter and /chart/boxoffice. */
  datatype Chart = Top250 | MostPopular | BoxOfficeUSWeekend

  /** What a scraper leaves behind. `Aborted`: the process exited before the
      output file was created. `Completed`: the file holds `lines`. `Crashed`:
      a row panicked; the deferred flush still wrote the lines before it. */
  datatype ScrapeOutcome =
    | Aborted(failure: Failure)
    | Completed(lines: seq<Record>)
    | Crashed(lines: seq<Record>, failure: Failure)

  predicate CreatesFile(out: ScrapeOutcome)
  {
    !out.Aborted?
  }

  /** The number of fields per line of the chart's file. */
  function FieldCount(chart: Chart): nat
  {
    if chart.BoxOfficeUSWeekend? then 3 else 4
  }

  /** The header line of the chart's file. */
  function Header(chart: Chart): (header: Record)
    ensures |header| == FieldCount(chart)
  {
    match chart
    case BoxOfficeUSWeekend => ["rank", "title", "IMDb ID"]
    case _ => ["rank", "title", "year", "IMDb ID"]
  }

  // ---------------------------------------------------------------------------
  // Field normalisation
  // ---------------------------------------------------------------------------

  const YearDecoration: set<char> := {'(', ')'}

  /** The year text with every leading and trailing parenthesis removed
      (`strings.Trim(year, "()")`). */
  function NormalizeYear(text: string): (year: string)
    ensures |year| <= |text|
    ensures year == [] || (year[0] !in YearDecoration && year[|year| - 1] !in YearDecoration)
  {
    Trim(text, YearDecoration)
  }

  /** Indexing piece 2 of `strings.Split(href, "/")` is in bounds. */
  predicate HasIdSegment(href: string)
  {
    Count(href, '/') >= 2
  }

  /** `strings.Split(href, "/")[2]`: the text after the second slash, up to the
      third slash or the end. */
  function Identifier(href: string): (id: string)
    requires HasIdSegment(href)
    ensures '/' !in id
  {
    Split(href, '/')[2]
  }

  /** `strings.Split(id, "?")[0]`: the identifier cut before its query string. */
  function CutQuery(id: string): (r: string)
    ensures '?' !in r
    ensures |r| <= |id| && r == id[..|r|]
    ensures |r| < |id| ==> id[|r|] == '?'
  {
    SplitHead(id, '?');
    Split(id, '?')[0]
  }

  /** The box-office chart's identifier: piece 2 of the link, then cut at `?`. */
  function BoxOfficeIdentifier(href: string): (id: string)
    requires HasIdSegment(href)
    ensures '/' !in id && '?' !in id
  {
    var whole := Identifier(href);
    var cut := CutQuery(whole);
    assert forall k :: 0 <= k < |cut| ==> cut[k] == whole[k];
    cut
  }

  /** The record written for the row with this rank; the rank column is
      `strconv.Itoa(rank)`. */
  function BuildRecord(chart: Chart, rank: nat, row: Row): (record: Record)
    requires HasIdSegment(row.href)
    ensures |record| == FieldCount(chart)
    ensures record[0] == Itoa(rank) && record[1] == row.title
  {
    match chart
    case BoxOfficeUSWeekend => [Itoa(rank), row.title, BoxOfficeIdentifier(row.href)]
    case _ => [Itoa(rank), row.title, NormalizeYear(row.yearText), Identifier(row.href)]
  }

  /** Year normalisation removes exactly the parentheses around the year and
      nothing else, however many there are on each side. */
  lemma NormalizeYearExact(p: string, year: string, q: string)
    requires forall k :: 0 <= k < |p| ==> p[k] in YearDecoration
    requires forall k :: 0 <= k < |q| ==> q[k] in YearDecoration
    requires year == [] || (year[0] !in YearDecoration && year[|year| - 1] !in YearDecoration)
    ensures NormalizeYear(p + year + q) == year
  {
    TrimExact(p, year, q, YearDecoration);
  }

  lemma NormalizeYearIdempotent(text: string)
    ensures NormalizeYear(NormalizeYear(text)) == NormalizeYear(text)
  {
    TrimIdempotent(text, YearDecoration);
  }

  /** The year as the chart page shows it, "(1994)", gives "1994". */
  lemma NormalizeYearParenthesised()
    ensures NormalizeYear("(1994)") == "1994"
  {
    NormalizeYearExact("(", "1994", ")");
    assert "(" + "1994" + ")" == "(1994)";
  }

  /** Repeated parentheses are all removed: "((1994))" gives "1994". */
  lemma NormalizeYearDoublyParenthesised()
    ensures NormalizeYear("((1994))") == "1994"
  {
    NormalizeYearExact("((", "1994", "))");
    assert "((" + "1994" + "))" == "((1994))";
  }

  /** A bare year and the empty text of a missing year element are kept. */
  lemma NormalizeYearPlain()
    ensures NormalizeYear("1994") == "1994"
    ensures NormalizeYear("") == ""
  {
    NormalizeYearExact("", "1994", "");
    assert "" + "1994" + "" == "1994";
    NormalizeYearExact("", "", "");
  }

  /** The identifier is the third slash-separated segment: for a link
      `a/b/c...` with slash-free a, b and c, where c ends the link or is followed
      by another slash, the identifier is c. */
  lemma IdentifierIsThirdSegment(a: string, b: string, c: string, d: string)
    requires '/' !in a && '/' !in b && '/' !in c
    requires d == [] || d[0] == '/'
    ensures HasIdSegment(a + "/" + b + "/" + c + d)
    ensures Identifier(a + "/" + b + "/" + c + d) == c
  {
    assert a + "/" + b + "/" + c + d == a + ['/'] + b + ['/'] + (c + d);
    SplitTwoSegments(a, b, c + d, '/');
    SplitFirstPiece(c, d, '/');
  }

  /** A link with fewer than two slashes, such as the "" of a missing `href`,
      has no piece 2: the scrapers and the lookup panic on it. */
  lemma MissingHrefHasNoIdentifier()
    ensures !HasIdSegment("")
    ensures !HasIdSegment("/title")
  {
    assert "/title"[1..] == "title";
  }

  lemma IdentifierExample()
    ensures HasIdSegment("/title/tt0111161/")
    ensures Identifier("/title/tt0111161/") == "tt0111161"
  {
    IdentifierIsThirdSegment("", "title", "tt0111161", "/");
    assert "" + "/" + "title" + "/" + "tt0111161" + "/" == "/title/tt0111161/";
  }

  /** The query cut gives the part of the identifier before its first `?`, and
      leaves an identifier without `?` alone. */
  lemma CutQueryExact(id: string, query: string)
    requires '?' !in id
    ensures CutQuery(id) == id
    ensures CutQuery(id + ['?'] + query) == id
  {
    SplitWithoutSeparator(id, '?');
    SplitAppend(id, query, '?');
  }

  /** The box-office identifier of a link `a/b/id/...` or `a/b/id` (slash-free
      a, b and id, no `?` in id) is id. */
  lemma BoxOfficeIdentifierOfLink(a: string, b: string, id: string, d: string)
    requires '/' !in a && '/' !in b && '/' !in id && '?' !in id
    requires d == [] || d[0] == '/'
    ensures HasIdSegment(a + "/" + b + "/" + id + d)
    ensures BoxOfficeIdentifier(a + "/" + b + "/" + id + d) == id
  {
    IdentifierIsThirdSegment(a, b, id, d);
    CutQueryExact(id, "");
  }

  /** The box-office identifier of a link `a/b/id?query...` (slash-free a, b, id
      and query, no `?` in id) is id: the query string is cut off. */
  lemma BoxOfficeIdentifierDropsQuery(a: string, b: string, id: string, query: string, d: string)
    requires '/' !in a && '/' !in b && '/' !in id && '/' !in query && '?' !in id
    requires d == [] || d[0] == '/'
    ensures HasIdSegment(a + "/" + b + "/" + id + "?" + query + d)
    ensures BoxOfficeIdentifier(a + "/" + b + "/" + id + "?" + query + d) == id
  {
    var withQuery := id + ['?'] + query;
    assert '/' !in withQuery;
    assert a + "/" + b + "/" + id + "?" + query + d == a + "/" + b + "/" + withQuery + d;
    IdentifierIsThirdSegment(a, b, withQuery, d);
    CutQueryExact(id, query);
  }

  /** "/title/tt001?ref=x" gives "tt001". */
  lemma BoxOfficeIdentifierQueryExample()
    ensures HasIdSegment("/title/tt001?ref=x")
    ensures BoxOfficeIdentifier("/title/tt001?ref=x") == "tt001"
  {
    var link := "" + "/" + "title" + "/" + "tt001" + "?" + "ref=x" + "";
    BoxOfficeIdentifierDropsQuery("", "title", "tt001", "ref=x", "");
    assert link == "/title/tt001?ref=x";
  }

  /** "/title/tt0111161/?ref=abc" gives "tt0111161". */
  lemma BoxOfficeIdentifierSlashExample()
    ensures HasIdSegment("/title/tt0111161/?ref=abc")
    ensures BoxOfficeIdentifier("/title/tt0111161/?ref=abc") == "tt0111161"
  {
    var link := "" + "/" + "title" + "/" + "tt0111161" + "/?ref=abc";
    BoxOfficeIdentifierOfLink("", "title", "tt0111161", "/?ref=abc");
    assert link == "/title/tt0111161/?ref=abc";
  }

  // ---------------------------------------------------------------------------
  // The scrape loop
  // ---------------------------------------------------------------------------

  /** The index of the first row whose `href` panics, or |rows| if none does. */
  function FirstBadRow(rows: seq<Row>): (k: nat)
    ensures k <= |rows|
    ensures forall i :: 0 <= i < k ==> HasIdSegment(rows[i].href)
    ensures k < |rows| ==> !HasIdSegment(rows[k].href)
    decreases |rows|
  {
    if |rows| == 0 || !HasIdSegment(rows[0].href) then 0
    else 1 + FirstBadRow(rows[1..])
  }

  /** The first bad row is the first row without an identifier segment. */
  lemma FirstBadRowIs(rows: seq<Row>, i: nat)
    requires i <= |rows|
    requires forall j :: 0 <= j < i ==> HasIdSegment(rows[j].href)
    requires i < |rows| ==> !HasIdSegment(rows[i].href)
    ensures FirstBadRow(rows) == i
  {
  }

  /** The file after the header and the records of the first n rows: the row
      at 0-based index i gets rank i + 1. Only rows before the first bad one can
      be written. */
  function WrittenLines(chart: Chart, rows: seq<Row>, n: nat): (lines: seq<Record>)
    requires n <= FirstBadRow(rows)
    ensures |lines| == n + 1
    ensures forall k :: 0 <= k < |lines| ==> |lines[k]| == FieldCount(chart)
    decreases n
  {
    if n == 0 then [Header(chart)]
    else WrittenLines(chart, rows, n - 1) + [BuildRecord(chart, n, rows[n - 1])]
  }

  /** Writing row n appends its record, ranked n + 1, and leaves the lines
      already written as they are. */
  lemma WrittenLinesNext(chart: Chart, rows: seq<Row>, n: nat)
    requires n < FirstBadRow(rows)
    ensures WrittenLines(chart, rows, n + 1) == WrittenLines(chart, rows, n) + [BuildRecord(chart, n + 1, rows[n])]
  {
  }

  /** Line 0 is the chart's header. */
  lemma {:induction false} WrittenLinesHeader(chart: Chart, rows: seq<Row>, n: nat)
    requires n <= FirstBadRow(rows)
    ensures WrittenLines(chart, rows, n)[0] == Header(chart)
    decreases n
  {
    if n > 0 {
      WrittenLinesHeader(chart, rows, n - 1);
      assert WrittenLines(chart, rows, n)[0] == WrittenLines(chart, rows, n - 1)[0];
    }
  }

  /** Line k (1 <= k <= n) is the record of row k-1, ranked k. */
  lemma {:induction false} WrittenLinesRecord(chart: Chart, rows: seq<Row>, n: nat, k: nat)
    requires n <= FirstBadRow(rows) && 1 <= k <= n
    ensures WrittenLines(chart, rows, n)[k] == BuildRecord(chart, k, rows[k - 1])
    decreases n
  {
    if k < n {
      WrittenLinesRecord(chart, rows, n - 1, k);
      assert WrittenLines(chart, rows, n)[k] == WrittenLines(chart, rows, n - 1)[k];
    }
  }

  /** The lines of the file once the rows have been written: the header, then
      the records of the rows before the first one that panics. */
  function FileLines(chart: Chart, rows: seq<Row>): (lines: seq<Record>)
    ensures |lines| == FirstBadRow(rows) + 1
    ensures forall k :: 0 <= k < |lines| ==> |lines[k]| == FieldCount(chart)
  {
    WrittenLines(chart, rows, FirstBadRow(rows))
  }

  /** How writing the rows ends: every row written, or a panic at the first
      row whose link has no piece 2. */
  function RowsOutcome(chart: Chart, rows: seq<Row>): (out: ScrapeOutcome)
    ensures CreatesFile(out) && |out.lines| == FirstBadRow(rows) + 1
    ensures out.Completed? <==> forall i :: 0 <= i < |rows| ==> HasIdSegment(rows[i].href)
    ensures out.Crashed? ==>
      FirstBadRow(rows) < |rows| && out.failure == IndexOutOfRange(FirstBadRow(rows))
      && !HasIdSegment(rows[FirstBadRow(rows)].href)
  {
    var k := FirstBadRow(rows);
    if k == |rows| then Completed(FileLines(chart, rows))
    else Crashed(FileLines(chart, rows), IndexOutOfRange(k))
  }

  /** What a scraper leaves behind for a given answer to its request. */
  function ScrapeSpec(chart: Chart, fetch: Fetch<Row>): (out: ScrapeOutcome)
    ensures CreatesFile(out) <==> fetch.Response? && fetch.status == 200
    ensures fetch.RequestFailed? ==> out.failure == RequestError
    ensures fetch.Response? && fetch.status != 200 ==> out.failure == StatusError(fetch.status)
  {
    match fetch
    case RequestFailed => Aborted(RequestError)
    case Response(status, rows) =>
      if status != 200 then Aborted(StatusError(status))
      else RowsOutcome(chart, rows)
  }

  /** The lines of a created file: the header, then the record of each row
      before the first row that panics. */
  lemma ScrapeLines(chart: Chart, fetch: Fetch<Row>)
    requires CreatesFile(ScrapeSpec(chart, fetch))
    ensures fetch.Response? && fetch.status == 200
    ensures var lines := ScrapeSpec(chart, fetch).lines;
      |lines| == FirstBadRow(fetch.rows) + 1 && lines[0] == Header(chart)
      && forall k :: 1 <= k < |lines| ==> lines[k] == BuildRecord(chart, k, fetch.rows[k - 1])
  {
    var rows := fetch.rows;
    var n := FirstBadRow(rows);
    var lines := ScrapeSpec(chart, fetch).lines;
    assert lines == WrittenLines(chart, rows, n);
    WrittenLinesHeader(chart, rows, n);
    forall k | 1 <= k < |lines| ensures lines[k] == BuildRecord(chart, k, rows[k - 1]) {
      WrittenLinesRecord(chart, rows, n, k);
    }
  }

  /** The file starts with the chart's header, and every line has exactly as
      many fields as the header: four for the top-250 and most-popular charts,
      three for the box-office chart. */
  lemma ScrapeArity(chart: Chart, fetch: Fetch<Row>)
    requires CreatesFile(ScrapeSpec(chart, fetch))
    ensures var lines := ScrapeSpec(chart, fetch).lines;
      |lines| >= 1 && lines[0] == Header(chart)
      && |Header(chart)| == FieldCount(chart) == (if chart.BoxOfficeUSWeekend? then 3 else 4)
      && forall k :: 0 <= k < |lines| ==> |lines[k]| == FieldCount(chart)
  {
    ScrapeLines(chart, fetch);
  }

  /** Line k (k >= 1) is the row matched k-th in document order: its rank field
      reads as k, so the ranks run 1, 2, ... without gaps, and it carries that
      row's title. */
  lemma ScrapeRanks(chart: Chart, fetch: Fetch<Row>)
    requires CreatesFile(ScrapeSpec(chart, fetch))
    ensures var lines := ScrapeSpec(chart, fetch).lines;
      |lines| - 1 <= |fetch.rows|
      && forall k :: 1 <= k < |lines| ==>
           (forall f :: 0 <= f < |lines[k][0]| ==> IsDigit(lines[k][0][f]))
           && ParseDecimal(lines[k][0]) == k
           && lines[k][1] == fetch.rows[k - 1].title
  {
    ScrapeLines(chart, fetch);
    var lines := ScrapeSpec(chart, fetch).lines;
    forall k | 1 <= k < |lines|
      ensures (forall f :: 0 <= f < |lines[k][0]| ==> IsDigit(lines[k][0][f]))
      ensures ParseDecimal(lines[k][0]) == k
      ensures lines[k][1] == fetch.rows[k - 1].title
    {
      assert lines[k] == BuildRecord(chart, k, fetch.rows[k - 1]);
      ParseItoa(k);
    }
  }

  /** A completed file holds one record per matched row after the header; a
      crash at row k leaves the header and the records of rows 0 .. k-1, and
      row k is the first whose link has no piece 2. */
  lemma ScrapeRecordCount(chart: Chart, fetch: Fetch<Row>)
    requires CreatesFile(ScrapeSpec(chart, fetch))
    ensures var out := ScrapeSpec(chart, fetch);
      (out.Completed? ==> |out.lines| == |fetch.rows| + 1)
      && (out.Crashed? ==>
            var k := |out.lines| - 1;
            k < |fetch.rows| && out.failure == IndexOutOfRange(k)
            && !HasIdSegment(fetch.rows[k].href)
            && forall j :: 0 <= j < k ==> HasIdSegment(fetch.rows[j].href))
  {
    ScrapeLines(chart, fetch);
  }

  /** Line k + 1 of the file is the record built from row k, ranked k + 1. */
  lemma ScrapeRecordAt(chart: Chart, fetch: Fetch<Row>, k: nat)
    requires fetch.Response? && fetch.status == 200
    requires k < FirstBadRow(fetch.rows)
    ensures k + 1 < |ScrapeSpec(chart, fetch).lines|
    ensures ScrapeSpec(chart, fetch).lines[k + 1] == BuildRecord(chart, k + 1, fetch.rows[k])
  {
    ScrapeSpecLines(chart, fetch);
    WrittenLinesRecord(chart, fetch.rows, FirstBadRow(fetch.rows), k + 1);
  }

  /** A successful response writes the lines of its rows. */
  lemma ScrapeSpecLines(chart: Chart, fetch: Fetch<Row>)
    requires fetch.Response? && fetch.status == 200
    ensures CreatesFile(ScrapeSpec(chart, fetch))
    ensures ScrapeSpec(chart, fetch).lines == WrittenLines(chart, fetch.rows, FirstBadRow(fetch.rows))
  {
  }

  /** Where the year and identifier sit in a record of each chart. */
  lemma RecordFields(chart: Chart, rank: nat, row: Row)
    requires HasIdSegment(row.href)
    ensures var record := BuildRecord(chart, rank, row);
      (chart != BoxOfficeUSWeekend ==>
         record[2] == NormalizeYear(row.yearText) && record[3] == Identifier(row.href))
      && (chart == BoxOfficeUSWeekend ==> record[2] == BoxOfficeIdentifier(row.href))
  {
  }

  /** A row whose year element is missing (empty text) is still written, with
      an empty year. */
  lemma MissingYearKeepsRow(chart: Chart, fetch: Fetch<Row>, k: nat)
    requires chart != BoxOfficeUSWeekend
    requires fetch.Response? && fetch.status == 200
    requires k < FirstBadRow(fetch.rows) && fetch.rows[k].yearText == ""
    ensures k + 1 < |ScrapeSpec(chart, fetch).lines|
    ensures ScrapeSpec(chart, fetch).lines[k + 1][2] == ""
  {
    ScrapeRecordAt(chart, fetch, k);
    RecordFields(chart, k + 1, fetch.rows[k]);
    NormalizeYearPlain();
  }

  lemma TitleLinkIdentifier(id: string)
    requires '/' !in id && '?' !in id
    ensures HasIdSegment("/title/" + id + "/") && BoxOfficeIdentifier("/title/" + id + "/") == id
  {
    assert "/title/" + id + "/" == "" + "/" + "title" + "/" + id + "/";
    BoxOfficeIdentifierOfLink("", "title", id, "/");
  }

  /** The box-office record of a row whose link is `/title/<id>/`. */
  lemma BoxOfficeRecordOfTitleLink(rank: nat, row: Row, id: string)
    requires '/' !in id && '?' !in id && row.href == "/title/" + id + "/"
    ensures HasIdSegment(row.href)
    ensures BuildRecord(BoxOfficeUSWeekend, rank, row) == [Itoa(rank), row.title, id]
  {
    TitleLinkIdentifier(id);
  }

  /** End to end for the box-office chart: rows whose links are `/title/<id>/`
      give the header and then `rank,title,id` for each row, ranked from 1. */
  lemma BoxOfficeEndToEnd(rows: seq<Row>, ids: seq<string>)
    requires |ids| == |rows|
    requires forall i :: 0 <= i < |rows| ==>
      '/' !in ids[i] && '?' !in ids[i] && rows[i].href == "/title/" + ids[i] + "/"
    ensures ScrapeSpec(BoxOfficeUSWeekend, Response(200, rows))
      == Completed([Header(BoxOfficeUSWeekend)]
                   + seq(|rows|, i requires 0 <= i < |rows| => [Itoa(i + 1), rows[i].title, ids[i]]))
  {
    forall i | 0 <= i < |rows| ensures HasIdSegment(rows[i].href) {
      TitleLinkIdentifier(ids[i]);
    }
    FirstBadRowIs(rows, |rows|);
    var fetch := Response(200, rows);
    ScrapeLines(BoxOfficeUSWeekend, fetch);
    var lines := ScrapeSpec(BoxOfficeUSWeekend, fetch).lines;
    var expected := [Header(BoxOfficeUSWeekend)]
      + seq(|rows|, i requires 0 <= i < |rows| => [Itoa(i + 1), rows[i].title, ids[i]]);
    forall k | 1 <= k < |lines| ensures lines[k] == expected[k] {
      BoxOfficeRecordOfTitleLink(k, rows[k - 1], ids[k - 1]);
    }
    assert lines == expected;
  }

  /** `scrapeTop250`, `scrapeMostPopular` and `scrapeBoxOfficeUSWeekend`: they
      differ only in the page, the selectors and the shape of the chart. */
  method Scrape(chart: Chart, fetch: Fetch<Row>) returns (out: ScrapeOutcome)
    ensures out == ScrapeSpec(chart, fetch)
    ensures CreatesFile(out) <==> fetch.Response? && fetch.status == 200
  {
    if fetch.RequestFailed? {
      return Aborted(RequestError);
    }
    if fetch.status != 200 {
      return Aborted(StatusError(fetch.status));
    }
    out := WriteRows(chart, fetch.rows);
  }

  /** The file is created with the header, then the rows are written one by one
      in document order; the row at index i gets rank i + 1, and indexing piece
      2 of a link that has none panics with the lines written so far. */
  method WriteRows(chart: Chart, rows: seq<Row>) returns (out: ScrapeOutcome)
    ensures out == RowsOutcome(chart, rows)
    ensures CreatesFile(out)
  {
    var lines := [Header(chart)];
    var i := 0;
    while i < |rows|
      invariant 0 <= i <= |rows|
      invariant i <= FirstBadRow(rows)
      invariant lines == WrittenLines(chart, rows, i)
    {
      var row := rows[i];
      var rank := i + 1;
      if !HasIdSegment(row.href) {
        FirstBadRowIs(rows, i);
        return Crashed(lines, IndexOutOfRange(i));
      }
      WrittenLinesNext(chart, rows, i);
      lines := lines + [BuildRecord(chart, rank, row)];
      i := i + 1;
    }
    FirstBadRowIs(rows, i);
    out := Completed(lines);
  }

  // ---------------------------------------------------------------------------
  // Title lookup
  // ---------------------------------------------------------------------------

  /** `getID`: the identifier in the link of the first search result, or "" when
      there is none; later results are never looked at. The rows of the search
      page are the `href` strings of each result's link. */
  method GetID(search: Fetch<string>) returns (r: Result<string>)
    ensures search.RequestFailed? ==> r == Err(RequestError)
    ensures search.Response? && search.status != 200 ==> r == Err(StatusError(search.status))
    ensures search.Response? && search.status == 200 && |search.rows| == 0 ==> r == Ok("")
    ensures search.Response? && search.status == 200 && |search.rows| > 0 ==>
      if HasIdSegment(search.rows[0]) then r == Ok(Identifier(search.rows[0]))
      else r == Err(IndexOutOfRange(0))
    ensures r.Ok? ==> '/' !in r.value
  {
    if search.RequestFailed? {
      return Err(RequestError);
    }
    if search.status != 200 {
      return Err(StatusError(search.status));
    }
    var hrefs := search.rows;
    var id := "";
    var i := 0;
    while i < |hrefs|
      invariant 0 <= i <= |hrefs|
      invariant i == 0 ==> id == ""
      invariant i > 0 ==> HasIdSegment(hrefs[0]) && id == Identifier(hrefs[0])
    {
      // only the first result is considered
      if i == 0 {
        if !HasIdSegment(hrefs[i]) {
          return Err(IndexOutOfRange(i));
        }
        id := Identifier(hrefs[i]);
      }
      i := i + 1;
    }
    r := Ok(id);
  }
}
