/** The command's entry point: it cleans the data directory given on the command
    line, derives one output path per chart by joining the directory and a fixed
    file name, and runs the three IMDb scrapers in a fixed order. The process
    stops at the first scraper that aborts or panics. */
module ScraperMain {
  import opened GoStrings
  import opened Imdb

  /** Default of the `dataDir` flag. */
  const DefaultDataDir: string := "."

  const Top250File: string := "imdb-top-250.csv"
  const MostPopularFile: string := "imdb-most-popular.csv"
  const BoxOfficeFile: string := "top-box-office-us.csv"

  /** The data directory after cleaning: when it ends in `/`, every trailing `/`
      is removed (`strings.TrimRight(dir, "/")`); otherwise it is kept. The
      result is the longest prefix of `dir` that does not end in `/` and after
      which only slashes follow. */
  function CleanedDataDir(dir: string): (cleaned: string)
    ensures |cleaned| <= |dir| && cleaned == dir[..|cleaned|]
    ensures forall k :: |cleaned| <= k < |dir| ==> dir[k] == '/'
    ensures cleaned == [] || cleaned[|cleaned| - 1] != '/'
  {
    if HasSuffix(dir, "/") then TrimRight(dir, {'/'})
    else
      assert dir != [] ==> dir[|dir| - 1..] == [dir[|dir| - 1]];
      dir
  }

  /** Cleaning twice is cleaning once. */
  lemma CleanedDataDirIdempotent(dir: string)
    ensures CleanedDataDir(CleanedDataDir(dir)) == CleanedDataDir(dir)
  {
    var once := CleanedDataDir(dir);
    if |once| > 0 {
      assert !HasSuffix(once, "/") by {
        assert once[|once| - 1..] == [once[|once| - 1]];
      }
    }
  }

  /** A directory that does not end in `/` is left as it is. */
  lemma CleanedDataDirKeeps(dir: string)
    requires dir == [] || dir[|dir| - 1] != '/'
    ensures CleanedDataDir(dir) == dir
  {
  }

  /** A directory made only of slashes ("/", "///") cleans to "". */
  lemma CleanedDataDirAllSlashes(dir: string)
    requires forall k :: 0 <= k < |dir| ==> dir[k] == '/'
    ensures CleanedDataDir(dir) == ""
  {
  }

  /** `getFilePath`: the directory, a `/`, then the file name. */
  function FilePath(dir: string, filename: string): (path: string)
    ensures |path| == |dir| + 1 + |filename|
    ensures path[..|dir|] == dir
    ensures path[|dir|..] == "/" + filename
  {
    dir + "/" + filename
  }

  /** Splitting the path at `/` gives the directory's segments followed by the
      file name, and joining the segments before the last gives the directory
      back. */
  lemma FilePathSegments(dir: string, filename: string)
    requires '/' !in filename
    ensures var parts := Split(FilePath(dir, filename), '/');
      parts == Split(dir, '/') + [filename]
      && parts[|parts| - 1] == filename
      && Join(parts[..|parts| - 1], '/') == dir
  {
    assert FilePath(dir, filename) == dir + ['/'] + filename;
    SplitAppend(dir, filename, '/');
    SplitWithoutSeparator(filename, '/');
    SplitThenJoin(dir, '/');
    var parts := Split(dir, '/') + [filename];
    assert parts[..|parts| - 1] == Split(dir, '/');
  }

  /** A directory made only of slashes puts the file under "/". */
  lemma FilePathUnderRoot(slashes: string, filename: string)
    requires forall k :: 0 <= k < |slashes| ==> slashes[k] == '/'
    ensures FilePath(CleanedDataDir(slashes), filename) == "/" + filename
  {
    CleanedDataDirAllSlashes(slashes);
  }

  /** With the default directory every file lands in the working directory,
      at "./" followed by its name. */
  lemma DefaultDirPath(filename: string)
    ensures FilePath(CleanedDataDir(DefaultDataDir), filename) == "./" + filename
  {
    CleanedDataDirKeeps(DefaultDataDir);
  }

  /** A file the run created, with the lines it holds. */
  datatype OutputFile = OutputFile(path: string, lines: seq<Record>)

  /** How the process ended: after the last IMDb chart, or terminated. */
  datatype Exit = Finished | Terminated(failure: Failure)

  /** The index of the first outcome that did not complete, or |outcomes|. */
  function FirstIncomplete(outcomes: seq<ScrapeOutcome>): (n: nat)
    ensures n <= |outcomes|
    ensures forall k :: 0 <= k < n ==> outcomes[k].Completed?
    ensures n < |outcomes| ==> !outcomes[n].Completed?
    decreases |outcomes|
  {
    if |outcomes| == 0 || !outcomes[0].Completed? then 0
    else 1 + FirstIncomplete(outcomes[1..])
  }

  /** The files that consecutive scraper calls leave behind, in call order, and
      how the process ends: it stops at the first call that does not complete,
      keeping that call's file only if the call got as far as creating it. */
  function Collect(paths: seq<string>, outcomes: seq<ScrapeOutcome>): (result: (seq<OutputFile>, Exit))
    requires |paths| == |outcomes|
    ensures |result.0| <= |outcomes|
    decreases |outcomes|
  {
    if |outcomes| == 0 then ([], Finished)
    else
      match outcomes[0]
      case Aborted(failure) => ([], Terminated(failure))
      case Crashed(lines, failure) => ([OutputFile(paths[0], lines)], Terminated(failure))
      case Completed(lines) =>
        var rest := Collect(paths[1..], outcomes[1..]);
        ([OutputFile(paths[0], lines)] + rest.0, rest.1)
  }

  /** What the run leaves behind: with n the first call that did not complete,
      the files of calls 0 .. n-1 in order, plus call n's file if it crashed
      after creating it; the process finishes exactly when every call
      completes, and otherwise ends with call n's failure. */
  lemma {:induction false} CollectFiles(paths: seq<string>, outcomes: seq<ScrapeOutcome>)
    requires |paths| == |outcomes|
    ensures var result, n := Collect(paths, outcomes), FirstIncomplete(outcomes);
      && |result.0| == (if n < |outcomes| && outcomes[n].Crashed? then n + 1 else n)
      && (forall k :: 0 <= k < |result.0| ==>
            CreatesFile(outcomes[k]) && result.0[k] == OutputFile(paths[k], outcomes[k].lines))
      && (result.1 == Finished <==> n == |outcomes|)
      && (result.1.Terminated? ==> n < |outcomes| && result.1.failure == outcomes[n].failure)
    decreases |outcomes|
  {
    if |outcomes| > 0 && outcomes[0].Completed? {
      CollectFiles(paths[1..], outcomes[1..]);
      var rest := Collect(paths[1..], outcomes[1..]);
      var result := Collect(paths, outcomes);
      assert result.0 == [OutputFile(paths[0], outcomes[0].lines)] + rest.0;
      assert FirstIncomplete(outcomes) == 1 + FirstIncomplete(outcomes[1..]);
      forall k | 1 <= k < |result.0|
        ensures result.0[k] == OutputFile(paths[k], outcomes[k].lines)
      {
        assert result.0[k] == rest.0[k - 1];
      }
    }
  }

  /** The file a call that did not complete leaves behind: its partial file
      if it crashed after creating it, nothing if it aborted. */
  function Kept(path: string, out: ScrapeOutcome): (files: seq<OutputFile>)
    ensures |files| <= 1
    ensures |files| == 1 <==> CreatesFile(out) && !out.Completed?
    ensures |files| == 1 ==> files[0] == OutputFile(path, out.lines)
  {
    if out.Crashed? then [OutputFile(path, out.lines)] else []
  }

  /** Three consecutive calls: the run stops at the first of a, b, c that does
      not complete, keeping the files of the calls before it and its own
      partial file. */
  lemma CollectThree(paths: seq<string>, a: ScrapeOutcome, b: ScrapeOutcome, c: ScrapeOutcome)
    requires |paths| == 3
    ensures Collect(paths, [a, b, c]) ==
      if !a.Completed? then (Kept(paths[0], a), Terminated(a.failure))
      else if !b.Completed? then
        ([OutputFile(paths[0], a.lines)] + Kept(paths[1], b), Terminated(b.failure))
      else if !c.Completed? then
        ([OutputFile(paths[0], a.lines)] + [OutputFile(paths[1], b.lines)] + Kept(paths[2], c),
         Terminated(c.failure))
      else
        ([OutputFile(paths[0], a.lines)] + [OutputFile(paths[1], b.lines)] + [OutputFile(paths[2], c.lines)],
         Finished)
  {
    var outcomes := [a, b, c];
    assert paths[1..][1..] == paths[2..] && outcomes[1..][1..] == outcomes[2..];
    assert paths[2..][1..] == [] && outcomes[2..][1..] == [];
    var last := Collect(paths[2..], outcomes[2..]);
    if c.Completed? {
      var none := Collect(paths[2..][1..], outcomes[2..][1..]);
      assert none == ([], Finished);
      assert last.0 == [OutputFile(paths[2], c.lines)] + none.0;
      assert last.0 == [OutputFile(paths[2], c.lines)];
    } else {
      assert last == (Kept(paths[2], c), Terminated(c.failure));
    }
    var middle := Collect(paths[1..], outcomes[1..]);
    if b.Completed? {
      assert middle == ([OutputFile(paths[1], b.lines)] + last.0, last.1);
      var all := Collect(paths, outcomes);
      if a.Completed? {
        assert all.0 == [OutputFile(paths[0], a.lines)] + ([OutputFile(paths[1], b.lines)] + last.0);
        assert all.0 == [OutputFile(paths[0], a.lines)] + [OutputFile(paths[1], b.lines)] + last.0;
      }
    } else {
      assert middle == (Kept(paths[1], b), Terminated(b.failure));
    }
  }

  /** The output paths of `main`'s three IMDb scraper calls, in call order:
      top-250, most-popular, box-office, each under the directory. */
  function MainPaths(dir: string): (paths: seq<string>)
    ensures |paths| == 3
    ensures paths[0] == FilePath(dir, Top250File)
    ensures paths[1] == FilePath(dir, MostPopularFile)
    ensures paths[2] == FilePath(dir, BoxOfficeFile)
  {
    [FilePath(dir, Top250File), FilePath(dir, MostPopularFile), FilePath(dir, BoxOfficeFile)]
  }

  /** The process state `main` works on: the global `dataDir` flag value. */
  class Driver {
    var dataDir: string

    /** After `flag.Parse`: the flag's value, `DefaultDataDir` when not given. */
    constructor (dataDirFlag: string)
      ensures dataDir == dataDirFlag
    {
      dataDir := dataDirFlag;
    }

    /** The clean-up of `main`: trailing slashes are removed in place. */
    method CleanInput()
      modifies this
      ensures dataDir == CleanedDataDir(old(dataDir))
    {
      if HasSuffix(dataDir, "/") {
        dataDir := TrimRight(dataDir, {'/'});
      }
    }

    /** `main` without the final Rotten Tomatoes chart: clean the directory,
        then run the three IMDb scrapers in order, stopping at the first that
        does not complete. */
    method Run(top: Fetch<Row>, popular: Fetch<Row>, boxOffice: Fetch<Row>)
      returns (files: seq<OutputFile>, exit: Exit)
      modifies this
      ensures dataDir == CleanedDataDir(old(dataDir))
      ensures (files, exit) == Collect(MainPaths(dataDir),
        [ScrapeSpec(Top250, top), ScrapeSpec(MostPopular, popular), ScrapeSpec(BoxOfficeUSWeekend, boxOffice)])
    {
      CleanInput();
      var paths := MainPaths(dataDir);
      CollectThree(paths, ScrapeSpec(Top250, top), ScrapeSpec(MostPopular, popular),
        ScrapeSpec(BoxOfficeUSWeekend, boxOffice));

      var first := Scrape(Top250, top);
      if !first.Completed? {
        return Kept(paths[0], first), Terminated(first.failure);
      }
      files := [OutputFile(paths[0], first.lines)];

      var second := Scrape(MostPopular, popular);
      if !second.Completed? {
        return files + Kept(paths[1], second), Terminated(second.failure);
      }
      files := files + [OutputFile(paths[1], second.lines)];

      var third := Scrape(BoxOfficeUSWeekend, boxOffice);
      if !third.Completed? {
        return files + Kept(paths[2], third), Terminated(third.failure);
      }
      files := files + [OutputFile(paths[2], third.lines)];
      exit := Finished;
    }
  }
}
