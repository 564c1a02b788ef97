/**
 * The per-folder loop of `main` in imapdu.py as a function from the server's
 * answers to the printed lines: enumerate the folders, skip those without
 * statistics, optionally pass both sizes through `to_size`, and fill the CSV
 * or the human-readable template, one line per folder in LIST order.
 */
module Report {
  import opened Wrappers
  import opened Decimal
  import opened Strings
  import opened Imap
  import opened Listing
  import opened Sizing
  import opened Units

  /** The `--csv` and `--human-readable`/`--no-human-readable` switches. */
  datatype Options = Options(csv: bool, humanReadable: bool)

  /** How a size is substituted: the `to_size` text, or the integer as `str()` writes it. */
  function SizeField(n: nat, human: bool): string {
    if human then ToSize(n) else Show(n)
  }

  /**
   * The values substituted for `{count}`, `{folder}`, `{size}` and
   * `{biggest}`: human-readable mode rewrites the two sizes and nothing else.
   */
  function Fields(folder: string, stats: Stats, human: bool): (fields: seq<string>)
    ensures |fields| == 4
    ensures fields[0] == Show(stats.count) && fields[1] == folder
    ensures human ==> fields[2] == ToSize(stats.total) && fields[3] == ToSize(stats.biggest)
    ensures !human ==> fields[2] == Show(stats.total) && fields[3] == Show(stats.biggest)
  {
    [Show(stats.count), folder, SizeField(stats.total, human), SizeField(stats.biggest, human)]
  }

  /** `report.format(count=..., folder=..., size=..., biggest=...)`. */
  function Line(folder: string, stats: Stats, opts: Options): (line: string)
    ensures opts.csv ==> line == Join(Fields(folder, stats, opts.humanReadable), ",")
    ensures !opts.csv ==>
              var f := Fields(folder, stats, opts.humanReadable);
              line == f[0] + " Messages in " + f[1] + " taking up " + f[2] + " biggest message " + f[3]
  {
    var f := Fields(folder, stats, opts.humanReadable);
    JoinFour(f[0], f[1], f[2], f[3], ",");
    assert f == [f[0], f[1], f[2], f[3]];
    if opts.csv then f[0] + "," + f[1] + "," + f[2] + "," + f[3]
    else f[0] + " Messages in " + f[1] + " taking up " + f[2] + " biggest message " + f[3]
  }

  lemma NoCommaInField(n: nat, human: bool)
    ensures ',' !in SizeField(n, human)
  {
    if human {
      ToSizeHasNoComma(n);
    } else {
      var s := Show(n);
      assert forall i :: 0 <= i < |s| ==> IsDigit(s[i]);
    }
  }

  /** Four comma-free fields joined with commas split back into themselves. */
  lemma SplitCsvRecord(f: seq<string>)
    requires |f| == 4
    requires forall k :: 0 <= k < 4 ==> ',' !in f[k]
    ensures Split(f[0] + "," + f[1] + "," + f[2] + "," + f[3], ",") == f
  {
    forall k | 0 <= k < 4
      ensures Separated(f[k], ",")
    {
      SeparatedByChar(f[k], ',');
    }
    JoinFour(f[0], f[1], f[2], f[3], ",");
    assert f == [f[0], f[1], f[2], f[3]];
    SplitJoin(f, ",");
  }

  /**
   * A CSV line splits back on commas into exactly its four fields when the
   * folder name holds no comma; the count, and in raw mode both sizes, read
   * back as the numbers written.
   */
  lemma CsvLineReadsBack(folder: string, stats: Stats, human: bool)
    requires ',' !in folder
    ensures var line := Line(folder, stats, Options(true, human));
            && Split(line, ",") == Fields(folder, stats, human)
            && Value(Split(line, ",")[0]) == stats.count
            && (!human ==> Value(Split(line, ",")[2]) == stats.total)
            && (!human ==> Value(Split(line, ",")[3]) == stats.biggest)
  {
    var f := Fields(folder, stats, human);
    var count := f[0];
    assert forall i :: 0 <= i < |count| ==> IsDigit(count[i]);
    NoCommaInField(stats.total, human);
    NoCommaInField(stats.biggest, human);
    SplitCsvRecord(f);
    ValueOfShow(stats.count);
    ValueOfShow(stats.total);
    ValueOfShow(stats.biggest);
  }

  /** A folder and what `folder_size` returned for it (`None` when skipped). */
  datatype FolderResult = FolderResult(folder: string, stats: Option<Stats>)

  /**
   * The lines printed once the loop has gone through `results`: each folder
   * with statistics adds its line after those of the folders before it.
   */
  function Lines(results: seq<FolderResult>, opts: Options): (lines: seq<string>)
    ensures |lines| <= |results|
  {
    if |results| == 0 then []
    else
      var last := results[|results| - 1];
      var before := Lines(results[..|results| - 1], opts);
      match last.stats
      case None => before
      case Some(stats) => before + [Line(last.folder, stats, opts)]
  }

  /** The positions, in increasing order, of the folders that have statistics. */
  function PresentIndices(results: seq<FolderResult>): (idx: seq<nat>)
    ensures forall j :: 0 <= j < |idx| ==> idx[j] < |results| && results[idx[j]].stats.Some?
    ensures forall j, k :: 0 <= j < k < |idx| ==> idx[j] < idx[k]
    ensures forall i :: 0 <= i < |results| && results[i].stats.Some? ==> i in idx
  {
    if |results| == 0 then []
    else
      var n := |results| - 1;
      var before := PresentIndices(results[..n]);
      if results[n].stats.Some? then before + [n] else before
  }

  /**
   * One line per folder with statistics, none for the others, in
   * enumeration order: the j-th line belongs to the j-th folder that has
   * statistics.
   */
  lemma {:induction false} LinesFollowEnumeration(results: seq<FolderResult>, opts: Options)
    ensures var lines := Lines(results, opts);
            var idx := PresentIndices(results);
            && |lines| == |idx|
            && forall j :: 0 <= j < |idx| ==>
                 lines[j] == Line(results[idx[j]].folder, results[idx[j]].stats.value, opts)
  {
    if |results| > 0 {
      var n := |results| - 1;
      LinesFollowEnumeration(results[..n], opts);
      var idx := PresentIndices(results);
      var before := PresentIndices(results[..n]);
      forall j | 0 <= j < |before|
        ensures results[..n][before[j]] == results[before[j]]
      {
      }
    }
  }

  /** Reporting a longer enumeration appends the later folders' lines. */
  lemma {:induction false} LinesAppend(a: seq<FolderResult>, b: seq<FolderResult>, opts: Options)
    ensures Lines(a + b, opts) == Lines(a, opts) + Lines(b, opts)
  {
    if |b| == 0 {
      assert a + b == a;
    } else {
      var n := |b| - 1;
      assert (a + b)[..|a + b| - 1] == a + b[..n];
      LinesAppend(a, b[..n], opts);
    }
  }

  /** The answers on which the whole run returns: LIST and every folder's sizing. */
  predicate Runnable(server: Server) {
    && ListHandled(server(List))
    && forall k :: 0 <= k < |Folders(server)| ==> Handled(server, Folders(server)[k])
  }

  /** `folder_size` for every enumerated folder, in LIST order. */
  function Results(server: Server): (results: seq<FolderResult>)
    requires Runnable(server)
    ensures |results| == |Folders(server)|
    ensures forall k :: 0 <= k < |results| ==>
              results[k].folder == Folders(server)[k]
              && results[k].stats == FolderSize(server, Folders(server)[k])
  {
    var names := Folders(server);
    seq(|names|, k requires 0 <= k < |names| => FolderResult(names[k], FolderSize(server, names[k])))
  }

  /** Everything the program prints for `server` under `opts`. */
  function Usage(server: Server, opts: Options): (lines: seq<string>)
    requires Runnable(server)
    ensures !Ok(server(List)) ==> lines == []
    ensures |lines| <= |Folders(server)|
  {
    Lines(Results(server), opts)
  }

  /**
   * The printed lines are those of the available folders, in LIST order, and
   * every available folder gets one: a folder whose SELECT, SEARCH or FETCH
   * fails, or which SELECT reports as empty, prints nothing.
   */
  lemma UsageReportsAvailableFolders(server: Server, opts: Options)
    requires Runnable(server)
    ensures var names := Folders(server);
            var idx := PresentIndices(Results(server));
            var lines := Usage(server, opts);
            && |lines| == |idx|
            && (forall j :: 0 <= j < |idx| ==>
                  Available(server, names[idx[j]])
                  && lines[j] == Line(names[idx[j]], FolderSize(server, names[idx[j]]).value, opts))
            && (forall k :: 0 <= k < |names| && Available(server, names[k]) ==> k in idx)
  {
    LinesFollowEnumeration(Results(server), opts);
  }

  /**
   * An account whose LIST names a single folder prints exactly that folder's
   * line when its statistics are present.
   */
  lemma SingleFolderUsage(server: Server, name: string, stats: Stats, opts: Options)
    requires ListHandled(server(List)) && Folders(server) == [name]
    requires Handled(server, name) && FolderSize(server, name) == Some(stats)
    ensures Runnable(server)
    ensures Usage(server, opts) == [Line(name, stats, opts)]
  {
    var results := Results(server);
    assert results[..0] == [];
    assert results[..1] == results;
  }
}
