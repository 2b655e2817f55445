/**
 The entry point `main`: the argument-count check, the reader dispatch of `load_data`,
 and the hand-over of the loaded table to `generate_report`. Process exits are outcomes.
 */
module Cli {
  import Loader
  import Columns
  import Artifacts
  import Report

  /** The status `sys.exit` receives when the data-file argument is missing. */
  const UsageStatus: int := 1

  /** What `main` decides before any file is read: exit, or read `path` with `reader`. */
  datatype Outcome = Exit(status: int) | Read(path: string, reader: Loader.Reader)

  /**
   `argv[0]` is the program, `argv[1]` the data file; with fewer than two entries `main`
   prints its usage line and exits with status 1. Later arguments are never looked at.
   */
  function Main(argv: seq<string>): (o: Outcome)
    ensures o.Exit? ==> o.status == 1
    ensures o.Read? ==> |argv| >= 2 && o.path == argv[1] && Loader.SelectReader(argv[1]) == Loader.Use(o.reader)
  {
    if |argv| < 2 then Exit(UsageStatus)
    else
      match Loader.SelectReader(argv[1])
      case Use(r) => Read(argv[1], r)
      case Exit(s) => Exit(s)
  }

  /** Without a data-file argument, `main` exits with status 1 and reads no file. */
  lemma MissingArgumentExits(argv: seq<string>)
    requires |argv| < 2
    ensures Main(argv) == Exit(1)
  {
  }

  /** Arguments after the data file are ignored rather than rejected. */
  lemma ExtraArgumentsIgnored(argv: seq<string>, extra: seq<string>)
    requires |argv| >= 2
    ensures Main(argv + extra) == Main(argv)
  {
    assert (argv + extra)[1] == argv[1];
  }

  /** `main` goes on to read a file exactly when there is a data-file argument with a recognised suffix. */
  lemma ReadIffArgumentSupported(argv: seq<string>)
    ensures Main(argv).Read? <==> |argv| >= 2 && Loader.SelectReader(argv[1]).Use?
    ensures Main(argv).Exit? <==> |argv| < 2 || Loader.SelectReader(argv[1]) == Loader.Exit(1)
  {
  }

  /** `quickprof <stem>.csv ...` reads the file with the CSV reader, whatever follows it. */
  lemma CsvArgumentReadsCsv(prog: string, stem: string, extra: seq<string>)
    ensures Main([prog, stem + Loader.CsvSuffix] + extra) == Read(stem + Loader.CsvSuffix, Loader.CsvReader)
  {
    ExtraArgumentsIgnored([prog, stem + Loader.CsvSuffix], extra);
    Loader.CsvPathSelectsCsv(stem);
  }

  /** `quickprof <stem>.xlsx ...` and `quickprof <stem>.xls ...` read the file with the Excel reader. */
  lemma ExcelArgumentReadsExcel(prog: string, stem: string, ext: string, extra: seq<string>)
    requires ext == Loader.XlsxSuffix || ext == Loader.XlsSuffix
    ensures Main([prog, stem + ext] + extra) == Read(stem + ext, Loader.ExcelReader)
  {
    ExtraArgumentsIgnored([prog, stem + ext], extra);
    Loader.ExcelPathSelectsExcel(stem, ext);
  }

  /** The result of a whole run: an exit status, or the report payload rendered into `report.html`. */
  datatype RunResult = Failed(status: int) | Reported(report: Report.ReportData)

  /** The status of a process that ends on an uncaught Python exception. */
  const UncaughtStatus: int := 1

  /**
   A frame with no rows or no columns. Its `df.isnull()` matrix is empty, and the
   missing-values heatmap of `generate_report` raises on an empty matrix; nothing catches it.
   */
  predicate EmptyFrame(loaded: Columns.Table, rows: nat) {
    rows == 0 || |loaded| == 0
  }

  /**
   A chart whose column label holds a '/' has a path such as `images/hist_km/h.png`, naming a
   directory under `images` that the run never creates, so its `savefig` raises and nothing
   catches it.
   */
  predicate UnwritableChart(loaded: Columns.Table) {
    !Report.SlashFreeLabels(Columns.Classify(loaded))
  }

  /**
   `main` followed by `generate_report`. `loaded` and `rows` stand for the columns and the
   row count of the table the chosen reader returns; reading and parsing the file are not
   modelled.
   */
  function Run(argv: seq<string>, loaded: Columns.Table, rows: nat): (r: RunResult)
    ensures r.Failed? <==>
              || Main(argv).Exit?
              || rows == 0 || |loaded| == 0
              || exists i :: 0 <= i < |loaded| && Columns.GroupOf(loaded[i].kind) != Columns.Excluded
                               && '/' in loaded[i].name
    ensures r.Failed? ==> r.status == 1
    ensures r.Reported? ==> |argv| >= 2
    ensures r.Reported? ==> r.report.numericColumns == Columns.Classify(loaded).numeric
    ensures r.Reported? ==> r.report.categoricalColumns == Columns.Classify(loaded).categorical
    ensures r.Reported? ==> (r.report.corrImg.Some? <==> |Columns.Classify(loaded).numeric| >= 2)
    ensures r.Reported? ==> r.report.missingImg == Artifacts.MissingName
  {
    match Main(argv)
    case Exit(s) => Failed(s)
    case Read(_, _) =>
      Report.SlashFreeLabelsIffCharted(loaded);
      if UnwritableChart(loaded) || EmptyFrame(loaded, rows) then Failed(UncaughtStatus)
      else Reported(Report.GenerateReport(loaded))
  }

  /**
   Whenever a run produces a report, the report embeds exactly one chart per numeric and per
   categorical column of the loaded table, the correlation chart when it has at least two
   numeric columns, and the missing-values chart.
   */
  lemma RunEmbedsLoadedCharts(argv: seq<string>, loaded: Columns.Table, rows: nat)
    ensures Run(argv, loaded, rows).Reported? ==>
      var c := Columns.Classify(loaded);
      forall k :: k in Run(argv, loaded, rows).report.encodedImages <==>
        || k in Report.ChartNames(Artifacts.HistPrefix, c.numeric)
        || k in Report.ChartNames(Artifacts.BarPrefix, c.categorical)
        || (|c.numeric| >= 2 && k == Artifacts.CorrName)
        || k == Artifacts.MissingName
  {
    if Run(argv, loaded, rows).Reported? {
      Report.EncodedKeysExact(Columns.Classify(loaded));
    }
  }
}
