/**
 The input-format dispatch of `load_data`: the file path's suffix picks the CSV reader,
 the Excel reader, or the terminal "unsupported format" exit.
 */
module Loader {
  import opened Paths

  /** The two parsing collaborators `load_data` can hand the path to. */
  datatype Reader = CsvReader | ExcelReader

  /** The dispatch decision: use a reader, or end the process with an exit status. */
  datatype Dispatch = Use(reader: Reader) | Exit(status: int)

  const CsvSuffix: string := ".csv"
  const XlsxSuffix: string := ".xlsx"
  const XlsSuffix: string := ".xls"

  /** The suffixes handed to the Excel reader, in the order `load_data` lists them. */
  const ExcelSuffixes: seq<string> := [XlsxSuffix, XlsSuffix]

  /** The status `sys.exit` receives for an unsupported format. */
  const UnsupportedStatus: int := 1

  /** The suffix checks, in the order `load_data` checks them: `.csv` first, then `.xlsx`/`.xls`. */
  function SelectReader(path: string): (d: Dispatch)
    ensures d.Exit? ==> d.status == UnsupportedStatus
  {
    if EndsWith(path, CsvSuffix) then Use(CsvReader)
    else if EndsWithAny(path, ExcelSuffixes) then Use(ExcelReader)
    else Exit(UnsupportedStatus)
  }

  /** The Excel check is the disjunction of the `.xlsx` and `.xls` checks. */
  lemma ExcelSuffixCases(path: string)
    ensures EndsWithAny(path, ExcelSuffixes) <==> EndsWith(path, XlsxSuffix) || EndsWith(path, XlsSuffix)
  {
    if EndsWithAny(path, ExcelSuffixes) {
      var k :| 0 <= k < |ExcelSuffixes| && EndsWith(path, ExcelSuffixes[k]);
      assert k == 0 || k == 1;
    }
    if EndsWith(path, XlsxSuffix) {
      assert EndsWith(path, ExcelSuffixes[0]);
    }
    if EndsWith(path, XlsSuffix) {
      assert EndsWith(path, ExcelSuffixes[1]);
    }
  }

  /** Every path made of a stem and `.csv` selects the CSV reader. */
  lemma CsvPathSelectsCsv(stem: string)
    ensures SelectReader(stem + CsvSuffix) == Use(CsvReader)
  {
    EndsWithAppend(stem, CsvSuffix);
  }

  /** Every path made of a stem and `.xlsx` or `.xls` selects the Excel reader. */
  lemma ExcelPathSelectsExcel(stem: string, ext: string)
    requires ext == XlsxSuffix || ext == XlsSuffix
    ensures SelectReader(stem + ext) == Use(ExcelReader)
  {
    var p := stem + ext;
    EndsWithAppend(stem, ext);
    // the last character of p is 'x' or 's', never the 'v' that ends ".csv"
    assert p[|p| - 1] == ext[|ext| - 1];
    assert !EndsWith(p, CsvSuffix);
    assert EndsWith(p, ExcelSuffixes[if ext == XlsxSuffix then 0 else 1]);
  }

  /**
   A path selects a reader exactly when it is a stem followed by one of the three
   recognised suffixes; every other path exits with status 1.
   */
  lemma SupportedIffKnownSuffix(path: string)
    ensures SelectReader(path).Use? <==>
              HasStem(path, CsvSuffix) || HasStem(path, XlsxSuffix) || HasStem(path, XlsSuffix)
    ensures SelectReader(path) == Exit(UnsupportedStatus) <==>
              !(HasStem(path, CsvSuffix) || HasStem(path, XlsxSuffix) || HasStem(path, XlsSuffix))
  {
    ExcelSuffixCases(path);
  }

  /** Two paths with the same last five characters agree on every suffix of up to five characters. */
  lemma SameTailSameSuffix(p: string, q: string, suffix: string)
    requires |p| >= 5 && |q| >= 5 && |suffix| <= 5
    requires p[|p| - 5..] == q[|q| - 5..]
    ensures EndsWith(p, suffix) <==> EndsWith(q, suffix)
  {
    assert p[|p| - |suffix|..] == p[|p| - 5..][5 - |suffix|..];
    assert q[|q| - |suffix|..] == q[|q| - 5..][5 - |suffix|..];
  }

  /**
   The decision reads only the last five characters of the path: directory and stem
   do not matter, and neither does anything before the extension.
   */
  lemma DispatchReadsOnlyTail(p: string, q: string)
    requires |p| >= 5 && |q| >= 5
    requires p[|p| - 5..] == q[|q| - 5..]
    ensures SelectReader(p) == SelectReader(q)
  {
    SameTailSameSuffix(p, q, CsvSuffix);
    SameTailSameSuffix(p, q, XlsxSuffix);
    SameTailSameSuffix(p, q, XlsSuffix);
    ExcelSuffixCases(p);
    ExcelSuffixCases(q);
  }
}
