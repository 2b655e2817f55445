/**
 The image plan of `generate_report`: which chart files are written under `images/`,
 in which order, and when the correlation chart exists. Rendering itself is not modelled;
 a path stands for the chart written to it.
 */
module Artifacts {
  import opened Wrappers
  import opened Columns

  const ImagesDir: string := "images"
  const HistPrefix: string := "hist_"
  const BarPrefix: string := "bar_"
  const PngExt: string := ".png"
  const CorrName: string := "correlation_matrix.png"
  const MissingName: string := "missing_values.png"

  /** The correlation chart needs at least this many numeric columns. */
  const MinCorrelationColumns: nat := 2

  /** `images/<name>` */
  function ImagePath(name: string): string {
    ImagesDir + "/" + name
  }

  /** File name of the chart of column `col`, of the chart kind that `prefix` marks. */
  function ChartName(prefix: string, col: string): string {
    prefix + col + PngExt
  }

  /** File name of the histogram of numeric column `col`. */
  function HistName(col: string): string {
    ChartName(HistPrefix, col)
  }

  /** File name of the count chart of categorical column `col`. */
  function BarName(col: string): string {
    ChartName(BarPrefix, col)
  }

  /**
   The loop over `cols` that writes one chart per column and appends its path:
   one path per column, in column order, each `images/<prefix><col>.png`.
   */
  function ChartPaths(prefix: string, cols: seq<string>): (paths: seq<string>)
    ensures |paths| == |cols|
    ensures forall i :: 0 <= i < |cols| ==> paths[i] == ImagePath(ChartName(prefix, cols[i]))
    decreases |cols|
  {
    if |cols| == 0 then []
    else ChartPaths(prefix, cols[..|cols| - 1]) + [ImagePath(ChartName(prefix, cols[|cols| - 1]))]
  }

  /** The chart paths one run produces. */
  datatype Artifacts = Artifacts(
    histograms: seq<string>,
    barCharts: seq<string>,
    corrImg: Option<string>,
    missingImg: string)

  function PlanArtifacts(c: Classification): (a: Artifacts)
    ensures |a.histograms| == |c.numeric|
    ensures forall i :: 0 <= i < |c.numeric| ==> a.histograms[i] == ImagePath(HistName(c.numeric[i]))
    ensures |a.barCharts| == |c.categorical|
    ensures forall i :: 0 <= i < |c.categorical| ==> a.barCharts[i] == ImagePath(BarName(c.categorical[i]))
    ensures a.corrImg.Some? <==> |c.numeric| >= 2
    ensures a.corrImg.Some? ==> a.corrImg.value == ImagePath(CorrName)
    ensures a.missingImg == ImagePath(MissingName)
  {
    Artifacts(
      ChartPaths(HistPrefix, c.numeric),
      ChartPaths(BarPrefix, c.categorical),
      if |c.numeric| >= MinCorrelationColumns then Some(ImagePath(CorrName)) else None,
      ImagePath(MissingName))
  }

  /** The files a run writes, in the order `savefig` is called. */
  function SavedImages(a: Artifacts): (s: seq<string>)
    ensures |s| == |a.histograms| + |a.barCharts| + (if a.corrImg.Some? then 1 else 0) + 1
    ensures s[|s| - 1] == a.missingImg
    ensures forall p :: p in s <==>
              p in a.histograms || p in a.barCharts || (a.corrImg.Some? && p == a.corrImg.value) || p == a.missingImg
  {
    a.histograms + a.barCharts
    + (if a.corrImg.Some? then [a.corrImg.value] else [])
    + [a.missingImg]
  }

  /**
   A run writes all histograms, then all count charts, then the correlation chart when
   there are at least two numeric columns, and always finishes with the missing-values chart.
   */
  lemma SavedImagesOrder(c: Classification)
    ensures var s := SavedImages(PlanArtifacts(c));
      && |s| == |c.numeric| + |c.categorical| + (if |c.numeric| >= 2 then 1 else 0) + 1
      && (forall i :: 0 <= i < |c.numeric| ==> s[i] == ImagePath(HistName(c.numeric[i])))
      && (forall i :: 0 <= i < |c.categorical| ==> s[|c.numeric| + i] == ImagePath(BarName(c.categorical[i])))
      && (|c.numeric| >= 2 ==> s[|c.numeric| + |c.categorical|] == ImagePath(CorrName))
      && s[|s| - 1] == ImagePath(MissingName)
  {
  }

  /**
   For a table with numeric columns and no categorical ones, the run writes one histogram per
   numeric column, no count chart, a correlation chart only from two numeric columns on, and
   exactly one missing-values chart.
   */
  lemma NumericOnlyTable(t: Table)
    requires |Classify(t).numeric| >= 1 && |Classify(t).categorical| == 0
    ensures var a := PlanArtifacts(Classify(t));
      && |a.histograms| == |Classify(t).numeric|
      && |a.barCharts| == 0
      && (a.corrImg.Some? <==> |Classify(t).numeric| >= 2)
      && multiset(SavedImages(a))[ImagePath(MissingName)] == 1
  {
    var c := Classify(t);
    var a := PlanArtifacts(c);
    forall i | 0 <= i < |a.histograms|
      ensures a.histograms[i] != ImagePath(MissingName)
    {
      HistPathIsNotFixedPath(c.numeric[i]);
    }
    assert ImagePath(MissingName) !in a.histograms;
    assert ImagePath(CorrName) != ImagePath(MissingName) by {
      assert ImagePath(CorrName)[7] != ImagePath(MissingName)[7];
    }
  }

  /** A histogram path never coincides with the correlation or missing-values path. */
  lemma HistPathIsNotFixedPath(col: string)
    ensures ImagePath(HistName(col)) != ImagePath(CorrName)
    ensures ImagePath(HistName(col)) != ImagePath(MissingName)
  {
    assert ImagePath(HistName(col))[7] == 'h';
    assert ImagePath(CorrName)[7] == 'c';
    assert ImagePath(MissingName)[7] == 'm';
  }

  /** A count-chart path never coincides with the correlation or missing-values path. */
  lemma BarPathIsNotFixedPath(col: string)
    ensures ImagePath(BarName(col)) != ImagePath(CorrName)
    ensures ImagePath(BarName(col)) != ImagePath(MissingName)
  {
    assert ImagePath(BarName(col))[7] == 'b';
    assert ImagePath(CorrName)[7] == 'c';
    assert ImagePath(MissingName)[7] == 'm';
  }

  /** A histogram and a count chart never share a path, whatever their columns are called. */
  lemma HistPathIsNotBarPath(h: string, b: string)
    ensures ImagePath(HistName(h)) != ImagePath(BarName(b))
  {
    assert ImagePath(HistName(h))[7] == 'h';
    assert ImagePath(BarName(b))[7] == 'b';
  }
}
