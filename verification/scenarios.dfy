/**
 Small tables worked through the whole of `generate_report`, stated for arbitrary column
 labels.
 */
module Scenarios {
  import opened Wrappers
  import opened Columns
  import opened Artifacts
  import opened Report

  /** An integer column followed by a text column classifies into one list each. */
  lemma NumberThenTextClassified(num: string, cat: string)
    ensures Classify([Column(num, Int), Column(cat, Object)]) == Classification([num], [cat])
  {
    var c0, c1 := Column(num, Int), Column(cat, Object);
    var t1: Table := [] + [c0];
    var t2 := t1 + [c1];
    ClassifySnoc([], c0);
    ClassifySnoc(t1, c1);
    assert t2 == [c0, c1];
  }

  /** The charts of one numeric label and one categorical label. */
  lemma OneOfEachCharts(num: string, cat: string)
    ensures var rd := AssembleReport(Classification([num], [cat]));
      && rd.histograms == [ImagePath(HistName(num))]
      && rd.barCharts == [ImagePath(BarName(cat))]
      && rd.corrImg == None
  {
  }

  /** The embedded images of one slash-free numeric label and one slash-free categorical label. */
  lemma OneOfEachKeys(num: string, cat: string)
    requires '/' !in num && '/' !in cat
    ensures forall k :: k in AssembleReport(Classification([num], [cat])).encodedImages <==>
              k == HistName(num) || k == BarName(cat) || k == MissingName
  {
    var c := Classification([num], [cat]);
    assert SlashFreeLabels(c);
    EncodedKeysExact(c);
    assert ChartNames(HistPrefix, [num]) == [HistName(num)];
    assert ChartNames(BarPrefix, [cat]) == [BarName(cat)];
  }

  /**
   A table with one integer column and one text column (an `age` and a `city`, say): one
   histogram, one count chart, no correlation chart since one numeric column is too few,
   and the missing-values chart; the report embeds exactly those three images.
   */
  lemma NumberAndTextReport(num: string, cat: string)
    requires '/' !in num && '/' !in cat
    ensures var rd := GenerateReport([Column(num, Int), Column(cat, Object)]);
      && rd.numericColumns == [num]
      && rd.categoricalColumns == [cat]
      && rd.histograms == [ImagePath(HistName(num))]
      && rd.barCharts == [ImagePath(BarName(cat))]
      && rd.corrImg == None
      && rd.missingImg == MissingName
      && (forall k :: k in rd.encodedImages <==> k == HistName(num) || k == BarName(cat) || k == MissingName)
  {
    NumberThenTextClassified(num, cat);
    OneOfEachCharts(num, cat);
    OneOfEachKeys(num, cat);
    assert GenerateReport([Column(num, Int), Column(cat, Object)]) == AssembleReport(Classification([num], [cat]));
  }

  /** Three numeric columns classify into the numeric list alone, in table order. */
  lemma ThreeNumbersClassified(x: string, y: string, z: string)
    ensures Classify([Column(x, Float), Column(y, Int), Column(z, Float)]) == Classification([x, y, z], [])
  {
    var t := [Column(x, Float), Column(y, Int), Column(z, Float)];
    SelectAll(t, Numeric);
    SelectNone(t, Categorical);
    assert ColumnNames(t) == [x, y, z];
  }

  /**
   Three numeric columns and nothing else: three histograms, no count chart, and a
   correlation chart; with distinct labels the report embeds five images.
   */
  lemma ThreeNumbersReport(x: string, y: string, z: string)
    requires x != y && y != z && x != z
    requires '/' !in x && '/' !in y && '/' !in z
    ensures var rd := GenerateReport([Column(x, Float), Column(y, Int), Column(z, Float)]);
      && |rd.histograms| == 3
      && rd.barCharts == []
      && rd.corrImg == Some(CorrName)
      && CorrName in rd.encodedImages
      && |rd.encodedImages| == 5
  {
    var c := Classification([x, y, z], []);
    ThreeNumbersClassified(x, y, z);
    assert SafeLabels(c);
    EncodedImagesCount(c);
  }

  /** A datetime column and a boolean column match neither selector. */
  lemma DatesAndFlagsClassified(when: string, flag: string)
    ensures Classify([Column(when, Datetime), Column(flag, Bool)]) == Classification([], [])
  {
    var t := [Column(when, Datetime), Column(flag, Bool)];
    SelectNone(t, Numeric);
    SelectNone(t, Categorical);
  }

  /** Datetime and boolean columns get no chart: only the missing-values chart is written and embedded. */
  lemma DatesAndFlagsReport(when: string, flag: string)
    ensures var rd := GenerateReport([Column(when, Datetime), Column(flag, Bool)]);
      && rd.numericColumns == [] && rd.categoricalColumns == []
      && rd.histograms == [] && rd.barCharts == []
      && rd.corrImg == None
      && rd.encodedImages.Keys == {MissingName}
  {
    DatesAndFlagsClassified(when, flag);
    var rd := AssembleReport(Classification([], []));
    assert rd.histograms + rd.barCharts == [];
    assert Basenames(rd.histograms + rd.barCharts) == {};
    assert GenerateReport([Column(when, Datetime), Column(flag, Bool)]) == rd;
  }
}
