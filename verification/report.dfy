/**
 The report payload of `generate_report`: the `encoded_images` map, keyed by image file
 name, and the `report_data` fields that depend on the column classification. The base64
 text of an image is I/O; the map records the path of the image file whose bytes are encoded.
 */
module Report {
  import opened Wrappers
  import opened Paths
  import opened Columns
  import opened Artifacts

  /**
   The classification-dependent part of `report_data`. `encodedImages` maps an image file
   name to the path of the file whose encoding is embedded under that name.
   */
  datatype ReportData = ReportData(
    numericColumns: seq<string>,
    categoricalColumns: seq<string>,
    histograms: seq<string>,
    barCharts: seq<string>,
    encodedImages: map<string, string>,
    corrImg: Option<string>,
    missingImg: string)

  /** The file names of the given paths. */
  function Basenames(paths: seq<string>): set<string> {
    set p | p in paths :: Basename(p)
  }

  /**
   The loop that stores each image under its file name, in order; a later path with the
   same file name replaces an earlier one, as a Python dict assignment does.
   */
  function EncodeAll(m: map<string, string>, paths: seq<string>): (r: map<string, string>)
    ensures r.Keys == m.Keys + Basenames(paths)
    decreases |paths|
  {
    if |paths| == 0 then m
    else
      assert Basenames(paths) == {Basename(paths[0])} + Basenames(paths[1..]) by {
        assert paths == [paths[0]] + paths[1..];
      }
      EncodeAll(m[Basename(paths[0]) := paths[0]], paths[1..])
  }

  /** An entry whose name no path carries keeps its value. */
  lemma {:induction false} EncodeAllKeepsOthers(m: map<string, string>, paths: seq<string>, k: string)
    requires k in m && k !in Basenames(paths)
    ensures k in EncodeAll(m, paths) && EncodeAll(m, paths)[k] == m[k]
    decreases |paths|
  {
    if |paths| > 0 {
      assert paths[0] in paths;
      assert Basenames(paths[1..]) <= Basenames(paths) by {
        forall p | p in paths[1..] ensures p in paths {
          var j :| 0 <= j < |paths[1..]| && paths[1..][j] == p;
          assert paths[j + 1] == p;
        }
      }
      EncodeAllKeepsOthers(m[Basename(paths[0]) := paths[0]], paths[1..], k);
    }
  }

  /** Every name the paths carry ends up holding one of the paths with that name. */
  lemma {:induction false} EncodeAllValues(m: map<string, string>, paths: seq<string>)
    ensures forall k :: k in Basenames(paths) ==>
              k in EncodeAll(m, paths) && EncodeAll(m, paths)[k] in paths && Basename(EncodeAll(m, paths)[k]) == k
    decreases |paths|
  {
    if |paths| > 0 {
      var m' := m[Basename(paths[0]) := paths[0]];
      var rest := paths[1..];
      var r := EncodeAll(m, paths);
      assert r == EncodeAll(m', rest);
      EncodeAllValues(m', rest);
      forall k | k in Basenames(paths)
        ensures k in r && r[k] in paths && Basename(r[k]) == k
      {
        if k in Basenames(rest) {
          var j :| 0 <= j < |rest| && rest[j] == r[k];
          assert paths[j + 1] == r[k];
        } else {
          EncodeAllKeepsOthers(m', rest, k);
        }
      }
    }
  }

  /**
   Last write wins: a path that no later path shares its file name with is the value
   stored under that file name.
   */
  lemma {:induction false} EncodeAllLastWins(m: map<string, string>, paths: seq<string>, i: nat)
    requires i < |paths|
    requires forall j :: i < j < |paths| ==> Basename(paths[j]) != Basename(paths[i])
    ensures Basename(paths[i]) in EncodeAll(m, paths)
    ensures EncodeAll(m, paths)[Basename(paths[i])] == paths[i]
    decreases |paths|
  {
    var m' := m[Basename(paths[0]) := paths[0]];
    var rest := paths[1..];
    assert EncodeAll(m, paths) == EncodeAll(m', rest);
    if i == 0 {
      assert Basename(paths[0]) !in Basenames(rest) by {
        forall p | p in rest
          ensures Basename(p) != Basename(paths[0])
        {
          var j :| 0 <= j < |rest| && rest[j] == p;
          assert paths[j + 1] == p;
        }
      }
      EncodeAllKeepsOthers(m', rest, Basename(paths[0]));
    } else {
      forall j | i - 1 < j < |rest|
        ensures Basename(rest[j]) != Basename(rest[i - 1])
      {
        assert rest[j] == paths[j + 1];
      }
      EncodeAllLastWins(m', rest, i - 1);
    }
  }

  /**
   `encoded_images`: every histogram and count chart under its file name, then the
   correlation chart when it exists, then the missing-values chart, each under a fixed name.
   */
  function EncodeArtifacts(a: Artifacts): (m: map<string, string>)
    ensures m.Keys ==
              Basenames(a.histograms + a.barCharts)
              + (if a.corrImg.Some? then {CorrName} else {})
              + {MissingName}
    ensures a.corrImg.Some? ==> m[CorrName] == a.corrImg.value
    ensures m[MissingName] == a.missingImg
  {
    var charts := EncodeAll(map[], a.histograms + a.barCharts);
    var withCorr := if a.corrImg.Some? then charts[CorrName := a.corrImg.value] else charts;
    withCorr[MissingName := a.missingImg]
  }

  /** The payload `generate_report` assembles from a classification, with plotting and file I/O abstracted away. */
  function AssembleReport(c: Classification): (rd: ReportData)
    ensures rd.numericColumns == c.numeric && rd.categoricalColumns == c.categorical
    ensures |rd.histograms| == |c.numeric|
    ensures forall i :: 0 <= i < |c.numeric| ==> rd.histograms[i] == ImagePath(HistName(c.numeric[i]))
    ensures |rd.barCharts| == |c.categorical|
    ensures forall i :: 0 <= i < |c.categorical| ==> rd.barCharts[i] == ImagePath(BarName(c.categorical[i]))
    ensures rd.corrImg.Some? <==> |c.numeric| >= 2
    ensures rd.corrImg.Some? ==> rd.corrImg.value == CorrName
    ensures rd.missingImg == MissingName
    ensures rd.encodedImages.Keys ==
              Basenames(rd.histograms + rd.barCharts)
              + (if rd.corrImg.Some? then {CorrName} else {})
              + {MissingName}
    ensures rd.corrImg.Some? ==> rd.encodedImages[CorrName] == ImagePath(CorrName)
    ensures rd.encodedImages[MissingName] == ImagePath(MissingName)
  {
    var a := PlanArtifacts(c);
    ReportData(
      c.numeric,
      c.categorical,
      a.histograms,
      a.barCharts,
      EncodeArtifacts(a),
      if a.corrImg.Some? then Some(CorrName) else None,
      MissingName)
  }

  /**
   Every embedded image is a file the run wrote, and a chart stored under a name other than
   the two fixed ones has that name as its file name.
   */
  lemma EmbeddedImagesWereSaved(a: Artifacts)
    ensures forall k :: k in EncodeArtifacts(a) ==> EncodeArtifacts(a)[k] in SavedImages(a)
    ensures forall k :: k in EncodeArtifacts(a) && k != CorrName && k != MissingName ==>
              Basename(EncodeArtifacts(a)[k]) == k
  {
    var paths := a.histograms + a.barCharts;
    EncodeAllValues(map[], paths);
    assert forall p :: p in paths ==> p in SavedImages(a);
  }

  /** `generate_report`: classify the columns, then assemble the payload from the two lists. */
  function GenerateReport(t: Table): (rd: ReportData)
    ensures forall n :: n in rd.numericColumns <==>
              exists i :: 0 <= i < |t| && t[i].name == n && GroupOf(t[i].kind) == Numeric
    ensures forall n :: n in rd.categoricalColumns <==>
              exists i :: 0 <= i < |t| && t[i].name == n && GroupOf(t[i].kind) == Categorical
    ensures |rd.histograms| + |rd.barCharts| <= |t|
  {
    ClassificationSize(t);
    AssembleReport(Classify(t))
  }

  /** No column label holds a '/', so each chart path's file name is the chart's own name. */
  predicate SlashFreeNames(t: Table) {
    SlashFree(ColumnNames(t))
  }

  /** No label in `xs` holds a '/'. */
  predicate SlashFree(xs: seq<string>) {
    forall i :: 0 <= i < |xs| ==> '/' !in xs[i]
  }

  /** Column labels of a classification that keep chart file names apart: no repeats, no '/'. */
  predicate SafeLabels(c: Classification) {
    && NoDuplicates(c.numeric) && NoDuplicates(c.categorical)
    && SlashFreeLabels(c)
  }

  /** No label of a classification holds a '/'. */
  predicate SlashFreeLabels(c: Classification) {
    SlashFree(c.numeric) && SlashFree(c.categorical)
  }

  /** A table with distinct, slash-free labels classifies into safe labels. */
  lemma SafeTableLabels(t: Table)
    requires DistinctNames(t) && SlashFreeNames(t)
    ensures SafeLabels(Classify(t))
  {
    ClassificationDisjoint(t);
    SlashFreeTableLabels(t);
  }

  /** A table with slash-free labels classifies into slash-free lists. */
  lemma SlashFreeTableLabels(t: Table)
    requires SlashFreeNames(t)
    ensures SlashFreeLabels(Classify(t))
  {
    var c := Classify(t);
    forall i | 0 <= i < |t| ensures '/' !in t[i].name {
      assert ColumnNames(t)[i] == t[i].name;
    }
    forall i | 0 <= i < |c.numeric| ensures '/' !in c.numeric[i] {
      assert c.numeric[i] in c.numeric;
    }
    forall i | 0 <= i < |c.categorical| ensures '/' !in c.categorical[i] {
      assert c.categorical[i] in c.categorical;
    }
  }

  /** No column that gets a chart, numeric or categorical, has a '/' in its label. */
  predicate SlashFreeChartedNames(t: Table) {
    forall i :: 0 <= i < |t| && GroupOf(t[i].kind) != Excluded ==> '/' !in t[i].name
  }

  /** The classification's lists are slash-free exactly when every charted column's label is. */
  lemma SlashFreeLabelsIffCharted(t: Table)
    ensures SlashFreeLabels(Classify(t)) <==> SlashFreeChartedNames(t)
  {
    var c := Classify(t);
    if SlashFreeLabels(c) {
      forall i | 0 <= i < |t| && GroupOf(t[i].kind) != Excluded
        ensures '/' !in t[i].name
      {
        if GroupOf(t[i].kind) == Numeric {
          assert t[i].name in c.numeric;
        } else {
          assert t[i].name in c.categorical;
        }
      }
    }
    if SlashFreeChartedNames(t) {
      forall j | 0 <= j < |c.numeric| ensures '/' !in c.numeric[j] {
        assert c.numeric[j] in c.numeric;
      }
      forall j | 0 <= j < |c.categorical| ensures '/' !in c.categorical[j] {
        assert c.categorical[j] in c.categorical;
      }
    }
  }

  /** A chart name determines its column. */
  lemma ChartNameInjective(prefix: string, a: string, b: string)
    requires ChartName(prefix, a) == ChartName(prefix, b)
    ensures a == b
  {
    var s := prefix + a + PngExt;
    assert |a| == |b|;
    assert a == s[|prefix|..|prefix| + |a|];
    assert b == (prefix + b + PngExt)[|prefix|..|prefix| + |b|];
  }

  /** The file names of the charts of `cols`, in order. */
  function ChartNames(prefix: string, cols: seq<string>): seq<string> {
    seq(|cols|, i requires 0 <= i < |cols| => ChartName(prefix, cols[i]))
  }

  /** Chart names of distinct columns are distinct. */
  lemma ChartNamesDistinct(prefix: string, cols: seq<string>)
    requires NoDuplicates(cols)
    ensures NoDuplicates(ChartNames(prefix, cols))
  {
    var ns := ChartNames(prefix, cols);
    forall i, j | 0 <= i < j < |cols|
      ensures ns[i] != ns[j]
    {
      if ns[i] == ns[j] {
        ChartNameInjective(prefix, cols[i], cols[j]);
      }
    }
  }

  /** For slash-free columns, the file name of each chart path is the chart's name. */
  lemma ChartBasenames(prefix: string, cols: seq<string>)
    requires '/' !in prefix
    requires forall i :: 0 <= i < |cols| ==> '/' !in cols[i]
    ensures forall i :: 0 <= i < |cols| ==> Basename(ChartPaths(prefix, cols)[i]) == ChartName(prefix, cols[i])
  {
    forall i | 0 <= i < |cols|
      ensures Basename(ChartPaths(prefix, cols)[i]) == ChartName(prefix, cols[i])
    {
      assert '/' !in ChartName(prefix, cols[i]);
      BasenameOfJoin(ImagesDir, ChartName(prefix, cols[i]));
    }
  }

  /** When the file names of `ps` are, position by position, the entries of `ns`, the two hold the same names. */
  lemma BasenamesPointwise(ps: seq<string>, ns: seq<string>)
    requires |ps| == |ns|
    requires forall i :: 0 <= i < |ps| ==> Basename(ps[i]) == ns[i]
    ensures forall x :: x in Basenames(ps) <==> x in ns
  {
    forall x | x in ns ensures x in Basenames(ps) {
      var i :| 0 <= i < |ns| && ns[i] == x;
      assert Basename(ps[i]) == x;
    }
  }

  /** File names of a concatenation are the file names of both parts. */
  lemma BasenamesConcat(a: seq<string>, b: seq<string>)
    ensures Basenames(a + b) == Basenames(a) + Basenames(b)
  {
    assert forall p :: p in a + b <==> p in a || p in b;
  }

  /** A sequence without duplicates has as many distinct elements as entries. */
  lemma {:induction false} NoDuplicatesCard(s: seq<string>)
    requires NoDuplicates(s)
    ensures |set x | x in s| == |s|
    decreases |s|
  {
    if |s| > 0 {
      var s' := s[..|s| - 1];
      NoDuplicatesCard(s');
      assert (set x | x in s) == (set x | x in s') + {s[|s| - 1]};
      assert s[|s| - 1] !in s';
    }
  }

  /** A duplicate-free sequence listing exactly the members of a set has the set's size. */
  lemma CardFromMembership(keys: set<string>, ks: seq<string>)
    requires NoDuplicates(ks)
    requires forall k :: k in keys <==> k in ks
    ensures |keys| == |ks|
  {
    NoDuplicatesCard(ks);
    assert keys == set x | x in ks;
  }

  /**
   The charts of distinct slash-free columns have as many file names as columns, and every
   one of them starts with the first letter of the prefix.
   */
  lemma ChartKeys(prefix: string, cols: seq<string>)
    requires |prefix| > 0 && '/' !in prefix
    requires NoDuplicates(cols)
    requires forall i :: 0 <= i < |cols| ==> '/' !in cols[i]
    ensures |Basenames(ChartPaths(prefix, cols))| == |cols|
    ensures forall x :: x in Basenames(ChartPaths(prefix, cols)) ==> |x| > 0 && x[0] == prefix[0]
  {
    var ps := ChartPaths(prefix, cols);
    var ns := ChartNames(prefix, cols);
    ChartBasenames(prefix, cols);
    ChartNamesDistinct(prefix, cols);
    BasenamesPointwise(ps, ns);
    CardFromMembership(Basenames(ps), ns);
    forall x | x in Basenames(ps)
      ensures |x| > 0 && x[0] == prefix[0]
    {
      var i :| 0 <= i < |ns| && ns[i] == x;
      assert x == ChartName(prefix, cols[i]);
    }
  }

  /** The names that `encoded_images` holds apart from the chart file names. */
  function FixedKeys(a: Artifacts): set<string> {
    (if a.corrImg.Some? then {CorrName} else {}) + {MissingName}
  }

  /** The keys of `encoded_images` are the histogram names, the count-chart names and the fixed names. */
  lemma EncodedKeysSplit(a: Artifacts)
    ensures EncodeArtifacts(a).Keys == Basenames(a.histograms) + Basenames(a.barCharts) + FixedKeys(a)
  {
    BasenamesConcat(a.histograms, a.barCharts);
  }

  /** Sets whose members start with different letters are disjoint. */
  lemma InitialsSeparate(xs: set<string>, ys: set<string>, x: char, y: char)
    requires x != y
    requires forall s :: s in xs ==> |s| > 0 && s[0] == x
    requires forall s :: s in ys ==> |s| > 0 && s[0] != x
    ensures xs * ys == {}
  {
  }

  /** The size of a union of three pairwise disjoint sets. */
  lemma DisjointUnionCard(xs: set<string>, ys: set<string>, zs: set<string>)
    requires xs * ys == {} && xs * zs == {} && ys * zs == {}
    ensures |xs + ys + zs| == |xs| + |ys| + |zs|
  {
    assert (xs + ys) * zs == {};
  }

  /**
   Chart names starting with 'h' and with 'b', plus the fixed names: the three groups are
   disjoint, so their sizes add up.
   */
  lemma KeyCount(hk: set<string>, bk: set<string>, hasCorr: bool)
    requires forall s :: s in hk ==> |s| > 0 && s[0] == 'h'
    requires forall s :: s in bk ==> |s| > 0 && s[0] == 'b'
    ensures |hk + bk + ((if hasCorr then {CorrName} else {}) + {MissingName})| ==
              |hk| + |bk| + (if hasCorr then 1 else 0) + 1
  {
    var fixed := (if hasCorr then {CorrName} else {}) + {MissingName};
    assert CorrName[0] == 'c' && MissingName[0] == 'm';
    InitialsSeparate(hk, bk, 'h', 'b');
    InitialsSeparate(hk, fixed, 'h', 'c');
    InitialsSeparate(bk, fixed, 'b', 'c');
    DisjointUnionCard(hk, bk, fixed);
  }

  /**
   When the histogram file names all start with 'h' and the count-chart file names all start
   with 'b', `encoded_images` holds one entry per distinct chart file name plus the fixed names.
   */
  lemma EncodedKeysCount(a: Artifacts)
    requires forall s :: s in Basenames(a.histograms) ==> |s| > 0 && s[0] == 'h'
    requires forall s :: s in Basenames(a.barCharts) ==> |s| > 0 && s[0] == 'b'
    ensures |EncodeArtifacts(a)| ==
              |Basenames(a.histograms)| + |Basenames(a.barCharts)| + (if a.corrImg.Some? then 1 else 0) + 1
  {
    EncodedKeysSplit(a);
    KeyCount(Basenames(a.histograms), Basenames(a.barCharts), a.corrImg.Some?);
  }

  /** With safe labels, the planned charts have one file name per column, marked by the chart kind's initial. */
  lemma PlannedChartKeys(c: Classification)
    requires SafeLabels(c)
    ensures var a := PlanArtifacts(c);
      && |Basenames(a.histograms)| == |c.numeric|
      && |Basenames(a.barCharts)| == |c.categorical|
      && (forall s :: s in Basenames(a.histograms) ==> |s| > 0 && s[0] == 'h')
      && (forall s :: s in Basenames(a.barCharts) ==> |s| > 0 && s[0] == 'b')
  {
    ChartKeys(HistPrefix, c.numeric);
    ChartKeys(BarPrefix, c.categorical);
  }

  /**
   With safe labels, `encoded_images` has exactly one entry per histogram, one per count
   chart, one for the correlation chart when there are at least two numeric columns, and one
   for the missing-values chart.
   */
  lemma EncodedImagesCount(c: Classification)
    requires SafeLabels(c)
    ensures |AssembleReport(c).encodedImages| ==
              |c.numeric| + |c.categorical| + (if |c.numeric| >= 2 then 1 else 0) + 1
  {
    var a := PlanArtifacts(c);
    PlannedChartKeys(c);
    EncodedKeysCount(a);
    assert AssembleReport(c).encodedImages == EncodeArtifacts(a);
  }

  /** A chart entry under a name other than the two fixed ones survives into `encoded_images`. */
  lemma ChartKeptByEncodeArtifacts(a: Artifacts, k: string)
    requires k in EncodeAll(map[], a.histograms + a.barCharts)
    requires k != CorrName && k != MissingName
    ensures k in EncodeArtifacts(a)
    ensures EncodeArtifacts(a)[k] == EncodeAll(map[], a.histograms + a.barCharts)[k]
  {
  }

  /**
   When every path is `images/<its own file name>`, the loop stores each file name with
   exactly the path `images/<name>`, whichever of several equal paths was written last.
   */
  lemma EncodeAllImagePaths(paths: seq<string>, key: string)
    requires forall j :: 0 <= j < |paths| ==> paths[j] == ImagePath(Basename(paths[j]))
    requires key in Basenames(paths)
    ensures key in EncodeAll(map[], paths)
    ensures EncodeAll(map[], paths)[key] == ImagePath(key)
  {
    EncodeAllValues(map[], paths);
    var v := EncodeAll(map[], paths)[key];
    var j :| 0 <= j < |paths| && paths[j] == v;
    assert v == ImagePath(Basename(paths[j]));
  }

  /** With slash-free labels, every planned chart path is `images/<its own file name>`. */
  lemma ChartPathsAreImagePaths(c: Classification)
    requires SlashFreeLabels(c)
    ensures var a := PlanArtifacts(c);
      forall j :: 0 <= j < |a.histograms + a.barCharts| ==>
        (a.histograms + a.barCharts)[j] == ImagePath(Basename((a.histograms + a.barCharts)[j]))
  {
    var a := PlanArtifacts(c);
    var paths := a.histograms + a.barCharts;
    ChartBasenames(HistPrefix, c.numeric);
    ChartBasenames(BarPrefix, c.categorical);
    forall j | 0 <= j < |paths|
      ensures paths[j] == ImagePath(Basename(paths[j]))
    {
      if j < |a.histograms| {
        assert paths[j] == a.histograms[j];
      } else {
        assert paths[j] == a.barCharts[j - |a.histograms|];
      }
    }
  }

  /**
   With slash-free labels, histogram `i` is embedded under its own file name, from its own
   file; repeated labels write the same path again, so the entry is the same.
   */
  lemma EncodedHistogram(c: Classification, i: nat)
    requires SlashFreeLabels(c)
    requires i < |c.numeric|
    ensures HistName(c.numeric[i]) in AssembleReport(c).encodedImages
    ensures AssembleReport(c).encodedImages[HistName(c.numeric[i])] == ImagePath(HistName(c.numeric[i]))
  {
    var a := PlanArtifacts(c);
    var paths := a.histograms + a.barCharts;
    var key := HistName(c.numeric[i]);
    ChartBasenames(HistPrefix, c.numeric);
    assert paths[i] == a.histograms[i];
    assert Basename(paths[i]) == key;
    assert key in Basenames(paths);
    ChartPathsAreImagePaths(c);
    EncodeAllImagePaths(paths, key);
    assert key[0] == 'h' && CorrName[0] == 'c' && MissingName[0] == 'm';
    ChartKeptByEncodeArtifacts(a, key);
    assert AssembleReport(c).encodedImages == EncodeArtifacts(a);
  }

  /**
   With slash-free labels, count chart `i` is embedded under its own file name, from its own
   file; repeated labels write the same path again, so the entry is the same.
   */
  lemma EncodedBarChart(c: Classification, i: nat)
    requires SlashFreeLabels(c)
    requires i < |c.categorical|
    ensures BarName(c.categorical[i]) in AssembleReport(c).encodedImages
    ensures AssembleReport(c).encodedImages[BarName(c.categorical[i])] == ImagePath(BarName(c.categorical[i]))
  {
    var a := PlanArtifacts(c);
    var paths := a.histograms + a.barCharts;
    var k := |a.histograms| + i;
    var key := BarName(c.categorical[i]);
    ChartBasenames(BarPrefix, c.categorical);
    assert paths[k] == a.barCharts[i];
    assert Basename(paths[k]) == key;
    assert key in Basenames(paths);
    ChartPathsAreImagePaths(c);
    EncodeAllImagePaths(paths, key);
    assert key[0] == 'b' && CorrName[0] == 'c' && MissingName[0] == 'm';
    ChartKeptByEncodeArtifacts(a, key);
    assert AssembleReport(c).encodedImages == EncodeArtifacts(a);
  }

  /**
   With slash-free labels, the names `encoded_images` holds are exactly `hist_<col>.png` for
   the numeric columns, `bar_<col>.png` for the categorical columns,
   `correlation_matrix.png` when there are at least two numeric columns, and
   `missing_values.png`.
   */
  lemma EncodedKeysExact(c: Classification)
    requires SlashFreeLabels(c)
    ensures forall k :: k in AssembleReport(c).encodedImages <==>
              || k in ChartNames(HistPrefix, c.numeric)
              || k in ChartNames(BarPrefix, c.categorical)
              || (|c.numeric| >= 2 && k == CorrName)
              || k == MissingName
  {
    var a := PlanArtifacts(c);
    ChartBasenames(HistPrefix, c.numeric);
    ChartBasenames(BarPrefix, c.categorical);
    BasenamesPointwise(a.histograms, ChartNames(HistPrefix, c.numeric));
    BasenamesPointwise(a.barCharts, ChartNames(BarPrefix, c.categorical));
    EncodedKeysSplit(a);
    assert AssembleReport(c).encodedImages == EncodeArtifacts(a);
  }
}
