/**
 Column classification of `generate_report`: a table, seen only through its ordered
 column names and declared kinds, is split into the numeric columns (pandas
 `select_dtypes(include=[np.number])`) and the categorical columns
 (`select_dtypes(include=['object', 'category'])`).
 */
module Columns {

  /**
   The declared value type of a column, as pandas reports it. `Int` covers numpy's signed and
   unsigned integers and the nullable `Int64`/`UInt64` family (whose scalar type is the numpy
   integer), `Float` numpy floats and the nullable `Float64` family, `Complex` numpy complex
   numbers, and `Timedelta` `timedelta64`. `Bool` covers numpy and nullable booleans,
   `Datetime` `datetime64`, and `Other` the remaining non-numeric extension dtypes (strings,
   periods, intervals, ...).
   */
  datatype Kind = Int | Float | Complex | Timedelta | Object | Category | Bool | Datetime | Other

  datatype Column = Column(name: string, kind: Kind)

  /** A table reduced to its ordered columns; row contents do not affect classification. */
  type Table = seq<Column>

  /** Where a column lands: numeric, categorical, or in neither list. */
  datatype Group = Numeric | Categorical | Excluded

  /**
   The classes the scalar type of a kind derives from, as numpy and pandas arrange them:
   `timedelta64` is a signed integer, and `bool_`, `datetime64` and `object_` derive directly
   from `generic`. Categorical and the non-numeric extension dtypes of `Other` have scalar
   types outside numpy.
   */
  function ScalarBases(k: Kind): set<string> {
    match k
    case Int => {"integer", "number", "generic"}
    case Float => {"floating", "inexact", "number", "generic"}
    case Complex => {"complexfloating", "inexact", "number", "generic"}
    case Timedelta => {"timedelta64", "signedinteger", "integer", "number", "generic"}
    case Object => {"object_", "generic"}
    case Category => {"CategoricalDtypeType"}
    case Bool => {"bool_", "generic"}
    case Datetime => {"datetime64", "generic"}
    case Other => {}
  }

  /** `include=[np.number]` */
  const NumericSelector: set<string> := {"number"}

  /** `include=['object', 'category']`, resolved to the classes those names stand for */
  const CategoricalSelector: set<string> := {"object_", "CategoricalDtypeType"}

  /** `select_dtypes(include=sel)` keeps a column whose scalar type derives from a class in `sel`. */
  predicate Selected(k: Kind, sel: set<string>) {
    exists b :: b in sel && b in ScalarBases(k)
  }

  /**
   Integer, floating, complex and timedelta kinds are numbers; object and category kinds are
   categorical; booleans, datetimes and other kinds match neither selector.
   */
  function GroupOf(k: Kind): (g: Group)
    ensures g == Numeric <==> Selected(k, NumericSelector)
    ensures g == Categorical <==> Selected(k, CategoricalSelector)
  {
    match k
    case Int | Float | Complex | Timedelta =>
      assert "number" in ScalarBases(k);
      Numeric
    case Object =>
      assert "object_" in ScalarBases(k);
      Categorical
    case Category =>
      assert "CategoricalDtypeType" in ScalarBases(k);
      Categorical
    case Bool | Datetime | Other => Excluded
  }

  /** The positions of the columns in group `g`, in column order. */
  function Positions(t: Table, g: Group): (ps: seq<nat>)
    ensures forall j :: 0 <= j < |ps| ==> ps[j] < |t| && GroupOf(t[ps[j]].kind) == g
    ensures forall j, k :: 0 <= j < k < |ps| ==> ps[j] < ps[k]
    ensures forall i :: 0 <= i < |t| && GroupOf(t[i].kind) == g ==> i in ps
    decreases |t|
  {
    if |t| == 0 then []
    else
      var ps := Positions(t[..|t| - 1], g);
      if GroupOf(t[|t| - 1].kind) == g then ps + [|t| - 1] else ps
  }

  /** The names of the columns at positions `ps`. */
  function NamesAt(t: Table, ps: seq<nat>): seq<string>
    requires forall j :: 0 <= j < |ps| ==> ps[j] < |t|
  {
    seq(|ps|, j requires 0 <= j < |ps| => t[ps[j]].name)
  }

  /** The table's column labels, in order (`df.columns`). */
  function ColumnNames(t: Table): seq<string> {
    seq(|t|, i requires 0 <= i < |t| => t[i].name)
  }

  /** The two lists `generate_report` computes: `numeric_cols` and `categorical_cols`. */
  datatype Classification = Classification(numeric: seq<string>, categorical: seq<string>)

  /** The names of the columns in group `g`, in column order (`select_dtypes(...).columns.tolist()`). */
  function Select(t: Table, g: Group): (names: seq<string>)
    ensures forall n :: n in names <==> exists i :: 0 <= i < |t| && t[i].name == n && GroupOf(t[i].kind) == g
  {
    var ps := Positions(t, g);
    var names := NamesAt(t, ps);
    assert forall i :: 0 <= i < |t| && GroupOf(t[i].kind) == g ==> t[i].name in names by {
      forall i | 0 <= i < |t| && GroupOf(t[i].kind) == g
        ensures t[i].name in names
      {
        var j :| 0 <= j < |ps| && ps[j] == i;
        assert names[j] == t[i].name;
      }
    }
    names
  }

  function Classify(t: Table): (c: Classification)
    ensures forall n :: n in c.numeric <==>
              exists i :: 0 <= i < |t| && t[i].name == n && GroupOf(t[i].kind) == Numeric
    ensures forall n :: n in c.categorical <==>
              exists i :: 0 <= i < |t| && t[i].name == n && GroupOf(t[i].kind) == Categorical
  {
    Classification(Select(t, Numeric), Select(t, Categorical))
  }

  /** Every column has a name different from every other column's. */
  predicate DistinctNames(t: Table) {
    NoDuplicates(ColumnNames(t))
  }

  /** No name occurs twice in `xs`. */
  predicate NoDuplicates(xs: seq<string>) {
    forall i, j :: 0 <= i < j < |xs| ==> xs[i] != xs[j]
  }

  /** `ps` witnesses that `xs` is `ys` with some entries dropped and the rest kept in order. */
  ghost predicate SubsequenceBy(xs: seq<string>, ys: seq<string>, ps: seq<nat>) {
    && |ps| == |xs|
    && (forall j :: 0 <= j < |ps| ==> ps[j] < |ys| && xs[j] == ys[ps[j]])
    && (forall j, k :: 0 <= j < k < |ps| ==> ps[j] < ps[k])
  }

  ghost predicate IsSubsequence(xs: seq<string>, ys: seq<string>) {
    exists ps :: SubsequenceBy(xs, ys, ps)
  }

  /** Both lists keep the table's column order: each is a subsequence of the column labels. */
  lemma ClassificationKeepsOrder(t: Table)
    ensures IsSubsequence(Classify(t).numeric, ColumnNames(t))
    ensures IsSubsequence(Classify(t).categorical, ColumnNames(t))
  {
    assert SubsequenceBy(Classify(t).numeric, ColumnNames(t), Positions(t, Numeric));
    assert SubsequenceBy(Classify(t).categorical, ColumnNames(t), Positions(t, Categorical));
  }

  /**
   Classification is a partition of the column positions: a column is selected as numeric
   exactly when its kind is a number kind (integer, floating, complex or timedelta), as
   categorical exactly when its kind is object or category, never both, and a column of any
   other kind is in neither list.
   */
  lemma ClassificationIsPartition(t: Table, i: nat)
    requires i < |t|
    ensures i in Positions(t, Numeric) <==> t[i].kind in {Int, Float, Complex, Timedelta}
    ensures i in Positions(t, Categorical) <==> t[i].kind in {Object, Category}
    ensures !(i in Positions(t, Numeric) && i in Positions(t, Categorical))
    ensures t[i].kind in {Bool, Datetime, Other} ==>
              i !in Positions(t, Numeric) && i !in Positions(t, Categorical)
  {
  }

  /** Every column lands in exactly one of the three groups, so the group sizes add up to the column count. */
  lemma {:induction false} GroupSizesSum(t: Table)
    ensures |Positions(t, Numeric)| + |Positions(t, Categorical)| + |Positions(t, Excluded)| == |t|
    decreases |t|
  {
    if |t| > 0 {
      GroupSizesSum(t[..|t| - 1]);
    }
  }

  /** So the two lists together never hold more entries than the table has columns. */
  lemma ClassificationSize(t: Table)
    ensures |Classify(t).numeric| + |Classify(t).categorical| <= |t|
  {
    GroupSizesSum(t);
  }

  /** With distinct column labels, no name is both numeric and categorical, and each list is duplicate-free. */
  lemma ClassificationDisjoint(t: Table)
    requires DistinctNames(t)
    ensures forall n :: !(n in Classify(t).numeric && n in Classify(t).categorical)
    ensures NoDuplicates(Classify(t).numeric)
    ensures NoDuplicates(Classify(t).categorical)
  {
    DistinctColumns(t);
  }

  /** Distinct labels, column by column. */
  lemma DistinctColumns(t: Table)
    requires DistinctNames(t)
    ensures forall i, j :: 0 <= i < j < |t| ==> t[i].name != t[j].name
  {
    forall i, j | 0 <= i < j < |t| ensures t[i].name != t[j].name {
      assert ColumnNames(t)[i] != ColumnNames(t)[j];
    }
  }

  /** With distinct column labels, a column whose kind is neither a number nor categorical appears in neither list. */
  lemma ExcludedKindInNeither(t: Table, i: nat)
    requires DistinctNames(t)
    requires i < |t| && GroupOf(t[i].kind) == Excluded
    ensures t[i].name !in Classify(t).numeric
    ensures t[i].name !in Classify(t).categorical
  {
    DistinctColumns(t);
  }

  /** Appending a column appends its position to its own group and leaves the other groups alone. */
  lemma PositionsSnoc(t: Table, c: Column, g: Group)
    ensures Positions(t + [c], g) == Positions(t, g) + (if GroupOf(c.kind) == g then [|t|] else [])
  {
    assert (t + [c])[..|t|] == t;
  }

  /**
   The selection is built column by column: appending a column appends its label to the
   list of its own group and to no other list.
   */
  lemma SelectSnoc(t: Table, c: Column, g: Group)
    ensures Select(t + [c], g) == Select(t, g) + (if GroupOf(c.kind) == g then [c.name] else [])
  {
    PositionsSnoc(t, c, g);
    var ps := Positions(t, g);
    assert NamesAt(t + [c], ps) == NamesAt(t, ps);
  }

  /** Classification of a table with one more column, in terms of the shorter table's. */
  lemma ClassifySnoc(t: Table, c: Column)
    ensures Classify(t + [c]).numeric ==
              Classify(t).numeric + (if GroupOf(c.kind) == Numeric then [c.name] else [])
    ensures Classify(t + [c]).categorical ==
              Classify(t).categorical + (if GroupOf(c.kind) == Categorical then [c.name] else [])
  {
    SelectSnoc(t, c, Numeric);
    SelectSnoc(t, c, Categorical);
  }

  /** When no column belongs to group `g`, its list is empty. */
  lemma {:induction false} SelectNone(t: Table, g: Group)
    requires forall i :: 0 <= i < |t| ==> GroupOf(t[i].kind) != g
    ensures Select(t, g) == []
    decreases |t|
  {
    if |t| > 0 {
      var u, c := t[..|t| - 1], t[|t| - 1];
      assert t == u + [c];
      SelectNone(u, g);
      SelectSnoc(u, c, g);
    }
  }

  /** When every column belongs to group `g`, its list is all the column labels, in order. */
  lemma {:induction false} SelectAll(t: Table, g: Group)
    requires forall i :: 0 <= i < |t| ==> GroupOf(t[i].kind) == g
    ensures Select(t, g) == ColumnNames(t)
    decreases |t|
  {
    if |t| > 0 {
      var u, c := t[..|t| - 1], t[|t| - 1];
      assert t == u + [c];
      SelectAll(u, g);
      SelectSnoc(u, c, g);
      assert ColumnNames(t) == ColumnNames(u) + [c.name];
    }
  }
}
