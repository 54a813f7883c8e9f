/** `validate_preprocessed` as a report value: the shape of the feature table,
    the missing-value count of every column, the number of duplicate rows,
    the columns holding a value other than 0 or 1, and, when a meta table is
    given, whether the two tables differ in length.  The printing is not
    modelled; the report holds what it prints. */
module Validate {
  import opened Frames
  import opened Config
  import Preprocess

  datatype Report = Report(
    rowCount: nat,
    columnCount: nat,
    missing: seq<(string, nat)>,
    duplicateRows: nat,
    badColumns: seq<string>,
    lengthMismatch: Option<bool>)

  /** `features_df[c].isna().sum()`. */
  function MissingCount(rows: seq<map<string, Num>>, c: string): (n: nat)
    ensures n <= |rows|
  {
    if rows == [] then 0
    else MissingCount(rows[..|rows| - 1], c) + (if NumCell(rows[|rows| - 1], c) == NaN then 1 else 0)
  }

  /** A column has no missing value exactly when its count is 0. */
  lemma {:induction false} MissingCountZero(rows: seq<map<string, Num>>, c: string)
    ensures MissingCount(rows, c) == 0 <==> forall i :: 0 <= i < |rows| ==> NumCell(rows[i], c) != NaN
    decreases |rows|
  {
    if rows != [] {
      var n := |rows| - 1;
      MissingCountZero(rows[..n], c);
      assert forall i :: 0 <= i < n ==> rows[..n][i] == rows[i];
    }
  }

  /** The values of one row in column order: what `duplicated()` compares. */
  function Project(row: map<string, Num>, columns: seq<string>): (v: seq<Num>)
    ensures |v| == |columns|
  {
    seq(|columns|, j requires 0 <= j < |columns| => NumCell(row, columns[j]))
  }

  function Projected(t: Table<Num>): (vs: seq<seq<Num>>)
    ensures |vs| == |t.rows|
  {
    seq(|t.rows|, i requires 0 <= i < |t.rows| => Project(t.rows[i], t.columns))
  }

  /** `duplicated().sum()`: the number of rows equal to some earlier row (two
      missing cells compare equal). */
  function DuplicateCount<T(==)>(rs: seq<T>): nat {
    if rs == [] then 0
    else DuplicateCount(rs[..|rs| - 1]) + (if rs[|rs| - 1] in rs[..|rs| - 1] then 1 else 0)
  }

  /** `features_df.duplicated().sum()`: pandas returns an empty result for a
      frame that is empty along either axis, so a table without columns has
      no duplicates however many rows it has. */
  function Duplicates(t: Table<Num>): (n: nat)
    ensures t.columns == [] ==> n == 0
    ensures t.columns != [] ==> n + |set v | v in Projected(t)| == |t.rows|
  {
    DuplicatesPlusDistinct(Projected(t));
    if t.columns == [] then 0 else DuplicateCount(Projected(t))
  }

  /** Each row is either the first of its kind or a duplicate: the duplicate
      count plus the number of distinct rows is the number of rows. */
  lemma {:induction false} DuplicatesPlusDistinct<T>(rs: seq<T>)
    ensures DuplicateCount(rs) + |set x | x in rs| == |rs|
    decreases |rs|
  {
    if rs != [] {
      var n := |rs| - 1;
      DuplicatesPlusDistinct(rs[..n]);
      assert rs == rs[..n] + [rs[n]];
      var before := set x | x in rs[..n];
      assert (set x | x in rs) == before + {rs[n]};
      if rs[n] in rs[..n] {
        assert rs[n] in before;
        assert before + {rs[n]} == before;
      } else {
        assert rs[n] !in before;
        assert |before + {rs[n]}| == |before| + 1;
      }
    }
  }

  /** A column holds a non-missing value other than 0 and 1. */
  predicate NonBinary(rows: seq<map<string, Num>>, c: string) {
    exists i :: 0 <= i < |rows| && NumCell(rows[i], c) != NaN && !IsIndicator(NumCell(rows[i], c))
  }

  function NonBinaryMask(t: Table<Num>): (mask: seq<bool>)
    ensures |mask| == |t.columns|
  {
    seq(|t.columns|, j requires 0 <= j < |t.columns| => NonBinary(t.rows, t.columns[j]))
  }

  /** `validate_preprocessed(features_df, meta_df)`, its report. */
  method ValidatePreprocessed(features: Table<Num>, meta: Option<Table<Value>>) returns (report: Report)
    ensures report.rowCount == |features.rows| && report.columnCount == |features.columns|
    ensures |report.missing| == |features.columns|
    ensures forall j :: 0 <= j < |features.columns| ==>
      report.missing[j] == (features.columns[j], MissingCount(features.rows, features.columns[j]))
    ensures report.duplicateRows == Duplicates(features)
    ensures report.badColumns == Select(features.columns, NonBinaryMask(features))
    ensures forall c :: c in report.badColumns <==> c in features.columns && NonBinary(features.rows, c)
    ensures report.lengthMismatch == if meta.None? then None else Some(|features.rows| != |meta.value.rows|)
  {
    var columns := features.columns;
    var missing := seq(|columns|, j requires 0 <= j < |columns| => (columns[j], MissingCount(features.rows, columns[j])));
    var duplicates := if columns == [] then 0 else DuplicateCount(Projected(features));
    ghost var mask := NonBinaryMask(features);
    var bad: seq<string> := [];
    for j := 0 to |columns|
      invariant bad == Select(columns[..j], mask[..j])
    {
      SelectSnoc(columns, mask, j);
      if NonBinary(features.rows, columns[j]) {
        bad := bad + [columns[j]];
      }
    }
    assert columns[..|columns|] == columns && mask[..|mask|] == mask;
    SelectMembers(columns, mask);
    var mismatch := if meta.None? then None else Some(|features.rows| != |meta.value.rows|);
    report := Report(|features.rows|, |columns|, missing, duplicates, bad, mismatch);
  }

  /** A table of indicators has no missing value and no non-binary column. */
  lemma IndicatorTableIsClean(t: Table<Num>)
    requires forall i, c :: 0 <= i < |t.rows| && c in t.columns ==> IsIndicator(NumCell(t.rows[i], c))
    ensures forall c :: c in t.columns ==> MissingCount(t.rows, c) == 0
    ensures Select(t.columns, NonBinaryMask(t)) == []
  {
    forall c | c in t.columns ensures MissingCount(t.rows, c) == 0 {
      MissingCountZero(t.rows, c);
    }
    var mask := NonBinaryMask(t);
    forall j | 0 <= j < |mask| ensures !mask[j] {
      assert t.columns[j] in t.columns;
    }
    SelectNone(t.columns, mask);
  }

  /** Validating what `preprocess_for_reco` returns finds the features clean:
      26 columns, no missing value, every column 0/1, and feature and meta
      tables of the same length. */
  method ValidateFreshOutput(raw: Table<Value>) returns (report: Report)
    ensures report.columnCount == 26
    ensures forall j :: 0 <= j < |report.missing| ==> report.missing[j].1 == 0
    ensures report.badColumns == []
    ensures report.lengthMismatch == Some(false)
  {
    var features, meta := Preprocess.PreprocessForReco(raw, true);
    report := ValidatePreprocessed(features, meta);
    FeatureKeysDistinct();
    IndicatorTableIsClean(features);
  }
}
