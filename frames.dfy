/** Tables, cell values and the result wrappers shared by every stage of the
    recommendation pipeline.  A pandas DataFrame is modelled as a value: its
    column schema in order, and its rows by position, each row a map from
    column name to cell.  A column of the schema that a row map lacks reads as
    missing, as a DataFrame built from records with heterogeneous keys does. */
module Frames {

  datatype Option<+T> = None | Some(value: T)

  datatype Result<+T, +E> = Ok(value: T) | Err(error: E)

  /** A cell of a raw registry row or of a meta row: a string, an integer, or
      missing (None / NaN). */
  datatype Value = Null | Text(s: string) | Number(n: int)

  /** A cell of a feature table: NaN or an integer. */
  datatype Num = NaN | Int(i: int)

  /** A table: the column schema in declared order and the rows by position. */
  datatype Table<T> = Table(columns: seq<string>, rows: seq<map<string, T>>)

  /** The cell of column `c`, missing when the row has no such key. */
  function Cell(row: map<string, Value>, c: string): Value {
    if c in row then row[c] else Null
  }

  /** The feature cell of column `c`, NaN when the row has no such key. */
  function NumCell(row: map<string, Num>, c: string): Num {
    if c in row then row[c] else NaN
  }

  /** A feature cell as an integer with NaN counting as 0: what `sum` adds
      up, and what `fillna(0).astype(int)` yields. */
  function IntOrZero(n: Num): int {
    match n
    case NaN => 0
    case Int(v) => v
  }

  /** A feature value is an indicator: exactly 0 or exactly 1. */
  predicate IsIndicator(n: Num) {
    n == Int(0) || n == Int(1)
  }

  predicate Distinct<T(==)>(s: seq<T>) {
    forall i, j :: 0 <= i < j < |s| ==> s[i] != s[j]
  }

  /** The positions of `mask` that hold true, in increasing order: the row
      labels that survive a boolean mask such as `df.loc[mask]`. */
  function Survivors(mask: seq<bool>): (s: seq<nat>)
    ensures forall p :: 0 <= p < |s| ==> s[p] < |mask| && mask[s[p]]
    ensures forall p, q :: 0 <= p < q < |s| ==> s[p] < s[q]
    ensures forall i :: 0 <= i < |mask| && mask[i] ==> i in s
    ensures |s| <= |mask|
  {
    if mask == [] then []
    else
      var init := Survivors(mask[..|mask| - 1]);
      if mask[|mask| - 1] then init + [|mask| - 1] else init
  }

  /** `xs.loc[mask]` followed by `reset_index(drop=True)`: the elements at the
      positions where the mask is true, renumbered from 0 in their old order. */
  function Select<T>(xs: seq<T>, mask: seq<bool>): (r: seq<T>)
    requires |xs| == |mask|
    ensures |r| == |Survivors(mask)|
    ensures forall p :: 0 <= p < |r| ==> r[p] == xs[Survivors(mask)[p]]
  {
    if xs == [] then []
    else
      var init := Select(xs[..|xs| - 1], mask[..|mask| - 1]);
      if mask[|mask| - 1] then init + [xs[|xs| - 1]] else init
  }

  /** Extending both prefixes by one position appends that element exactly when it is kept. */
  lemma SelectSnoc<T>(xs: seq<T>, mask: seq<bool>, j: nat)
    requires |xs| == |mask| && j < |xs|
    ensures Select(xs[..j + 1], mask[..j + 1]) == Select(xs[..j], mask[..j]) + (if mask[j] then [xs[j]] else [])
  {
    assert xs[..j + 1][..j] == xs[..j] && mask[..j + 1][..j] == mask[..j];
  }

  /** An element is selected exactly when it stands at a position the mask keeps. */
  lemma SelectMembers<T>(xs: seq<T>, mask: seq<bool>)
    requires |xs| == |mask|
    ensures forall x :: x in Select(xs, mask) <==> exists i :: 0 <= i < |xs| && mask[i] && xs[i] == x
  {
    var s := Survivors(mask);
    var r := Select(xs, mask);
    forall x | x in r ensures exists i :: 0 <= i < |xs| && mask[i] && xs[i] == x {
      var p :| 0 <= p < |r| && r[p] == x;
      assert mask[s[p]] && xs[s[p]] == x;
    }
    forall x | exists i :: 0 <= i < |xs| && mask[i] && xs[i] == x ensures x in r {
      var i :| 0 <= i < |xs| && mask[i] && xs[i] == x;
      var p :| 0 <= p < |s| && s[p] == i;
      assert r[p] == x;
    }
  }

  /** A mask that keeps nothing selects nothing. */
  lemma {:induction false} SelectNone<T>(xs: seq<T>, mask: seq<bool>)
    requires |xs| == |mask|
    requires forall i :: 0 <= i < |mask| ==> !mask[i]
    ensures Select(xs, mask) == []
    decreases |xs|
  {
    if xs != [] {
      SelectNone(xs[..|xs| - 1], mask[..|mask| - 1]);
    }
  }
}
