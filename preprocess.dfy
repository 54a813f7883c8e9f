/** `preprocess_for_reco` and its helper `_merge_text`: merge the candidate text
    columns of each row into one normalised string, build one 0/1 indicator
    column per keyword, drop the rows without any hit, and keep the meta
    columns of the surviving rows, aligned with the feature rows. */
module Preprocess {
  import opened Frames
  import opened TextNorm
  import opened Patterns
  import opened Config

  // ---------------------------------------------------------------------------
  // Text merging

  /** Which of `cands` the schema has (`c in df.columns`), position by position. */
  function InSchema(cands: seq<string>, columns: seq<string>): seq<bool> {
    seq(|cands|, i requires 0 <= i < |cands| => cands[i] in columns)
  }

  /** The columns of `cands` that the schema has, in declared order
      (`[c for c in cands if c in df.columns]`). */
  function Present(cands: seq<string>, columns: seq<string>): seq<string> {
    Select(cands, InSchema(cands, columns))
  }

  /** A column is kept exactly when it is a candidate that the schema has; the
      kept columns appear in the candidates' order. */
  lemma PresentMembers(cands: seq<string>, columns: seq<string>)
    ensures forall c :: c in Present(cands, columns) <==> c in cands && c in columns
    ensures forall p, q :: 0 <= p < q < |Present(cands, columns)| ==>
      exists i, j :: 0 <= i < j < |cands| && cands[i] == Present(cands, columns)[p] && cands[j] == Present(cands, columns)[q]
  {
    var mask := InSchema(cands, columns);
    var s := Survivors(mask);
    var r := Present(cands, columns);
    SelectMembers(cands, mask);
    forall c | c in cands && c in columns ensures c in r {
      var i :| 0 <= i < |cands| && cands[i] == c;
      assert mask[i];
    }
    forall p, q | 0 <= p < q < |r|
      ensures exists i, j :: 0 <= i < j < |cands| && cands[i] == r[p] && cands[j] == r[q]
    {
      assert cands[s[p]] == r[p] && cands[s[q]] == r[q];
    }
  }

  /** What the loop of `_merge_text` has accumulated for one row once it has
      gone through `cands`: `" " + value` for each candidate that the schema
      has, a missing value reading as "". */
  function Joined(cands: seq<string>, columns: seq<string>, row: map<string, Value>): string {
    if cands == [] then ""
    else
      var c := cands[|cands| - 1];
      Joined(cands[..|cands| - 1], columns, row) + (if c in columns then " " + Stringify(Cell(row, c)) else "")
  }

  /** The merged text of one row: the accumulation over TEXT_CANDIDATES, normalised. */
  function MergedText(columns: seq<string>, row: map<string, Value>): string {
    NormString(Joined(TextCandidates, columns, row))
  }

  /** `" " + value` for each listed column, concatenated. */
  function Spaced(cs: seq<string>, row: map<string, Value>): string {
    if cs == [] then "" else " " + Stringify(Cell(row, cs[0])) + Spaced(cs[1..], row)
  }

  lemma {:induction false} SpacedSnoc(cs: seq<string>, c: string, row: map<string, Value>)
    ensures Spaced(cs + [c], row) == Spaced(cs, row) + " " + Stringify(Cell(row, c))
    decreases |cs|
  {
    if cs == [] {
      assert cs + [c] == [c];
    } else {
      assert (cs + [c])[1..] == cs[1..] + [c];
      SpacedSnoc(cs[1..], c, row);
    }
  }

  /** Taking one more candidate adds it at the end exactly when the schema has it. */
  lemma PresentSnoc(cands: seq<string>, columns: seq<string>)
    requires cands != []
    ensures Present(cands, columns) ==
      Present(cands[..|cands| - 1], columns) + (if cands[|cands| - 1] in columns then [cands[|cands| - 1]] else [])
  {
    var n := |cands| - 1;
    assert InSchema(cands, columns)[..n] == InSchema(cands[..n], columns);
  }

  /** The accumulation is the present candidates' values, in declared order,
      each after one space; absent candidates contribute nothing. */
  lemma {:induction false} JoinedIsSpaced(cands: seq<string>, columns: seq<string>, row: map<string, Value>)
    ensures Joined(cands, columns, row) == Spaced(Present(cands, columns), row)
    decreases |cands|
  {
    if cands != [] {
      var n := |cands| - 1;
      var c := cands[n];
      PresentSnoc(cands, columns);
      JoinedIsSpaced(cands[..n], columns, row);
      if c in columns {
        SpacedSnoc(Present(cands[..n], columns), c, row);
      } else {
        assert Present(cands, columns) == Present(cands[..n], columns);
      }
    }
  }

  lemma {:induction false} SpacedAgree(cs: seq<string>, r1: map<string, Value>, r2: map<string, Value>)
    requires forall c :: c in cs ==> Cell(r1, c) == Cell(r2, c)
    ensures Spaced(cs, r1) == Spaced(cs, r2)
    decreases |cs|
  {
    if cs != [] {
      assert cs[0] in cs;
      assert forall c :: c in cs[1..] ==> c in cs;
      SpacedAgree(cs[1..], r1, r2);
    }
  }

  /** The merged text depends only on the candidate columns the schema has:
      two rows that agree there get the same text. */
  lemma MergedTextLocal(columns: seq<string>, r1: map<string, Value>, r2: map<string, Value>)
    requires forall c :: c in TextCandidates && c in columns ==> Cell(r1, c) == Cell(r2, c)
    ensures MergedText(columns, r1) == MergedText(columns, r2)
  {
    PresentMembers(TextCandidates, columns);
    JoinedIsSpaced(TextCandidates, columns, r1);
    JoinedIsSpaced(TextCandidates, columns, r2);
    SpacedAgree(Present(TextCandidates, columns), r1, r2);
  }

  /** With no candidate column in the schema, every merged text is empty. */
  lemma MergedTextWithoutCandidates(columns: seq<string>, row: map<string, Value>)
    requires forall c :: c in TextCandidates ==> c !in columns
    ensures MergedText(columns, row) == ""
  {
    PresentMembers(TextCandidates, columns);
    JoinedIsSpaced(TextCandidates, columns, row);
  }

  /** The merged text is already normalised: no upper-case letter, whitespace
      only as single plain spaces, and `_norm` leaves it unchanged. */
  lemma MergedTextNormalised(columns: seq<string>, row: map<string, Value>)
    ensures NoUpper(MergedText(columns, row)) && Collapsed(MergedText(columns, row))
    ensures NormString(MergedText(columns, row)) == MergedText(columns, row)
  {
    NormIdempotent(Joined(TextCandidates, columns, row));
    LowerNoUpper(Joined(TextCandidates, columns, row));
  }

  /** `_merge_text(df)`: one merged, normalised text per row. */
  method MergeText(df: Table<Value>) returns (text: seq<string>)
    ensures |text| == |df.rows|
    ensures forall i :: 0 <= i < |df.rows| ==> text[i] == MergedText(df.columns, df.rows[i])
  {
    var merged: seq<string> := seq(|df.rows|, i => "");
    for k := 0 to |TextCandidates|
      invariant |merged| == |df.rows|
      invariant forall i :: 0 <= i < |df.rows| ==> merged[i] == Joined(TextCandidates[..k], df.columns, df.rows[i])
    {
      var c := TextCandidates[k];
      assert TextCandidates[..k + 1][..k] == TextCandidates[..k];
      if c in df.columns {
        merged := seq(|merged|, i requires 0 <= i < |merged| => merged[i] + " " + Stringify(Cell(df.rows[i], c)));
      }
    }
    assert TextCandidates[..|TextCandidates|] == TextCandidates;
    text := seq(|merged|, i requires 0 <= i < |merged| => NormString(merged[i]));
  }

  // ---------------------------------------------------------------------------
  // Keyword indicators

  /** `text.str.contains(pattern).astype(int)` for one text. */
  function Indicator(p: Pattern, t: string): (n: Num)
    ensures IsIndicator(n)
  {
    if Matches(p, t) then Int(1) else Int(0)
  }

  /** The feature row the keyword loop builds for one text after going through
      `kws`: one indicator per keyword, assigned in table order. */
  function FeatureRow(kws: seq<(string, Pattern)>, t: string): map<string, Num> {
    if kws == [] then map[]
    else
      var e := kws[|kws| - 1];
      FeatureRow(kws[..|kws| - 1], t)[e.0 := Indicator(e.1, t)]
  }

  /** The feature row has exactly the table's keys. */
  lemma {:induction false} FeatureRowKeys(kws: seq<(string, Pattern)>, t: string)
    ensures FeatureRow(kws, t).Keys == set k | k in Keys(kws)
    decreases |kws|
  {
    if kws != [] {
      var n := |kws| - 1;
      FeatureRowKeys(kws[..n], t);
      assert Keys(kws) == Keys(kws[..n]) + [kws[n].0];
    }
  }

  /** With distinct keys, the entry of each key is that key's own indicator. */
  lemma {:induction false} FeatureRowEntries(kws: seq<(string, Pattern)>, t: string)
    requires forall i, j :: 0 <= i < j < |kws| ==> kws[i].0 != kws[j].0
    ensures forall j :: 0 <= j < |kws| ==>
      kws[j].0 in FeatureRow(kws, t) && FeatureRow(kws, t)[kws[j].0] == Indicator(kws[j].1, t)
    decreases |kws|
  {
    if kws != [] {
      var n := |kws| - 1;
      var init := kws[..n];
      FeatureRowEntries(init, t);
      var m := FeatureRow(init, t);
      assert FeatureRow(kws, t) == m[kws[n].0 := Indicator(kws[n].1, t)];
      forall j | 0 <= j < n
        ensures kws[j].0 in FeatureRow(kws, t) && FeatureRow(kws, t)[kws[j].0] == Indicator(kws[j].1, t)
      {
        assert init[j] == kws[j];
      }
    }
  }

  /** Over a keyword table with distinct names, a feature row has one entry
      per name; each entry is 0 or 1, and it is 1 exactly when that keyword's
      pattern occurs in the text. */
  lemma FeatureRowLaw(kws: seq<(string, Pattern)>, t: string)
    requires Distinct(Keys(kws))
    ensures FeatureRow(kws, t).Keys == set k | k in Keys(kws)
    ensures forall j :: 0 <= j < |kws| ==>
      Keys(kws)[j] in FeatureRow(kws, t) &&
      IsIndicator(FeatureRow(kws, t)[Keys(kws)[j]]) &&
      (FeatureRow(kws, t)[Keys(kws)[j]] == Int(1) <==> Occurs(kws[j].1, t))
  {
    FeatureRowKeys(kws, t);
    forall i, j | 0 <= i < j < |kws| ensures kws[i].0 != kws[j].0 {
      assert Keys(kws)[i] != Keys(kws)[j];
    }
    FeatureRowEntries(kws, t);
    forall j | 0 <= j < |kws|
      ensures FeatureRow(kws, t)[Keys(kws)[j]] == Int(1) <==> Occurs(kws[j].1, t)
    {
      MatchesIffOccurs(kws[j].1, t);
    }
  }

  /** A feature row of the pipeline has one entry per feature key; each entry
      is 0 or 1, and it is 1 exactly when that keyword's pattern occurs in the
      text. */
  lemma IndicatorLaw(t: string)
    ensures FeatureRow(NutriKeywords, t).Keys == set k | k in FeatureKeys
    ensures forall j :: 0 <= j < |FeatureKeys| ==>
      FeatureKeys[j] in FeatureRow(NutriKeywords, t) &&
      IsIndicator(FeatureRow(NutriKeywords, t)[FeatureKeys[j]]) &&
      (FeatureRow(NutriKeywords, t)[FeatureKeys[j]] == Int(1) <==> Occurs(NutriKeywords[j].1, t))
  {
    FeatureKeysOfTable();
    FeatureKeysDistinct();
    FeatureRowLaw(NutriKeywords, t);
  }

  /** The keyword loop of `preprocess_for_reco` over a keyword table: one
      indicator column per keyword, filled column by column. The keyword
      names are taken to be distinct, as in FeatureRowLaw (a repeated name
      would replace its column rather than add one); those of NutriKeywords
      are, by Config.FeatureKeysDistinct. */
  method BuildFeatures(text: seq<string>, kws: seq<(string, Pattern)>) returns (features: Table<Num>)
    ensures features.columns == Keys(kws)
    ensures |features.rows| == |text|
    ensures forall i :: 0 <= i < |text| ==> features.rows[i] == FeatureRow(kws, text[i])
  {
    var columns: seq<string> := [];
    var rows: seq<map<string, Num>> := seq(|text|, i => map[]);
    for k := 0 to |kws|
      invariant columns == Keys(kws[..k])
      invariant |rows| == |text|
      invariant forall i :: 0 <= i < |text| ==> rows[i] == FeatureRow(kws[..k], text[i])
    {
      var (feat, pattern) := kws[k];
      assert kws[..k + 1][..k] == kws[..k];
      rows := seq(|rows|, i requires 0 <= i < |rows| => rows[i][feat := Indicator(pattern, text[i])]);
      columns := columns + [feat];
    }
    assert kws[..|kws|] == kws;
    features := Table(columns, rows);
  }

  // ---------------------------------------------------------------------------
  // Row filtering

  /** `features.sum(axis=1)` for one row, over the columns `cols`. */
  function RowSum(cols: seq<string>, row: map<string, Num>): int {
    if cols == [] then 0
    else RowSum(cols[..|cols| - 1], row) + IntOrZero(NumCell(row, cols[|cols| - 1]))
  }

  /** Over indicator cells, the row sum is positive exactly when some cell is 1. */
  lemma {:induction false} RowSumHit(cols: seq<string>, row: map<string, Num>)
    requires forall c :: c in cols ==> IsIndicator(NumCell(row, c))
    ensures RowSum(cols, row) >= 0
    ensures RowSum(cols, row) > 0 <==> exists c :: c in cols && NumCell(row, c) == Int(1)
    decreases |cols|
  {
    if cols != [] {
      var n := |cols| - 1;
      assert forall c :: c in cols[..n] ==> c in cols;
      RowSumHit(cols[..n], row);
      assert cols[n] in cols;
      if RowSum(cols, row) > 0 && RowSum(cols[..n], row) == 0 {
        assert NumCell(row, cols[n]) == Int(1);
      }
      if exists c :: c in cols && NumCell(row, c) == Int(1) {
        var c :| c in cols && NumCell(row, c) == Int(1);
        if c != cols[n] {
          assert c in cols[..n];
        }
      }
    }
  }

  /** The mask `features.sum(axis=1) > 0` of a raw table, for the features
      of the keyword table `kws`. */
  function KeywordMask(raw: Table<Value>, kws: seq<(string, Pattern)>): (mask: seq<bool>)
    ensures |mask| == |raw.rows|
  {
    seq(|raw.rows|, i requires 0 <= i < |raw.rows| =>
      RowSum(Keys(kws), FeatureRow(kws, MergedText(raw.columns, raw.rows[i]))) > 0)
  }

  /** The row mask of `preprocess_for_reco`, over NUTRI_KEYWORDS. */
  function HitMask(raw: Table<Value>): (mask: seq<bool>)
    ensures |mask| == |raw.rows|
  {
    KeywordMask(raw, NutriKeywords)
  }

  /** `features.sum(axis=1) > 0` of a feature table. */
  function SumMask(t: Table<Num>): (mask: seq<bool>)
    ensures |mask| == |t.rows|
  {
    seq(|t.rows|, i requires 0 <= i < |t.rows| => RowSum(t.columns, t.rows[i]) > 0)
  }

  /** The mask of the features built from the merged texts is the raw table's hit mask. */
  lemma BuiltMask(raw: Table<Value>, kws: seq<(string, Pattern)>, text: seq<string>, all: Table<Num>)
    requires |text| == |raw.rows| == |all.rows| && all.columns == Keys(kws)
    requires forall i :: 0 <= i < |text| ==> text[i] == MergedText(raw.columns, raw.rows[i])
    requires forall i :: 0 <= i < |text| ==> all.rows[i] == FeatureRow(kws, text[i])
    ensures SumMask(all) == KeywordMask(raw, kws)
  {
  }

  /** Every feature column of a feature row holds an indicator. */
  lemma {:induction false} FeatureRowIndicators(kws: seq<(string, Pattern)>, t: string)
    ensures forall c :: c in Keys(kws) ==> IsIndicator(NumCell(FeatureRow(kws, t), c))
    decreases |kws|
  {
    if kws != [] {
      var n := |kws| - 1;
      FeatureRowIndicators(kws[..n], t);
      assert Keys(kws) == Keys(kws[..n]) + [kws[n].0];
    }
  }

  /** A row of indicators, one per pattern, each 1 exactly when its pattern
      occurs: the row sum is positive exactly when some pattern occurs. */
  lemma AnyHit(keys: seq<string>, kws: seq<(string, Pattern)>, row: map<string, Num>, t: string)
    requires |keys| == |kws|
    requires forall j :: 0 <= j < |keys| ==>
      IsIndicator(NumCell(row, keys[j])) && (NumCell(row, keys[j]) == Int(1) <==> Occurs(kws[j].1, t))
    ensures RowSum(keys, row) > 0 <==> exists j :: 0 <= j < |kws| && Occurs(kws[j].1, t)
  {
    forall c | c in keys ensures IsIndicator(NumCell(row, c)) {
      var j :| 0 <= j < |keys| && keys[j] == c;
    }
    RowSumHit(keys, row);
    if exists j :: 0 <= j < |kws| && Occurs(kws[j].1, t) {
      var j :| 0 <= j < |kws| && Occurs(kws[j].1, t);
      assert keys[j] in keys;
    }
    if exists c :: c in keys && NumCell(row, c) == Int(1) {
      var c :| c in keys && NumCell(row, c) == Int(1);
      var j :| 0 <= j < |keys| && keys[j] == c;
      assert Occurs(kws[j].1, t);
    }
  }

  /** The row sum of a text's feature row is positive exactly when some
      keyword pattern occurs in the text. */
  lemma HitIffOccurs(t: string)
    ensures RowSum(FeatureKeys, FeatureRow(NutriKeywords, t)) > 0 <==>
      exists j :: 0 <= j < |NutriKeywords| && Occurs(NutriKeywords[j].1, t)
  {
    IndicatorLaw(t);
    AnyHit(FeatureKeys, NutriKeywords, FeatureRow(NutriKeywords, t), t);
  }

  /** Filtering law: a raw row survives exactly when at least one keyword
      pattern occurs in its merged text. */
  lemma FilterLaw(raw: Table<Value>, i: nat)
    requires i < |raw.rows|
    ensures i in Survivors(HitMask(raw)) <==>
      exists j :: 0 <= j < |NutriKeywords| && Occurs(NutriKeywords[j].1, MergedText(raw.columns, raw.rows[i]))
  {
    HitIffOccurs(MergedText(raw.columns, raw.rows[i]));
    FeatureKeysOfTable();
    var s := Survivors(HitMask(raw));
    if i in s {
      var p :| 0 <= p < |s| && s[p] == i;
    }
  }

  // ---------------------------------------------------------------------------
  // Meta columns

  /** The meta columns: those of META_KEEP the schema has, or else those of
      the fallback list. */
  function MetaColumns(columns: seq<string>): seq<string> {
    var keep := Present(MetaKeep, columns);
    if keep == [] then Present(MetaFallback, columns) else keep
  }

  /** The fallback never changes anything: both fallback columns belong to
      META_KEEP, so when none of META_KEEP is present neither of them is.  The
      meta columns are exactly the META_KEEP columns the schema has. */
  lemma MetaColumnsArePresentKeep(columns: seq<string>)
    ensures MetaColumns(columns) == Present(MetaKeep, columns)
    ensures forall c :: c in MetaColumns(columns) <==> c in MetaKeep && c in columns
  {
    PresentMembers(MetaKeep, columns);
    PresentMembers(MetaFallback, columns);
  }

  /** `df.loc[_, keep]` for one row: the kept columns, a missing cell as null. */
  function MetaRow(keep: seq<string>, row: map<string, Value>): (m: map<string, Value>)
    ensures m.Keys == set c | c in keep
  {
    map c | c in keep :: Cell(row, c)
  }

  /** Rows kept out of a table of pipeline feature rows hold indicators only. */
  lemma SelectedIndicators(kws: seq<(string, Pattern)>, text: seq<string>, rows: seq<map<string, Num>>, mask: seq<bool>)
    requires |rows| == |text| == |mask|
    requires forall i :: 0 <= i < |text| ==> rows[i] == FeatureRow(kws, text[i])
    ensures forall p, c :: 0 <= p < |Select(rows, mask)| && c in Keys(kws) ==> IsIndicator(NumCell(Select(rows, mask)[p], c))
  {
    var kept := Select(rows, mask);
    forall p | 0 <= p < |kept|
      ensures forall c :: c in Keys(kws) ==> IsIndicator(NumCell(kept[p], c))
    {
      FeatureRowIndicators(kws, text[Survivors(mask)[p]]);
    }
  }

  /** The kept feature rows are the feature rows of the surviving raw rows' texts. */
  lemma SelectedFeatureRows(raw: Table<Value>, kws: seq<(string, Pattern)>, text: seq<string>, rows: seq<map<string, Num>>, mask: seq<bool>)
    requires |rows| == |text| == |mask| == |raw.rows|
    requires forall i :: 0 <= i < |text| ==> text[i] == MergedText(raw.columns, raw.rows[i])
    requires forall i :: 0 <= i < |text| ==> rows[i] == FeatureRow(kws, text[i])
    ensures forall p :: 0 <= p < |Select(rows, mask)| ==>
      Select(rows, mask)[p] == FeatureRow(kws, MergedText(raw.columns, raw.rows[Survivors(mask)[p]]))
  {
  }

  /** The meta rows of every raw row, restricted to `keep`. */
  function MetaRows(keep: seq<string>, rows: seq<map<string, Value>>): seq<map<string, Value>> {
    seq(|rows|, i requires 0 <= i < |rows| => MetaRow(keep, rows[i]))
  }

  // ---------------------------------------------------------------------------
  // The whole stage

  /** The feature half of `preprocess_for_reco` over a keyword table: merge
      the texts, build the indicator columns and keep the rows with at least
      one hit.  Row p of the result comes from raw row `Survivors(mask)[p]`. */
  method HitFeatures(raw: Table<Value>, kws: seq<(string, Pattern)>) returns (features: Table<Num>, mask: seq<bool>)
    ensures mask == KeywordMask(raw, kws)
    ensures features.columns == Keys(kws)
    ensures |features.rows| == |Survivors(mask)|
    ensures forall p :: 0 <= p < |features.rows| ==>
      features.rows[p] == FeatureRow(kws, MergedText(raw.columns, raw.rows[Survivors(mask)[p]]))
    ensures forall p, c :: 0 <= p < |features.rows| && c in Keys(kws) ==> IsIndicator(NumCell(features.rows[p], c))
  {
    var text := MergeText(raw);
    var all := BuildFeatures(text, kws);
    mask := SumMask(all);
    BuiltMask(raw, kws, text, all);
    features := Table(all.columns, Select(all.rows, mask));
    SelectedIndicators(kws, text, all.rows, mask);
    SelectedFeatureRows(raw, kws, text, all.rows, mask);
  }

  /** `preprocess_for_reco(df_raw, return_meta)`.  Row p of the feature table
      and row p of the meta table both come from raw row `Survivors(HitMask(raw))[p]`. */
  method PreprocessForReco(raw: Table<Value>, returnMeta: bool) returns (features: Table<Num>, meta: Option<Table<Value>>)
    ensures features.columns == FeatureKeys
    ensures |features.rows| == |Survivors(HitMask(raw))|
    ensures forall p :: 0 <= p < |features.rows| ==>
      features.rows[p] == FeatureRow(NutriKeywords, MergedText(raw.columns, raw.rows[Survivors(HitMask(raw))[p]]))
    ensures forall p, c :: 0 <= p < |features.rows| && c in FeatureKeys ==> IsIndicator(NumCell(features.rows[p], c))
    ensures meta.Some? <==> returnMeta
    ensures meta.Some? ==>
      && meta.value.columns == Present(MetaKeep, raw.columns)
      && |meta.value.rows| == |features.rows|
      && forall p :: 0 <= p < |meta.value.rows| ==>
           meta.value.rows[p] == MetaRow(meta.value.columns, raw.rows[Survivors(HitMask(raw))[p]])
  {
    var mask;
    features, mask := HitFeatures(raw, NutriKeywords);
    FeatureKeysOfTable();
    if !returnMeta {
      meta := None;
      return;
    }
    var keep := MetaColumns(raw.columns);
    MetaColumnsArePresentKeep(raw.columns);
    meta := Some(Table(keep, Select(MetaRows(keep, raw.rows), mask)));
  }

  /** The text of the worked example below. */
  const ExampleText: string := "고함량 비타민 c 1000mg"

  lemma ExampleHasVitaminC()
    ensures Occurs(NutriKeywords[0].1, ExampleText)
  {
    var vc := NutriKeywords[0].1;
    assert vc[0] == Gap("비타민", "c");
    GapSpellsSpaced("비타민", "c");
    assert ExampleText[4..9] == "비타민" + " " + "c";
  }

  // Every alternative of each keyword pattern after vitamin C needs a
  // character the example text lacks; the list names, per alternative, the
  // position of one such literal.  One lemma per pattern keeps each proof small.

  lemma ExampleLacksVitaminB()
    ensures !Occurs(NutriKeywords[1].1, ExampleText)
  {
    NoHitAt(NutriKeywords[1].1, ExampleText, [4, 0, 0, 0, 0, 0, 1, 0, 0, 0]);
  }

  lemma ExampleLacksVitaminD()
    ensures !Occurs(NutriKeywords[2].1, ExampleText)
  {
    NoHitAt(NutriKeywords[2].1, ExampleText, [4, 0]);
  }

  lemma ExampleLacksZinc()
    ensures !Occurs(NutriKeywords[3].1, ExampleText)
  {
    NoHitAt(NutriKeywords[3].1, ExampleText, [0, 0]);
  }

  lemma ExampleLacksMagnesium()
    ensures !Occurs(NutriKeywords[4].1, ExampleText)
  {
    NoHitAt(NutriKeywords[4].1, ExampleText, [0, 1]);
  }

  lemma ExampleLacksIron()
    ensures !Occurs(NutriKeywords[5].1, ExampleText)
  {
    NoHitAt(NutriKeywords[5].1, ExampleText, [0, 0]);
  }

  lemma ExampleLacksFolate()
    ensures !Occurs(NutriKeywords[6].1, ExampleText)
  {
    NoHitAt(NutriKeywords[6].1, ExampleText, [0, 0]);
  }

  lemma ExampleLacksSelenium()
    ensures !Occurs(NutriKeywords[7].1, ExampleText)
  {
    NoHitAt(NutriKeywords[7].1, ExampleText, [0, 0]);
  }

  lemma ExampleLacksProbiotics()
    ensures !Occurs(NutriKeywords[8].1, ExampleText)
  {
    NoHitAt(NutriKeywords[8].1, ExampleText, [0, 0, 0, 0, 0]);
  }

  lemma ExampleLacksPrebiotics()
    ensures !Occurs(NutriKeywords[9].1, ExampleText)
  {
    NoHitAt(NutriKeywords[9].1, ExampleText, [0, 0, 0, 0, 0]);
  }

  lemma ExampleLacksLutein()
    ensures !Occurs(NutriKeywords[10].1, ExampleText)
  {
    NoHitAt(NutriKeywords[10].1, ExampleText, [0, 0, 0, 0]);
  }

  lemma ExampleLacksAstaxanthin()
    ensures !Occurs(NutriKeywords[11].1, ExampleText)
  {
    NoHitAt(NutriKeywords[11].1, ExampleText, [0, 0]);
  }

  lemma ExampleLacksCollagen()
    ensures !Occurs(NutriKeywords[12].1, ExampleText)
  {
    NoHitAt(NutriKeywords[12].1, ExampleText, [0, 1]);
  }

  lemma ExampleLacksHyaluronic()
    ensures !Occurs(NutriKeywords[13].1, ExampleText)
  {
    NoHitAt(NutriKeywords[13].1, ExampleText, [0, 0]);
  }

  lemma ExampleLacksCalcium()
    ensures !Occurs(NutriKeywords[14].1, ExampleText)
  {
    NoHitAt(NutriKeywords[14].1, ExampleText, [0, 1]);
  }

  lemma ExampleLacksMsm()
    ensures !Occurs(NutriKeywords[15].1, ExampleText)
  {
    NoHitAt(NutriKeywords[15].1, ExampleText, [1, 0]);
  }

  lemma ExampleLacksGlucosamine()
    ensures !Occurs(NutriKeywords[16].1, ExampleText)
  {
    NoHitAt(NutriKeywords[16].1, ExampleText, [0, 1]);
  }

  lemma ExampleLacksChondroitin()
    ensures !Occurs(NutriKeywords[17].1, ExampleText)
  {
    NoHitAt(NutriKeywords[17].1, ExampleText, [0, 1]);
  }

  lemma ExampleLacksOmega3()
    ensures !Occurs(NutriKeywords[18].1, ExampleText)
  {
    NoHitAt(NutriKeywords[18].1, ExampleText, [0, 0, 0, 0]);
  }

  lemma ExampleLacksCoQ10()
    ensures !Occurs(NutriKeywords[19].1, ExampleText)
  {
    NoHitAt(NutriKeywords[19].1, ExampleText, [0, 1, 0]);
  }

  lemma ExampleLacksMilkThistle()
    ensures !Occurs(NutriKeywords[20].1, ExampleText)
  {
    NoHitAt(NutriKeywords[20].1, ExampleText, [0, 0, 0]);
  }

  lemma ExampleLacksRedGinseng()
    ensures !Occurs(NutriKeywords[21].1, ExampleText)
  {
    NoHitAt(NutriKeywords[21].1, ExampleText, [0, 0, 0]);
  }

  lemma ExampleLacksLTheanine()
    ensures !Occurs(NutriKeywords[22].1, ExampleText)
  {
    NoHitAt(NutriKeywords[22].1, ExampleText, [0, 0]);
  }

  lemma ExampleLacksMelatonin()
    ensures !Occurs(NutriKeywords[23].1, ExampleText)
  {
    NoHitAt(NutriKeywords[23].1, ExampleText, [0, 1]);
  }

  lemma ExampleLacksGarcinia()
    ensures !Occurs(NutriKeywords[24].1, ExampleText)
  {
    NoHitAt(NutriKeywords[24].1, ExampleText, [0, 1]);
  }

  lemma ExampleLacksGreenTea()
    ensures !Occurs(NutriKeywords[25].1, ExampleText)
  {
    NoHitAt(NutriKeywords[25].1, ExampleText, [0, 1, 0, 1]);
  }

  /** None of the patterns after vitamin C occurs in the example text. */
  lemma ExampleLacksFrom1()
    ensures forall k :: 1 <= k <= 5 ==> !Occurs(NutriKeywords[k].1, ExampleText)
  {
    ExampleLacksVitaminB();
    ExampleLacksVitaminD();
    ExampleLacksZinc();
    ExampleLacksMagnesium();
    ExampleLacksIron();
  }

  lemma ExampleLacksFrom6()
    ensures forall k :: 6 <= k <= 10 ==> !Occurs(NutriKeywords[k].1, ExampleText)
  {
    ExampleLacksFolate();
    ExampleLacksSelenium();
    ExampleLacksProbiotics();
    ExampleLacksPrebiotics();
    ExampleLacksLutein();
  }

  lemma ExampleLacksFrom11()
    ensures forall k :: 11 <= k <= 15 ==> !Occurs(NutriKeywords[k].1, ExampleText)
  {
    ExampleLacksAstaxanthin();
    ExampleLacksCollagen();
    ExampleLacksHyaluronic();
    ExampleLacksCalcium();
    ExampleLacksMsm();
  }

  lemma ExampleLacksFrom16()
    ensures forall k :: 16 <= k <= 20 ==> !Occurs(NutriKeywords[k].1, ExampleText)
  {
    ExampleLacksGlucosamine();
    ExampleLacksChondroitin();
    ExampleLacksOmega3();
    ExampleLacksCoQ10();
    ExampleLacksMilkThistle();
  }

  lemma ExampleLacksFrom21()
    ensures forall k :: 21 <= k <= 25 ==> !Occurs(NutriKeywords[k].1, ExampleText)
  {
    ExampleLacksRedGinseng();
    ExampleLacksLTheanine();
    ExampleLacksMelatonin();
    ExampleLacksGarcinia();
    ExampleLacksGreenTea();
  }

  /** The worked example: in "고함량 비타민 c 1000mg" the vitamin C indicator
      is 1 and every other indicator, melatonin among them, is 0. */
  lemma VitaminCExample()
    ensures NumCell(FeatureRow(NutriKeywords, ExampleText), "vitamin_c") == Int(1)
    ensures forall j :: 1 <= j < |FeatureKeys| ==> NumCell(FeatureRow(NutriKeywords, ExampleText), FeatureKeys[j]) == Int(0)
    ensures NumCell(FeatureRow(NutriKeywords, ExampleText), "melatonin") == Int(0)
  {
    IndicatorLaw(ExampleText);
    assert FeatureKeys[0] == "vitamin_c" && FeatureKeys[23] == "melatonin";
    ExampleHasVitaminC();
    ExampleLacksFrom1();
    ExampleLacksFrom6();
    ExampleLacksFrom11();
    ExampleLacksFrom16();
    ExampleLacksFrom21();
  }
}
