/** `recommend_by_need`: score every row against the weighting profile of a
    need, attach the score to the row's meta data, order by descending score
    and keep the first `top_n`.  The sort is `sort_values` with its default
    (unstable) algorithm, so nothing is promised about the order of rows with
    equal scores. */
module Recommend {
  import opened Frames
  import opened Config

  datatype Error =
    | UnknownNeed(need: string)
    | LengthMismatch(featureRows: nat, metaRows: nat)

  /** A meta row with its appended `score` column. */
  datatype Scored = Scored(row: map<string, Value>, score: int)

  /** `table[key]` in an ordered table, when the key is there. */
  function Lookup<V>(table: seq<(string, V)>, key: string): (r: Option<V>)
    ensures r.Some? <==> key in Keys(table)
    ensures r.Some? ==> (key, r.value) in table
  {
    if table == [] then None
    else if table[0].0 == key then
      assert Keys(table)[0] == key;
      Some(table[0].1)
    else
      assert Keys(table) == [table[0].0] + Keys(table[1..]);
      Lookup(table[1..], key)
  }

  /** The score the loop of `recommend_by_need` has accumulated for one row
      after the profile entries `profile`: a key the features lack adds nothing. */
  function Weighted(profile: Profile, columns: seq<string>, row: map<string, Num>): int {
    if profile == [] then 0
    else
      var e := profile[|profile| - 1];
      Weighted(profile[..|profile| - 1], columns, row)
        + (if e.0 in columns then IntOrZero(NumCell(row, e.0)) * e.1 else 0)
  }

  /** The reference score: the total weight of the profile entries whose
      feature the table has and whose indicator is 1. */
  function HitWeight(profile: Profile, columns: seq<string>, row: map<string, Num>): int {
    if profile == [] then 0
    else
      var e := profile[0];
      (if e.0 in columns && NumCell(row, e.0) == Int(1) then e.1 else 0) + HitWeight(profile[1..], columns, row)
  }

  function TotalWeight(profile: Profile): int {
    if profile == [] then 0 else profile[0].1 + TotalWeight(profile[1..])
  }

  /** The profile's features in this row hold indicators or NaN. */
  predicate IndicatorsOrMissing(profile: Profile, columns: seq<string>, row: map<string, Num>) {
    forall e :: e in profile && e.0 in columns ==> IsIndicator(NumCell(row, e.0)) || NumCell(row, e.0) == NaN
  }

  lemma {:induction false} HitWeightSnoc(profile: Profile, e: (string, int), columns: seq<string>, row: map<string, Num>)
    ensures HitWeight(profile + [e], columns, row)
      == HitWeight(profile, columns, row) + (if e.0 in columns && NumCell(row, e.0) == Int(1) then e.1 else 0)
    decreases |profile|
  {
    if profile == [] {
      assert [] + [e] == [e];
    } else {
      assert (profile + [e])[1..] == profile[1..] + [e];
      HitWeightSnoc(profile[1..], e, columns, row);
    }
  }

  /** Over indicator features, the accumulated score is the total weight of
      the profile entries that hit. */
  lemma {:induction false} WeightedIsHitWeight(profile: Profile, columns: seq<string>, row: map<string, Num>)
    requires IndicatorsOrMissing(profile, columns, row)
    ensures Weighted(profile, columns, row) == HitWeight(profile, columns, row)
    decreases |profile|
  {
    if profile != [] {
      var n := |profile| - 1;
      assert profile == profile[..n] + [profile[n]];
      assert profile[n] in profile;
      WeightedIsHitWeight(profile[..n], columns, row);
      HitWeightSnoc(profile[..n], profile[n], columns, row);
    }
  }

  lemma {:induction false} HitWeightBounds(profile: Profile, columns: seq<string>, row: map<string, Num>)
    requires forall e :: e in profile ==> e.1 >= 0
    ensures 0 <= HitWeight(profile, columns, row) <= TotalWeight(profile)
    decreases |profile|
  {
    if profile != [] {
      assert profile[0] in profile;
      HitWeightBounds(profile[1..], columns, row);
    }
  }

  /** Over indicator features and non-negative weights, a score lies between
      0 and the profile's total weight. */
  lemma ScoreBounds(profile: Profile, columns: seq<string>, row: map<string, Num>)
    requires forall e :: e in profile ==> e.1 >= 0
    requires IndicatorsOrMissing(profile, columns, row)
    ensures 0 <= Weighted(profile, columns, row) <= TotalWeight(profile)
  {
    WeightedIsHitWeight(profile, columns, row);
    HitWeightBounds(profile, columns, row);
  }

  /** An entry whose key no earlier entry has is what a lookup of that key finds. */
  lemma {:induction false} LookupAt<V>(table: seq<(string, V)>, k: nat)
    requires k < |table|
    requires forall j :: 0 <= j < k ==> table[j].0 != table[k].0
    ensures Lookup(table, table[k].0) == Some(table[k].1)
    decreases k
  {
    if k > 0 {
      LookupAt(table[1..], k - 1);
    }
  }

  /** Melatonin 1, L-theanine 1, magnesium 0 under weights 3, 2, 1 score 5. */
  lemma SleepScore(sleep: Profile)
    requires sleep == [("melatonin", 3), ("l_theanine", 2), ("magnesium", 1)]
    ensures Weighted(sleep, ["melatonin", "l_theanine", "magnesium"],
                     map["melatonin" := Int(1), "l_theanine" := Int(1), "magnesium" := Int(0)]) == 5
  {
    var columns := ["melatonin", "l_theanine", "magnesium"];
    var row := map["melatonin" := Int(1), "l_theanine" := Int(1), "magnesium" := Int(0)];
    assert "melatonin" in columns && "l_theanine" in columns && "magnesium" in columns;
    assert NumCell(row, "melatonin") == Int(1) && NumCell(row, "l_theanine") == Int(1);
    assert NumCell(row, "magnesium") == Int(0);
    assert sleep[..2] == [("melatonin", 3), ("l_theanine", 2)];
    assert sleep[..2][..1] == [("melatonin", 3)];
    assert sleep[..2][..1][..0] == [];
    assert Weighted(sleep[..1], columns, row) == 3;
    assert Weighted(sleep[..2], columns, row) == 5;
  }

  /** The worked example: the sleep profile on melatonin 1, L-theanine 1,
      magnesium 0 scores 3 + 2 = 5. */
  lemma SleepExample()
    ensures Lookup(NeedToNutri, "sleep").Some?
    ensures Weighted(Lookup(NeedToNutri, "sleep").value, ["melatonin", "l_theanine", "magnesium"],
                     map["melatonin" := Int(1), "l_theanine" := Int(1), "magnesium" := Int(0)]) == 5
  {
    LookupAt(NeedToNutri, 2);
    SleepScore(NeedToNutri[2].1);
  }

  // ---------------------------------------------------------------------------
  // Ranking

  predicate NonIncreasing(s: seq<Scored>) {
    forall i, j :: 0 <= i < j < |s| ==> s[i].score >= s[j].score
  }

  /** Insert one row into a list ordered by descending score. */
  function Insert(x: Scored, s: seq<Scored>): (r: seq<Scored>)
    requires NonIncreasing(s)
    ensures NonIncreasing(r)
    ensures multiset(r) == multiset(s) + multiset{x}
  {
    if s == [] then [x]
    else if x.score >= s[0].score then
      ConsNonIncreasing(x, s);
      [x] + s
    else
      var rest := Insert(x, s[1..]);
      assert s == [s[0]] + s[1..];
      InsertedBelow(x, s, rest);
      ConsNonIncreasing(s[0], rest);
      [s[0]] + rest
  }

  lemma InsertedBelow(x: Scored, s: seq<Scored>, rest: seq<Scored>)
    requires s != [] && NonIncreasing(s) && x.score < s[0].score
    requires multiset(rest) == multiset(s[1..]) + multiset{x}
    ensures forall k :: 0 <= k < |rest| ==> rest[k].score <= s[0].score
  {
    forall k | 0 <= k < |rest| ensures rest[k].score <= s[0].score {
      assert rest[k] in multiset(rest);
      if rest[k] != x {
        assert rest[k] in s[1..];
      }
    }
  }

  lemma ConsNonIncreasing(h: Scored, s: seq<Scored>)
    requires NonIncreasing(s)
    requires forall k :: 0 <= k < |s| ==> s[k].score <= h.score
    ensures NonIncreasing([h] + s)
  {
    var r := [h] + s;
    forall i, j | 0 <= i < j < |r| ensures r[i].score >= r[j].score {
      assert r[j] == s[j - 1];
      if i > 0 {
        assert r[i] == s[i - 1];
      }
    }
  }

  /** `sort_values("score", ascending=False)`: a descending reordering of the rows. */
  function SortByScore(s: seq<Scored>): (r: seq<Scored>)
    ensures NonIncreasing(r)
    ensures multiset(r) == multiset(s)
  {
    if s == [] then []
    else
      assert s == [s[0]] + s[1..];
      Insert(s[0], SortByScore(s[1..]))
  }

  /** The number of rows `DataFrame.head(n)` keeps out of `len`: the first n,
      or for a negative n all but the last -n. */
  function HeadCount(len: nat, n: int): (k: nat)
    ensures k <= len
  {
    if n >= 0 then (if n < len then n else len)
    else if len + n > 0 then len + n else 0
  }

  /** `ranked` is drawn from `pool` and no row left out of it scores higher
      than a row inside it. */
  predicate TopOf(ranked: seq<Scored>, pool: multiset<Scored>) {
    && multiset(ranked) <= pool
    && forall x, y :: x in pool - multiset(ranked) && y in ranked ==> x.score <= y.score
  }

  /** A prefix of a descending list is its top part. */
  lemma TopPrefix(sorted: seq<Scored>, m: nat)
    requires NonIncreasing(sorted) && m <= |sorted|
    ensures TopOf(sorted[..m], multiset(sorted))
  {
    assert sorted == sorted[..m] + sorted[m..];
    assert multiset(sorted) - multiset(sorted[..m]) == multiset(sorted[m..]);
    forall x, y | x in multiset(sorted) - multiset(sorted[..m]) && y in sorted[..m]
      ensures x.score <= y.score
    {
      assert x in sorted[m..];
      var q :| m <= q < |sorted| && sorted[q] == x;
      var p :| 0 <= p < m && sorted[p] == y;
    }
  }

  /** `out = meta_df.copy(); out["score"] = score.values` is defined when
      the two tables have the same length, and also when the meta table has
      no rows: pandas then takes the index from the score values. */
  predicate ScoreAssignable(features: Table<Num>, meta: Table<Value>) {
    |features.rows| == |meta.rows| || |meta.rows| == 0
  }

  /** Every row's meta data paired with its own score.  A meta table without
      rows gets one row per score, each of its columns missing. */
  function Candidates(features: Table<Num>, meta: Table<Value>, profile: Profile): (all: seq<Scored>)
    requires ScoreAssignable(features, meta)
    ensures |all| == |features.rows|
  {
    seq(|features.rows|, i requires 0 <= i < |features.rows| =>
      Scored(if |meta.rows| == 0 then map c | c in meta.columns :: Null else meta.rows[i],
             Weighted(profile, features.columns, features.rows[i])))
  }

  /** The weights of every need profile are non-negative. */
  lemma NeedWeightsNonNegative(need: string)
    requires need in Keys(NeedToNutri)
    ensures forall e :: e in Lookup(NeedToNutri, need).value ==> e.1 >= 0
  {
    var profile := Lookup(NeedToNutri, need).value;
    var k :| 0 <= k < |NeedToNutri| && NeedToNutri[k] == (need, profile);
    ProfilesWellFormed();
    assert WellFormedProfile(NeedToNutri[k].1);
    forall e | e in profile ensures e.1 >= 0 {
      var j :| 0 <= j < |profile| && profile[j] == e;
    }
  }

  /** Over a feature table of indicators (NaN allowed) and non-negative
      weights, every candidate's score lies between 0 and the total weight. */
  lemma ScoresBounded(features: Table<Num>, meta: Table<Value>, profile: Profile)
    requires ScoreAssignable(features, meta)
    requires forall e :: e in profile ==> e.1 >= 0
    requires forall i, c :: 0 <= i < |features.rows| && c in features.columns ==>
      IsIndicator(NumCell(features.rows[i], c)) || NumCell(features.rows[i], c) == NaN
    ensures forall x :: x in Candidates(features, meta, profile) ==> 0 <= x.score <= TotalWeight(profile)
  {
    var all := Candidates(features, meta, profile);
    forall x | x in all ensures 0 <= x.score <= TotalWeight(profile) {
      var i :| 0 <= i < |all| && all[i] == x;
      ScoreBounds(profile, features.columns, features.rows[i]);
    }
  }

  /** Every score `recommend_by_need` can rank for a known need, over a
      feature table of indicators (NaN allowed), lies between 0 and the
      total weight of that need's profile. */
  lemma CandidateScoresBounded(features: Table<Num>, meta: Table<Value>, need: string)
    requires need in Keys(NeedToNutri) && ScoreAssignable(features, meta)
    requires forall i, c :: 0 <= i < |features.rows| && c in features.columns ==>
      IsIndicator(NumCell(features.rows[i], c)) || NumCell(features.rows[i], c) == NaN
    ensures var profile := Lookup(NeedToNutri, need).value;
      forall x :: x in Candidates(features, meta, profile) ==> 0 <= x.score <= TotalWeight(profile)
  {
    NeedWeightsNonNegative(need);
    ScoresBounded(features, meta, Lookup(NeedToNutri, need).value);
  }

  /** The score loop of `recommend_by_need`: for each profile entry whose
      feature the table has, add weight times indicator to every row's score. */
  method ScoreRows(features: Table<Num>, weights: Profile) returns (score: seq<int>)
    ensures |score| == |features.rows|
    ensures forall i :: 0 <= i < |score| ==> score[i] == Weighted(weights, features.columns, features.rows[i])
  {
    score := seq(|features.rows|, i => 0);
    for k := 0 to |weights|
      invariant |score| == |features.rows|
      invariant forall i :: 0 <= i < |score| ==> score[i] == Weighted(weights[..k], features.columns, features.rows[i])
    {
      var (key, w) := weights[k];
      assert weights[..k + 1][..k] == weights[..k];
      if key in features.columns {
        score := seq(|score|, i requires 0 <= i < |score| => score[i] + IntOrZero(NumCell(features.rows[i], key)) * w);
      }
    }
    assert weights[..|weights|] == weights;
  }

  /** `recommend_by_need(features_df, meta_df, need, top_n)`. */
  method RecommendByNeed(features: Table<Num>, meta: Table<Value>, need: string, topN: int)
    returns (r: Result<seq<Scored>, Error>)
    ensures r == Err(UnknownNeed(need)) <==> need !in Keys(NeedToNutri)
    ensures r == Err(LengthMismatch(|features.rows|, |meta.rows|)) <==>
      need in Keys(NeedToNutri) && !ScoreAssignable(features, meta)
    ensures r.Err? ==> r == Err(UnknownNeed(need)) || r == Err(LengthMismatch(|features.rows|, |meta.rows|))
    ensures r.Ok? ==>
      && need in Keys(NeedToNutri) && ScoreAssignable(features, meta)
      && var all := Candidates(features, meta, Lookup(NeedToNutri, need).value);
         && |r.value| == HeadCount(|all|, topN)
         && NonIncreasing(r.value)
         && TopOf(r.value, multiset(all))
  {
    var profile := Lookup(NeedToNutri, need);
    if profile.None? {
      return Err(UnknownNeed(need));
    }
    var score := ScoreRows(features, profile.value);
    if |meta.rows| != |score| && |meta.rows| != 0 {
      return Err(LengthMismatch(|features.rows|, |meta.rows|));
    }
    var out := seq(|score|, i requires 0 <= i < |score| =>
      Scored(if |meta.rows| == 0 then map c | c in meta.columns :: Null else meta.rows[i], score[i]));
    assert out == Candidates(features, meta, profile.value);
    var sorted := SortByScore(out);
    var m := HeadCount(|sorted|, topN);
    TopPrefix(sorted, m);
    r := Ok(sorted[..m]);
  }
}
