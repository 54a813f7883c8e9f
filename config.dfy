/** The static configuration tables of the pipeline: the candidate text
    columns, the meta columns kept for display, the keyword patterns and the
    need profiles.  Python dicts keep insertion order, so the ordered tables
    are sequences of pairs. */
module Config {
  import opened Frames
  import opened Patterns

  /** TEXT_CANDIDATES: the columns that may hold product text, in merge order. */
  const TextCandidates: seq<string> := [
    "PRDLST_NM", "PRDT_NM",
    "RAWMTRL_NM", "RAWMTRL", "RAWMTRL_CN",
    "PRIMARY_FNCLTY", "SKLL_IX_IRDNT_RAWMTRL",
    "IFTKN_ATNT_MATR_CN"
  ]

  /** META_KEEP: the descriptive columns carried into the meta table. */
  const MetaKeep: seq<string> := [
    "PRDLST_NM", "BSSH_NM", "PRMS_DT", "CHNG_DT",
    "PRDLST_REPORT_NO", "LCNS_NO"
  ]

  /** The fallback meta columns used when none of MetaKeep is present. */
  const MetaFallback: seq<string> := ["PRDLST_NM", "BSSH_NM"]

  /** `a\s*b`: two literal runs with optional whitespace between them. */
  function Gap(a: string, b: string): (alt: Alternative)
    ensures |alt| == |a| + 1 + |b|
  {
    L(a) + [Spaces] + L(b)
  }

  /** NUTRI_KEYWORDS: feature key and its pattern, in declaration order. */
  const NutriKeywords: seq<(string, Pattern)> := [
    ("vitamin_c", [Gap("비타민", "c"), Gap("vitamin", "c"), L("ascorbic")]),
    ("vitamin_b", [Gap("비타민", "b"), Gap("vitamin", "b"), L("b1"), L("b2"), L("b6"), L("b12"),
                   L("비오틴"), L("나이아신"), L("판토텐산"), L("엽산")]),
    ("vitamin_d", [Gap("비타민", "d"), Gap("vitamin", "d")]),
    ("zinc", [L("아연"), L("zinc")]),
    ("magnesium", [L("마그네슘"), L("magnesium")]),
    ("iron", [L("철"), L("iron")]),
    ("folate", [L("엽산"), L("folate")]),
    ("selenium", [L("셀레늄"), L("selenium")]),
    ("probiotics", [L("프로바이오틱"), L("유산균"), L("lactobac"), L("bifido"), L("probiotic")]),
    ("prebiotics", [L("프리바이오틱"), L("이눌린"), L("inulin"), L("프락토올리고당"), L("올리고당")]),
    ("lutein", [L("루테인"), L("lutein"), L("지아잔틴"), L("zeaxanthin")]),
    ("astaxanthin", [L("아스타잔틴"), L("astaxanthin")]),
    ("collagen", [L("콜라겐"), L("collagen")]),
    ("hyaluronic", [L("히알루론산"), L("hyaluronic")]),
    ("calcium", [L("칼슘"), L("calcium")]),
    ("msm", [L("msm"), L("엠에스엠")]),
    ("glucosamine", [L("글루코사민"), L("glucosamine")]),
    ("chondroitin", [L("콘드로이친"), L("chondroitin")]),
    ("omega3", [Gap("오메가", "3"), Gap("omega", "3"), L("epa"), L("dha")]),
    ("coq10", [Gap("코엔자임", "q10"), L("coq10"), L("유비퀴논")]),
    ("milk_thistle", [L("밀크씨슬"), L("실리마린"), L("silymarin")]),
    ("red_ginseng", [L("홍삼"), Gap("red", "ginseng"), L("진세노사이드")]),
    ("l_theanine", [L("l") + [Opt('-')] + L("테아닌"), L("theanine")]),
    ("melatonin", [L("멜라토닌"), L("melatonin")]),
    ("garcinia", [L("가르시니아"), L("garcinia")]),
    ("green_tea", [L("녹차"), Gap("green", "tea"), L("카테킨"), L("catechin")])
  ]

  /** A need profile: feature key and integer weight, in declaration order. */
  type Profile = seq<(string, int)>

  /** NEED_TO_NUTRI: each need and its weighting profile, in declaration order. */
  const NeedToNutri: seq<(string, Profile)> := [
    ("fatigue", [("vitamin_c", 2), ("vitamin_b", 3), ("magnesium", 1), ("iron", 1), ("coq10", 2), ("red_ginseng", 3)]),
    ("immune", [("vitamin_c", 3), ("vitamin_d", 2), ("zinc", 2), ("selenium", 1), ("red_ginseng", 2)]),
    ("sleep", [("melatonin", 3), ("l_theanine", 2), ("magnesium", 1)]),
    ("gut", [("probiotics", 3), ("prebiotics", 2)]),
    ("eye", [("lutein", 3), ("astaxanthin", 2)]),
    ("liver", [("milk_thistle", 3)]),
    ("joint", [("glucosamine", 2), ("chondroitin", 2), ("msm", 1)]),
    ("diet", [("garcinia", 2), ("green_tea", 2)]),
    ("skin", [("collagen", 2), ("hyaluronic", 2), ("vitamin_c", 1)])
  ]

  /** The keys of an ordered table, in order. */
  function Keys<V>(table: seq<(string, V)>): (ks: seq<string>)
    ensures |ks| == |table|
  {
    seq(|table|, i requires 0 <= i < |table| => table[i].0)
  }

  /** The feature keys of NutriKeywords written out: the feature table's columns. */
  const FeatureKeys: seq<string> := [
    "vitamin_c", "vitamin_b", "vitamin_d", "zinc", "magnesium", "iron", "folate", "selenium",
    "probiotics", "prebiotics", "lutein", "astaxanthin", "collagen", "hyaluronic", "calcium",
    "msm", "glucosamine", "chondroitin", "omega3", "coq10", "milk_thistle", "red_ginseng",
    "l_theanine", "melatonin", "garcinia", "green_tea"
  ]

  /** The feature keys are distinct: the feature table has 26 columns. */
  lemma FeatureKeysDistinct()
    ensures Distinct(FeatureKeys) && |FeatureKeys| == 26
  {
    FeatureKeysFreshFrom0(); FeatureKeysFreshFrom2(); FeatureKeysFreshFrom4(); FeatureKeysFreshFrom6(); FeatureKeysFreshFrom8(); FeatureKeysFreshFrom10(); FeatureKeysFreshFrom13(); FeatureKeysFreshFrom16(); FeatureKeysFreshFrom20();
  }

  // Each of the following checks a few keys against every later key; the
  // checks are split so that each proof stays small.

  lemma FeatureKeysFreshFrom0()
    ensures forall i, j :: 0 <= i <= 1 && i < j < 26 ==> FeatureKeys[i] != FeatureKeys[j]
  {
  }

  lemma FeatureKeysFreshFrom2()
    ensures forall i, j :: 2 <= i <= 3 && i < j < 26 ==> FeatureKeys[i] != FeatureKeys[j]
  {
  }

  lemma FeatureKeysFreshFrom4()
    ensures forall i, j :: 4 <= i <= 5 && i < j < 26 ==> FeatureKeys[i] != FeatureKeys[j]
  {
  }

  lemma FeatureKeysFreshFrom6()
    ensures forall i, j :: 6 <= i <= 7 && i < j < 26 ==> FeatureKeys[i] != FeatureKeys[j]
  {
  }

  lemma FeatureKeysFreshFrom8()
    ensures forall i, j :: 8 <= i <= 9 && i < j < 26 ==> FeatureKeys[i] != FeatureKeys[j]
  {
  }

  lemma FeatureKeysFreshFrom10()
    ensures forall i, j :: 10 <= i <= 12 && i < j < 26 ==> FeatureKeys[i] != FeatureKeys[j]
  {
  }

  lemma FeatureKeysFreshFrom13()
    ensures forall i, j :: 13 <= i <= 15 && i < j < 26 ==> FeatureKeys[i] != FeatureKeys[j]
  {
  }

  lemma FeatureKeysFreshFrom16()
    ensures forall i, j :: 16 <= i <= 19 && i < j < 26 ==> FeatureKeys[i] != FeatureKeys[j]
  {
  }

  lemma FeatureKeysFreshFrom20()
    ensures forall i, j :: 20 <= i <= 24 && i < j < 26 ==> FeatureKeys[i] != FeatureKeys[j]
  {
  }

  /** FeatureKeys lists the keys of NutriKeywords, in order. */
  lemma FeatureKeysOfTable()
    ensures Keys(NutriKeywords) == FeatureKeys
  {
    var ks := Keys(NutriKeywords);
    forall i | 0 <= i < 26 ensures ks[i] == FeatureKeys[i] {
    }
  }

  /** A profile names known feature keys, each at most once, each with a
      positive weight. */
  predicate WellFormedProfile(profile: Profile) {
    && Distinct(Keys(profile))
    && (forall j :: 0 <= j < |profile| ==> profile[j].1 > 0 && profile[j].0 in FeatureKeys)
  }

  /** The need names are distinct. */
  lemma NeedNamesDistinct()
    ensures Distinct(Keys(NeedToNutri))
  {
  }

  lemma ProfileWellFormedAt(i: nat)
    requires i < |NeedToNutri|
    ensures WellFormedProfile(NeedToNutri[i].1)
  {
  }

  /** Every need profile is well formed. */
  lemma ProfilesWellFormed()
    ensures forall i :: 0 <= i < |NeedToNutri| ==> WellFormedProfile(NeedToNutri[i].1)
  {
    ProfileWellFormedAt(0); ProfileWellFormedAt(1); ProfileWellFormedAt(2);
    ProfileWellFormedAt(3); ProfileWellFormedAt(4); ProfileWellFormedAt(5);
    ProfileWellFormedAt(6); ProfileWellFormedAt(7); ProfileWellFormedAt(8);
  }
}
