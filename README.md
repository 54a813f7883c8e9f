# nutri-cluster preprocessing and recommendation core in Dafny

This project models the preprocessing and recommendation core of
nutri-cluster, `src/preprocess.py`. Raw product rows from the Korean food
safety open API (service C003, health functional foods) are turned into a
table of 0/1 ingredient indicators. A user need such as `"sleep"` then ranks
the products by a weighted sum of those indicators.

The parts modelled:

- **Configuration** (module `Config`). The four constants, plus the inline fallback meta list (src/preprocess.py:156):
  - the text columns `TEXT_CANDIDATES`;
  - the kept meta columns `META_KEEP`, plus its fallback list;
  - the 26 ingredient patterns `NUTRI_KEYWORDS`;
  - the nine need profiles `NEED_TO_NUTRI`, kept in declaration order.
- **Tables** (module `Frames`). A table is a list of column names and one map per row. A key missing from a row map reads as a missing value (`Null` or `NaN`). `Survivors`/`Select` model `df.loc[mask]` followed by `reset_index(drop=True)`.
- **Text normalisation** (module `TextNorm`). `_norm` becomes `Norm`: null becomes the empty string, everything else is stringified, lowercased, and each run of whitespace becomes one space.
- **Patterns** (module `Patterns`). Every keyword pattern is an alternation of literals with `\s*` and `c?` pieces. `Matches` is an anchored matcher tried at every start position, like `str.contains`. `Occurs` is the reference meaning: some alternative spells some substring.
- **Preprocessing** (module `Preprocess`):
  - `_merge_text` becomes the loop `MergeText`.
  - The feature loop becomes `BuildFeatures`.
  - `preprocess_for_reco` becomes `PreprocessForReco`. It drops rows with no hit and keeps the meta columns that are present.
- **Recommendation** (module `Recommend`). `recommend_by_need` is `RecommendByNeed`. It has two error results:
  - an unknown need (the source raises `ValueError`);
  - feature and meta tables of different lengths, unless the meta table has no rows (assigning `score.values` raises then).
  - A meta table without rows takes its index from the scores: every score gets a row whose meta columns are all missing.
  - On success it returns the first `top_n` rows by descending score: fewer if there are fewer, and all but the last −`top_n` for a negative `top_n`. No row left out scores higher than a row kept.
- **Validation** (module `Validate`). `validate_preprocessed` prints a report. Here the report is returned as a `Report` value with:
  - the shape;
  - the per-column NaN counts;
  - the number of duplicate rows (0 for a table without columns, as pandas answers for an empty frame);
  - the columns holding values other than 0/1;
  - whether the lengths match.

Behaviour of the code worth knowing:

- **Ties.** `sort_values("score", ascending=False)` uses its default algorithm, quicksort, which is not stable. The model promises a descending permutation with the top part kept, and nothing about the order of equal scores.
- **Leading space.** `_merge_text` starts every merged text with `""` and prefixes each present column with `" "`. A row with any text column therefore normalises to a string that begins with a space. The model keeps that space.
- **Meta fallback.** The fallback meta list (`PRDLST_NM`, `BSSH_NM`) is a subset of `META_KEEP`. The fallback can only be reached when it is empty too, so it is dead code. `Preprocess.MetaColumnsArePresentKeep` proves this.

## Model

| member | source | states |
|---|---|---|
| TextNorm.LowerChar | src/preprocess.py:108 | a capital A–Z becomes the small letter at the same place in the alphabet; the lowered character is not upper case, is whitespace exactly when the input was, and equals the input when that was not upper case |
| TextNorm.Collapse | src/preprocess.py:109 | the result is empty iff the input is, starts with whitespace iff the input does, has every whitespace as a single ' ' with no two adjacent, and stays lower case |
| TextNorm.CollapseRun | src/preprocess.py:109 | a non-empty run made only of whitespace becomes exactly one space |
| TextNorm.CollapseOne | src/preprocess.py:109 | a single character other than whitespace is kept as it is |
| TextNorm.CollapseAppend | src/preprocess.py:109 | collapsing a concatenation cut outside a whitespace run collapses each part; with CollapseRun and CollapseOne this fixes the result: each maximal run becomes one space where it stood and every other character stays |
| TextNorm.Norm | src/preprocess.py:105-110 | a null value normalises to ""; every result has no upper case letter and no whitespace other than single plain spaces, none adjacent |
| TextNorm.LowerNoUpper | src/preprocess.py:108 | `lower()` leaves no upper case letter |
| TextNorm.LowerFixed | src/preprocess.py:108 | `lower()` is the identity on text with no upper case letter |
| TextNorm.CollapseFixed | src/preprocess.py:109 | collapsing changes nothing in already collapsed text |
| TextNorm.CollapseFixedIff | src/preprocess.py:109 | `re.sub(r"\s+", " ", s)` leaves s unchanged iff s has no whitespace other than single spaces |
| TextNorm.NormIdempotent | src/preprocess.py:105-110 | normalising twice is normalising once |
| TextNorm.NormFixedIff | src/preprocess.py:105-110 | a string is its own normal form iff it has no upper case letter and no whitespace other than single plain spaces, none adjacent |
| TextNorm.VisibleAppend | src/preprocess.py:109 | the non-whitespace characters of a concatenation are those of its parts, in order |
| TextNorm.VisibleSkipSpaces | src/preprocess.py:109 | dropping leading whitespace keeps every non-whitespace character |
| TextNorm.CollapseKeepsVisible | src/preprocess.py:109 | collapsing whitespace keeps every non-whitespace character, in order |
| TextNorm.VisibleLower | src/preprocess.py:108 | lowering commutes with dropping whitespace |
| TextNorm.NormKeepsVisible | src/preprocess.py:108-109 | the normal form's non-whitespace characters are the input's, lowered, in order |
| Patterns.MatchPrefixSpells | src/preprocess.py:145 | an anchored match spells some prefix of the text |
| Patterns.SpellsMatchPrefix | src/preprocess.py:145 | a prefix spelled by an alternative is matched by the anchored matcher |
| Patterns.MatchesIffOccurs | src/preprocess.py:143-145 | `str.contains(pattern)` is true iff some alternative spells some substring of the text |
| Patterns.SpellsHasLit | src/preprocess.py:145 | every literal of an alternative occurs in any word it spells |
| Patterns.NoHitWithoutLetter | src/preprocess.py:145 | text missing a literal of every alternative does not match |
| Patterns.NoHitAt | src/preprocess.py:145 | the same, with the missing literal of each alternative named by position: the pattern does not occur |
| Patterns.LiteralSpells | src/preprocess.py:21-54 | a plain literal alternative spells exactly its own text |
| Patterns.LiteralThen | src/preprocess.py:21-54 | a literal followed by more tokens spells the literal followed by what the rest spells |
| Patterns.GapSpellsSpaced | src/preprocess.py:22 | `a\s*b` spells `a b` with one space |
| Config.FeatureKeysDistinct | src/preprocess.py:21-54 | the 26 feature names are distinct, so the feature table has 26 columns |
| Config.FeatureKeysOfTable | src/preprocess.py:21-54 | the feature names are the keyword dictionary's keys in declaration order |
| Config.NeedNamesDistinct | src/preprocess.py:57-103 | the need names are distinct |
| Config.ProfileWellFormedAt | src/preprocess.py:57-103 | a given need profile names distinct known features, each with a positive weight |
| Config.ProfilesWellFormed | src/preprocess.py:57-103 | every need profile names distinct known features, each with a positive weight |
| Frames.Survivors | src/preprocess.py:148-149 | the surviving row indices are exactly the rows the mask keeps, in increasing order |
| Frames.Select | src/preprocess.py:149 | `loc[mask].reset_index(drop=True)` keeps the masked rows in order and renumbers them from 0 |
| Frames.SelectMembers | src/preprocess.py:149 | an element survives the mask iff some position holding it is kept |
| Frames.SelectSnoc | src/preprocess.py:190-193 | extending a masked prefix by one position appends that element exactly when the mask keeps it |
| Frames.SelectNone | src/preprocess.py:194-199 | a mask that keeps nothing yields the empty list |
| Preprocess.PresentSnoc | src/preprocess.py:114-115 | one more candidate is appended exactly when the schema has it |
| Preprocess.PresentMembers | src/preprocess.py:114-115 | the columns used are exactly the candidates present in the table, in candidate order |
| Preprocess.SpacedSnoc | src/preprocess.py:116 | each further column appends a space and its value |
| Preprocess.JoinedIsSpaced | src/preprocess.py:112-116 | the merge loop joins the present candidate columns, each after a space |
| Preprocess.SpacedAgree | src/preprocess.py:116 | rows that agree on the joined columns join to the same text |
| Preprocess.MergedTextLocal | src/preprocess.py:112-117 | the merged text depends only on the present text candidate columns |
| Preprocess.MergedTextWithoutCandidates | src/preprocess.py:112-117 | a table with no text candidate column merges to the empty text |
| Preprocess.MergedTextNormalised | src/preprocess.py:117 | the merged text is lower case, has no whitespace other than single plain spaces, none adjacent, and is its own normal form |
| Preprocess.MergeText | src/preprocess.py:112-117 | one merged text per row, the normalised join of that row's present text columns |
| Preprocess.Indicator | src/preprocess.py:145 | `contains(...).astype(int)` is 0 or 1 |
| Preprocess.FeatureRowKeys | src/preprocess.py:142-145 | the feature loop defines exactly the keyword names as columns |
| Preprocess.FeatureRowEntries | src/preprocess.py:142-145 | with distinct names, each feature holds its own pattern's indicator |
| Preprocess.FeatureRowLaw | src/preprocess.py:142-145 | over distinct keyword names, a feature row has exactly those keys; each is 0 or 1, and 1 iff its pattern occurs |
| Preprocess.IndicatorLaw | src/preprocess.py:142-145 | a feature row has the 26 features as keys; each is 1 iff its pattern occurs in the text, else 0 |
| Preprocess.BuildFeatures | src/preprocess.py:142-145 | the features table has one column per keyword, in table order, and per row the feature row of that row's text |
| Preprocess.RowSumHit | src/preprocess.py:148 | a sum of indicators is non-negative, and positive iff some indicator is 1 |
| Preprocess.BuiltMask | src/preprocess.py:140-148 | the mask computed on the built features is the raw table's keyword mask |
| Preprocess.FeatureRowIndicators | src/preprocess.py:145 | every feature of a feature row is 0 or 1 |
| Preprocess.AnyHit | src/preprocess.py:148 | a row of per-pattern indicators sums to a positive number iff some pattern occurs |
| Preprocess.HitIffOccurs | src/preprocess.py:148 | a row's feature sum is positive iff some keyword pattern occurs in its text |
| Preprocess.FilterLaw | src/preprocess.py:148-149 | a raw row survives iff some keyword pattern occurs in its merged text |
| Preprocess.MetaColumnsArePresentKeep | src/preprocess.py:154-156 | the meta columns are the META_KEEP columns present, in order; the fallback never contributes |
| Preprocess.MetaRow | src/preprocess.py:157 | a meta row has exactly the kept columns |
| Preprocess.SelectedIndicators | src/preprocess.py:149 | the rows kept by the mask still hold only 0/1 features |
| Preprocess.SelectedFeatureRows | src/preprocess.py:149 | kept row p is the feature row of the merged text of surviving raw row p |
| Preprocess.HitFeatures | src/preprocess.py:140-149 | features have one column per keyword and one 0/1 row per raw row with a hit, in order; the mask is the raw table's keyword mask |
| Preprocess.PreprocessForReco | src/preprocess.py:119-159 | the features have the 26 columns and one 0/1 row per surviving raw row, in order; meta is returned iff requested, holds the present META_KEEP columns, and is aligned row by row with the features |
| Preprocess.ExampleHasVitaminC | src/preprocess.py:22 | "고함량 비타민 c 1000mg" contains the vitamin C pattern |
| Preprocess.ExampleLacksMelatonin | src/preprocess.py:51 | "고함량 비타민 c 1000mg" does not contain the melatonin pattern |
| Preprocess.ExampleLacksFrom1 | src/preprocess.py:23-27 | none of the patterns from `vitamin_b` to `iron` occurs in that text |
| Preprocess.ExampleLacksFrom6 | src/preprocess.py:28-34 | none of the patterns from `folate` to `lutein` occurs in that text |
| Preprocess.ExampleLacksFrom11 | src/preprocess.py:35-42 | none of the patterns from `astaxanthin` to `msm` occurs in that text |
| Preprocess.ExampleLacksFrom16 | src/preprocess.py:43-48 | none of the patterns from `glucosamine` to `milk_thistle` occurs in that text |
| Preprocess.ExampleLacksFrom21 | src/preprocess.py:49-53 | none of the patterns from `red_ginseng` to `green_tea` occurs in that text |
| Preprocess.VitaminCExample | src/preprocess.py:142-145 | for that text the `vitamin_c` indicator is 1 and every other indicator, `melatonin` among them, is 0 |
| Recommend.Lookup | src/preprocess.py:217-220 | a need's profile is found iff the need is a key, and the pair found is in the table |
| Recommend.LookupAt | src/preprocess.py:220 | looking up the first entry with a key finds that entry's value |
| Recommend.HitWeightSnoc | src/preprocess.py:224-226 | the reference score extends entry by entry |
| Recommend.WeightedIsHitWeight | src/preprocess.py:222-226 | over 0/1/NaN features, the accumulated score is the total weight of the profile features that are 1 |
| Recommend.HitWeightBounds | src/preprocess.py:222-226 | with non-negative weights, that total lies between 0 and the profile's total weight |
| Recommend.ScoreBounds | src/preprocess.py:222-226 | over 0/1/NaN features and non-negative weights, a score lies between 0 and the profile's total weight |
| Recommend.NeedWeightsNonNegative | src/preprocess.py:57-103 | every weight of a known need's profile is non-negative |
| Recommend.ScoresBounded | src/preprocess.py:222-229 | over 0/1/NaN features and non-negative weights, every candidate's score is between 0 and the total weight |
| Recommend.CandidateScoresBounded | src/preprocess.py:220-229 | for a known need, features that are 0/1 or NaN, and tables the score can be assigned to (equal lengths or no meta rows), every row's score is between 0 and the profile's total weight |
| Recommend.SleepScore | src/preprocess.py:222-226 | weights 3, 2, 1 on indicators 1, 1, 0 accumulate to 5 |
| Recommend.SleepExample | src/preprocess.py:73-77 | the sleep profile scores melatonin 1, L-theanine 1, magnesium 0 as 5 |
| Recommend.Insert | src/preprocess.py:230 | inserting into a descending list keeps it descending and adds exactly the new row |
| Recommend.InsertedBelow | src/preprocess.py:230 | a row inserted below the head leaves every row at or below the head's score |
| Recommend.ConsNonIncreasing | src/preprocess.py:230 | a head scoring at least every row of a descending list keeps it descending |
| Recommend.SortByScore | src/preprocess.py:230 | `sort_values("score", ascending=False)` is a permutation with non-increasing scores |
| Recommend.TopPrefix | src/preprocess.py:230 | a prefix of a descending list is drawn from it and outscores every row left out |
| Recommend.ScoreRows | src/preprocess.py:222-226 | each row's score is the weighted sum over the profile entries whose feature the table has, NaN counting as 0 |
| Recommend.RecommendByNeed | src/preprocess.py:213-231 | unknown need and a length mismatch with a non-empty meta table are the only errors, each exactly when it applies; otherwise, with a row of missing meta cells per score when the meta table is empty, `head(top_n)` many rows with non-increasing scores, drawn from the scored meta rows, none left out scoring higher |
| Validate.MissingCount | src/preprocess.py:176 | a column's NaN count is at most the row count |
| Validate.MissingCountZero | src/preprocess.py:176-177 | a column's NaN count is 0 iff no row has NaN there |
| Validate.DuplicatesPlusDistinct | src/preprocess.py:185 | `duplicated().sum()` plus the number of distinct rows is the row count |
| Validate.Duplicates | src/preprocess.py:185 | a table without columns has no duplicate rows; otherwise the duplicate count plus the number of distinct rows is the row count |
| Validate.ValidatePreprocessed | src/preprocess.py:161-211 | the report gives the shape, each column's NaN count, the duplicate count (0 without columns), exactly the columns holding a non-NaN value other than 0/1 in column order, and the length comparison iff meta is given |
| Validate.IndicatorTableIsClean | src/preprocess.py:176-199 | a table of 0/1 cells has no NaN and no bad column |
| Validate.ValidateFreshOutput | src/preprocess.py:119-211 | validating fresh preprocessing output reports 26 columns, no NaN, no bad column, and matching lengths |

## Left out

- `src/api.py` and `fetch_food_data`: network I/O. Raw rows are a parameter.
- `save_processed`: filesystem I/O.
- `validate_preprocessed` printing: the strings, the `head(3)` previews and the `top_na_cols` truncation of the NaN listing are display only. The report returns the full per-column counts, in column order, not sorted by count.
- Validate.ValidatePreprocessed: for each bad column the source also prints up to ten sample values (`list(vals)[:10]`). The report lists only the column names.
- `pd.to_datetime` on `PRMS_DT` and `CHNG_DT`: date parsing. Date cells pass through to the meta table unparsed.
- TextNorm.LowerChar: lowercases ASCII letters only. Python's full Unicode `str.lower` is not modelled. Hangul, the script of most of the data, has no case.
- TextNorm.Stringify: only null, text and integer cells. `str()` of floats, dates and other objects is not modelled.
- Patterns: the full `re` language is not modelled. Only what the 26 keyword patterns use is modelled: literals, `\s*`, `c?` and top-level alternation. Matching is case-sensitive, as in the source, on already lowered text.
- Feature tables hold NaN or integers. Float or string cells, and the dtype coercion `astype(int)` applies to them, are left out.
- Recommend.ScoreRows: scores are unbounded integers. int64 wrap-around cannot occur for 0/1 features and these small weights, and is not modelled.
- Recommend.RecommendByNeed: does not promise the order of equal scores, because the code's default sort is not stable.
- Recommend.Scored: the score is kept beside the meta row, not written into it. A meta column already named `score` would be overwritten in the source; the model does not capture that.
- The index bookkeeping of `reset_index` is captured only as renumbering from 0. Because rows are keyed by position, pandas index alignment is not modelled.
