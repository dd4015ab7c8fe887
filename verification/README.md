# Music recommendation cores, modelled in Dafny

This project models the two track-ranking procedures of the music analytics
repository and the row logic of its dark-neon dashboard.

**Content-based recommender** (`music_project/music_ml/recommender.py`):
- `build_feature_matrix` turns every track into a feature row. The row holds a
  one-hot block over the sorted distinct genres, then a one-hot block over the
  sorted distinct languages, then the four numeric columns Duration_Sec,
  Popularity_Score, Stream_Count and Release_Year, standardised the way
  scikit-learn's `StandardScaler` does it.
- `recommend` looks up the seed row by Track_ID and scores every row by its
  cosine similarity to the seed row. It sorts the rows by that similarity,
  largest first, and returns the Python slice `[1:top_n+1]`.

**Dashboard** (`streamlit_dashboard_dark.py`, only its data logic):
- the sidebar filter;
- the top-10-by-popularity table;
- the two-threshold mood rule and its donut counts;
- the heuristic recommendations panel: seed lookup, `score_row`, and the
  sort / exclude-by-id / head(12) selection.

Modules:
- `Results`: `Result` and `Option`.
- `Seqs`: sums, filters, Python slices, pandas `head`, first match.
- `Ranking`: rankings by a real key, meaning permutations that are
  non-increasing. It also holds one insertion sort that produces a ranking.
- `Vocabulary`: the sorted, duplicate-free value list behind `get_dummies`.
- `RealArith`: small facts about real arithmetic.
- `Vectors`: dot products, Cauchy-Schwarz and cosine similarity.
- `Scaling`: mean, population variance and standardisation.
- `Recommender`: the feature matrix and `recommend`.
- `Dashboard`: the dashboard's filters, top tracks, mood and recommendations.

How values are represented:
- Numbers are exact reals.
- Square roots are never computed. Every operation that needs one takes a
  function `sqrt` that is required to return the non-negative square root of
  every non-negative real (`Vectors.IsSquareRoot`).
- A data frame is a sequence of records, so row i is position i. That is the
  default RangeIndex, which `recommend` needs for its label-to-position
  lookup to make sense.

## Model

Paths are relative to the repository root. `recommender.py` stands for
`music_project/music_ml/recommender.py`. `streamlit_dashboard_dark.py` stands for
`music_prediction_recommendation_analysis_project/music_app/app_streamlit/streamlit_dashboard_dark.py`.
The table cells spell both out in full.

| member | source | states |
|---|---|---|
| Vocabulary.Build | music_project/music_ml/recommender.py:9-10 | the dummy columns are strictly increasing (sorted, no duplicates) and hold exactly the values that occur in the column |
| Vocabulary.IndexOf | music_project/music_ml/recommender.py:9-10 | a value of the vocabulary has exactly one column, at the returned position |
| Recommender.OneHotExactlyOne | music_project/music_ml/recommender.py:9-10 | an indicator block over a vocabulary that contains the value holds a single 1, at the value's own column, 0 everywhere else, and sums to 1 |
| Recommender.LayoutAt | music_project/music_ml/recommender.py:9-20 | the columns are the genres, then the languages, then Duration_Sec, Popularity_Score, Stream_Count, Release_Year in that order, and there are \|genres\| + \|languages\| + 4 of them |
| Recommender.BuildFeatureMatrix | music_project/music_ml/recommender.py:6-22 | fails exactly on an empty dataset; otherwise one row per track, each as wide as the column list, and every cell is the indicator or standardised value that its column label names for that track |
| Recommender.GenreBlock | music_project/music_ml/recommender.py:9-20 | the first block has one column per distinct genre of the dataset, in ascending order; in row i it is the one-hot vector of track i's genre: 1 at that genre's column, 0 elsewhere, sum 1 |
| Recommender.LanguageBlock | music_project/music_ml/recommender.py:10-20 | the second block has one column per distinct language of the dataset, in ascending order, placed right after the genres, and row i holds the one-hot vector of track i's language |
| Recommender.NumericBlock | music_project/music_ml/recommender.py:12-20 | each of the last four columns is its raw column standardised over all rows: it sums to 0, it is all zeros when the raw column is constant, and it has variance 1 otherwise |
| Recommender.RowsFollowAttributes | music_project/music_ml/recommender.py:6-22 | row i depends on track i's genre, language and four numbers only: two tracks that agree on these get equal rows, whatever their ids, names or artists |
| Recommender.RowNonZero | music_project/music_ml/recommender.py:9-20 | no feature row is the zero vector (squared length at least 1), so every row has a defined cosine |
| Scaling.Scale | music_project/music_ml/recommender.py:14-16 | the divisor StandardScaler uses is strictly positive |
| Scaling.ScaleIsDeviation | music_project/music_ml/recommender.py:14-16 | when the population variance is positive the divisor squares to it; the variance is 0 exactly when its square root is 0 and the divisor falls back to 1 |
| Scaling.Standardize | music_project/music_ml/recommender.py:14-18 | one value per row, and inverting the transform (z * scale + mean) gives back every raw value |
| Scaling.StandardizeCentred | music_project/music_ml/recommender.py:14-18 | a standardised column has mean 0, and a constant column becomes all zeros |
| Scaling.StandardizeUnitVariance | music_project/music_ml/recommender.py:14-18 | a non-constant column standardises to population variance 1 |
| Scaling.VarianceNonNegative | music_project/music_ml/recommender.py:14-16 | the population variance is never negative, so its square root exists |
| Vectors.CauchySchwarz | music_project/music_ml/recommender.py:35 | (a.b)^2 <= (a.a)(b.b) whenever b is non-zero |
| Vectors.Cosine | music_project/music_ml/recommender.py:35 | cosine similarity lies in [-1, 1] and is 0 when either vector is zero |
| Vectors.CosineSelf | music_project/music_ml/recommender.py:35 | a non-zero vector has similarity exactly 1 to itself |
| Vectors.CosineSymmetric | music_project/music_ml/recommender.py:35 | similarity does not depend on the order of its arguments |
| Seqs.FindFirst | music_project/music_ml/recommender.py:27-31 | nothing is found exactly when no element matches; otherwise the position is the first match |
| Recommender.FindTrack | music_project/music_ml/recommender.py:27-31 | the lookup fails exactly when no row carries the Track_ID, and otherwise returns the first row that does |
| Recommender.ScoredRows | music_project/music_ml/recommender.py:33-37 | the similarity column: one entry per row, in dataset order, each in [-1, 1], and 1 for the seed row itself |
| Ranking.Sort | music_project/music_ml/recommender.py:39 | the sorted rows are a permutation of the input (same multiset, same length) in non-increasing key order |
| Ranking.KeysDetermined | music_project/music_ml/recommender.py:39 | any two non-increasing permutations of the same rows agree position by position on the key, so the sorted key column does not depend on how ties are broken |
| Recommender.Ranked | music_project/music_ml/recommender.py:39 | the similarity-sorted frame is a ranking of the scored rows and has one entry per track |
| Seqs.Slice | music_project/music_ml/recommender.py:39 | Python's `s[start:stop]`: both bounds are counted from the end when negative and clamped into [0, n]; the result holds the elements from the lower bound up to the upper bound, in order, and is empty when the upper bound does not exceed the lower |
| Seqs.SliceFromOneNegative | music_project/music_ml/recommender.py:39 | `[1:stop]` for stop <= 0 is empty at 0 and otherwise counts the stop from the end |
| Recommender.Recommend | music_project/music_ml/recommender.py:24-39 | an empty dataset is an error; on a non-empty dataset the result is the "not found" error exactly when no row carries the Track_ID, and a success whenever one does; then for top_n >= 0 exactly min(top_n, n - 1) rows, non-increasing in similarity, every row taken from the input with similarity in [-1, 1] |
| Recommender.RecommendSlicesARanking | music_project/music_ml/recommender.py:35-39 | when the Track_ID is present, the result is the slice `[1:top_n+1]` of some ordering of all scored rows that is a permutation of them and non-increasing in similarity, whatever the tie order |
| Recommender.RecommendDropsFirstRanked | music_project/music_ml/recommender.py:35-39 | the dropped row is the first-ranked one and has similarity exactly 1; it and the rest of the ranking are exactly the scored rows; for top_n >= 0 the result is the next top_n ranked rows |
| Recommender.RecommendTieIndependent | music_project/music_ml/recommender.py:39 | any other tie order gives a result of the same length with the same similarity column |
| Recommender.RecommendNegativeTopN | music_project/music_ml/recommender.py:24-39 | top_n is not validated: top_n = -1 gives nothing, and a smaller top_n drops rows from the end as a Python slice does |
| Recommender.SeedMayBeRecommended | music_project/music_ml/recommender.py:31-39 | on the dataset [twin, seed], where the twin has the seed's features and another id, and under the model's stable tie order, the twin is the row dropped and the seed itself is recommended with similarity 1 |
| Recommender.TieOrderDecidesExclusion | music_project/music_ml/recommender.py:35-39 | on the same dataset every admissible ordering gives both rows similarity 1, and the ordering with the seed first is admissible too and drops the seed instead: which row `iloc[1:]` removes depends on the tie order, not on the Track_ID |
| Seqs.Filter | music_prediction_recommendation_analysis_project/music_app/app_streamlit/streamlit_dashboard_dark.py:57-59 | a boolean mask keeps only rows of the frame that satisfy it, and keeps every copy of every row that does: a passing row occurs in the result as often as in the input, a failing one not at all |
| Dashboard.ApplyFilters | music_prediction_recommendation_analysis_project/music_app/app_streamlit/streamlit_dashboard_dark.py:57-59 | a row of the dataset is in the filtered frame iff its genre is selected, its popularity is at least the floor, its duration lies in the inclusive range, and the artist choice is "All" or the row's artist; such a row keeps all its copies, any other row has none |
| Dashboard.FiltersAsOnePass | music_prediction_recommendation_analysis_project/music_app/app_streamlit/streamlit_dashboard_dark.py:57-59 | the two-stage filter equals one pass of the combined condition |
| Dashboard.FiltersPreserveOrder | music_prediction_recommendation_analysis_project/music_app/app_streamlit/streamlit_dashboard_dark.py:57-59 | the filtered frame is an order-preserving subsequence of the dataset |
| Dashboard.FiltersIdempotent | music_prediction_recommendation_analysis_project/music_app/app_streamlit/streamlit_dashboard_dark.py:57-59 | filtering the filtered frame again changes nothing |
| Seqs.Head | music_prediction_recommendation_analysis_project/music_app/app_streamlit/streamlit_dashboard_dark.py:116 | pandas `head(k)`: the first k rows, or all of them when there are fewer than k, and a prefix of the frame |
| Ranking.HeadOfRanking | music_prediction_recommendation_analysis_project/music_app/app_streamlit/streamlit_dashboard_dark.py:116 | `head(k)` of a ranking is itself sorted; it and the rows it leaves out make up the input, and no left-out row outranks a kept one |
| Dashboard.TopTracks | music_prediction_recommendation_analysis_project/music_app/app_streamlit/streamlit_dashboard_dark.py:116 | the table has min(10, \|q\|) rows, all from the filtered frame, in non-increasing popularity |
| Dashboard.TopTracksDominate | music_prediction_recommendation_analysis_project/music_app/app_streamlit/streamlit_dashboard_dark.py:116 | no filtered row left out of the table is more popular than a row in it, and the table plus the left-out rows is exactly the filtered frame |
| Dashboard.TopTracksTieIndependent | music_prediction_recommendation_analysis_project/music_app/app_streamlit/streamlit_dashboard_dark.py:116 | any other tie order gives the same popularity column |
| Dashboard.MoodOf | music_prediction_recommendation_analysis_project/music_app/app_streamlit/streamlit_dashboard_dark.py:138 | a row is Positive exactly when valence and energy both strictly exceed 0.5, and Neutral/Calm exactly when either is at most 0.5 |
| Dashboard.MoodMonotone | music_prediction_recommendation_analysis_project/music_app/app_streamlit/streamlit_dashboard_dark.py:138 | the mood is monotone in valence and energy, and both thresholds are strict: a row at exactly 0.5 is Neutral/Calm |
| Dashboard.MoodCount | music_prediction_recommendation_analysis_project/music_app/app_streamlit/streamlit_dashboard_dark.py:138-139 | a mood's count is at most the number of rows, and it is 0 exactly when no row has that mood |
| Dashboard.MoodSharesPartition | music_prediction_recommendation_analysis_project/music_app/app_streamlit/streamlit_dashboard_dark.py:138-139 | the two mood counts add up to the number of filtered rows |
| Dashboard.FeatureDistance | music_prediction_recommendation_analysis_project/music_app/app_streamlit/streamlit_dashboard_dark.py:165 | the audio-feature distance is non-negative and is 0 exactly when all four features agree |
| Dashboard.Score | music_prediction_recommendation_analysis_project/music_app/app_streamlit/streamlit_dashboard_dark.py:161-166 | a score never exceeds the genre bonus 2; it is at most 0 for another genre; it equals 2 exactly when genre, popularity and the four features all match the seed |
| Dashboard.ScoreSeedIsMaximal | music_prediction_recommendation_analysis_project/music_app/app_streamlit/streamlit_dashboard_dark.py:161-166 | the seed scores exactly 2, so no row scores above the seed |
| Dashboard.ScoreSymmetric | music_prediction_recommendation_analysis_project/music_app/app_streamlit/streamlit_dashboard_dark.py:161-166 | exchanging seed and candidate does not change the score |
| Dashboard.FindSeed | music_prediction_recommendation_analysis_project/music_app/app_streamlit/streamlit_dashboard_dark.py:159-160 | the lookup fails exactly when no row has the id; otherwise it returns the first row of the full dataset with that id |
| Ranking.FilterRanking | music_prediction_recommendation_analysis_project/music_app/app_streamlit/streamlit_dashboard_dark.py:168 | filtering a ranking gives a ranking of the filtered input (`query` after `sort_values`) |
| Dashboard.CandidatesRanked | music_prediction_recommendation_analysis_project/music_app/app_streamlit/streamlit_dashboard_dark.py:167-168 | the score-sorted dataset without the seed's id ranks exactly the dataset's rows without that id |
| Dashboard.Recommendations | music_prediction_recommendation_analysis_project/music_app/app_streamlit/streamlit_dashboard_dark.py:159-168 | fails exactly when the seed id is absent; otherwise every row comes from the full dataset and has a different id from the seed, the rows are in non-increasing score order, and there are min(12, number of rows with another id) of them |
| Dashboard.RecommendationsDominate | music_prediction_recommendation_analysis_project/music_app/app_streamlit/streamlit_dashboard_dark.py:167-168 | among the rows with another id, none left out of the panel scores above one shown, and the shown rows plus the left-out rows are exactly those rows |
| Dashboard.RecommendationsTieIndependent | music_prediction_recommendation_analysis_project/music_app/app_streamlit/streamlit_dashboard_dark.py:167-168 | any other tie order gives a panel of the same length with the same scores |

## Left out

- Streamlit, Plotly, CSS and image rendering are not modelled. This covers page
  configuration, KPI cards and their formatting, the tempo buckets (`pd.cut`),
  histograms and the `st.table` / `st.dataframe` output. None of it computes a
  row selection.
- CSV loading and the hard-coded data paths are not modelled: they are I/O. The
  dataset is a parameter.
- `trend_analysis.py`, `train_popularity.py`, `train_mood.py` and
  `streamlit_app.py` are not part of this model. They are plotting, library
  model training and menu glue around `recommend`.
- IEEE floating point and the concrete square roots are not modelled. Values
  are exact reals, and `sqrt` is any function that returns the true
  non-negative square root.
- Ranking.Sort: fixes one tie order (a stable insertion sort). pandas'
  default quicksort may order equal keys differently. So the model claims only
  what every tie order shares: the sorted key column (Ranking.KeysDetermined and
  the three `TieIndependent` lemmas).
- The in-place writes of the `similarity` and `score_tmp` columns into the
  caller's frame are not modelled. The model returns new sequences instead.
- The projections to the output columns (`recs[[...]]`,
  `top[['track_id', ...]]`) are not modelled: the model returns whole records.
- Missing values (NaN) are not modelled. Every field is a number or a string.
- Non-default row indexes are not modelled. Rows are positions, which is what
  `recommend`'s index-label lookup followed by `iloc` assumes.
- The Tempo column and every other column that no modelled line reads are left
  out of the records.
- Dashboard.ApplyFilters: the popularity floor and the duration bounds come from
  integer sliders in the source; here they are reals, a superset of the inputs.
- Dashboard.MoodCount: `value_counts` leaves a mood with no rows out of the
  donut altogether; the model reports a count of 0 for it.
- Recommender.Recommend: the default `top_n=5` is not modelled; every call passes `topN` explicitly.
- Recommender.Recommend: `top_n` is not validated in the source, and it is not
  restricted here either. Recommender.RecommendNegativeTopN states what negative
  values do.
- Vectors.Cosine: in the code, similarities can be negative, because
  standardised columns take negative values. So the model bounds them by
  [-1, 1], not [0, 1].
- Recommender.Recommend drops the first-ranked row, which is not always the seed
  (Recommender.SeedMayBeRecommended, Recommender.TieOrderDecidesExclusion). The
  model follows the code here, not the intent of always leaving the seed out.
