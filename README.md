# Movie recommender core, modelled in Dafny

This project models the rating, ranking and blending logic of a movie
recommender, and the string shaping of its TMDB ingestion script. The system:

- reads MovieLens-style rating triples and drops users with too few ratings;
- assigns dense user and item indices in first-seen order;
- fills a rating matrix and its mask, and computes the global, per-user and
  per-item means;
- mean-centres the matrix for a truncated SVD.

At query time it ranks items in three ways:

- by collaborative-filtering (CF) score, with the user's rated items pushed
  to `-inf`, and a cold start by item mean for unknown users;
- by cosine similarity of TF-IDF content rows to a profile;
- by a hybrid that re-ranks CF candidates by a weighted sum of their min-max
  normalised CF score and their rescaled content similarity.

The web server adds a seed-based hybrid, a profile choice, a liked-movies
filter and a poster URL memo cache. Ingestion does four things:

- splits `Title (YYYY)` strings;
- reads the movie rows;
- builds a bundle from the three TMDB responses and a lower-case content text
  from it;
- writes CSV failure lines, and keeps the ingest loop's deduplication state.

Modules follow the source files:

- `RatingsIo` models `ml/training/io.py`.
- `TrainCf` models `ml/training/train_cf.py`.
- `CfRecommender` models `ml/inference/recommender.py`.
- `Content` models `ml/inference/content.py`.
- `Hybrid` models `ml/inference/hybrid.py`.
- `Server` models the logic blocks of `server/app/main.py`.
- `IngestTmdb` models `ml/ingest_tmdb.py`.
- `TmdbClient` models `ml/tmdb_client.py`.
- `Common`, `Seqs`, `Strings` and `Ranking` hold the shared pieces:
  - options and results;
  - the score type with `-inf`;
  - Python's slices and comprehensions;
  - `strip`, `lower`, `join`, `str(int)` and `int(str)`;
  - a stable descending sort;
  - the top-n selection that `argpartition` followed by a sort performs.

Scores are exact reals. `-inf` is the `NegInf` score, which ranks below every
real. The code writes in place in four places, and the model keeps arrays
there:

- the rating matrix and mask (`array2`), written cell by cell;
- the mean vectors;
- the centred matrix;
- the score vectors overwritten with `-inf`.

Field-updating objects and mutated globals become classes:

- the poster cache is a class with a `map` field;
- the recommenders are classes whose fields are set once by their
  constructors.

The SVD, sklearn's `normalize`, the float parser and the TMDB calls are
function-valued inputs.

`ml/inference/hybrid.py` calls `cf.score_items` and `cf.top_indices`, which
`ml/inference/recommender.py` does not define. `Hybrid.HybridRecommender.ScoreItems` models
them as follows:

- For a known user it is the score vector `recommend` ranks (lines 44-50).
- For an unknown user it is the item-mean vector of `_cold_start`.
- `top_indices` is `_top_indices`.

The order `argpartition` leaves among ties is unspecified. The model picks one
(ties by position). The contracts claim only a top-n selection in
non-increasing order.

## Model

| member | source | states |
|---|---|---|
| Common.OrEmpty | ml/tmdb_client.py:95 | definition: `x or ""` for an optional string, a missing value reads as `""` |
| Seqs.Pick | ml/inference/hybrid.py:56 | definition: `s[idxs]` for a numpy index array, one element per index, repeats kept |
| RatingsIo.ReadRatings | ml/training/io.py:17-27 | the record loop returns exactly the accepted records, in file order |
| RatingsIo.LoadRatingsCsv | ml/training/io.py:8-29 | a missing file is `FileNotFound`, a missing header row is an error, otherwise the accepted records in file order |
| RatingsIo.AcceptRow | ml/training/io.py:17-27 | a record is kept iff its stripped user id, movie id and rating text are non-empty and `float` accepts the rating; the kept rating holds the stripped ids and the parsed value |
| RatingsIo.AcceptRowWellFormed | ml/training/io.py:18-26 | a kept record has non-empty, stripped user and movie ids |
| RatingsIo.AcceptedWellFormed | ml/training/io.py:17-27 | every kept rating has non-empty stripped ids; at most one rating per record |
| RatingsIo.AcceptedAppend | ml/training/io.py:17-27 | records are accepted independently and in order: loading a concatenation concatenates the results |
| RatingsIo.FilterSparseUsers | ml/training/io.py:32-43 | the counting loop plus the comprehension compute `SparseFiltered`; with `min_ratings <= 1` the input is returned unchanged |
| RatingsIo.RetainedUserKeepsAllRows | ml/training/io.py:43 | a user with at least `min_ratings` rows keeps every one of them |
| RatingsIo.OutputUsersAreFrequent | ml/training/io.py:39-43 | every user in the output has at least `min_ratings` rows in the output |
| RatingsIo.FilterSparseUsersIdempotent | ml/training/io.py:39-43 | filtering twice with one threshold is filtering once |
| RatingsIo.SparseFilteredIsSubsequence | ml/training/io.py:43 | the output is a subsequence of the input, hence never longer |
| TrainCf.BuildMappings | ml/training/train_cf.py:12-24 | both maps grow by first occurrence; each is a bijection onto `[0, len)`; its keys are exactly the ids in the ratings |
| TrainCf.FirstSeen | ml/training/train_cf.py:18-22 | definition: the dict the first-occurrence loop builds; its properties are the `FirstSeen*` lemmas below |
| TrainCf.FirstSeenSnoc | ml/training/train_cf.py:18-22 | a new id gets index `len(map)`; a known id changes nothing |
| TrainCf.FirstSeenKeys | ml/training/train_cf.py:18-24 | the keys are exactly the ids that occur |
| TrainCf.FirstSeenDense | ml/training/train_cf.py:18-22 | the indices are distinct and fill `[0, len)` |
| TrainCf.FirstSeenExtends | ml/training/train_cf.py:18-22 | an index once given out never changes |
| TrainCf.FirstSeenAssigns | ml/training/train_cf.py:19-20 | at its first occurrence an id receives the number of distinct ids before it |
| TrainCf.FirstSeenOrdered | ml/training/train_cf.py:18-22 | indices follow the order of first occurrence |
| TrainCf.UserIndexShape | ml/training/train_cf.py:18-20 | `user_index` is dense and its keys are exactly the user ids of the ratings |
| TrainCf.ItemIndexShape | ml/training/train_cf.py:21-22 | `item_index` is dense and its keys are exactly the movie ids of the ratings |
| TrainCf.Invert | ml/training/train_cf.py:107-108 | `index_user` / `index_item` are exact inverses of an injective map |
| TrainCf.InvertDense | ml/training/train_cf.py:107-108 | the inverse of a dense map has exactly the keys `[0, len)` |
| TrainCf.BuildMatrix | ml/training/train_cf.py:27-45 | `mask[u, i]` holds iff some triple rates `(u, i)`; `matrix[u, i]` is the last such rating, 0 otherwise; `rated_items` is as `RatedItems` |
| TrainCf.WriteTriple | ml/training/train_cf.py:39-42 | writing one triple keeps every cell equal to the last write among the triples read so far |
| TrainCf.LastWriteNone | ml/training/train_cf.py:38-42 | a cell has no write iff no triple addresses it |
| TrainCf.LastWriteWins | ml/training/train_cf.py:41 | the cell holds the rating of the last triple that addresses it |
| TrainCf.RatedItemsSnoc | ml/training/train_cf.py:43 | one triple adds its item to its user's set, creating the set when absent |
| TrainCf.RatedItemsMatchMask | ml/training/train_cf.py:42-43 | `i in rated_items[u]` iff `mask[u, i]`; only users with a rating have a key |
| TrainCf.RatedItemsBounded | ml/training/train_cf.py:43 | every rated item is an item position |
| TrainCf.ComputeMeans | ml/training/train_cf.py:48-69 | the global mean of the masked cells (0.0 without any), and each user's and item's masked mean, falling back to the global mean |
| TrainCf.UserMeans | ml/training/train_cf.py:57-61 | entry `u` is the masked mean of row `u`, or the global mean for an unrated row |
| TrainCf.ItemMeans | ml/training/train_cf.py:63-67 | entry `i` is the masked mean of column `i`, or the global mean for an unrated column |
| TrainCf.MaskedMeanBounds | ml/training/train_cf.py:58-61 | a mean of rated values lies between their bounds; without ratings it is the fallback |
| TrainCf.GlobalMeanBounds | ml/training/train_cf.py:53-55 | the global mean lies between the bounds of the rated values, and is 0.0 without ratings |
| TrainCf.Centre | ml/training/train_cf.py:77-79 | a masked cell becomes `matrix[u, i] - user_means[u]`, every other cell 0 |
| TrainCf.CentredRowSumsToZero | ml/training/train_cf.py:77-79 | the centred masked cells of a rated row sum to zero |
| TrainCf.ClampRank | ml/training/train_cf.py:82-86 | the factors are cut to `k = min(rank, len(s))` columns, values and rows |
| TrainCf.ClampRankKeeps | ml/training/train_cf.py:82-86 | for `rank >= 0` exactly `min(rank, len(s))` singular values are kept, a prefix of the originals |
| TrainCf.TrainSvd | ml/training/train_cf.py:72-87 | the factors are those of the SVD of the centred matrix, cut to the clamped rank |
| TrainCf.ClampRankShape | ml/training/train_cf.py:81-87 | cutting the SVD factors to a rank keeps their shapes consistent |
| TrainCf.CentredGridRect | ml/training/train_cf.py:78-79 | the centred matrix has the shape of the rating matrix |
| TrainCf.LastWriteBounded | ml/training/train_cf.py:36-41 | a written cell lies within the item range |
| TrainCf.SortedItems | ml/training/train_cf.py:109 | `sorted(items)`: strictly increasing, with exactly the items of the set |
| TrainCf.SortedRated | ml/training/train_cf.py:109 | every user's rated set becomes its sorted list, keys unchanged |
| TrainCf.SortedRatedOf | ml/training/train_cf.py:109 | the stored lists are sorted and hold exactly the rated cells |
| TrainCf.MappingsIndexRatings | ml/training/train_cf.py:102-103 | every triple's ids are keys of the maps `build_mappings` returns |
| TrainCf.Assemble | ml/training/train_cf.py:111-123 | the record stores the maps, the means and the factors as given |
| TrainCf.AssembleModel | ml/training/train_cf.py:102-123 | the assembled record is the model `main` stores for the ratings |
| TrainCf.BuildModel | ml/training/train_cf.py:102-123 | the maps, their inverses, the means of the matrix, the factors of its centred form and the sorted rated lists |
| TrainCf.Train | ml/training/train_cf.py:96-123 | an error iff no rating survives the filter, otherwise the model of the filtered ratings |
| CfRecommender.CFRecommender.constructor | ml/inference/recommender.py:13-24 | the fields are copied from the record; `rated_items` defaults to `{}`; the recommender is `Valid` iff the record has the shapes of a trained model |
| CfRecommender.RatedOrEmpty | ml/inference/recommender.py:24 | `model.get("rated_items", {})` |
| CfRecommender.TrainedModelShaped | ml/training/train_cf.py:72-123 | the record `train_cf` stores has those shapes (factor shapes, item ids for every item position, rated items below the item count), given an `svd` with the shapes of `np.linalg.svd(..., full_matrices=False)` |
| CfRecommender.UserVector | ml/inference/recommender.py:45 | definition: `U[u] * S`, elementwise |
| CfRecommender.CFRecommender.Scores | ml/inference/recommender.py:44-46 | item `i` scores `sum_k U[u][k] * S[k] * Vt[k][i] + user_means[u]` |
| CfRecommender.CFRecommender.Rated | ml/inference/recommender.py:49 | `rated_items.get(user_idx, [])`; for a valid recommender every listed item is an item position |
| CfRecommender.Overwrite | ml/inference/recommender.py:48-50 | the loop sets exactly the rated positions to `-inf` |
| CfRecommender.CFRecommender.RankedScores | ml/inference/recommender.py:41-50 | one score per item |
| CfRecommender.TopIndices | ml/inference/recommender.py:66-72 | `[]` for an empty vector; an error iff `min(n, size) - 1 < -size`; for `n > 0`, a top-`min(n, size)` selection |
| CfRecommender.CFRecommender.Format | ml/inference/recommender.py:53-56 | definition: entry `k` is `index_item[top[k]]` with its score |
| CfRecommender.CFRecommender.ColdStart | ml/inference/recommender.py:58-64 | `min(n, #items)` entries for `n > 0`, every score finite; an error exactly when `_top_indices` raises |
| CfRecommender.CFRecommender.Recommendation | ml/inference/recommender.py:38-39 | `[]` for `n <= 0`; otherwise `min(n, #items)` entries |
| CfRecommender.CFRecommender.Recommend | ml/inference/recommender.py:32-56 | the method with the in-place `-inf` loop returns `Recommendation` |
| CfRecommender.CFRecommender.RecommendIsTopN | ml/inference/recommender.py:52-56 | for `n > 0`: the top `min(n, #items)` positions in non-increasing order, each at least every position left out, each with its id and score |
| CfRecommender.CFRecommender.RatedReturnedLast | ml/inference/recommender.py:48-52 | with `exclude_rated`, a rated item is returned only when every unrated item is |
| CfRecommender.CFRecommender.UnknownUserColdStart | ml/inference/recommender.py:41-42 | an unknown user gets `_cold_start(n)`, with every score finite |
| Content.MovieIndex | ml/inference/content.py:19 | every id is a key, and `movie_ids[movie_index[m]] == m` |
| Content.MovieIndexLast | ml/inference/content.py:19 | a repeated id maps to its last position |
| Content.MovieIndexOfDistinct | ml/inference/content.py:19 | with distinct ids, each id maps to its own position |
| Content.Resolve | ml/inference/content.py:35-37 | empty iff no id is known; every position comes from the index |
| Content.ResolveAppend | ml/inference/content.py:35-37 | resolution goes id by id, in order, repeats kept |
| Content.ResolveSingle | ml/inference/content.py:35-37 | a known id contributes its position, an unknown one nothing |
| Content.ResolveMember | ml/inference/content.py:35-37 | a position is resolved iff some known listed id maps to it |
| Content.ColumnMeans | ml/inference/content.py:38 | definition: one mean per column, `dim` wide; its properties are `ColumnMeansBounds` and `ColumnMeansSingle` |
| Content.ColumnMeansBounds | ml/inference/content.py:38 | the elementwise mean lies between the bounds of the rows |
| Content.ColumnMeansSingle | ml/inference/content.py:38 | the mean of one row is that row |
| Content.ExcludeIds | ml/inference/content.py:67-71 | the loop sets exactly the rows of the known excluded ids to `-inf` |
| Content.ContentRecommender.constructor | ml/inference/content.py:16-20 | the matrix and ids are stored, `movie_index` is the comprehension over the ids, and every row of `matrix_norm` is its row normalised; the recommender is `Valid` iff there is one row per id, every row is `dim` wide, and `normalize` keeps lengths |
| Content.ContentRecommender.ValidIndex | ml/inference/content.py:19 | the index points at rows holding its ids |
| Content.ContentRecommender.ProfileFromMovieIds | ml/inference/content.py:34-39 | `None` iff no given id is known; otherwise a `dim`-wide vector |
| Content.ContentRecommender.ProfileIsMean | ml/inference/content.py:35-39 | the profile is the normalised elementwise mean of the known ids' rows, repeats kept |
| Content.ContentRecommender.ZipContents | ml/inference/content.py:46-53 | the zipped map holds exactly the known candidates, each with its row's similarity |
| Content.ContentRecommender.SimilarityToProfile | ml/inference/content.py:41-53 | the keys are exactly the known candidates, each mapped to its row's similarity to the profile |
| Content.ContentRecommender.RowScores | ml/inference/content.py:64 | definition: one similarity per row |
| Content.ContentRecommender.Similarity | ml/inference/content.py:49-50 | definition: `matrix_norm[p] @ profile.T` |
| Content.ContentRecommender.Zip | ml/inference/content.py:51-53 | definition: each known candidate writes its row's similarity under that row's movie id; its content is `ZipContents` |
| Content.ContentRecommender.ExcludedScores | ml/inference/content.py:64-71 | a resolved excluded row scores `-inf`, every other row its similarity |
| Content.ContentRecommender.ExcludedRow | ml/inference/content.py:67-71 | row `p` is excluded iff its id is excluded and the index records `p` for it |
| Content.ContentRecommender.Format | ml/inference/content.py:77-80 | definition: entry `k` is `str(movie_ids[top[k]])` with its score |
| Content.ContentRecommender.RecommendationFromProfile | ml/inference/content.py:55-80 | `[]` for `n <= 0`; an error on an empty matrix; otherwise `min(n, #rows)` entries |
| Content.ContentRecommender.RecommendFromProfile | ml/inference/content.py:55-80 | the method with the in-place exclusion loop returns `RecommendationFromProfile` |
| Content.ContentRecommender.RecommendationIsTopN | ml/inference/content.py:73-80 | the entries are a top-`min(n, #rows)` selection of the excluded scores, in non-increasing order |
| Content.ContentRecommender.ExcludedReturnedLast | ml/inference/content.py:67-75 | an excluded row is returned only when every row not excluded is |
| Content.ContentRecommender.UnknownExclusionIgnored | ml/inference/content.py:68-69 | excluding an id the index does not know changes nothing |
| Hybrid.HybridRecommender.constructor | ml/inference/hybrid.py:20-28 | the configuration defaults to `HybridConfig()` (0.7, 0.3, 200); the hybrid is `Valid` iff both recommenders are |
| Hybrid.MinMax | ml/inference/hybrid.py:76-85 | one output per input; `[]` stays `[]` |
| Hybrid.MinScore | ml/inference/hybrid.py:81 | `float(arr.min())`: one of the scores, and no score is below it |
| Hybrid.MaxScore | ml/inference/hybrid.py:82 | `float(arr.max())`: one of the scores, and no score is above it |
| Hybrid.Scale | ml/inference/hybrid.py:85 | `(x - min) / (max - min)` is the `r` with `min + r * (max - min) == x` |
| Hybrid.ScaleBounds | ml/inference/hybrid.py:85 | a value between min and max scales into `[0, 1]`; min goes to 0 and max to 1 |
| Hybrid.ScaleMonotone | ml/inference/hybrid.py:85 | scaling keeps order |
| Hybrid.MinMaxAllEqual | ml/inference/hybrid.py:83-84 | all-equal values give all 1.0 |
| Hybrid.MinMaxSpread | ml/inference/hybrid.py:81-85 | otherwise every output is in `[0, 1]`, the minimum maps to 0 and the maximum to 1 |
| Hybrid.MinMaxMonotone | ml/inference/hybrid.py:85 | `a <= b` implies `norm(a) <= norm(b)` |
| Hybrid.MinMaxAsWritten | ml/inference/hybrid.py:76-85 | `_min_max` with IEEE `-inf`: one output per input |
| Hybrid.MinMaxAsWrittenYieldsNaN | ml/inference/hybrid.py:81-85 | a `-inf` candidate beside a finite one makes every output NaN |
| Hybrid.MinMaxAsWrittenExample | ml/inference/hybrid.py:81-85 | `[-inf, 3.5]` normalises to `[NaN, NaN]` |
| Hybrid.FiniteValues | ml/inference/hybrid.py:81-82 | exactly the finite scores, none invented |
| Hybrid.MinMaxScores | ml/inference/hybrid.py:76-85 | definition of the corrected normalisation, one output per input; its properties are the three lemmas below |
| Hybrid.MinMaxScoresBounds | ml/inference/hybrid.py:76-85 | the corrected normalisation lies in `[0, 1]` for any input |
| Hybrid.MinMaxScoresMonotone | ml/inference/hybrid.py:85 | the corrected normalisation keeps order, `-inf` lowest |
| Hybrid.MinMaxScoresAgrees | ml/inference/hybrid.py:76-85 | on finite inputs the corrected normalisation equals `_min_max` |
| Hybrid.Rescale | ml/inference/hybrid.py:55 | `(c + 1) / 2` maps `[-1, 1]` into `[0, 1]` |
| Hybrid.RescaleMonotone | ml/inference/hybrid.py:55 | the rescaling keeps order |
| Hybrid.BlendBounds | ml/inference/hybrid.py:57-60 | with non-negative weights and inputs in `[0, 1]`, the blend is in `[0, cf_weight + content_weight]` |
| Hybrid.WeightBounds | ml/inference/hybrid.py:58-59 | a non-negative weight times a value in `[0, 1]` is in `[0, weight]` |
| Hybrid.Lift | ml/inference/hybrid.py:62 | definition: every final score as a finite score, position by position |
| Hybrid.PrefixLength | ml/inference/hybrid.py:62 | definition: `len(s[:n])` for a list of length `len` under Python slicing, never more than `len` |
| Hybrid.BlendOrder | ml/inference/hybrid.py:62 | `len(final[:n])` distinct candidate positions (Python slicing, negative `n` included), in non-increasing final score, each scoring at least as high as every position left out |
| Hybrid.BlendOrderTop | ml/inference/hybrid.py:62 | a Python prefix of the full descending argsort has `len(final[:n])` entries and is a top selection of that size: distinct, non-increasing, none below a position left out |
| Hybrid.ParseIds | ml/inference/hybrid.py:41 | succeeds iff every label is an integer, parsing each in place |
| Hybrid.Blend | ml/inference/hybrid.py:57-60 | definition: entry `k` is `cf_weight * cf_norm[k] + content_weight * content_scaled[k]`; its bound is `BlendInRange` |
| Hybrid.BlendInRange | ml/inference/hybrid.py:57-60 | every blended score lies in `[0, cf_weight + content_weight]` |
| Hybrid.HybridRecommender.ScoreItems | ml/inference/hybrid.py:36 | one score per item |
| Hybrid.HybridRecommender.Labels | ml/inference/hybrid.py:41 | definition: `index_item[idx]` for each index |
| Hybrid.HybridRecommender.BuildProfile | ml/inference/hybrid.py:66-74 | no profile for an unknown user or one without rated items; for a user with rated items, `int()`'s error iff one of their labels is not an integer, otherwise `profile_from_movie_ids` of the parsed ids; a profile is `dim` wide |
| Hybrid.HybridRecommender.FormattedResults | ml/inference/hybrid.py:87-102 | one entry per index |
| Hybrid.HybridRecommender.FormatResults | ml/inference/hybrid.py:93-102 | entry `k` has `index_item[indices[k]]`, `cf_scores[indices[k]]`, and `hybrid_scores[k]` when given |
| Hybrid.HybridRecommender.ContentScaled | ml/inference/hybrid.py:51-55 | definition: a candidate missing from the content map gets 0.0 before the `(c + 1) / 2` rescaling |
| Hybrid.HybridRecommender.FinalScores | ml/inference/hybrid.py:56-60 | one final score per candidate, blending the corrected `MinMaxScores` rather than `_min_max` as written (see "## Left out" and "## Findings") |
| Hybrid.HybridRecommender.FinalScoresBounds | ml/inference/hybrid.py:51-60 | with non-negative weights and cosine similarities, every final score of the corrected blend is in `[0, cf_weight + content_weight]` |
| Hybrid.HybridRecommender.Recommendation | ml/inference/hybrid.py:36-38 | an empty score vector gives `[]`; the other results are stated by `FallbackIsCfOrder` and `BlendedPath` |
| Hybrid.HybridRecommender.FromCandidates | ml/inference/hybrid.py:40-64 | an error iff a candidate label is not an integer or the profile raises; without a profile the formatted CF candidates; never more entries than candidates |
| Hybrid.HybridRecommender.Blended | ml/inference/hybrid.py:62-64 | `len(final[:n])` entries, each carrying a `hybrid_score` |
| Hybrid.HybridRecommender.FormattedResultsEntries | ml/inference/hybrid.py:93-101 | without hybrid scores, entry `k` is candidate `k` with its CF score |
| Hybrid.HybridRecommender.FromCandidatesFallback | ml/inference/hybrid.py:43-49 | no profile, or no candidate with content, gives the formatted CF candidates |
| Hybrid.HybridRecommender.FallbackIsCfOrder | ml/inference/hybrid.py:40-49 | the fallback lists the top `candidate_k` items by CF score, in order, with `cf_score` and no `hybrid_score` |
| Hybrid.HybridRecommender.BlendedIsOrdered | ml/inference/hybrid.py:62-64 | `len(final[:n])` entries; entry `k` is candidate `order[k]` with its id, `cf_score` and final score, where `order` lists distinct candidates in non-increasing final score, each at least as high as every candidate left out |
| Hybrid.HybridRecommender.BlendedPath | ml/inference/hybrid.py:40-64 | with a profile and content for some candidate, the result is the blend of the top `min(candidate_k, #items)` CF candidates, `len(final[:n])` entries long, in non-increasing `hybrid_score` |
| Server.ChooseProfile | server/app/main.py:509-517 | 404 iff both profiles are missing; the one that exists when only one does; the normalised elementwise sum of both otherwise |
| Server.MissingIds | server/app/main.py:489 | exactly the requested ids not mapped, from the request |
| Server.MissingIdsPartition | server/app/main.py:489 | missing and mapped ids partition the request, repeats counted; the missing list keeps request order |
| Server.RatingOrZero | server/app/main.py:444 | `float(row.get("rating", 0))`: an absent rating reads as 0 |
| Server.AtLeast | server/app/main.py:444 | definition: the filter condition `rating(row) >= min_rating`, read through `RatingOrZero` |
| Server.LikedMovies | server/app/main.py:444-445 | a prefix of the rows rated at least `min_rating`, each rated at least `min_rating`, of exactly the length `filtered[:limit]` has: `min(limit, #qualifying)` for `limit >= 0`, `#qualifying + limit` floored at 0 otherwise |
| Server.LikedMoviesAll | server/app/main.py:444-445 | when no more than `limit` rows qualify, every qualifying row is returned |
| Server.CandidateCount | server/app/main.py:591-594 | `max(n, candidate_k)`: at least both, and one of them |
| Server.CfScoreFor | server/app/main.py:603-611 | the item mean of a known item, the global mean otherwise |
| Server.SeedRow | server/app/main.py:622-630 | `hybrid_score = 0.7 * cf_scaled + 0.3 * content_score`, `-inf` staying `-inf` |
| Server.SeedRows | server/app/main.py:620-630 | definition: one row per content result, in content order |
| Server.CfScores | server/app/main.py:601-611 | one CF score per content result |
| Server.CollectCfScores | server/app/main.py:602-611 | the appending loop computes `CfScores` |
| Server.BlendRows | server/app/main.py:620-630 | the appending loop computes `SeedRows` |
| Server.SeedHybrid | server/app/main.py:591-633 | the block returns `SeedHybridResults`, whose ranking `SeedHybridResultsRanked` states: candidates asked for with `max(n, candidate_k)`, `[]` for no content results, normalised CF, blend, stable sort, cut to `n` |
| Server.RankSeedRows | server/app/main.py:632-633 | for `n >= 0`, `min(n, len)` rows, and never a row that is not among the rows (as multisets) |
| Server.SeedHybridResults | server/app/main.py:591-633 | an error iff the content recommender raises; otherwise no more results than content results, and at most `n` for `n >= 0`; the ranking is `SeedHybridResultsRanked` |
| Server.SeedHybridResultsRanked | server/app/main.py:598-633 | `[]` when there are no content results; otherwise the blended rows sorted stably by `hybrid_score` descending and cut to `n`: `RankSeedRows` of them, a prefix of their stable sort, non-increasing, each one of the rows, exactly `min(n, len(content_results))` of them for `n >= 0` |
| Server.RankSeedRowsOrdered | server/app/main.py:632-633 | the ranking is a prefix of a permutation of the rows, non-increasing in `hybrid_score`, ties in content order, of length `min(n, len)` |
| Server.RankSeedRowsFrom | server/app/main.py:632-633 | every ranked row is one of the rows |
| Server.RowsScoredRanked | server/app/main.py:632-633 | sorting and truncating keep each row's scores |
| Server.SeedRowsScored | server/app/main.py:603-630 | each row carries its movie's CF score, and a hybrid score in `[0, 1]` for a content score in `[0, 1]` |
| Server.SeedResultsScores | server/app/main.py:591-633 | the same holds for every returned result |
| Server.PosterFrom | server/app/main.py:168-178 | a URL iff the details call succeeded with a non-empty poster path; the URL is the image base plus the path |
| Server.PosterCache.PosterUrlFor | server/app/main.py:163-179 | a cached id returns its value, cache unchanged; no client caches nothing; otherwise the lookup's result is cached and returned |
| IngestTmdb.ParseTitleYear | ml/ingest_tmdb.py:22-26 | the title is stripped; a year is four digits; without a year the title is `raw.strip()` |
| IngestTmdb.ParseTitleYearSound | ml/ingest_tmdb.py:19-26 | a year is found only where the expression matches, and the title is the strip of the title group |
| IngestTmdb.ParseTitleYearComplete | ml/ingest_tmdb.py:19-26 | wherever the expression matches, that year and that title are returned |
| IngestTmdb.ParseTitleYearRoundTrip | ml/ingest_tmdb.py:19-26 | a one-line non-blank title plus ` (yyyy)` parses to `(title.strip(), yyyy)` |
| IngestTmdb.ParseTitleYearLastYearWins | ml/ingest_tmdb.py:19 | with two trailing years only the last is split off, the first staying in the title |
| IngestTmdb.MovieOf | ml/ingest_tmdb.py:36-39 | the yielded movie has the parsed id and a stripped title |
| IngestTmdb.IdText | ml/ingest_tmdb.py:33 | definition: `(row.get("movieId") or row.get("movie_id") or "").strip()` |
| IngestTmdb.TitleText | ml/ingest_tmdb.py:34 | definition: `(row.get("title") or "").strip()` |
| IngestTmdb.Skipped | ml/ingest_tmdb.py:35 | definition: a row is skipped when its id or its title text is empty |
| IngestTmdb.Classify | ml/ingest_tmdb.py:33-39 | a row without id or title is skipped; otherwise an id that is not an integer raises, and a valid one yields its movie |
| IngestTmdb.Gather | ml/ingest_tmdb.py:29-39 | definition of the generator over row outcomes: never more movies than rows |
| IngestTmdb.IterMovies | ml/ingest_tmdb.py:29-39 | at most one movie per row |
| IngestTmdb.IterMoviesAppend | ml/ingest_tmdb.py:29-39 | rows are processed in order; a bad id ends the iteration |
| IngestTmdb.IterMoviesOne | ml/ingest_tmdb.py:33-39 | a skipped row yields nothing; any other yields its movie or ends the iteration |
| IngestTmdb.IterMoviesFrom | ml/ingest_tmdb.py:33-39 | every yielded movie comes from a non-skipped row with that id and split title |
| IngestTmdb.BuildContentText | ml/ingest_tmdb.py:42-51 | the text has no surrounding whitespace and no capital letter |
| IngestTmdb.ContentText | ml/ingest_tmdb.py:111 | a mapping keeps its fetched bundle; the content text it writes is trimmed and has no capital letter |
| IngestTmdb.ContentTextOfTrimmedParts | ml/ingest_tmdb.py:43-51 | with trimmed parts, the text is the lower-case non-empty parts in order, joined by single spaces |
| IngestTmdb.ContentTextOfTitleOnly | ml/ingest_tmdb.py:43-51 | empty parts leave no trace: a title-only bundle gives the stripped lower-case title |
| IngestTmdb.JoinTrimmed | ml/ingest_tmdb.py:50 | trimmed non-empty parts join into a trimmed, non-empty text |
| IngestTmdb.Escape | ml/ingest_tmdb.py:55 | definition: every `"` doubled, never shorter; read back by `ReadQuotedEscape` |
| IngestTmdb.Quoted | ml/ingest_tmdb.py:55 | the escaped text between two `"` |
| IngestTmdb.FailureLine | ml/ingest_tmdb.py:54-55 | the line is non-empty and ends in a newline |
| IngestTmdb.ReadQuotedEscape | ml/ingest_tmdb.py:55 | a field with every `"` doubled reads back as its text (RFC 4180, section 2, rule 7) |
| IngestTmdb.FailureLineRoundTrip | ml/ingest_tmdb.py:54-55 | the four columns read back as id, title, year (empty for `None`) and reason |
| IngestTmdb.StepOf | ml/ingest_tmdb.py:80-123 | cause by cause: an already-mapped MovieLens id or TMDB id passes; a search exception gives `request_error: ` plus its message; `no_results` iff the results are empty; `missing_tmdb_id` iff the first id is missing or 0; a fetch exception gives `request_error: ` plus its message; a mapping iff the first id is usable and new and the fetch succeeds, justified by the two calls |
| IngestTmdb.SearchOf | ml/ingest_tmdb.py:84 | definition: `client.search_movie(title=title, year=year)` |
| IngestTmdb.FirstId | ml/ingest_tmdb.py:96-97 | definition: `results[0].get("id")` when it passes `if not tmdb_id` |
| IngestTmdb.MissingId | ml/ingest_tmdb.py:96-97 | definition: a first result whose id is missing or 0 |
| IngestTmdb.RequestError | ml/ingest_tmdb.py:122 | the reason is `request_error: ` followed by exactly the exception's message |
| IngestTmdb.IngestOne | ml/ingest_tmdb.py:80-123 | the loop body with its early `continue`s computes `StepOf` |
| IngestTmdb.IngestStep | ml/ingest_tmdb.py:80-169 | a pass changes nothing; a failure appends `Failure(movie, reason)` and counts a request error; a mapping appends it and marks its TMDB id; `added` iff a mapping was made |
| IngestTmdb.Apply | ml/ingest_tmdb.py:86-169 | definition: one step's effect on the loop state, stated case by case by `IngestStep` |
| IngestTmdb.LimitReached | ml/ingest_tmdb.py:172 | definition: `if limit and count >= limit`; a limit of `None` or 0 never stops the loop |
| IngestTmdb.IngestRun | ml/ingest_tmdb.py:79-171 | definition: the loop as a fold of `StepOf` and `Apply` over the movies, ending after the mapping that reaches `limit`; it consumes at most every movie |
| IngestTmdb.IngestRunStep | ml/ingest_tmdb.py:79-171 | the fold consumes its first movie with one step and stops iff that step's mapping reaches the limit |
| IngestTmdb.RunFromStep | ml/ingest_tmdb.py:79-171 | consuming movie `p` moves the fold on to movie `p + 1`, or ends it at the limit |
| IngestTmdb.AccountedInit | ml/ingest_tmdb.py:79 | before the loop nothing is written and nothing is owed |
| IngestTmdb.LoggedMore | ml/ingest_tmdb.py:79-169 | later failures and mappings never undo a movie's trace |
| IngestTmdb.LoggedNew | ml/ingest_tmdb.py:80-169 | the movie a step consumes is logged by cause or mapped |
| IngestTmdb.LoggedStep | ml/ingest_tmdb.py:80-169 | after one step every consumed movie, the new one included, is logged by cause or mapped |
| IngestTmdb.AccountedStep | ml/ingest_tmdb.py:80-169 | one step keeps every mapping justified and fresh, every failure from an unmapped consumed movie, `errors` the number of request errors, and every consumed movie logged by cause |
| IngestTmdb.IngestRunAccounted | ml/ingest_tmdb.py:79-171 | everything the fold writes is accounted for by the movies it consumes |
| IngestTmdb.Ingest | ml/ingest_tmdb.py:79-174 | the loop's outputs and consumed count are the fold `IngestRun` of the per-movie steps from an empty state; it stops early only when `limit` is reached and never maps more than a positive `limit`; every consumed movie not already mapped is logged with the reason of its cause or has its TMDB id mapped; every mapping is justified and fresh, every failure from a consumed unmapped movie, `errors` the number of request errors |
| TmdbClient.SearchParams | ml/tmdb_client.py:49-54 | `query` always; `year` iff a non-empty year is given |
| TmdbClient.Names | ml/tmdb_client.py:78 | no more names than elements, none empty |
| TmdbClient.NamesMember | ml/tmdb_client.py:78 | a name is listed iff it is non-empty and some element has it |
| TmdbClient.NamesAppend | ml/tmdb_client.py:78 | names keep the element order |
| TmdbClient.ListOrEmpty | ml/tmdb_client.py:78-79 | a missing list reads as `[]`, a present one as itself, and a `null` one cannot be iterated |
| TmdbClient.ListOrNone | ml/tmdb_client.py:83-89 | a present list is itself; missing and `null` both read as `[]` |
| TmdbClient.FirstDirector | ml/tmdb_client.py:82-86 | `None` without a director; otherwise the name of the first crew member whose job is "Director" |
| TmdbClient.FindDirector | ml/tmdb_client.py:82-86 | the scanning loop with its `break` finds `FirstDirector` |
| TmdbClient.CollectKeywords | ml/tmdb_client.py:88-92 | the appending loop collects the non-empty keyword names, in order |
| TmdbClient.BundleOf | ml/tmdb_client.py:78-102 | an error iff the genre or cast list is `null`; otherwise title, release date and overview are copied |
| TmdbClient.FetchMovieBundle | ml/tmdb_client.py:78-102 | the method builds `BundleOf` |
| TmdbClient.BundleLists | ml/tmdb_client.py:78-92 | genres and keywords are exactly the non-empty names in their original order, duplicates kept (so a name is listed iff present and non-empty); cast is the prefix of the non-empty cast names of length `min(cast_limit, #names)` for `cast_limit >= 0`; director is the first director |

## Left out

- The SVD (`np.linalg.svd`) is the input function `svd`, and sklearn's
  `normalize` is the input `normalize`. The model does not check their
  numerics.
- Floating point is not modelled. `float32` storage, casts and rounding are
  out; scores, means and weights are exact reals. NaN appears only in
  `Hybrid.MinMaxAsWritten`.
- Persistence is not modelled: CSV file reading, pickle and npz loading and
  writing, database upserts, and the failure log file handle.
  `LoadRatingsCsv` takes the file's existence, its header and its records as
  inputs.
- Everything in `ingest` beyond its bookkeeping is left out:
  - the sleeps and prints, including the progress print every ten errors;
  - the database session;
  - exceptions other than request errors from the fetch.

  The failure log is always recorded, whether or not a log file is open.
- The TMDB HTTP calls are inputs: `search` and `fetch` for ingestion, and the
  decoded JSON bodies for the client. The client's session, retries and `_get`
  are not modelled.
- The `movie_details` call of the poster cache is the input `details`.
- `server/app/main.py` is modelled only in the blocks named above. The routes,
  authentication and SQL queries are out. So are building text profiles from
  fetched bundles (`profile_from_texts` uses TF-IDF) and the
  `SEED_HYBRID_CANDIDATE_K` environment variable, which is a parameter.
- Tie order among equal scores after `argpartition` and `argsort` is
  unspecified in numpy. The model breaks ties by position, and no contract
  relies on it.
- `ParseInt` accepts an optional sign followed by ASCII digits, after
  stripping. Python's `int()` also accepts Unicode digits and `_` separators.
  `Lower` folds ASCII letters only, and the year pattern `\d` is read as the
  ASCII digits.
- Hybrid.HybridRecommender.FinalScores: it normalises the CF candidate scores
  with the corrected `MinMaxScores`, not with `_min_max` as written. So
  `FinalScores`, `FinalScoresBounds`, `FromCandidates`, `Blended` and
  `Recommendation` depart from ml/inference/hybrid.py:56-60 exactly when a
  `-inf` CF candidate sits beside a finite one. There the source's final
  scores are all NaN (see "## Findings"); on finite candidates the two agree
  (`MinMaxScoresAgrees`).
- Hybrid.HybridRecommender.Recommendation: its own contract states only the
  empty case. `FallbackIsCfOrder` states the fallback result, and
  `BlendedPath` with `BlendedIsOrdered` states the blended result.
- IngestTmdb.Ingest: a negative `limit` stops after the first mapping, as
  `count >= limit` does in the source. The contract bounds the count by 1
  there.
- `get_user_ratings`, imported by `server/app/main.py`, is not part of this
  model. `ml/training/io.py` does not define it.

## Findings

| source | as written | input that shows it | evidently intended | confidence | as-written member | corrected member |
|---|---|---|---|---|---|---|
| ml/inference/hybrid.py:76-85 | `_min_max(scores[candidate_idx])` subtracts the minimum, which is `-inf` whenever an excluded rated item is among the CF candidates. `x - (-inf)` is `inf` and `inf / inf` is NaN, so every normalised CF score, and so every final score, is NaN | CF candidate scores `[-inf, 3.5]`, which occur when a user with `exclude_rated` has fewer unrated items than `candidate_k` | finite scores normalised among themselves into `[0, 1]`, and an excluded item at 0 | not executed | Hybrid.MinMaxAsWritten (Hybrid.MinMaxAsWrittenYieldsNaN, Hybrid.MinMaxAsWrittenExample) | Hybrid.MinMaxScores (Hybrid.MinMaxScoresBounds, Hybrid.MinMaxScoresMonotone, Hybrid.MinMaxScoresAgrees) |
