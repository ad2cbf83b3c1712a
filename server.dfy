/** The recommendation logic inside the web server (`server/app/main.py`): the
    seed-hybrid scoring block, the choice of content profile, the missing-id
    list, the liked-movies filter and the poster URL memo cache. */
module Server {
  import opened Common
  import opened Seqs
  import opened Ranking
  import opened CfRecommender
  import opened Content
  import opened Hybrid

  /** An `HTTPException`: status code and detail text. */
  datatype HttpError = HttpError(status: int, detail: string)

  // ---------------------------------------------------------------------------
  // Profile choice and missing ids

  /** The profile the seed endpoints use: 404 when neither the mapped-movie
      profile nor the text profile exists, the one that exists when only one
      does, and the normalised elementwise sum of both otherwise. */
  function ChooseProfile(mapped: Option<seq<real>>, text: Option<seq<real>>, normalize: seq<real> -> seq<real>)
    : (r: Result<seq<real>, HttpError>)
    requires mapped.Some? && text.Some? ==> |mapped.value| == |text.value|
    ensures r.Err? <==> mapped.None? && text.None?
    ensures r.Err? ==> r.error == HttpError(404, "No content profile available")
    ensures mapped.Some? != text.Some? ==> r == Ok(if mapped.Some? then mapped.value else text.value)
    ensures mapped.Some? && text.Some? ==> r.Ok? && exists sum :: (
      r.value == normalize(sum) && |sum| == |mapped.value| &&
      forall j :: 0 <= j < |sum| ==> sum[j] == mapped.value[j] + text.value[j])
  {
    if mapped.None? && text.None? then Err(HttpError(404, "No content profile available"))
    else if mapped.None? then Ok(text.value)
    else if text.None? then Ok(mapped.value)
    else
      var sum := seq(|mapped.value|, j requires 0 <= j < |mapped.value| => mapped.value[j] + text.value[j]);
      Ok(normalize(sum))
  }

  /** `mid not in mapped`. */
  function Unmapped(mapped: set<int>): int -> bool
  {
    (x: int) => x !in mapped
  }

  /** `[mid for mid in tmdb_ids if mid not in mapped_tmdb_ids]`. */
  function MissingIds(requested: seq<int>, mapped: set<int>): (r: seq<int>)
    ensures forall k :: 0 <= k < |r| ==> r[k] in requested && r[k] !in mapped
    ensures forall k :: 0 <= k < |requested| && requested[k] !in mapped ==> requested[k] in r
  {
    Filter(requested, Unmapped(mapped))
  }

  /** The requested ids split into the mapped ones and the missing ones, with
      repeats counted on both sides; the missing list keeps request order. */
  lemma MissingIdsPartition(requested: seq<int>, mapped: set<int>, more: seq<int>)
    ensures |MissingIds(requested, mapped)| + |Filter(requested, Not(Unmapped(mapped)))| == |requested|
    ensures MissingIds(requested + more, mapped) == MissingIds(requested, mapped) + MissingIds(more, mapped)
  {
    FilterSplit(requested, Unmapped(mapped));
    FilterAppend(requested, more, Unmapped(mapped));
  }

  // ---------------------------------------------------------------------------
  // Liked movies

  /** `float(row.get("rating", 0))`: an absent rating counts as 0. */
  function RatingOrZero(rating: Option<real>): (r: real)
    ensures rating.None? ==> r == 0.0
    ensures rating.Some? ==> r == rating.value
  {
    if rating.Some? then rating.value else 0.0
  }

  /** `rating(row) >= min_rating` as a filter condition. */
  function AtLeast<T>(rating: T -> Option<real>, minRating: real): T -> bool
  {
    (row: T) => RatingOrZero(rating(row)) >= minRating
  }

  /** `[row for row in rows if rating(row) >= min_rating][:limit]`. */
  function LikedMovies<T>(rows: seq<T>, rating: T -> Option<real>, minRating: real, limit: int): (r: seq<T>)
    ensures r <= Filter(rows, AtLeast(rating, minRating))
    ensures forall k :: 0 <= k < |r| ==> r[k] in rows && RatingOrZero(rating(r[k])) >= minRating
    ensures limit >= 0 ==> |r| <= limit
    ensures var q := |Filter(rows, AtLeast(rating, minRating))|;
      limit >= 0 ==> |r| == if limit < q then limit else q
    ensures var q := |Filter(rows, AtLeast(rating, minRating))|;
      limit < 0 ==> |r| == if q + limit > 0 then q + limit else 0
  {
    PyPrefix(Filter(rows, AtLeast(rating, minRating)), limit)
  }

  /** When no more than `limit` rows qualify, every qualifying row is returned. */
  lemma LikedMoviesAll<T>(rows: seq<T>, rating: T -> Option<real>, minRating: real, limit: int)
    requires |Filter(rows, AtLeast(rating, minRating))| <= limit
    ensures forall k :: 0 <= k < |rows| && RatingOrZero(rating(rows[k])) >= minRating ==>
      rows[k] in LikedMovies(rows, rating, minRating, limit)
  {
    assert LikedMovies(rows, rating, minRating, limit) == Filter(rows, AtLeast(rating, minRating));
    forall k | 0 <= k < |rows| && RatingOrZero(rating(rows[k])) >= minRating
      ensures rows[k] in LikedMovies(rows, rating, minRating, limit)
    {
      assert AtLeast(rating, minRating)(rows[k]);
    }
  }

  // ---------------------------------------------------------------------------
  // Seed-hybrid scoring

  /** One seed-hybrid result: content score, CF score and hybrid score. */
  datatype SeedResult = SeedResult(movieId: string, contentScore: Score, cfScore: real, hybridScore: Score)

  /** The candidate count the content recommender is asked for. */
  function CandidateCount(n: int, candidateK: int): (r: int)
    ensures r >= n && r >= candidateK && (r == n || r == candidateK)
  {
    if n >= candidateK then n else candidateK
  }

  /** The CF score of a content result: the item mean when the id is a known
      item with a mean (`item_means[idx]`), the global mean otherwise (the
      `IndexError` of an out-of-range index is caught the same way). */
  function CfScoreFor(cf: CFRecommender, movieId: string): (r: real)
    ensures movieId !in cf.itemIndex ==> r == cf.globalMean
    ensures movieId in cf.itemIndex && cf.itemIndex[movieId] < |cf.itemMeans| ==> r == cf.itemMeans[cf.itemIndex[movieId]]
    ensures movieId in cf.itemIndex && cf.itemIndex[movieId] >= |cf.itemMeans| ==> r == cf.globalMean
  {
    if movieId in cf.itemIndex && cf.itemIndex[movieId] < |cf.itemMeans| then cf.itemMeans[cf.itemIndex[movieId]]
    else cf.globalMean
  }

  /** `0.7 * cf_scaled + 0.3 * content_score`; a `-inf` content score stays `-inf`. */
  function SeedRow(entry: ContentEntry, cfScore: real, cfScaled: real): (r: SeedResult)
    ensures r.movieId == entry.movieId && r.contentScore == entry.contentScore && r.cfScore == cfScore
    ensures r.hybridScore.NegInf? <==> entry.contentScore.NegInf?
    ensures entry.contentScore.Finite? ==> r.hybridScore.v == 0.7 * cfScaled + 0.3 * entry.contentScore.v
  {
    SeedResult(entry.movieId, entry.contentScore, cfScore, Affine(0.3, entry.contentScore, 0.7 * cfScaled))
  }

  /** The unsorted results: one row per content result, in content order. */
  function SeedRows(entries: seq<ContentEntry>, cfScores: seq<real>, cfNorm: seq<real>): (r: seq<SeedResult>)
    requires |cfScores| == |entries| && |cfNorm| == |entries|
    ensures |r| == |entries|
    ensures forall k :: 0 <= k < |entries| ==> r[k] == SeedRow(entries[k], cfScores[k], cfNorm[k])
  {
    seq(|entries|, k requires 0 <= k < |entries| => SeedRow(entries[k], cfScores[k], cfNorm[k]))
  }

  function CfScores(cf: CFRecommender, entries: seq<ContentEntry>): (r: seq<real>)
    ensures |r| == |entries| && forall k :: 0 <= k < |entries| ==> r[k] == CfScoreFor(cf, entries[k].movieId)
  {
    seq(|entries|, k requires 0 <= k < |entries| => CfScoreFor(cf, entries[k].movieId))
  }

  function HybridKey(r: SeedResult): Score
  {
    r.hybridScore
  }

  /** The results ranked: a stable sort by `hybrid_score` descending, cut to `n`. */
  function RankSeedRows(rows: seq<SeedResult>, n: int): (r: seq<SeedResult>)
    ensures n >= 0 ==> |r| == if n < |rows| then n else |rows|
    ensures |r| <= |rows| && multiset(r) <= multiset(rows)
  {
    var sorted := SortBy(rows, HybridKey);
    assert |sorted| == |multiset(sorted)| == |multiset(rows)| == |rows|;
    assert sorted == PyPrefix(sorted, n) + sorted[|PyPrefix(sorted, n)|..];
    PyPrefix(sorted, n)
  }

  datatype SeedError = ContentError | Http(e: HttpError)

  /** What the seed-hybrid block returns for a chosen profile; `ContentError`
      is the `ValueError` the content recommender raises on an empty matrix. */
  function SeedHybridResults(content: ContentRecommender, cf: CFRecommender, profile: seq<real>, n: int,
                             candidateK: int, exclude: seq<int>): (r: Result<seq<SeedResult>, SeedError>)
    requires content.Valid() && |profile| == content.dim
    ensures r.Err? <==> content.RecommendationFromProfile(profile, CandidateCount(n, candidateK), exclude).None?
    ensures r.Ok? && n >= 0 ==> |r.value| <= n
    ensures r.Ok? ==> |r.value| <= |content.RecommendationFromProfile(profile, CandidateCount(n, candidateK), exclude).value|
  {
    match content.RecommendationFromProfile(profile, CandidateCount(n, candidateK), exclude)
    case None => Err(ContentError)
    case Some(entries) =>
      if entries == [] then Ok([])
      else
        var cfScores := CfScores(cf, entries);
        Ok(RankSeedRows(SeedRows(entries, cfScores, MinMax(cfScores)), n))
  }

  /** The seed-hybrid results for a chosen profile: `[]` when the content
      recommender finds nothing; otherwise the blended rows ranked by
      `RankSeedRows` (so `RankSeedRowsOrdered` describes them), in
      non-increasing hybrid order, exactly `min(n, len(content_results))` of
      them for `n >= 0`, each one of the blended rows. */
  lemma SeedHybridResultsRanked(content: ContentRecommender, cf: CFRecommender, profile: seq<real>, n: int,
                                candidateK: int, exclude: seq<int>)
    requires content.Valid() && |profile| == content.dim
    ensures var rec := content.RecommendationFromProfile(profile, CandidateCount(n, candidateK), exclude);
      var r := SeedHybridResults(content, cf, profile, n, candidateK, exclude);
      && (rec == Some([]) ==> r == Ok([]))
      && (r.Ok? ==> NonIncreasing(r.value, HybridKey))
      && (r.Ok? && n >= 0 ==> |r.value| == if n < |rec.value| then n else |rec.value|)
      && (r.Ok? && rec.value != [] ==>
            var rows := SeedRows(rec.value, CfScores(cf, rec.value), MinMax(CfScores(cf, rec.value)));
            && r.value == RankSeedRows(rows, n)
            && r.value <= SortBy(rows, HybridKey)
            && multiset(r.value) <= multiset(rows))
  {
    var rec := content.RecommendationFromProfile(profile, CandidateCount(n, candidateK), exclude);
    if rec.Some? && rec.value != [] {
      var rows := SeedRows(rec.value, CfScores(cf, rec.value), MinMax(CfScores(cf, rec.value)));
      RankSeedRowsOrdered(rows, n, NegInf);
    }
  }

  /** The loop that appends each content result's CF score. */
  method CollectCfScores(cf: CFRecommender, entries: seq<ContentEntry>) returns (cfScores: seq<real>)
    ensures cfScores == CfScores(cf, entries)
  {
    cfScores := [];
    for k := 0 to |entries|
      invariant |cfScores| == k && forall j :: 0 <= j < k ==> cfScores[j] == CfScoreFor(cf, entries[j].movieId)
    {
      var movieId := entries[k].movieId;
      if movieId !in cf.itemIndex {
        cfScores := cfScores + [cf.globalMean];
      } else if cf.itemIndex[movieId] < |cf.itemMeans| {
        cfScores := cfScores + [cf.itemMeans[cf.itemIndex[movieId]]];
      } else {
        cfScores := cfScores + [cf.globalMean];
      }
    }
  }

  /** The loop that appends one blended result per content result. */
  method BlendRows(entries: seq<ContentEntry>, cfScores: seq<real>, cfNorm: seq<real>) returns (results: seq<SeedResult>)
    requires |cfScores| == |entries| && |cfNorm| == |entries|
    ensures results == SeedRows(entries, cfScores, cfNorm)
  {
    results := [];
    for k := 0 to |entries|
      invariant |results| == k && forall j :: 0 <= j < k ==> results[j] == SeedRow(entries[j], cfScores[j], cfNorm[j])
    {
      var hybridScore := Affine(0.3, entries[k].contentScore, 0.7 * cfNorm[k]);
      results := results + [SeedResult(entries[k].movieId, entries[k].contentScore, cfScores[k], hybridScore)];
    }
  }

  /** The seed-hybrid block: content candidates, the CF scores, min-max
      normalisation, the blended rows, an in-place stable sort and the
      truncation to `n`. */
  method SeedHybrid(content: ContentRecommender, cf: CFRecommender, profile: seq<real>, n: int,
                    candidateK: int, exclude: seq<int>) returns (r: Result<seq<SeedResult>, SeedError>)
    requires content.Valid() && |profile| == content.dim
    ensures r == SeedHybridResults(content, cf, profile, n, candidateK, exclude)
  {
    var contentResults := content.RecommendFromProfile(profile, CandidateCount(n, candidateK), exclude);
    if contentResults.None? {
      return Err(ContentError);
    }
    var entries := contentResults.value;
    if entries == [] {
      return Ok([]);
    }
    var cfScores := CollectCfScores(cf, entries);
    var cfNorm := MinMax(cfScores);
    var results := BlendRows(entries, cfScores, cfNorm);
    results := SortBy(results, HybridKey);
    results := PyPrefix(results, n);
    return Ok(results);
  }

  /** The ranked results are a prefix of a stable descending sort of the rows:
      at most `n` of them (for `n >= 0`), in non-increasing hybrid order, with
      the sort a permutation of the rows that keeps rows of equal hybrid score
      in their content order. */
  lemma RankSeedRowsOrdered(rows: seq<SeedResult>, n: int, v: Score)
    ensures var r := RankSeedRows(rows, n);
      && r <= SortBy(rows, HybridKey)
      && (n >= 0 ==> |r| == if n < |rows| then n else |rows|)
      && NonIncreasing(r, HybridKey)
      && multiset(SortBy(rows, HybridKey)) == multiset(rows)
      && WithKey(SortBy(rows, HybridKey), HybridKey, v) == WithKey(rows, HybridKey, v)
  {
    var sorted := SortBy(rows, HybridKey);
    assert |sorted| == |multiset(sorted)| == |multiset(rows)| == |rows|;
    SortByOrdered(rows, HybridKey);
    SortByStable(rows, HybridKey, v);
    var r := RankSeedRows(rows, n);
    forall a, b | 0 <= a < b < |r| ensures Ge(HybridKey(r[a]), HybridKey(r[b])) {
      assert r[a] == sorted[a] && r[b] == sorted[b];
    }
  }

  /** Every ranked row is one of the rows. */
  lemma RankSeedRowsFrom(rows: seq<SeedResult>, n: int, k: int) returns (j: int)
    requires 0 <= k < |RankSeedRows(rows, n)|
    ensures 0 <= j < |rows| && rows[j] == RankSeedRows(rows, n)[k]
  {
    var sorted := SortBy(rows, HybridKey);
    assert RankSeedRows(rows, n)[k] == sorted[k];
    assert sorted[k] in multiset(sorted);
    assert sorted[k] in multiset(rows);
    j :| 0 <= j < |rows| && rows[j] == sorted[k];
  }

  /** The property of the unsorted rows that the ranking carries over. */
  ghost predicate RowsScored(cf: CFRecommender, rows: seq<SeedResult>)
  {
    forall k :: 0 <= k < |rows| ==>
      && rows[k].cfScore == CfScoreFor(cf, rows[k].movieId)
      && (rows[k].contentScore.Finite? && 0.0 <= rows[k].contentScore.v <= 1.0 ==> rows[k].hybridScore.Finite? && 0.0 <= rows[k].hybridScore.v <= 1.0)
  }

  lemma RowsScoredRanked(cf: CFRecommender, rows: seq<SeedResult>, n: int)
    requires RowsScored(cf, rows)
    ensures RowsScored(cf, RankSeedRows(rows, n))
  {
    var r := RankSeedRows(rows, n);
    forall k | 0 <= k < |r|
      ensures r[k].cfScore == CfScoreFor(cf, r[k].movieId)
      ensures r[k].contentScore.Finite? && 0.0 <= r[k].contentScore.v <= 1.0 ==> r[k].hybridScore.Finite? && 0.0 <= r[k].hybridScore.v <= 1.0
    {
      var j := RankSeedRowsFrom(rows, n, k);
    }
  }

  lemma SeedRowsScored(cf: CFRecommender, entries: seq<ContentEntry>)
    ensures var cfScores := CfScores(cf, entries);
      RowsScored(cf, SeedRows(entries, cfScores, MinMax(cfScores)))
  {
    var cfScores := CfScores(cf, entries);
    var cfNorm := MinMax(cfScores);
    var rows := SeedRows(entries, cfScores, cfNorm);
    if !AllEqual(cfScores) { MinMaxSpread(cfScores); } else { MinMaxAllEqual(cfScores); }
    forall k | 0 <= k < |rows|
      ensures rows[k].cfScore == CfScoreFor(cf, rows[k].movieId)
      ensures rows[k].contentScore.Finite? && 0.0 <= rows[k].contentScore.v <= 1.0 ==> rows[k].hybridScore.Finite? && 0.0 <= rows[k].hybridScore.v <= 1.0
    {
      if rows[k].contentScore.Finite? && 0.0 <= rows[k].contentScore.v <= 1.0 {
        BlendBounds(0.7, 0.3, cfNorm[k], entries[k].contentScore.v);
      }
    }
  }

  /** Every returned row carries its movie's CF score under the item-mean rule,
      and a hybrid score in `[0, 1]` when its content score is a similarity in
      `[0, 1]`. */
  lemma SeedResultsScores(content: ContentRecommender, cf: CFRecommender, profile: seq<real>, n: int,
                          candidateK: int, exclude: seq<int>)
    requires content.Valid() && |profile| == content.dim
    ensures var r := SeedHybridResults(content, cf, profile, n, candidateK, exclude);
      r.Ok? ==> RowsScored(cf, r.value)
  {
    var res := content.RecommendationFromProfile(profile, CandidateCount(n, candidateK), exclude);
    if res.Some? && res.value != [] {
      var cfScores := CfScores(cf, res.value);
      SeedRowsScored(cf, res.value);
      RowsScoredRanked(cf, SeedRows(res.value, cfScores, MinMax(cfScores)), n);
    }
  }

  // ---------------------------------------------------------------------------
  // Poster cache

  const PosterBase := "https://image.tmdb.org/t/p/w342"

  /** What one lookup caches, from the `movie_details` call: `None` when the
      call raised, otherwise the `poster_path` field (absent as `None`). */
  function PosterFrom(details: Option<Option<string>>): (r: Option<string>)
    ensures r.Some? <==> details.Some? && details.value.Some? && details.value.value != ""
    ensures r.Some? ==> r.value == PosterBase + details.value.value
  {
    match details
    case None => None
    case Some(path) => if path.None? || path.value == "" then None else Some(PosterBase + path.value)
  }

  /** The module-level `_POSTER_CACHE`. */
  class PosterCache {
    var cache: map<int, Option<string>>

    constructor ()
      ensures cache == map[]
    {
      cache := map[];
    }

    /** Every cached URL is the image base followed by a non-empty poster path. */
    ghost predicate Valid()
      reads this
    {
      forall id :: id in cache && cache[id].Some? ==> PosterBase < cache[id].value
    }

    /** `_poster_url_for_tmdb(tmdb_id)`. The TMDB client is abstracted: whether
        one is configured, and what `movie_details` would give if called. */
    method PosterUrlFor(tmdbId: int, hasClient: bool, details: Option<Option<string>>) returns (url: Option<string>)
      requires Valid()
      modifies this
      ensures Valid()
      ensures old(tmdbId in cache) ==> url == old(cache[tmdbId]) && cache == old(cache)
      ensures tmdbId !in old(cache) && !hasClient ==> url == None && cache == old(cache)
      ensures tmdbId !in old(cache) && hasClient ==> url == PosterFrom(details) && cache == old(cache)[tmdbId := url]
    {
      if tmdbId in cache {
        return cache[tmdbId];
      }
      if !hasClient {
        return None;
      }
      if details.None? {
        cache := cache[tmdbId := None];
        return None;
      }
      var posterPath := details.value;
      if posterPath.None? || posterPath.value == "" {
        cache := cache[tmdbId := None];
        return None;
      }
      url := Some(PosterBase + posterPath.value);
      cache := cache[tmdbId := url];
    }
  }
}
