/** The collaborative-filtering recommender (`ml/inference/recommender.py`):
    scores from the truncated factors plus the user mean, rated items pushed to
    `-inf`, a top-n selection, and a cold start by item mean. */
module CfRecommender {
  import opened Common
  import opened Seqs
  import opened Ranking
  import opened RatingsIo
  import opened TrainCf

  /** One result entry: `{"movie_id": ..., "score": ...}`. */
  datatype Entry = Entry(movieId: string, score: Score)

  /** `U[u] * S`: a user's factor row scaled by the singular values. */
  function UserVector(row: seq<real>, s: seq<real>): (r: seq<real>)
    requires |row| == |s|
    ensures |r| == |s| && forall k :: 0 <= k < |s| ==> r[k] == row[k] * s[k]
  {
    seq(|s|, k requires 0 <= k < |s| => row[k] * s[k])
  }

  /** `_top_indices(scores, n)`: `[]` for an empty vector; otherwise the top
      `min(n, size)` positions by `argpartition`, which raises `ValueError`
      (here `None`) when `min(n, size) - 1` is below `-size`. */
  function TopIndices(scores: seq<Score>, n: int): (r: Option<seq<nat>>)
    ensures scores == [] ==> r == Some([])
    ensures scores != [] ==> (r.Some? <==> n > -|scores|)
    ensures r.Some? && n > 0 ==> IsTopN(scores, r.value, if n < |scores| then n else |scores|)
  {
    if scores == [] then Some([])
    else ArgPartitionTop(scores, if n < |scores| then n else |scores|)
  }

  /** `scores[rated] = -inf`, one position at a time. */
  method Overwrite(scores: array<Score>, ks: seq<nat>)
    requires forall k :: 0 <= k < |ks| ==> ks[k] < scores.Length
    modifies scores
    ensures scores[..] == Excluded(old(scores[..]), ks)
  {
    ghost var base := scores[..];
    for k := 0 to |ks|
      invariant scores[..] == Excluded(base, ks[..k])
    {
      ExcludedSnoc(base, ks[..k], ks[k]);
      assert ks[..k + 1] == ks[..k] + [ks[k]];
      scores[ks[k]] := NegInf;
    }
    assert ks[..|ks|] == ks;
  }

  /** The shapes a trained model has, without which the numpy expressions of
      `recommend` raise: `Vt` has one row per singular value and one column
      per item, every known user has a factor row and a mean, every item
      position has an id, and rated items are item positions. */
  ghost predicate Shaped(userIndex: map<string, nat>, indexItem: map<nat, string>, U: seq<seq<real>>, S: seq<real>,
                         Vt: seq<seq<real>>, userMeans: seq<real>, itemMeans: seq<real>, ratedItems: map<nat, seq<nat>>)
  {
    && |Vt| == |S|
    && Rect(Vt, |itemMeans|)
    && (forall x :: x in userIndex ==> userIndex[x] < |U| && |U[userIndex[x]]| == |S| && userIndex[x] < |userMeans|)
    && (forall i :: 0 <= i < |itemMeans| ==> i in indexItem)
    && (forall x, k :: x in ratedItems && 0 <= k < |ratedItems[x]| ==> ratedItems[x][k] < |itemMeans|)
  }

  /** `model.get("rated_items", {})`. */
  function RatedOrEmpty(model: CfModel): (r: map<nat, seq<nat>>)
    ensures model.ratedItems.None? ==> r == map[]
    ensures model.ratedItems.Some? ==> r == model.ratedItems.value
  {
    if model.ratedItems.Some? then model.ratedItems.value else map[]
  }

  /** A model record with the shapes of a trained model. */
  ghost predicate ModelShaped(model: CfModel)
  {
    Shaped(model.userIndex, model.indexItem, model.factors.u, model.factors.s, model.factors.vt,
           model.userMeans, model.itemMeans, RatedOrEmpty(model))
  }

  /** The model `train_cf` stores has those shapes, once `svd` returns factors
      of the shapes `np.linalg.svd(..., full_matrices=False)` gives. */
  lemma TrainedModelShaped(model: CfModel, ratings: seq<Rating>, rank: int, svd: seq<seq<real>> -> Factors)
    requires ModelOf(model, ratings, rank, svd)
    requires SvdShaped(svd, |FirstSeen(MovieIds(ratings))|)
    ensures ModelShaped(model)
  {
    var ui, ii := FirstSeen(UserIds(ratings)), FirstSeen(MovieIds(ratings));
    var g, m := ValueGrid(ratings, ui, ii), MaskGrid(ratings, ui, ii);
    var c :| CentredGrid(g, m, c) && model.factors == ClampRank(svd(c), rank);
    CentredGridRect(g, m, c, |ii|);
    ClampRankShape(|c|, |ii|, svd(c), rank);
    MappingsIndexRatings(ratings);
    var rated := RatedOrEmpty(model);
    forall x, k | x in rated && 0 <= k < |rated[x]| ensures rated[x][k] < |model.itemMeans| {
      LastWriteBounded(ratings, ui, ii, x, rated[x][k]);
    }
  }

  /** The fields `CFRecommender.__init__` copies out of the model record; they
      are never written again. */
  class CFRecommender {
    const userIndex: map<string, nat>
    const itemIndex: map<string, nat>
    const indexUser: map<nat, string>
    const indexItem: map<nat, string>
    const U: seq<seq<real>>
    const S: seq<real>
    const Vt: seq<seq<real>>
    const userMeans: seq<real>
    const itemMeans: seq<real>
    const globalMean: real
    const ratedItems: map<nat, seq<nat>>

    /** `rated_items` defaults to `{}` when the record has none. */
    constructor (model: CfModel)
      ensures userIndex == model.userIndex && itemIndex == model.itemIndex
      ensures indexUser == model.indexUser && indexItem == model.indexItem
      ensures U == model.factors.u && S == model.factors.s && Vt == model.factors.vt
      ensures userMeans == model.userMeans && itemMeans == model.itemMeans && globalMean == model.globalMean
      ensures ratedItems == RatedOrEmpty(model)
      ensures Valid() <==> ModelShaped(model)
    {
      userIndex := model.userIndex;
      itemIndex := model.itemIndex;
      indexUser := model.indexUser;
      indexItem := model.indexItem;
      U := model.factors.u;
      S := model.factors.s;
      Vt := model.factors.vt;
      userMeans := model.userMeans;
      itemMeans := model.itemMeans;
      globalMean := model.globalMean;
      ratedItems := RatedOrEmpty(model);
    }

    ghost predicate Valid()
    {
      Shaped(userIndex, indexItem, U, S, Vt, userMeans, itemMeans, ratedItems)
    }

    /** `user_vec @ Vt + user_means[user_idx]` for a known user: item `i` scores
        `sum_k U[u][k] * S[k] * Vt[k][i] + user_means[u]`. */
    function Scores(userId: string): (r: seq<Score>)
      requires Valid() && userId in userIndex
      ensures |r| == |itemMeans|
      ensures forall i :: 0 <= i < |r| ==>
        r[i] == Finite(Dot(UserVector(U[userIndex[userId]], S), Column(Vt, |itemMeans|, i)) + userMeans[userIndex[userId]])
    {
      var x := userIndex[userId];
      var vec := UserVector(U[x], S);
      seq(|itemMeans|, i requires 0 <= i < |itemMeans| => Finite(Dot(vec, Column(Vt, |itemMeans|, i)) + userMeans[x]))
    }

    /** `rated_items.get(user_idx, [])`. */
    function Rated(x: nat): (r: seq<nat>)
      ensures x !in ratedItems ==> r == []
      ensures x in ratedItems ==> r == ratedItems[x]
      ensures Valid() ==> forall k :: 0 <= k < |r| ==> r[k] < |itemMeans|
    {
      if x in ratedItems then ratedItems[x] else []
    }

    /** The score vector `recommend` ranks: the item means (as `float32`) for an
        unknown user; for a known user the CF scores, with the rated items at
        `-inf` when `exclude_rated` is set. */
    function RankedScores(userId: string, excludeRated: bool): (r: seq<Score>)
      requires Valid()
      ensures |r| == |itemMeans|
    {
      if userId !in userIndex then seq(|itemMeans|, i requires 0 <= i < |itemMeans| => Finite(itemMeans[i]))
      else if excludeRated then Excluded(Scores(userId), Rated(userIndex[userId]))
      else Scores(userId)
    }

    /** `[{"movie_id": index_item[i], "score": float(scores[i])} for i in top]`. */
    function Format(top: seq<nat>, scores: seq<Score>): (r: seq<Entry>)
      requires forall k :: 0 <= k < |top| ==> top[k] < |scores| && top[k] in indexItem
      ensures |r| == |top|
      ensures forall k :: 0 <= k < |top| ==> r[k] == Entry(indexItem[top[k]], scores[top[k]])
    {
      seq(|top|, k requires 0 <= k < |top| => Entry(indexItem[top[k]], scores[top[k]]))
    }

    /** `_cold_start(n)`: the top `n` items by mean, none excluded. */
    function ColdStart(n: int): (r: Option<seq<Entry>>)
      requires Valid()
      ensures r.Some? <==> itemMeans == [] || n > -|itemMeans|
      ensures r.Some? && n > 0 ==> |r.value| == if n < |itemMeans| then n else |itemMeans|
      ensures r.Some? ==> forall k :: 0 <= k < |r.value| ==> r.value[k].score.Finite?
    {
      var scores := seq(|itemMeans|, i requires 0 <= i < |itemMeans| => Finite(itemMeans[i]));
      match TopIndices(scores, n)
      case None => None
      case Some(top) => Some(Format(top, scores))
    }

    /** What `recommend(user_id, n, exclude_rated)` returns. */
    function Recommendation(userId: string, n: int, excludeRated: bool): (r: seq<Entry>)
      requires Valid()
      ensures n <= 0 ==> r == []
      ensures n > 0 ==> |r| == if n < |itemMeans| then n else |itemMeans|
    {
      if n <= 0 then []
      else
        var scores := RankedScores(userId, excludeRated);
        Format(TopIndices(scores, n).value, scores)
    }

    /** `recommend`: the rated items are overwritten in a copy of the score
        vector one by one before the top-n selection. */
    method Recommend(userId: string, n: int, excludeRated: bool) returns (r: seq<Entry>)
      requires Valid()
      ensures r == Recommendation(userId, n, excludeRated)
    {
      if n <= 0 {
        return [];
      }
      if userId !in userIndex {
        var cold := ColdStart(n);
        return cold.value;
      }
      var base := Scores(userId);
      var scores := new Score[|base|](i requires 0 <= i < |base| => base[i]);
      assert scores[..] == base;
      if excludeRated {
        Overwrite(scores, Rated(userIndex[userId]));
      }
      var top := TopIndices(scores[..], n).value;
      r := Format(top, scores[..]);
    }

    /** For `n > 0` the result has `min(n, #items)` entries: the top positions of
        the ranked scores, in non-increasing score order, each scoring at least
        as high as every position left out, each with its id and score. */
    lemma RecommendIsTopN(userId: string, n: int, excludeRated: bool)
      requires Valid() && n > 0
      ensures var scores, r := RankedScores(userId, excludeRated), Recommendation(userId, n, excludeRated);
        && TopIndices(scores, n).Some?
        && IsTopN(scores, TopIndices(scores, n).value, if n < |itemMeans| then n else |itemMeans|)
        && r == Format(TopIndices(scores, n).value, scores)
    {
    }

    /** With `exclude_rated`, a rated item is returned only once every unrated
        item has been: so only when fewer than `n` unrated items exist. */
    lemma RatedReturnedLast(userId: string, n: int)
      requires Valid() && n > 0 && userId in userIndex
      ensures var scores := RankedScores(userId, true);
        var top := TopIndices(scores, n).value;
        var rated := Rated(userIndex[userId]);
        forall a, i :: 0 <= a < |top| && top[a] in rated && 0 <= i < |itemMeans| && i !in rated ==> i in top
    {
      var scores := RankedScores(userId, true);
      var top := TopIndices(scores, n).value;
      ExcludedRankLast(Scores(userId), Rated(userIndex[userId]), top, if n < |itemMeans| then n else |itemMeans|);
    }

    /** An unknown user gets the cold start: items ranked by mean, every score
        finite (nothing excluded). */
    lemma UnknownUserColdStart(userId: string, n: int, excludeRated: bool)
      requires Valid() && n > 0 && userId !in userIndex
      ensures ColdStart(n).Some? && Recommendation(userId, n, excludeRated) == ColdStart(n).value
      ensures forall k :: 0 <= k < |Recommendation(userId, n, excludeRated)| ==>
        Recommendation(userId, n, excludeRated)[k].score.Finite?
    {
    }
  }
}
