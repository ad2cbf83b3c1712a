/** The hybrid recommender (`ml/inference/hybrid.py`): CF candidates re-ranked
    by a weighted sum of their min-max normalised CF score and their rescaled
    content similarity to the user's profile. */
module Hybrid {
  import opened Common
  import opened Seqs
  import opened Strings
  import opened Ranking
  import opened CfRecommender
  import opened Content

  /** `HybridConfig` and its defaults. */
  datatype HybridConfig = HybridConfig(cfWeight: real, contentWeight: real, candidateK: int)

  const DefaultConfig := HybridConfig(0.7, 0.3, 200)

  /** One result entry: `movie_id`, `cf_score`, and `hybrid_score` when blended. */
  datatype HybridEntry = HybridEntry(movieId: string, cfScore: Score, hybridScore: Option<real>)

  /** The exceptions `recommend` lets escape: `argpartition`'s `ValueError` for
      a candidate count it rejects, and `int()`'s for a non-numeric item id. */
  datatype HybridError = BadCandidateCount | NotAnInteger

  // ---------------------------------------------------------------------------
  // `_min_max` on real numbers

  /** `(x - min_val) / (max_val - min_val)`. */
  function Scale(x: real, lo: real, hi: real): (r: real)
    requires lo < hi
    ensures lo + r * (hi - lo) == x
  {
    (x - lo) / (hi - lo)
  }

  /** `(arr - min) / (max - min)`, or all ones when `max == min`; `[]` stays `[]`. */
  function MinMax(vs: seq<real>): (r: seq<real>)
    ensures |r| == |vs|
  {
    if vs == [] then []
    else
      var lo, hi := Min(vs), Max(vs);
      if hi == lo then seq(|vs|, i => 1.0)
      else seq(|vs|, i requires 0 <= i < |vs| => Scale(vs[i], lo, hi))
  }

  lemma ScaleBounds(x: real, lo: real, hi: real)
    requires lo <= x <= hi && lo < hi
    ensures 0.0 <= Scale(x, lo, hi) <= 1.0
    ensures x == lo ==> Scale(x, lo, hi) == 0.0
    ensures x == hi ==> Scale(x, lo, hi) == 1.0
  {
    var q := (x - lo) / (hi - lo);
    assert q * (hi - lo) == x - lo;
  }

  lemma ScaleMonotone(x: real, y: real, lo: real, hi: real)
    requires x <= y && lo < hi
    ensures Scale(x, lo, hi) <= Scale(y, lo, hi)
  {
    var d := hi - lo;
    assert (y - lo) / d - (x - lo) / d == (y - x) / d;
  }

  ghost predicate AllEqual(vs: seq<real>)
  {
    forall i, j :: 0 <= i < |vs| && 0 <= j < |vs| ==> vs[i] == vs[j]
  }

  /** `_min_max` gives all ones when the values are all equal. */
  lemma MinMaxAllEqual(vs: seq<real>)
    requires AllEqual(vs)
    ensures forall i :: 0 <= i < |vs| ==> MinMax(vs)[i] == 1.0
  {
    if vs != [] {
      assert Min(vs) in vs && Max(vs) in vs;
    }
  }

  /** Otherwise every result lies in `[0, 1]`, the minimum maps to 0 and the
      maximum to 1 (so the result is not all ones). */
  lemma MinMaxSpread(vs: seq<real>)
    requires !AllEqual(vs)
    ensures forall i :: 0 <= i < |vs| ==> 0.0 <= MinMax(vs)[i] <= 1.0
    ensures forall i :: 0 <= i < |vs| && vs[i] == Min(vs) ==> MinMax(vs)[i] == 0.0
    ensures forall i :: 0 <= i < |vs| && vs[i] == Max(vs) ==> MinMax(vs)[i] == 1.0
  {
    var lo, hi := Min(vs), Max(vs);
    var i, j :| 0 <= i < |vs| && 0 <= j < |vs| && vs[i] != vs[j];
    assert lo < hi;
    var r := MinMax(vs);
    forall k | 0 <= k < |vs|
      ensures 0.0 <= r[k] <= 1.0 && (vs[k] == lo ==> r[k] == 0.0) && (vs[k] == hi ==> r[k] == 1.0)
    {
      ScaleBounds(vs[k], lo, hi);
    }
  }

  /** `_min_max` keeps the order of its inputs. */
  lemma MinMaxMonotone(vs: seq<real>, i: nat, j: nat)
    requires i < |vs| && j < |vs| && vs[i] <= vs[j]
    ensures MinMax(vs)[i] <= MinMax(vs)[j]
  {
    var lo, hi := Min(vs), Max(vs);
    if hi != lo {
      ScaleMonotone(vs[i], vs[j], lo, hi);
    }
  }

  // ---------------------------------------------------------------------------
  // `_min_max` on a CF candidate vector that may hold `-inf`

  /** A float as `_min_max` can return it: a number or NaN. */
  datatype FloatValue = Num(x: real) | NaN

  function MinScore(vs: seq<Score>): (m: Score)
    requires vs != []
    ensures m in vs && forall i :: 0 <= i < |vs| ==> Ge(vs[i], m)
  {
    if |vs| == 1 then vs[0]
    else var t := MinScore(vs[1..]); if Ge(t, vs[0]) then vs[0] else t
  }

  function MaxScore(vs: seq<Score>): (m: Score)
    requires vs != []
    ensures m in vs && forall i :: 0 <= i < |vs| ==> Ge(m, vs[i])
  {
    if |vs| == 1 then vs[0]
    else var t := MaxScore(vs[1..]); if Ge(vs[0], t) then vs[0] else t
  }

  /** `_min_max(scores[candidate_idx])` with IEEE arithmetic on `-inf`:
      `x - (-inf)` is `inf` for a finite `x` and NaN for `-inf`, and
      `inf / inf` is NaN. */
  function MinMaxAsWritten(vs: seq<Score>): (r: seq<FloatValue>)
    ensures |r| == |vs|
  {
    if vs == [] then []
    else
      var lo, hi := MinScore(vs), MaxScore(vs);
      if hi == lo then seq(|vs|, i => Num(1.0))
      else if lo.NegInf? then seq(|vs|, i => NaN)
      else seq(|vs|, i requires 0 <= i < |vs| => Num(Scale(vs[i].v, lo.v, hi.v)))
  }

  /** When a candidate at `-inf` (an excluded rated item) shares the list with a
      finite one, every normalised CF score is NaN. */
  lemma MinMaxAsWrittenYieldsNaN(vs: seq<Score>, a: nat, b: nat)
    requires a < |vs| && b < |vs| && vs[a].NegInf? && vs[b].Finite?
    ensures forall i :: 0 <= i < |vs| ==> MinMaxAsWritten(vs)[i] == NaN
  {
    var lo, hi := MinScore(vs), MaxScore(vs);
    assert lo.NegInf? by { assert Ge(vs[a], lo); }
    assert hi.Finite? by { assert Ge(hi, vs[b]); }
  }

  /** The smallest input: one excluded and one unrated candidate. */
  lemma MinMaxAsWrittenExample()
    ensures MinMaxAsWritten([NegInf, Finite(3.5)]) == [NaN, NaN]
  {
    MinMaxAsWrittenYieldsNaN([NegInf, Finite(3.5)], 0, 1);
  }

  /** The finite scores of a vector, in order. */
  function FiniteValues(vs: seq<Score>): (r: seq<real>)
    ensures |r| <= |vs|
    ensures forall i :: 0 <= i < |vs| && vs[i].Finite? ==> vs[i].v in r
    ensures forall x :: x in r ==> Finite(x) in vs
  {
    if vs == [] then []
    else (if vs[0].Finite? then [vs[0].v] else []) + FiniteValues(vs[1..])
  }

  /** `_min_max` as evidently intended: the finite scores are normalised among
      themselves (all ones when they are all equal) and an excluded `-inf`
      candidate maps to 0, the bottom of the range. */
  function MinMaxScores(vs: seq<Score>): (r: seq<real>)
    ensures |r| == |vs|
  {
    var fs := FiniteValues(vs);
    if fs == [] then seq(|vs|, i => 1.0)
    else
      var lo, hi := Min(fs), Max(fs);
      seq(|vs|, i requires 0 <= i < |vs| =>
        if vs[i].NegInf? then 0.0 else if hi == lo then 1.0 else Scale(vs[i].v, lo, hi))
  }

  /** Every corrected score lies in `[0, 1]`, and the corrected function keeps
      the order of its inputs (excluded candidates lowest). */
  lemma MinMaxScoresBounds(vs: seq<Score>)
    ensures forall i :: 0 <= i < |vs| ==> 0.0 <= MinMaxScores(vs)[i] <= 1.0
  {
    var fs := FiniteValues(vs);
    if fs != [] {
      var lo, hi := Min(fs), Max(fs);
      forall i | 0 <= i < |vs| && vs[i].Finite? && hi != lo ensures 0.0 <= Scale(vs[i].v, lo, hi) <= 1.0 {
        assert vs[i].v in fs;
        ScaleBounds(vs[i].v, lo, hi);
      }
    }
  }

  lemma MinMaxScoresMonotone(vs: seq<Score>, i: nat, j: nat)
    requires i < |vs| && j < |vs| && Ge(vs[j], vs[i])
    ensures MinMaxScores(vs)[i] <= MinMaxScores(vs)[j]
  {
    MinMaxScoresBounds(vs);
    var fs := FiniteValues(vs);
    if fs != [] && vs[i].Finite? {
      var lo, hi := Min(fs), Max(fs);
      assert vs[i].v in fs && vs[j].v in fs;
      if hi != lo {
        ScaleMonotone(vs[i].v, vs[j].v, lo, hi);
      }
    }
  }

  /** Where the source yields no NaN (no `-inf` next to a finite candidate), the
      corrected function returns what it returns. */
  lemma MinMaxScoresAgrees(vs: seq<Score>)
    requires forall i :: 0 <= i < |vs| ==> vs[i].Finite?
    ensures forall i :: 0 <= i < |vs| ==> MinMaxAsWritten(vs)[i] == Num(MinMaxScores(vs)[i])
  {
    if vs != [] {
      var fs := FiniteValues(vs);
      var lo, hi := MinScore(vs), MaxScore(vs);
      assert vs[0].v in fs;
      assert Min(fs) == lo.v && Max(fs) == hi.v by {
        assert Finite(Min(fs)) in vs && Finite(Max(fs)) in vs;
        assert lo.v in fs && hi.v in fs;
      }
    }
  }

  // ---------------------------------------------------------------------------
  // Content rescaling and blending

  /** `(c + 1.0) / 2.0`: cosine values in `[-1, 1]` land in `[0, 1]`, in order. */
  function Rescale(c: real): (r: real)
    ensures -1.0 <= c <= 1.0 ==> 0.0 <= r <= 1.0
  {
    (c + 1.0) / 2.0
  }

  lemma RescaleMonotone(c: real, d: real)
    requires c <= d
    ensures Rescale(c) <= Rescale(d)
  {
  }

  /** `cf_weight * cf_norm + content_weight * content_scaled` with both inputs in
      `[0, 1]` and non-negative weights lies in `[0, cf_weight + content_weight]`. */
  lemma BlendBounds(w1: real, w2: real, a: real, b: real)
    requires w1 >= 0.0 && w2 >= 0.0 && 0.0 <= a <= 1.0 && 0.0 <= b <= 1.0
    ensures 0.0 <= w1 * a + w2 * b <= w1 + w2
  {
    WeightBounds(w1, a);
    WeightBounds(w2, b);
    var p, q := w1 * a, w2 * b;
    assert 0.0 <= p <= w1 && 0.0 <= q <= w2;
  }

  lemma WeightBounds(w: real, a: real)
    requires w >= 0.0 && 0.0 <= a <= 1.0
    ensures 0.0 <= w * a <= w
  {
    if w > 0.0 {
      assert w * a + w * (1.0 - a) == w;
      assert w * (1.0 - a) >= 0.0;
    }
  }

  /** Every position of `s` lifted to a finite score, for sorting. */
  function Lift(s: seq<real>): (r: seq<Score>)
    ensures |r| == |s| && forall i :: 0 <= i < |s| ==> r[i] == Finite(s[i])
  {
    seq(|s|, i requires 0 <= i < |s| => Finite(s[i]))
  }

  /** The length of `s[:n]` for a list of length `len`, with Python's slicing. */
  function PrefixLength(len: nat, n: int): (c: nat)
    ensures c <= len
  {
    if n >= 0 then (if n < len then n else len) else if len + n > 0 then len + n else 0
  }

  /** `np.argsort(-final)[:n]`: the `final[:n]`-many best positions of the final
      scores, distinct, in non-increasing order, each at least as high as every
      position left out (ties by position). */
  function BlendOrder(final: seq<real>, n: int): (order: seq<nat>)
    ensures |order| == PrefixLength(|final|, n)
    ensures IsTopN(Lift(final), order, |order|)
    ensures forall a, b :: 0 <= a < b < |order| ==> final[order[a]] >= final[order[b]]
    ensures forall a, k :: 0 <= a < |order| && 0 <= k < |final| && k !in order ==> final[order[a]] >= final[k]
  {
    var full := ArgSortDesc(Lift(final));
    var order := PyPrefix(full, n);
    BlendOrderTop(final, n, full, order);
    order
  }

  /** A Python prefix of the full descending argsort is a top selection of its
      own length, and that length is `PrefixLength(len(final), n)`. */
  lemma BlendOrderTop(final: seq<real>, n: int, full: seq<nat>, order: seq<nat>)
    requires full == ArgSortDesc(Lift(final)) && order == PyPrefix(full, n)
    ensures |order| == PrefixLength(|final|, n)
    ensures IsTopN(Lift(final), order, |order|)
    ensures forall a, b :: 0 <= a < b < |order| ==> final[order[a]] >= final[order[b]]
    ensures forall a, k :: 0 <= a < |order| && 0 <= k < |final| && k !in order ==> final[order[a]] >= final[k]
  {
    var s := Lift(final);
    ArgSortDescTop(s);
    var c := |order|;
    assert order == full[..c];
    PrefixTop(s, full, c);
    forall a, b | 0 <= a < b < c ensures final[order[a]] >= final[order[b]] {
      assert Ge(s[order[a]], s[order[b]]);
    }
    forall a, k | 0 <= a < c && 0 <= k < |final| && k !in order ensures final[order[a]] >= final[k] {
      assert Ge(s[order[a]], s[k]);
    }
  }

  /** `[int(index_item[idx]) for idx in idxs]` when every label parses. */
  function ParseIds(labels: seq<string>): (r: Option<seq<int>>)
    ensures r.Some? <==> forall k :: 0 <= k < |labels| ==> ParseInt(labels[k]).Some?
    ensures r.Some? ==> |r.value| == |labels| && forall k :: 0 <= k < |labels| ==> r.value[k] == ParseInt(labels[k]).value
  {
    if labels == [] then Some([])
    else
      match (ParseInt(labels[0]), ParseIds(labels[1..]))
      case (Some(x), Some(rest)) => Some([x] + rest)
      case _ => None
  }

  /** `cf_weight * cf_norm + content_weight * content_scaled`, elementwise. */
  function Blend(cfNorm: seq<real>, contentScaled: seq<real>, config: HybridConfig): (r: seq<real>)
    requires |cfNorm| == |contentScaled|
    ensures |r| == |cfNorm|
    ensures forall k :: 0 <= k < |r| ==> r[k] == config.cfWeight * cfNorm[k] + config.contentWeight * contentScaled[k]
  {
    seq(|cfNorm|, k requires 0 <= k < |cfNorm| => config.cfWeight * cfNorm[k] + config.contentWeight * contentScaled[k])
  }

  /** The blend of two score lists in `[0, 1]` with non-negative weights lies in
      `[0, cf_weight + content_weight]`. */
  lemma BlendInRange(cfNorm: seq<real>, contentScaled: seq<real>, config: HybridConfig)
    requires |cfNorm| == |contentScaled| && config.cfWeight >= 0.0 && config.contentWeight >= 0.0
    requires forall k :: 0 <= k < |cfNorm| ==> 0.0 <= cfNorm[k] <= 1.0 && 0.0 <= contentScaled[k] <= 1.0
    ensures forall k :: 0 <= k < |cfNorm| ==> 0.0 <= Blend(cfNorm, contentScaled, config)[k] <= config.cfWeight + config.contentWeight
  {
    forall k | 0 <= k < |cfNorm| ensures 0.0 <= Blend(cfNorm, contentScaled, config)[k] <= config.cfWeight + config.contentWeight {
      BlendBounds(config.cfWeight, config.contentWeight, cfNorm[k], contentScaled[k]);
    }
  }

  class HybridRecommender {
    const cf: CFRecommender
    const content: ContentRecommender
    const config: HybridConfig

    /** `config or HybridConfig()`. */
    constructor (cf: CFRecommender, content: ContentRecommender, config: Option<HybridConfig>)
      ensures this.cf == cf && this.content == content
      ensures this.config == if config.Some? then config.value else DefaultConfig
      ensures Valid() <==> cf.Valid() && content.Valid()
    {
      this.cf := cf;
      this.content := content;
      this.config := if config.Some? then config.value else DefaultConfig;
    }

    ghost predicate Valid()
    {
      cf.Valid() && content.Valid()
    }

    /** `cf.score_items(user_id, exclude_rated)`, which `CFRecommender` does not
        define: the score vector `recommend` ranks. */
    function ScoreItems(userId: string, excludeRated: bool): (r: seq<Score>)
      requires Valid()
      ensures |r| == |cf.itemMeans|
    {
      cf.RankedScores(userId, excludeRated)
    }

    /** `[index_item[idx] for idx in idxs]`. */
    function Labels(idxs: seq<nat>): (r: seq<string>)
      requires Valid() && forall k :: 0 <= k < |idxs| ==> idxs[k] < |cf.itemMeans|
      ensures |r| == |idxs| && forall k :: 0 <= k < |idxs| ==> r[k] == cf.indexItem[idxs[k]]
    {
      seq(|idxs|, k requires 0 <= k < |idxs| => cf.indexItem[idxs[k]])
    }

    /** `_build_profile`: no profile for an unknown user or one without rated
        items; otherwise the content profile of the user's rated movies, or the
        `ValueError` of `int()` when one of their labels is not an integer. */
    function BuildProfile(userId: string): (r: Result<Option<seq<real>>, HybridError>)
      requires Valid()
      ensures userId !in cf.userIndex ==> r == Ok(None)
      ensures userId in cf.userIndex && cf.Rated(cf.userIndex[userId]) == [] ==> r == Ok(None)
      ensures r.Ok? && r.value.Some? ==> |r.value.value| == content.dim
      ensures userId in cf.userIndex && cf.Rated(cf.userIndex[userId]) != [] ==>
        (r.Err? <==> ParseIds(Labels(cf.Rated(cf.userIndex[userId]))).None?)
      ensures r.Ok? && userId in cf.userIndex && cf.Rated(cf.userIndex[userId]) != [] ==>
        r.value == content.ProfileFromMovieIds(ParseIds(Labels(cf.Rated(cf.userIndex[userId]))).value)
    {
      if userId !in cf.userIndex then Ok(None)
      else
        var rated := cf.Rated(cf.userIndex[userId]);
        if rated == [] then Ok(None)
        else match ParseIds(Labels(rated))
          case None => Err(NotAnInteger)
          case Some(ids) => Ok(content.ProfileFromMovieIds(ids))
    }

    /** What `_format_results(indices, cf_scores, hybrid_scores)` returns. */
    function FormattedResults(indices: seq<nat>, cfScores: seq<Score>, hybrid: Option<seq<real>>): (r: seq<HybridEntry>)
      requires Valid() && |cfScores| == |cf.itemMeans|
      requires forall k :: 0 <= k < |indices| ==> indices[k] < |cfScores|
      requires hybrid.Some? ==> |hybrid.value| == |indices|
      ensures |r| == |indices|
    {
      seq(|indices|, k requires 0 <= k < |indices| =>
        HybridEntry(cf.indexItem[indices[k]], cfScores[indices[k]], if hybrid.Some? then Some(hybrid.value[k]) else None))
    }

    /** `_format_results`: one entry per index, appended in the given order. */
    method FormatResults(indices: seq<nat>, cfScores: seq<Score>, hybrid: Option<seq<real>>) returns (results: seq<HybridEntry>)
      requires Valid() && |cfScores| == |cf.itemMeans|
      requires forall k :: 0 <= k < |indices| ==> indices[k] < |cfScores|
      requires hybrid.Some? ==> |hybrid.value| == |indices|
      ensures results == FormattedResults(indices, cfScores, hybrid)
      ensures forall k :: 0 <= k < |indices| ==> results[k].movieId == cf.indexItem[indices[k]] && results[k].cfScore == cfScores[indices[k]]
      ensures forall k :: 0 <= k < |indices| ==> results[k].hybridScore == if hybrid.Some? then Some(hybrid.value[k]) else None
    {
      results := [];
      for pos := 0 to |indices|
        invariant results == FormattedResults(indices[..pos], cfScores, if hybrid.Some? then Some(hybrid.value[..pos]) else None)
      {
        var idx := indices[pos];
        var entry := HybridEntry(cf.indexItem[idx], cfScores[idx], if hybrid.Some? then Some(hybrid.value[pos]) else None);
        results := results + [entry];
      }
      assert indices[..|indices|] == indices;
      assert hybrid.Some? ==> hybrid.value[..|indices|] == hybrid.value;
    }

    /** `[content_map.get(mid, 0.0) for mid in ids]`, rescaled to `[0, 1]`. */
    function ContentScaled(contentMap: map<int, real>, ids: seq<int>): (r: seq<real>)
      ensures |r| == |ids|
      ensures forall k :: 0 <= k < |ids| ==> r[k] == Rescale(if ids[k] in contentMap then contentMap[ids[k]] else 0.0)
    {
      seq(|ids|, k requires 0 <= k < |ids| => Rescale(if ids[k] in contentMap then contentMap[ids[k]] else 0.0))
    }

    /** The final scores of the candidates. */
    function FinalScores(scores: seq<Score>, cand: seq<nat>, contentMap: map<int, real>, ids: seq<int>): (r: seq<real>)
      requires |ids| == |cand| && forall k :: 0 <= k < |cand| ==> cand[k] < |scores|
      ensures |r| == |cand|
    {
      var cfNorm := MinMaxScores(Pick(scores, cand));
      Blend(cfNorm, ContentScaled(contentMap, ids), config)
    }

    /** The blended result: the first `n` candidates by final score
        (`np.argsort(-final_scores)[:n]`), each with its final score. */
    function Blended(scores: seq<Score>, cand: seq<nat>, final: seq<real>, n: int): (r: seq<HybridEntry>)
      requires Valid() && |scores| == |cf.itemMeans| && |final| == |cand|
      requires forall k :: 0 <= k < |cand| ==> cand[k] < |scores|
      ensures |r| == PrefixLength(|cand|, n)
      ensures forall k :: 0 <= k < |r| ==> r[k].hybridScore.Some?
    {
      var order := BlendOrder(final, n);
      FormattedResults(seq(|order|, k requires 0 <= k < |order| => cand[order[k]]), scores,
        Some(seq(|order|, k requires 0 <= k < |order| => final[order[k]])))
    }

    /** What `recommend(user_id, n, exclude_rated)` returns, or the exception it raises. */
    function Recommendation(userId: string, n: int, excludeRated: bool): (r: Result<seq<HybridEntry>, HybridError>)
      requires Valid()
      ensures ScoreItems(userId, excludeRated) == [] ==> r == Ok([])
    {
      var scores := ScoreItems(userId, excludeRated);
      if scores == [] then Ok([])
      else match TopIndices(scores, config.candidateK)
        case None => Err(BadCandidateCount)
        case Some(cand) => FromCandidates(userId, n, scores, cand)
    }

    /** The rest of `recommend` once the CF candidates are chosen: their movie
        ids, the user's profile, and either the candidates themselves or their
        blend with the content scores. */
    function FromCandidates(userId: string, n: int, scores: seq<Score>, cand: seq<nat>): (r: Result<seq<HybridEntry>, HybridError>)
      requires Valid() && |scores| == |cf.itemMeans|
      requires forall k :: 0 <= k < |cand| ==> cand[k] < |scores|
      ensures r.Ok? <==> ParseIds(Labels(cand)).Some? && BuildProfile(userId).Ok?
      ensures r.Ok? && BuildProfile(userId).value.None? ==> r.value == FormattedResults(cand, scores, None)
      ensures r.Ok? ==> |r.value| <= |cand|
    {
      match ParseIds(Labels(cand))
      case None => Err(NotAnInteger)
      case Some(ids) =>
        match BuildProfile(userId)
        case Err(e) => Err(e)
        case Ok(None) => Ok(FormattedResults(cand, scores, None))
        case Ok(Some(profile)) =>
          var contentMap := content.SimilarityToProfile(profile, ids);
          if contentMap == map[] then Ok(FormattedResults(cand, scores, None))
          else Ok(Blended(scores, cand, FinalScores(scores, cand, contentMap, ids), n))
    }

    /** Without a profile or without content for any candidate the result is the
        CF candidate list itself: the top `candidate_k` items by CF score, in
        that order, with `cf_score` and no `hybrid_score`. */
    lemma FallbackIsCfOrder(userId: string, n: int, excludeRated: bool)
      requires Valid() && config.candidateK > 0
      requires ScoreItems(userId, excludeRated) != []
      requires var scores := ScoreItems(userId, excludeRated);
        var cand := TopIndices(scores, config.candidateK).value;
        && ParseIds(Labels(cand)).Some?
        && (|| BuildProfile(userId) == Ok(None)
            || (&& BuildProfile(userId).Ok? && BuildProfile(userId).value.Some?
                && content.SimilarityToProfile(BuildProfile(userId).value.value, ParseIds(Labels(cand)).value) == map[]))
      ensures var scores := ScoreItems(userId, excludeRated);
        var cand := TopIndices(scores, config.candidateK).value;
        var m := if config.candidateK < |scores| then config.candidateK else |scores|;
        && IsTopN(scores, cand, m)
        && Recommendation(userId, n, excludeRated).Ok?
        && var r := Recommendation(userId, n, excludeRated).value;
           && |r| == m
           && forall k :: 0 <= k < m ==> r[k] == HybridEntry(cf.indexItem[cand[k]], scores[cand[k]], None)
    {
      var scores := ScoreItems(userId, excludeRated);
      var cand := TopIndices(scores, config.candidateK).value;
      assert Recommendation(userId, n, excludeRated) == FromCandidates(userId, n, scores, cand);
      FromCandidatesFallback(userId, n, scores, cand);
      FormattedResultsEntries(cand, scores);
    }

    /** Without hybrid scores, entry `k` is candidate `k` with its CF score. */
    lemma FormattedResultsEntries(indices: seq<nat>, cfScores: seq<Score>)
      requires Valid() && |cfScores| == |cf.itemMeans|
      requires forall k :: 0 <= k < |indices| ==> indices[k] < |cfScores|
      ensures var r := FormattedResults(indices, cfScores, None);
        forall k :: 0 <= k < |indices| ==> r[k] == HybridEntry(cf.indexItem[indices[k]], cfScores[indices[k]], None)
    {
    }

    lemma FromCandidatesFallback(userId: string, n: int, scores: seq<Score>, cand: seq<nat>)
      requires Valid() && |scores| == |cf.itemMeans|
      requires forall k :: 0 <= k < |cand| ==> cand[k] < |scores|
      requires ParseIds(Labels(cand)).Some?
      requires || BuildProfile(userId) == Ok(None)
               || (&& BuildProfile(userId).Ok? && BuildProfile(userId).value.Some?
                   && content.SimilarityToProfile(BuildProfile(userId).value.value, ParseIds(Labels(cand)).value) == map[])
      ensures FromCandidates(userId, n, scores, cand) == Ok(FormattedResults(cand, scores, None))
    {
    }

    /** A blended result has `len(final[:n])` entries: entry `k` is the
        `index_item` and `cf_score` of candidate `order[k]` with its final score
        as `hybrid_score`, where `order` lists distinct candidate positions by
        non-increasing final score, each scoring at least as high as every
        candidate left out. */
    lemma BlendedIsOrdered(scores: seq<Score>, cand: seq<nat>, final: seq<real>, n: int)
      requires Valid() && |scores| == |cf.itemMeans| && |final| == |cand|
      requires forall k :: 0 <= k < |cand| ==> cand[k] < |scores|
      ensures var r, order := Blended(scores, cand, final, n), BlendOrder(final, n);
        && |r| == |order| == PrefixLength(|cand|, n)
        && Distinct(order)
        && (forall k :: 0 <= k < |r| ==>
              order[k] < |cand| && r[k] == HybridEntry(cf.indexItem[cand[order[k]]], scores[cand[order[k]]], Some(final[order[k]])))
        && (forall a, b :: 0 <= a < b < |r| ==> r[a].hybridScore.value >= r[b].hybridScore.value)
        && (forall a, c :: 0 <= a < |r| && 0 <= c < |cand| && c !in order ==> r[a].hybridScore.value >= final[c])
    {
    }

    /** With a profile and content for some candidate, the result is the blend:
        `len(final[:n])` of the `min(candidate_k, #items)` CF candidates, best
        final score first, each entry a candidate at least as high as every
        candidate left out. */
    lemma BlendedPath(userId: string, n: int, excludeRated: bool)
      requires Valid() && config.candidateK > 0
      requires ScoreItems(userId, excludeRated) != []
      requires var scores := ScoreItems(userId, excludeRated);
        var cand := TopIndices(scores, config.candidateK).value;
        && ParseIds(Labels(cand)).Some?
        && BuildProfile(userId).Ok? && BuildProfile(userId).value.Some?
        && content.SimilarityToProfile(BuildProfile(userId).value.value, ParseIds(Labels(cand)).value) != map[]
      ensures var scores := ScoreItems(userId, excludeRated);
        var cand := TopIndices(scores, config.candidateK).value;
        var ids := ParseIds(Labels(cand)).value;
        var final := FinalScores(scores, cand, content.SimilarityToProfile(BuildProfile(userId).value.value, ids), ids);
        var m := if config.candidateK < |scores| then config.candidateK else |scores|;
        && IsTopN(scores, cand, m)
        && Recommendation(userId, n, excludeRated) == Ok(Blended(scores, cand, final, n))
        && |Recommendation(userId, n, excludeRated).value| == PrefixLength(m, n)
        && var r := Recommendation(userId, n, excludeRated).value;
           forall a, b :: 0 <= a < b < |r| ==>
             r[a].hybridScore.Some? && r[b].hybridScore.Some? && r[a].hybridScore.value >= r[b].hybridScore.value
    {
      var scores := ScoreItems(userId, excludeRated);
      var cand := TopIndices(scores, config.candidateK).value;
      var ids := ParseIds(Labels(cand)).value;
      var final := FinalScores(scores, cand, content.SimilarityToProfile(BuildProfile(userId).value.value, ids), ids);
      assert Recommendation(userId, n, excludeRated) == FromCandidates(userId, n, scores, cand);
      BlendedIsOrdered(scores, cand, final, n);
    }

    /** With non-negative weights and content similarities that are cosines (in
        `[-1, 1]`), every final score lies in `[0, cf_weight + content_weight]`. */
    lemma FinalScoresBounds(scores: seq<Score>, cand: seq<nat>, contentMap: map<int, real>, ids: seq<int>)
      requires |ids| == |cand| && forall k :: 0 <= k < |cand| ==> cand[k] < |scores|
      requires config.cfWeight >= 0.0 && config.contentWeight >= 0.0
      requires forall m :: m in contentMap ==> -1.0 <= contentMap[m] <= 1.0
      ensures forall k :: 0 <= k < |cand| ==>
        0.0 <= FinalScores(scores, cand, contentMap, ids)[k] <= config.cfWeight + config.contentWeight
    {
      var cfNorm := MinMaxScores(Pick(scores, cand));
      MinMaxScoresBounds(Pick(scores, cand));
      var cs := ContentScaled(contentMap, ids);
      forall k | 0 <= k < |ids| ensures 0.0 <= cs[k] <= 1.0 {
        var c := if ids[k] in contentMap then contentMap[ids[k]] else 0.0;
        if ids[k] in contentMap {
          var x := ids[k];
          assert x in contentMap;
          assert -1.0 <= contentMap[x];
        }
        assert -1.0 <= c <= 1.0;
        assert cs[k] == Rescale(c);
      }
      BlendInRange(cfNorm, cs, config);
    }
  }
}
