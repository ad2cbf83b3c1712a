/** The content-based recommender (`ml/inference/content.py`): one normalised
    feature row per movie, a profile that is the mean of selected rows,
    similarities as dot products with the profile, and a top-n selection with
    excluded movies pushed to `-inf`. */
module Content {
  import opened Common
  import opened Seqs
  import opened Strings
  import opened Ranking
  import opened TrainCf

  /** One result entry: `{"movie_id": str(...), "content_score": ...}`. */
  datatype ContentEntry = ContentEntry(movieId: string, contentScore: Score)

  /** `{movie_id: idx for idx, movie_id in enumerate(movie_ids)}`: a repeated id
      ends up at its last position. */
  function MovieIndex(ids: seq<int>): (m: map<int, nat>)
    ensures forall k :: 0 <= k < |ids| ==> ids[k] in m
    ensures forall x :: x in m ==> m[x] < |ids| && ids[m[x]] == x
  {
    if ids == [] then map[]
    else MovieIndex(ids[..|ids| - 1])[ids[|ids| - 1] := |ids| - 1]
  }

  /** The position recorded for an id is its last occurrence. */
  lemma {:induction false} MovieIndexLast(ids: seq<int>, x: int, j: nat)
    requires x in MovieIndex(ids) && MovieIndex(ids)[x] < j < |ids|
    ensures ids[j] != x
  {
    var n := |ids| - 1;
    if j < n {
      assert x != ids[n];
      MovieIndexLast(ids[..n], x, j);
    }
  }

  /** When the ids are distinct, each id is mapped to its own position. */
  lemma MovieIndexOfDistinct(ids: seq<int>)
    requires Distinct(ids)
    ensures forall k :: 0 <= k < |ids| ==> MovieIndex(ids)[ids[k]] == k
  {
  }

  /** `mid in index`. */
  function Known(index: map<int, nat>): int -> bool
  {
    (x: int) => x in index
  }

  /** `[index[mid] for mid in ids if mid in index]`: unknown ids are skipped,
      duplicates and order are kept. */
  function Resolve(index: map<int, nat>, ids: seq<int>): (r: seq<nat>)
    ensures r == [] <==> forall k :: 0 <= k < |ids| ==> ids[k] !in index
    ensures forall k :: 0 <= k < |r| ==> r[k] in index.Values
  {
    if ids == [] then []
    else
      var x := ids[|ids| - 1];
      Resolve(index, ids[..|ids| - 1]) + if x in index then [index[x]] else []
  }

  /** Resolution goes id by id: it distributes over concatenation, and one id
      contributes its position when known and nothing otherwise. */
  lemma {:induction false} ResolveAppend(index: map<int, nat>, a: seq<int>, b: seq<int>)
    ensures Resolve(index, a + b) == Resolve(index, a) + Resolve(index, b)
  {
    if b == [] {
      assert a + b == a;
    } else {
      var n := |b| - 1;
      assert (a + b)[..|a + b| - 1] == a + b[..n];
      ResolveAppend(index, a, b[..n]);
    }
  }

  lemma ResolveSingle(index: map<int, nat>, x: int)
    ensures Resolve(index, [x]) == if x in index then [index[x]] else []
  {
    assert [x][..0] == [];
  }

  /** A position is resolved exactly when some known id of the list maps to it. */
  lemma {:induction false} ResolveMember(index: map<int, nat>, ids: seq<int>, p: nat)
    ensures p in Resolve(index, ids) <==> exists x :: x in ids && x in index && index[x] == p
  {
    if ids != [] {
      var n := |ids| - 1;
      ResolveMember(index, ids[..n], p);
      assert ids == ids[..n] + [ids[n]];
      if exists x :: x in ids && x in index && index[x] == p {
        var x :| x in ids && x in index && index[x] == p;
        if x != ids[n] { assert x in ids[..n]; }
      }
    }
  }

  /** `rows.mean(axis=0)`: the elementwise mean of a non-empty list of rows. */
  function ColumnMeans(rows: seq<seq<real>>, dim: nat): (r: seq<real>)
    requires rows != [] && Rect(rows, dim)
    ensures |r| == dim
  {
    seq(dim, j requires 0 <= j < dim => Sum(Column(rows, dim, j)) / (|rows| as real))
  }

  /** Each entry of the mean profile lies within the range of the selected rows'
      entries in that column (so non-negative TF-IDF weights give a
      non-negative profile). */
  lemma ColumnMeansBounds(rows: seq<seq<real>>, dim: nat, lo: real, hi: real)
    requires rows != [] && Rect(rows, dim)
    requires forall u, j :: 0 <= u < |rows| && 0 <= j < dim ==> lo <= rows[u][j] <= hi
    ensures forall j :: 0 <= j < dim ==> lo <= ColumnMeans(rows, dim)[j] <= hi
  {
    forall j | 0 <= j < dim ensures lo <= ColumnMeans(rows, dim)[j] <= hi {
      var c := Column(rows, dim, j);
      SumBounds(c, lo, hi);
      QuotientBounds(Sum(c), |rows|, lo, hi);
    }
  }

  /** The profile of a single row is that row. */
  lemma ColumnMeansSingle(v: seq<real>)
    ensures ColumnMeans([v], |v|) == v
  {
    forall j | 0 <= j < |v| ensures ColumnMeans([v], |v|)[j] == v[j] {
      var c := Column([v], |v|, j);
      assert c[..0] == [];
      assert Sum(c) == v[j];
    }
  }

  /** `score_list[movie_index[mid]] = -inf` for each id the index knows, one id
      at a time. */
  method ExcludeIds(scores: array<Score>, index: map<int, nat>, ids: seq<int>)
    requires forall p :: p in index.Values ==> p < scores.Length
    modifies scores
    ensures scores[..] == Excluded(old(scores[..]), Resolve(index, ids))
  {
    ghost var base := scores[..];
    for k := 0 to |ids|
      invariant scores[..] == Excluded(base, Resolve(index, ids[..k]))
    {
      assert ids[..k + 1][..k] == ids[..k];
      if ids[k] in index {
        assert index[ids[k]] in index.Values;
        ExcludedSnoc(base, Resolve(index, ids[..k]), index[ids[k]]);
        scores[index[ids[k]]] := NegInf;
      }
    }
    assert ids[..|ids|] == ids;
  }

  /** The fields `ContentRecommender.__init__` sets: the feature matrix (rows of
      `dim` entries), the movie id of each row, `movie_index` and the
      row-normalised matrix. sklearn's `normalize` is the input `normalize`. */
  class ContentRecommender {
    const matrix: seq<seq<real>>
    const dim: nat
    const movieIds: seq<int>
    const movieIndex: map<int, nat>
    const normalize: seq<real> -> seq<real>
    const matrixNorm: seq<seq<real>>

    constructor (matrix: seq<seq<real>>, dim: nat, movieIds: seq<int>, normalize: seq<real> -> seq<real>)
      ensures this.matrix == matrix && this.dim == dim && this.movieIds == movieIds && this.normalize == normalize
      ensures movieIndex == MovieIndex(movieIds)
      ensures |matrixNorm| == |matrix| && forall r :: 0 <= r < |matrix| ==> matrixNorm[r] == normalize(matrix[r])
      ensures Valid() <==> |matrix| == |movieIds| && Rect(matrix, dim) && forall v :: |normalize(v)| == |v|
    {
      this.matrix := matrix;
      this.dim := dim;
      this.movieIds := movieIds;
      this.normalize := normalize;
      movieIndex := MovieIndex(movieIds);
      matrixNorm := seq(|matrix|, r requires 0 <= r < |matrix| => normalize(matrix[r]));
    }

    /** One row per movie id, every row `dim` wide, and normalisation keeps a
        vector's length. */
    ghost predicate Valid()
    {
      && |matrix| == |movieIds|
      && Rect(matrix, dim)
      && movieIndex == MovieIndex(movieIds)
      && |matrixNorm| == |matrix|
      && (forall r :: 0 <= r < |matrix| ==> matrixNorm[r] == normalize(matrix[r]))
      && (forall v :: |normalize(v)| == |v|)
    }

    lemma ValidIndex()
      requires Valid()
      ensures forall x :: x in movieIndex ==> movieIndex[x] < |matrix| && movieIds[movieIndex[x]] == x
      ensures forall p :: p in movieIndex.Values ==> p < |matrix|
      ensures forall r :: 0 <= r < |matrix| ==> |matrixNorm[r]| == dim
    {
    }

    /** `profile_from_movie_ids`: `None` when no given id is known; otherwise
        the normalised elementwise mean of the selected rows. */
    function ProfileFromMovieIds(ids: seq<int>): (r: Option<seq<real>>)
      requires Valid()
      ensures r.None? <==> forall k :: 0 <= k < |ids| ==> ids[k] !in movieIndex
      ensures r.Some? ==> |r.value| == dim
    {
      ValidIndex();
      var idxs := Resolve(movieIndex, ids);
      if idxs == [] then None
      else
        Some(normalize(ColumnMeans(Pick(matrix, idxs), dim)))
    }

    /** The profile before normalisation is the mean of the rows of the known
        ids, listed with repeats. */
    lemma ProfileIsMean(ids: seq<int>)
      requires Valid() && exists k :: 0 <= k < |ids| && ids[k] in movieIndex
      ensures forall p :: p in Resolve(movieIndex, ids) ==> p < |matrix|
      ensures ProfileFromMovieIds(ids) == Some(normalize(ColumnMeans(Pick(matrix, Resolve(movieIndex, ids)), dim)))
    {
      ValidIndex();
    }

    /** The cosine similarity of row `p` to the profile: `matrix_norm[p] @ profile.T`. */
    function Similarity(p: nat, profile: seq<real>): real
      requires Valid() && p < |matrix| && |profile| == dim
    {
      ValidIndex();
      Dot(matrixNorm[p], profile)
    }

    /** `dict(zip(movie_ids, score_list))` with `movie_ids = [movie_ids[idx] for
        idx in idx_list]`: each known candidate writes the similarity of its row
        under that row's movie id. */
    function Zip(candidates: seq<int>, profile: seq<real>): map<int, real>
      requires Valid() && |profile| == dim
    {
      ValidIndex();
      if candidates == [] then map[]
      else
        var c := candidates[|candidates| - 1];
        var rest := Zip(candidates[..|candidates| - 1], profile);
        if c in movieIndex then rest[movieIds[movieIndex[c]] := Similarity(movieIndex[c], profile)] else rest
    }

    lemma {:induction false} ZipContents(candidates: seq<int>, profile: seq<real>)
      requires Valid() && |profile| == dim
      ensures forall m :: m in Zip(candidates, profile) <==> m in candidates && m in movieIndex
      ensures forall m :: m in Zip(candidates, profile) ==>
        m in movieIndex && movieIndex[m] < |matrix| && Zip(candidates, profile)[m] == Similarity(movieIndex[m], profile)
    {
      ValidIndex();
      if candidates != [] {
        var n := |candidates| - 1;
        ZipContents(candidates[..n], profile);
        assert candidates == candidates[..n] + [candidates[n]];
        assert forall m :: m in candidates <==> m in candidates[..n] || m == candidates[n];
      }
    }

    /** `similarity_to_profile`: a map whose keys are exactly the candidate ids
        the index knows (`{}` when there are none), each with the similarity of
        its row to the profile. */
    function SimilarityToProfile(profile: seq<real>, candidates: seq<int>): (r: map<int, real>)
      requires Valid() && |profile| == dim
      ensures forall m :: m in r <==> m in candidates && m in movieIndex
      ensures forall m :: m in r ==> m in movieIndex && movieIndex[m] < |matrix| && r[m] == Similarity(movieIndex[m], profile)
    {
      ZipContents(candidates, profile);
      if Resolve(movieIndex, candidates) == [] then map[] else Zip(candidates, profile)
    }

    /** `matrix_norm @ profile.T`: the similarity of every row. */
    function RowScores(profile: seq<real>): (r: seq<Score>)
      requires Valid() && |profile| == dim
      ensures |r| == |matrix| && forall p :: 0 <= p < |matrix| ==> r[p] == Finite(Similarity(p, profile))
    {
      seq(|matrix|, p requires 0 <= p < |matrix| => Finite(Similarity(p, profile)))
    }

    /** The score vector after the excluded ids that the index knows are set to `-inf`. */
    function ExcludedScores(profile: seq<real>, exclude: seq<int>): (r: seq<Score>)
      requires Valid() && |profile| == dim
      ensures |r| == |matrix|
      ensures forall p :: 0 <= p < |matrix| ==> r[p] == if p in Resolve(movieIndex, exclude) then NegInf else Finite(Similarity(p, profile))
    {
      Excluded(RowScores(profile), Resolve(movieIndex, exclude))
    }

    /** Row `p` is excluded exactly when its movie id is in the exclusion list
        and `p` is the row the index records for that id. */
    lemma ExcludedRow(exclude: seq<int>, p: nat)
      requires Valid() && p < |matrix|
      ensures p in Resolve(movieIndex, exclude) <==> movieIds[p] in exclude && movieIndex[movieIds[p]] == p
    {
      ValidIndex();
      ResolveMember(movieIndex, exclude, p);
      assert movieIds[p] in movieIndex;
    }

    /** `[{"movie_id": str(movie_ids[i]), "content_score": scores[i]} for i in top]`. */
    function Format(top: seq<nat>, scores: seq<Score>): (r: seq<ContentEntry>)
      requires Valid() && |scores| == |matrix|
      requires forall k :: 0 <= k < |top| ==> top[k] < |scores|
      ensures |r| == |top|
      ensures forall k :: 0 <= k < |top| ==> r[k] == ContentEntry(IntToString(movieIds[top[k]]), scores[top[k]])
    {
      seq(|top|, k requires 0 <= k < |top| => ContentEntry(IntToString(movieIds[top[k]]), scores[top[k]]))
    }

    /** What `recommend_from_profile(profile, n, exclude_movie_ids)` returns;
        `None` is the `ValueError` that `argpartition` raises on an empty
        matrix (`kth = -1` on zero rows). An absent exclusion list is `[]`. */
    function RecommendationFromProfile(profile: seq<real>, n: int, exclude: seq<int>): (r: Option<seq<ContentEntry>>)
      requires Valid() && |profile| == dim
      ensures n <= 0 ==> r == Some([])
      ensures n > 0 ==> (r.None? <==> |matrix| == 0)
      ensures n > 0 && r.Some? ==> |r.value| == if n < |matrix| then n else |matrix|
    {
      if n <= 0 then Some([])
      else
        var scores := ExcludedScores(profile, exclude);
        var m := if n < |scores| then n else |scores|;
        match ArgPartitionTop(scores, m)
        case None => None
        case Some(top) => Some(Format(top, scores))
    }

    /** `recommend_from_profile`: the excluded rows are overwritten in the score
        array one id at a time; ids the index does not know are skipped. */
    method RecommendFromProfile(profile: seq<real>, n: int, exclude: seq<int>) returns (r: Option<seq<ContentEntry>>)
      requires Valid() && |profile| == dim
      ensures r == RecommendationFromProfile(profile, n, exclude)
    {
      if n <= 0 {
        return Some([]);
      }
      ValidIndex();
      var base := RowScores(profile);
      var scores := new Score[|base|](p requires 0 <= p < |base| => base[p]);
      assert scores[..] == base;
      ExcludeIds(scores, movieIndex, exclude);
      ghost var excluded := ExcludedScores(profile, exclude);
      assert scores[..] == excluded;
      var m := if n < scores.Length then n else scores.Length;
      var top := ArgPartitionTop(scores[..], m);
      if top.None? {
        return None;
      }
      r := Some(Format(top.value, scores[..]));
    }

    /** For `n > 0` and a non-empty matrix the entries are a top-`min(n, #rows)`
        selection of the excluded score vector, in non-increasing score order,
        each labelled with the string form of its row's movie id. */
    lemma RecommendationIsTopN(profile: seq<real>, n: int, exclude: seq<int>)
      requires Valid() && |profile| == dim && n > 0 && |matrix| > 0
      ensures var scores := ExcludedScores(profile, exclude);
        var m := if n < |matrix| then n else |matrix|;
        && ArgPartitionTop(scores, m).Some?
        && IsTopN(scores, ArgPartitionTop(scores, m).value, m)
        && RecommendationFromProfile(profile, n, exclude) == Some(Format(ArgPartitionTop(scores, m).value, scores))
    {
    }

    /** An excluded row is returned only after every row that is not excluded. */
    lemma ExcludedReturnedLast(profile: seq<real>, n: int, exclude: seq<int>)
      requires Valid() && |profile| == dim && n > 0 && |matrix| > 0
      ensures var scores := ExcludedScores(profile, exclude);
        var m := if n < |matrix| then n else |matrix|;
        var top := ArgPartitionTop(scores, m).value;
        var ks := Resolve(movieIndex, exclude);
        forall a, p :: 0 <= a < |top| && top[a] in ks && 0 <= p < |matrix| && p !in ks ==> p in top
    {
      var m := if n < |matrix| then n else |matrix|;
      ExcludedRankLast(RowScores(profile), Resolve(movieIndex, exclude), ArgPartitionTop(ExcludedScores(profile, exclude), m).value, m);
    }

    /** Ids the index does not know do not change the exclusion. */
    lemma UnknownExclusionIgnored(profile: seq<real>, exclude: seq<int>, x: int)
      requires Valid() && |profile| == dim && x !in movieIndex
      ensures ExcludedScores(profile, exclude + [x]) == ExcludedScores(profile, exclude)
    {
      ResolveAppend(movieIndex, exclude, [x]);
      ResolveSingle(movieIndex, x);
      assert Resolve(movieIndex, exclude + [x]) == Resolve(movieIndex, exclude);
    }
  }
}
