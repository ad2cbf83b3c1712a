/** Turning rating triples into the collaborative-filtering model
    (`ml/training/train_cf.py`): dense id indices, the rating matrix and its
    mask, the means, the mean-centred matrix handed to the SVD, and the model
    record that `main` assembles. */
module TrainCf {
  import opened Common
  import opened Seqs
  import opened RatingsIo

  // ---------------------------------------------------------------------------
  // build_mappings

  /** The index map `build_mappings` grows over `ids`: each id not seen before
      gets the number of ids seen so far. */
  function FirstSeen(ids: seq<string>): map<string, nat>
  {
    if ids == [] then map[]
    else
      var prev := FirstSeen(ids[..|ids| - 1]);
      var x := ids[|ids| - 1];
      if x in prev then prev else prev[x := |prev|]
  }

  /** Reading one more id: a new id gets the next index, a known one changes nothing. */
  lemma FirstSeenSnoc(ids: seq<string>, j: nat)
    requires j < |ids|
    ensures FirstSeen(ids[..j + 1]) ==
      (if ids[j] in FirstSeen(ids[..j]) then FirstSeen(ids[..j])
       else FirstSeen(ids[..j])[ids[j] := |FirstSeen(ids[..j])|])
  {
    var pre := ids[..j + 1];
    assert pre[..|pre| - 1] == ids[..j] && pre[|pre| - 1] == ids[j];
  }

  /** The keys are exactly the ids that occur. */
  lemma {:induction false} FirstSeenKeys(ids: seq<string>)
    ensures forall x :: x in FirstSeen(ids) <==> x in ids
  {
    if ids != [] {
      FirstSeenKeys(ids[..|ids| - 1]);
      assert ids == ids[..|ids| - 1] + [ids[|ids| - 1]];
    }
  }

  /** `m` numbers its keys densely: every value is below the number of keys,
      distinct keys get distinct values, and every value below that number is
      taken, so `m` is a bijection from its keys onto `[0, |m|)`. */
  ghost predicate DenseIndex<K>(m: map<K, nat>)
  {
    && (forall x :: x in m ==> m[x] < |m|)
    && (forall x, y :: x in m && y in m && m[x] == m[y] ==> x == y)
    && (forall v :: 0 <= v < |m| ==> v in m.Values)
  }

  lemma {:induction false} FirstSeenDense(ids: seq<string>)
    ensures DenseIndex(FirstSeen(ids))
  {
    if ids != [] {
      var prev := FirstSeen(ids[..|ids| - 1]);
      var x := ids[|ids| - 1];
      FirstSeenDense(ids[..|ids| - 1]);
      if x !in prev {
        var m := prev[x := |prev|];
        assert |m| == |prev| + 1;
        forall v | 0 <= v < |m| ensures v in m.Values {
          if v == |prev| {
            assert m[x] == v;
          } else {
            assert v in prev.Values;
            var y :| y in prev && prev[y] == v;
            assert m[y] == v;
          }
        }
      }
    }
  }

  /** Indices already given out never change as more ids are read. */
  lemma {:induction false} FirstSeenExtends(ids: seq<string>, j: nat)
    requires j <= |ids|
    ensures forall x :: x in FirstSeen(ids[..j]) ==> x in FirstSeen(ids) && FirstSeen(ids)[x] == FirstSeen(ids[..j])[x]
  {
    if j < |ids| {
      assert ids[..|ids| - 1][..j] == ids[..j];
      FirstSeenExtends(ids[..|ids| - 1], j);
    } else {
      assert ids[..j] == ids;
    }
  }

  /** At its first occurrence at position `j`, an id receives the number of
      distinct ids before `j`, and that number grows by one. */
  lemma FirstSeenAssigns(ids: seq<string>, j: nat)
    requires j < |ids| && ids[j] !in ids[..j]
    ensures ids[j] in FirstSeen(ids) && FirstSeen(ids)[ids[j]] == |FirstSeen(ids[..j])|
    ensures |FirstSeen(ids[..j + 1])| == |FirstSeen(ids[..j])| + 1
  {
    var pre := ids[..j + 1];
    assert pre[..|pre| - 1] == ids[..j] && pre[|pre| - 1] == ids[j];
    FirstSeenKeys(ids[..j]);
    assert ids[j] !in FirstSeen(ids[..j]);
    FirstSeenExtends(ids, j + 1);
  }

  /** Reading one more id never loses one. */
  lemma FirstSeenStep(ids: seq<string>)
    requires ids != []
    ensures |FirstSeen(ids[..|ids| - 1])| <= |FirstSeen(ids)|
  {
    var prev := FirstSeen(ids[..|ids| - 1]);
    var x := ids[|ids| - 1];
    if x !in prev {
      assert |prev[x := |prev|]| == |prev| + 1;
    }
  }

  /** The number of distinct ids seen never decreases along the list. */
  lemma {:induction false} FirstSeenGrows(ids: seq<string>, j: nat)
    requires j <= |ids|
    ensures |FirstSeen(ids[..j])| <= |FirstSeen(ids)|
  {
    if j < |ids| {
      var init := ids[..|ids| - 1];
      FirstSeenGrows(init, j);
      assert init[..j] == ids[..j];
      FirstSeenStep(ids);
    } else {
      assert ids[..j] == ids;
    }
  }

  /** ... and so between any two prefixes. */
  lemma FirstSeenGrowsTo(ids: seq<string>, j: nat, k: nat)
    requires j <= k <= |ids|
    ensures |FirstSeen(ids[..j])| <= |FirstSeen(ids[..k])|
  {
    FirstSeenGrows(ids[..k], j);
    assert ids[..k][..j] == ids[..j];
  }

  /** Indices follow the order of first occurrence. */
  lemma FirstSeenOrdered(ids: seq<string>, j: nat, k: nat)
    requires j < k < |ids| && ids[j] !in ids[..j] && ids[k] !in ids[..k]
    ensures ids[j] in FirstSeen(ids) && ids[k] in FirstSeen(ids) && FirstSeen(ids)[ids[j]] < FirstSeen(ids)[ids[k]]
  {
    FirstSeenAssigns(ids, j);
    FirstSeenAssigns(ids, k);
    FirstSeenGrowsTo(ids, j + 1, k);
  }

  function UserIds(ratings: seq<Rating>): (r: seq<string>)
    ensures |r| == |ratings| && forall k :: 0 <= k < |r| ==> r[k] == ratings[k].userId
  {
    seq(|ratings|, k requires 0 <= k < |ratings| => ratings[k].userId)
  }

  function MovieIds(ratings: seq<Rating>): (r: seq<string>)
    ensures |r| == |ratings| && forall k :: 0 <= k < |r| ==> r[k] == ratings[k].movieId
  {
    seq(|ratings|, k requires 0 <= k < |ratings| => ratings[k].movieId)
  }

  /** `build_mappings`: one pass over the triples grows both index maps. */
  method BuildMappings(ratings: seq<Rating>) returns (userIndex: map<string, nat>, itemIndex: map<string, nat>)
    ensures userIndex == FirstSeen(UserIds(ratings))
    ensures itemIndex == FirstSeen(MovieIds(ratings))
    ensures DenseIndex(userIndex) && DenseIndex(itemIndex)
    ensures forall x :: x in userIndex <==> exists k :: 0 <= k < |ratings| && ratings[k].userId == x
    ensures forall x :: x in itemIndex <==> exists k :: 0 <= k < |ratings| && ratings[k].movieId == x
  {
    userIndex, itemIndex := map[], map[];
    var j := 0;
    while j < |ratings|
      invariant 0 <= j <= |ratings|
      invariant userIndex == FirstSeen(UserIds(ratings)[..j])
      invariant itemIndex == FirstSeen(MovieIds(ratings)[..j])
    {
      FirstSeenSnoc(UserIds(ratings), j);
      FirstSeenSnoc(MovieIds(ratings), j);
      var r := ratings[j];
      if r.userId !in userIndex {
        userIndex := userIndex[r.userId := |userIndex|];
      }
      if r.movieId !in itemIndex {
        itemIndex := itemIndex[r.movieId := |itemIndex|];
      }
      j := j + 1;
    }
    assert UserIds(ratings)[..j] == UserIds(ratings);
    assert MovieIds(ratings)[..j] == MovieIds(ratings);
    UserIndexShape(ratings);
    ItemIndexShape(ratings);
  }

  /** The user index is dense and keyed by the users that occur. */
  lemma UserIndexShape(ratings: seq<Rating>)
    ensures DenseIndex(FirstSeen(UserIds(ratings)))
    ensures forall x :: x in FirstSeen(UserIds(ratings)) <==> exists k :: 0 <= k < |ratings| && ratings[k].userId == x
  {
    var ids := UserIds(ratings);
    FirstSeenDense(ids);
    FirstSeenKeys(ids);
    forall x ensures x in ids <==> exists k :: 0 <= k < |ratings| && ratings[k].userId == x {
      if x in ids {
        var k :| 0 <= k < |ids| && ids[k] == x;
      }
    }
  }

  /** The item index is dense and keyed by the movies that occur. */
  lemma ItemIndexShape(ratings: seq<Rating>)
    ensures DenseIndex(FirstSeen(MovieIds(ratings)))
    ensures forall x :: x in FirstSeen(MovieIds(ratings)) <==> exists k :: 0 <= k < |ratings| && ratings[k].movieId == x
  {
    var ids := MovieIds(ratings);
    FirstSeenDense(ids);
    FirstSeenKeys(ids);
    forall x ensures x in ids <==> exists k :: 0 <= k < |ratings| && ratings[k].movieId == x {
      if x in ids {
        var k :| 0 <= k < |ids| && ids[k] == x;
      }
    }
  }

  /** `{idx: key for key, idx in m.items()}`; defined when `m` is injective, as
      every map `build_mappings` returns is. */
  function Invert(m: map<string, nat>): (r: map<nat, string>)
    requires forall x, y :: x in m && y in m && m[x] == m[y] ==> x == y
    ensures forall x :: x in m ==> m[x] in r && r[m[x]] == x
    ensures forall v :: v in r ==> r[v] in m && m[r[v]] == v
  {
    map x | x in m :: m[x] := x
  }

  /** The inverse of a dense index is keyed by exactly `[0, |m|)`. */
  lemma InvertDense(m: map<string, nat>)
    requires DenseIndex(m)
    ensures forall v :: v in Invert(m) <==> 0 <= v < |m|
  {
    forall v ensures v in Invert(m) <==> 0 <= v < |m| {
      if 0 <= v < |m| {
        assert v in m.Values;
        var x :| x in m && m[x] == v;
      }
    }
  }

  // ---------------------------------------------------------------------------
  // build_matrix

  /** Every triple's ids are keys of the index maps. */
  ghost predicate Indexed(ratings: seq<Rating>, userIndex: map<string, nat>, itemIndex: map<string, nat>)
  {
    forall k :: 0 <= k < |ratings| ==>
      && ratings[k].userId in userIndex && userIndex[ratings[k].userId] < |userIndex|
      && ratings[k].movieId in itemIndex && itemIndex[ratings[k].movieId] < |itemIndex|
  }

  /** The triple `r` writes cell `(u, i)`. */
  predicate Writes(r: Rating, userIndex: map<string, nat>, itemIndex: map<string, nat>, u: nat, i: nat)
  {
    r.userId in userIndex && userIndex[r.userId] == u && r.movieId in itemIndex && itemIndex[r.movieId] == i
  }

  /** The rating the last triple writing cell `(u, i)` carries, if any. */
  function LastWrite(ratings: seq<Rating>, userIndex: map<string, nat>, itemIndex: map<string, nat>, u: nat, i: nat): Option<real>
  {
    if ratings == [] then None
    else if Writes(ratings[|ratings| - 1], userIndex, itemIndex, u, i) then Some(ratings[|ratings| - 1].rating)
    else LastWrite(ratings[..|ratings| - 1], userIndex, itemIndex, u, i)
  }

  /** A cell is written iff some triple writes it. */
  lemma {:induction false} LastWriteNone(ratings: seq<Rating>, userIndex: map<string, nat>, itemIndex: map<string, nat>, u: nat, i: nat)
    ensures LastWrite(ratings, userIndex, itemIndex, u, i).None?
        <==> forall k :: 0 <= k < |ratings| ==> !Writes(ratings[k], userIndex, itemIndex, u, i)
  {
    if ratings != [] {
      var init := ratings[..|ratings| - 1];
      LastWriteNone(init, userIndex, itemIndex, u, i);
      assert forall k :: 0 <= k < |init| ==> init[k] == ratings[k];
    }
  }

  /** Last write wins: the cell holds the rating of the last triple writing it. */
  lemma {:induction false} LastWriteWins(ratings: seq<Rating>, userIndex: map<string, nat>, itemIndex: map<string, nat>,
                                         u: nat, i: nat, k: nat)
    requires k < |ratings| && Writes(ratings[k], userIndex, itemIndex, u, i)
    requires forall k' :: k < k' < |ratings| ==> !Writes(ratings[k'], userIndex, itemIndex, u, i)
    ensures LastWrite(ratings, userIndex, itemIndex, u, i) == Some(ratings[k].rating)
  {
    if k < |ratings| - 1 {
      var init := ratings[..|ratings| - 1];
      assert !Writes(ratings[|ratings| - 1], userIndex, itemIndex, u, i);
      LastWriteWins(init, userIndex, itemIndex, u, i, k);
    }
  }

  /** One more triple changes only the cell it writes. */
  lemma LastWriteSnoc(ratings: seq<Rating>, userIndex: map<string, nat>, itemIndex: map<string, nat>, j: nat)
    requires j < |ratings|
    ensures forall u: nat, i: nat ::
              LastWrite(ratings[..j + 1], userIndex, itemIndex, u, i) ==
              (if Writes(ratings[j], userIndex, itemIndex, u, i) then Some(ratings[j].rating)
               else LastWrite(ratings[..j], userIndex, itemIndex, u, i))
  {
    var pre := ratings[..j + 1];
    assert pre[..|pre| - 1] == ratings[..j] && pre[|pre| - 1] == ratings[j];
  }

  /** A prefix of indexed triples is indexed. */
  lemma IndexedPrefix(ratings: seq<Rating>, userIndex: map<string, nat>, itemIndex: map<string, nat>, j: nat)
    requires Indexed(ratings, userIndex, itemIndex) && j <= |ratings|
    ensures Indexed(ratings[..j], userIndex, itemIndex)
  {
    assert forall k :: 0 <= k < j ==> ratings[..j][k] == ratings[k];
  }

  /** The value stored in a cell: the last rating written, else the initial 0. */
  function CellValue(w: Option<real>): real
  {
    match w
    case None => 0.0
    case Some(x) => x
  }

  /** `rated_items` after the triples: for each user index with a rating, the
      item indices it rated. */
  function RatedItems(ratings: seq<Rating>, userIndex: map<string, nat>, itemIndex: map<string, nat>): map<nat, set<nat>>
    requires Indexed(ratings, userIndex, itemIndex)
  {
    if ratings == [] then map[]
    else
      var prev := RatedItems(ratings[..|ratings| - 1], userIndex, itemIndex);
      var r := ratings[|ratings| - 1];
      var u := userIndex[r.userId];
      prev[u := (if u in prev then prev[u] else {}) + {itemIndex[r.movieId]}]
  }

  lemma RatedItemsSnoc(ratings: seq<Rating>, userIndex: map<string, nat>, itemIndex: map<string, nat>, j: nat)
    requires Indexed(ratings, userIndex, itemIndex) && j < |ratings|
    ensures Indexed(ratings[..j], userIndex, itemIndex) && Indexed(ratings[..j + 1], userIndex, itemIndex)
    ensures var prev, u := RatedItems(ratings[..j], userIndex, itemIndex), userIndex[ratings[j].userId];
      RatedItems(ratings[..j + 1], userIndex, itemIndex) == prev[u := (if u in prev then prev[u] else {}) + {itemIndex[ratings[j].movieId]}]
  {
    IndexedPrefix(ratings, userIndex, itemIndex, j);
    IndexedPrefix(ratings, userIndex, itemIndex, j + 1);
    var pre := ratings[..j + 1];
    assert pre[..|pre| - 1] == ratings[..j] && pre[|pre| - 1] == ratings[j];
  }

  /** `rated_items[u]` is exactly the set of items whose mask cell is set in row
      `u`, and only users with at least one rating have a key. */
  lemma {:induction false} RatedItemsMatchMask(ratings: seq<Rating>, userIndex: map<string, nat>, itemIndex: map<string, nat>)
    requires Indexed(ratings, userIndex, itemIndex)
    ensures forall u: nat, i: nat :: (u in RatedItems(ratings, userIndex, itemIndex) && i in RatedItems(ratings, userIndex, itemIndex)[u])
                       <==> LastWrite(ratings, userIndex, itemIndex, u, i).Some?
    ensures forall u :: u in RatedItems(ratings, userIndex, itemIndex) ==> RatedItems(ratings, userIndex, itemIndex)[u] != {}
  {
    if ratings != [] {
      var init := ratings[..|ratings| - 1];
      assert Indexed(init, userIndex, itemIndex);
      RatedItemsMatchMask(init, userIndex, itemIndex);
      var r := ratings[|ratings| - 1];
      assert forall u: nat, i: nat :: Writes(r, userIndex, itemIndex, u, i) <==> u == userIndex[r.userId] && i == itemIndex[r.movieId];
    }
  }

  lemma {:induction false} RatedItemsBounded(ratings: seq<Rating>, userIndex: map<string, nat>, itemIndex: map<string, nat>)
    requires Indexed(ratings, userIndex, itemIndex)
    ensures forall u, i :: u in RatedItems(ratings, userIndex, itemIndex) && i in RatedItems(ratings, userIndex, itemIndex)[u]
                           ==> i < |itemIndex|
  {
    if ratings != [] {
      assert Indexed(ratings[..|ratings| - 1], userIndex, itemIndex);
      RatedItemsBounded(ratings[..|ratings| - 1], userIndex, itemIndex);
    }
  }

  /** The two arrays hold the cells the triples `ratings` have written. */
  ghost predicate CellsHold(matrix: array2<real>, mask: array2<bool>, ratings: seq<Rating>,
                            userIndex: map<string, nat>, itemIndex: map<string, nat>)
    reads matrix, mask
  {
    && matrix.Length0 == mask.Length0 == |userIndex| && matrix.Length1 == mask.Length1 == |itemIndex|
    && (forall u: nat, i: nat :: u < |userIndex| && i < |itemIndex| ==>
          mask[u, i] == LastWrite(ratings, userIndex, itemIndex, u, i).Some?)
    && (forall u: nat, i: nat :: u < |userIndex| && i < |itemIndex| ==>
          matrix[u, i] == CellValue(LastWrite(ratings, userIndex, itemIndex, u, i)))
  }

  /** `build_matrix`: both arrays start at zero / false and each triple writes its
      cell in order; `rated_items` collects the written cells per row. */
  method BuildMatrix(ratings: seq<Rating>, userIndex: map<string, nat>, itemIndex: map<string, nat>)
    returns (matrix: array2<real>, mask: array2<bool>, ratedItems: map<nat, set<nat>>)
    requires Indexed(ratings, userIndex, itemIndex)
    ensures fresh(matrix) && fresh(mask)
    ensures matrix.Length0 == mask.Length0 == |userIndex| && matrix.Length1 == mask.Length1 == |itemIndex|
    ensures forall u: nat, i: nat :: u < |userIndex| && i < |itemIndex| ==>
      mask[u, i] == LastWrite(ratings, userIndex, itemIndex, u, i).Some?
    ensures forall u: nat, i: nat :: u < |userIndex| && i < |itemIndex| ==>
      matrix[u, i] == CellValue(LastWrite(ratings, userIndex, itemIndex, u, i))
    ensures ratedItems == RatedItems(ratings, userIndex, itemIndex)
  {
    matrix := new real[|userIndex|, |itemIndex|]((u, i) => 0.0);
    mask := new bool[|userIndex|, |itemIndex|]((u, i) => false);
    ratedItems := map[];
    var j := 0;
    while j < |ratings|
      invariant 0 <= j <= |ratings|
      invariant CellsHold(matrix, mask, ratings[..j], userIndex, itemIndex)
      invariant ratedItems == RatedItems(ratings[..j], userIndex, itemIndex)
    {
      var u := userIndex[ratings[j].userId];
      RatedItemsSnoc(ratings, userIndex, itemIndex, j);
      WriteTriple(matrix, mask, ratings, userIndex, itemIndex, j);
      ratedItems := ratedItems[u := (if u in ratedItems then ratedItems[u] else {}) + {itemIndex[ratings[j].movieId]}];
      j := j + 1;
    }
    assert ratings[..j] == ratings;
  }

  /** One step of `build_matrix`: triple `j` writes its rating and its mask bit. */
  method WriteTriple(matrix: array2<real>, mask: array2<bool>, ratings: seq<Rating>,
                     userIndex: map<string, nat>, itemIndex: map<string, nat>, j: nat)
    requires Indexed(ratings, userIndex, itemIndex) && j < |ratings|
    requires CellsHold(matrix, mask, ratings[..j], userIndex, itemIndex)
    modifies matrix, mask
    ensures CellsHold(matrix, mask, ratings[..j + 1], userIndex, itemIndex)
  {
    var r := ratings[j];
    var u := userIndex[r.userId];
    var i := itemIndex[r.movieId];
    LastWriteSnoc(ratings, userIndex, itemIndex, j);
    matrix[u, i] := r.rating;
    mask[u, i] := true;
    forall u': nat, i': nat | u' < |userIndex| && i' < |itemIndex|
      ensures mask[u', i'] == LastWrite(ratings[..j + 1], userIndex, itemIndex, u', i').Some?
      ensures matrix[u', i'] == CellValue(LastWrite(ratings[..j + 1], userIndex, itemIndex, u', i'))
    {
      if u' != u || i' != i {
        assert !Writes(r, userIndex, itemIndex, u', i');
      }
    }
  }

  // ---------------------------------------------------------------------------
  // compute_means

  /** The contents of a 2-D array, row by row. */
  function Grid<T>(a: array2<T>): (g: seq<seq<T>>)
    reads a
    ensures |g| == a.Length0
    ensures forall u :: 0 <= u < |g| ==> |g[u]| == a.Length1 && forall i :: 0 <= i < a.Length1 ==> g[u][i] == a[u, i]
  {
    seq(a.Length0, u requires 0 <= u < a.Length0 reads a =>
      seq(a.Length1, i requires 0 <= i < a.Length1 reads a => a[u, i]))
  }

  /** Every row of `g` has `w` entries. */
  ghost predicate Rect<T>(g: seq<seq<T>>, w: nat)
  {
    forall u :: 0 <= u < |g| ==> |g[u]| == w
  }

  /** Column `i` of a rectangular grid. */
  function Column<T>(g: seq<seq<T>>, w: nat, i: nat): (c: seq<T>)
    requires Rect(g, w) && i < w
    ensures |c| == |g| && forall u :: 0 <= u < |g| ==> c[u] == g[u][i]
  {
    seq(|g|, u requires 0 <= u < |g| => g[u][i])
  }

  /** The sum and the number of the entries of `vals` whose mask entry is set:
      numpy's `vals[keep].sum()` and `keep.sum()`. */
  function MaskedSum(vals: seq<real>, keep: seq<bool>): real
    requires |vals| == |keep|
  {
    if vals == [] then 0.0
    else MaskedSum(vals[..|vals| - 1], keep[..|keep| - 1]) + (if keep[|keep| - 1] then vals[|vals| - 1] else 0.0)
  }

  function MaskedCount(keep: seq<bool>): nat
  {
    if keep == [] then 0 else MaskedCount(keep[..|keep| - 1]) + (if keep[|keep| - 1] then 1 else 0)
  }

  /** `vals[keep].mean()` when some entry is kept (`keep.any()`), else `fallback`. */
  function MaskedMean(vals: seq<real>, keep: seq<bool>, fallback: real): real
    requires |vals| == |keep|
  {
    if MaskedCount(keep) > 0 then MaskedSum(vals, keep) / (MaskedCount(keep) as real) else fallback
  }

  /** The rows of a grid laid end to end, as numpy's boolean indexing
      `matrix[mask]` visits them. */
  function Flatten<T>(g: seq<seq<T>>): seq<T>
  {
    if g == [] then [] else Flatten(g[..|g| - 1]) + g[|g| - 1]
  }

  /** Two grids of the same shape flatten to lists of the same length. */
  lemma {:induction false} FlattenSameShape<S, T>(g: seq<seq<S>>, m: seq<seq<T>>)
    requires |g| == |m| && forall u :: 0 <= u < |g| ==> |g[u]| == |m[u]|
    ensures |Flatten(g)| == |Flatten(m)|
  {
    if g != [] {
      FlattenSameShape(g[..|g| - 1], m[..|m| - 1]);
    }
  }

  /** `rating_sum / rating_count if rating_count else 0.0`, over `matrix[mask]`. */
  function GlobalMean(g: seq<seq<real>>, m: seq<seq<bool>>): real
    requires |g| == |m| && forall u :: 0 <= u < |g| ==> |g[u]| == |m[u]|
  {
    FlattenSameShape(g, m);
    MaskedMean(Flatten(g), Flatten(m), 0.0)
  }

  lemma {:induction false} MaskedSumNonNegative(vals: seq<real>, keep: seq<bool>)
    requires |vals| == |keep| && forall i :: 0 <= i < |vals| && keep[i] ==> vals[i] >= 0.0
    ensures MaskedSum(vals, keep) >= 0.0
  {
    if vals != [] {
      MaskedSumNonNegative(vals[..|vals| - 1], keep[..|keep| - 1]);
    }
  }

  lemma {:induction false} MaskedSumNonPositive(vals: seq<real>, keep: seq<bool>)
    requires |vals| == |keep| && forall i :: 0 <= i < |vals| && keep[i] ==> vals[i] <= 0.0
    ensures MaskedSum(vals, keep) <= 0.0
  {
    if vals != [] {
      MaskedSumNonPositive(vals[..|vals| - 1], keep[..|keep| - 1]);
    }
  }

  lemma MaskedSumBounds(vals: seq<real>, keep: seq<bool>, lo: real, hi: real)
    requires |vals| == |keep| && forall i :: 0 <= i < |vals| && keep[i] ==> lo <= vals[i] <= hi
    ensures Scaled(lo, MaskedCount(keep)) <= MaskedSum(vals, keep) <= Scaled(hi, MaskedCount(keep))
  {
    MaskedSumAtLeast(vals, keep, lo);
    MaskedSumAtMost(vals, keep, hi);
  }

  lemma MaskedSumAtLeast(vals: seq<real>, keep: seq<bool>, lo: real)
    requires |vals| == |keep| && forall i :: 0 <= i < |vals| && keep[i] ==> lo <= vals[i]
    ensures Scaled(lo, MaskedCount(keep)) <= MaskedSum(vals, keep)
  {
    CentredRowSum(vals, keep, lo);
    MaskedSumNonNegative(CentredRow(vals, keep, lo), keep);
  }

  lemma MaskedSumAtMost(vals: seq<real>, keep: seq<bool>, hi: real)
    requires |vals| == |keep| && forall i :: 0 <= i < |vals| && keep[i] ==> vals[i] <= hi
    ensures MaskedSum(vals, keep) <= Scaled(hi, MaskedCount(keep))
  {
    CentredRowSum(vals, keep, hi);
    MaskedSumNonPositive(CentredRow(vals, keep, hi), keep);
  }

  /** A quotient of a sum bounded by `count` multiples of `lo` and `hi`. */
  lemma QuotientBounds(sum: real, count: nat, lo: real, hi: real)
    requires count > 0 && lo * (count as real) <= sum <= hi * (count as real)
    ensures lo <= sum / (count as real) <= hi
  {
    var c := count as real;
    var q := sum / c;
    assert q * c == sum;
    assert (q - lo) * c >= 0.0;
    assert (hi - q) * c >= 0.0;
  }

  lemma QuotientBoundsScaled(sum: real, count: nat, lo: real, hi: real)
    requires count > 0 && Scaled(lo, count) <= sum <= Scaled(hi, count)
    ensures lo <= sum / (count as real) <= hi
  {
    ScaledIsProduct(lo, count);
    ScaledIsProduct(hi, count);
    QuotientBounds(sum, count, lo, hi);
  }

  /** A mean of kept ratings lies within the range of those ratings; with nothing
      kept it is the fallback. */
  lemma MaskedMeanBounds(vals: seq<real>, keep: seq<bool>, fallback: real, lo: real, hi: real)
    requires |vals| == |keep| && forall i :: 0 <= i < |vals| && keep[i] ==> lo <= vals[i] <= hi
    ensures MaskedCount(keep) > 0 ==> lo <= MaskedMean(vals, keep, fallback) <= hi
    ensures MaskedCount(keep) == 0 ==> MaskedMean(vals, keep, fallback) == fallback
  {
    if MaskedCount(keep) > 0 {
      MaskedSumBounds(vals, keep, lo, hi);
      QuotientBoundsScaled(MaskedSum(vals, keep), MaskedCount(keep), lo, hi);
    }
  }

  /** A bound on every observed cell of a grid holds on every observed entry of
      its flattening. */
  lemma {:induction false} FlattenBounds(g: seq<seq<real>>, m: seq<seq<bool>>, lo: real, hi: real)
    requires |g| == |m| && forall u :: 0 <= u < |g| ==> |g[u]| == |m[u]|
    requires forall u, i :: 0 <= u < |g| && 0 <= i < |g[u]| && m[u][i] ==> lo <= g[u][i] <= hi
    ensures |Flatten(g)| == |Flatten(m)|
    ensures forall k :: 0 <= k < |Flatten(g)| && Flatten(m)[k] ==> lo <= Flatten(g)[k] <= hi
  {
    FlattenSameShape(g, m);
    if g != [] {
      var n := |g| - 1;
      FlattenBounds(g[..n], m[..n], lo, hi);
      FlattenSameShape(g[..n], m[..n]);
      var f, fm := Flatten(g[..n]), Flatten(m[..n]);
      assert Flatten(g) == f + g[n] && Flatten(m) == fm + m[n];
      forall k | 0 <= k < |Flatten(g)| && Flatten(m)[k] ensures lo <= Flatten(g)[k] <= hi {
        if k >= |f| {
          assert Flatten(g)[k] == g[n][k - |f|] && Flatten(m)[k] == m[n][k - |f|];
        }
      }
    }
  }

  /** The global mean lies within the range of the observed ratings, and is 0.0
      when nothing is observed. */
  lemma GlobalMeanBounds(g: seq<seq<real>>, m: seq<seq<bool>>, lo: real, hi: real)
    requires |g| == |m| && forall u :: 0 <= u < |g| ==> |g[u]| == |m[u]|
    requires forall u, i :: 0 <= u < |g| && 0 <= i < |g[u]| && m[u][i] ==> lo <= g[u][i] <= hi
    ensures MaskedCount(Flatten(m)) > 0 ==> lo <= GlobalMean(g, m) <= hi
    ensures MaskedCount(Flatten(m)) == 0 ==> GlobalMean(g, m) == 0.0
  {
    FlattenBounds(g, m, lo, hi);
    MaskedMeanBounds(Flatten(g), Flatten(m), 0.0, lo, hi);
  }

  /** `compute_means`: the global mean from the whole masked matrix, then each
      user's and each item's mean filled in by index. */
  method ComputeMeans(matrix: array2<real>, mask: array2<bool>)
    returns (userMeans: array<real>, itemMeans: array<real>, globalMean: real)
    requires matrix.Length0 == mask.Length0 && matrix.Length1 == mask.Length1
    ensures fresh(userMeans) && fresh(itemMeans)
    ensures userMeans.Length == matrix.Length0 && itemMeans.Length == matrix.Length1
    ensures globalMean == GlobalMean(Grid(matrix), Grid(mask))
    ensures forall u :: 0 <= u < userMeans.Length ==>
      userMeans[u] == MaskedMean(Grid(matrix)[u], Grid(mask)[u], globalMean)
    ensures forall i :: 0 <= i < itemMeans.Length ==>
      itemMeans[i] == MaskedMean(Column(Grid(matrix), matrix.Length1, i), Column(Grid(mask), matrix.Length1, i), globalMean)
  {
    var g := Grid(matrix);
    var m := Grid(mask);
    var w := matrix.Length1;
    assert |g| == |m| && Rect(g, w) && Rect(m, w);
    globalMean := GlobalMean(g, m);
    userMeans := UserMeans(g, m, globalMean);
    itemMeans := ItemMeans(g, m, w, globalMean);
  }

  /** `user_means[u]`, filled in row by row. */
  method UserMeans(g: seq<seq<real>>, m: seq<seq<bool>>, globalMean: real) returns (userMeans: array<real>)
    requires |g| == |m| && forall u :: 0 <= u < |g| ==> |g[u]| == |m[u]|
    ensures fresh(userMeans) && userMeans.Length == |g|
    ensures forall u :: 0 <= u < |g| ==> userMeans[u] == MaskedMean(g[u], m[u], globalMean)
  {
    userMeans := new real[|g|];
    for u := 0 to |g|
      invariant forall v :: 0 <= v < u ==> userMeans[v] == MaskedMean(g[v], m[v], globalMean)
    {
      userMeans[u] := MaskedMean(g[u], m[u], globalMean);
    }
  }

  /** `item_means[i]`, filled in column by column. */
  method ItemMeans(g: seq<seq<real>>, m: seq<seq<bool>>, w: nat, globalMean: real) returns (itemMeans: array<real>)
    requires |g| == |m| && Rect(g, w) && Rect(m, w)
    ensures fresh(itemMeans) && itemMeans.Length == w
    ensures forall i :: 0 <= i < w ==> itemMeans[i] == MaskedMean(Column(g, w, i), Column(m, w, i), globalMean)
  {
    itemMeans := new real[w];
    for i := 0 to w
      invariant forall k :: 0 <= k < i ==> itemMeans[k] == MaskedMean(Column(g, w, k), Column(m, w, k), globalMean)
    {
      itemMeans[i] := MaskedMean(Column(g, w, i), Column(m, w, i), globalMean);
    }
  }

  // ---------------------------------------------------------------------------
  // train_svd: centring and the rank clamp

  /** `centered = matrix - user_means[:, None]; centered[~mask] = 0.0`. */
  method Centre(matrix: array2<real>, mask: array2<bool>, userMeans: seq<real>) returns (centered: array2<real>)
    requires matrix.Length0 == mask.Length0 == |userMeans| && matrix.Length1 == mask.Length1
    ensures fresh(centered)
    ensures centered.Length0 == matrix.Length0 && centered.Length1 == matrix.Length1
    ensures forall u, i :: 0 <= u < matrix.Length0 && 0 <= i < matrix.Length1 ==>
      centered[u, i] == if mask[u, i] then matrix[u, i] - userMeans[u] else 0.0
  {
    centered := new real[matrix.Length0, matrix.Length1]((u, i) reads matrix
      requires 0 <= u < matrix.Length0 && 0 <= i < matrix.Length1 => matrix[u, i] - userMeans[u]);
    for u := 0 to matrix.Length0
      invariant forall v, i :: 0 <= v < u && 0 <= i < matrix.Length1 ==>
        centered[v, i] == if mask[v, i] then matrix[v, i] - userMeans[v] else 0.0
      invariant forall v, i :: u <= v < matrix.Length0 && 0 <= i < matrix.Length1 ==>
        centered[v, i] == matrix[v, i] - userMeans[v]
    {
      for i := 0 to matrix.Length1
        invariant forall v, k :: 0 <= v < u && 0 <= k < matrix.Length1 ==>
          centered[v, k] == if mask[v, k] then matrix[v, k] - userMeans[v] else 0.0
        invariant forall k :: 0 <= k < i ==>
          centered[u, k] == if mask[u, k] then matrix[u, k] - userMeans[u] else 0.0
        invariant forall v, k :: u <= v < matrix.Length0 && 0 <= k < matrix.Length1 && (v > u || k >= i) ==>
          centered[v, k] == matrix[v, k] - userMeans[v]
      {
        if !mask[u, i] {
          centered[u, i] := 0.0;
        }
      }
    }
  }

  /** Row `u` after centring, as a list. */
  function CentredRow(vals: seq<real>, keep: seq<bool>, mean: real): (r: seq<real>)
    requires |vals| == |keep|
    ensures |r| == |vals| && forall i :: 0 <= i < |r| ==> r[i] == if keep[i] then vals[i] - mean else 0.0
  {
    seq(|vals|, i requires 0 <= i < |vals| => if keep[i] then vals[i] - mean else 0.0)
  }

  /** `m` added up `n` times. */
  function Scaled(m: real, n: nat): real
  {
    if n == 0 then 0.0 else Scaled(m, n - 1) + m
  }

  lemma {:induction false} ScaledIsProduct(m: real, n: nat)
    ensures Scaled(m, n) == m * (n as real)
  {
    if n > 0 {
      ScaledIsProduct(m, n - 1);
    }
  }

  lemma {:induction false} CentredRowSum(vals: seq<real>, keep: seq<bool>, mean: real)
    requires |vals| == |keep|
    ensures MaskedSum(CentredRow(vals, keep, mean), keep) == MaskedSum(vals, keep) - Scaled(mean, MaskedCount(keep))
  {
    if vals != [] {
      var n := |vals| - 1;
      assert CentredRow(vals, keep, mean)[..n] == CentredRow(vals[..n], keep[..n], mean);
      CentredRowSum(vals[..n], keep[..n], mean);
    }
  }

  /** Centring on the user's own mean leaves every user with at least one rating
      with observed entries that sum to zero. */
  lemma CentredRowSumsToZero(vals: seq<real>, keep: seq<bool>, fallback: real)
    requires |vals| == |keep| && MaskedCount(keep) > 0
    ensures MaskedSum(CentredRow(vals, keep, MaskedMean(vals, keep, fallback)), keep) == 0.0
  {
    CentredRowSum(vals, keep, MaskedMean(vals, keep, fallback));
    MeanScaled(vals, keep, fallback);
  }

  /** The mean of the observed entries, taken as often as there are of them,
      gives back their sum. */
  lemma MeanScaled(vals: seq<real>, keep: seq<bool>, fallback: real)
    requires |vals| == |keep| && MaskedCount(keep) > 0
    ensures Scaled(MaskedMean(vals, keep, fallback), MaskedCount(keep)) == MaskedSum(vals, keep)
  {
    QuotientScaled(MaskedSum(vals, keep), MaskedCount(keep));
  }

  lemma QuotientScaled(sum: real, count: nat)
    requires count > 0
    ensures Scaled(sum / (count as real), count) == sum
  {
    ScaledIsProduct(sum / (count as real), count);
  }

  /** The three factors `np.linalg.svd(..., full_matrices=False)` returns. */
  datatype Factors = Factors(u: seq<seq<real>>, s: seq<real>, vt: seq<seq<real>>)

  /** `k = min(rank, len(s))`, then `U[:, :k]`, `S[:k]`, `Vt[:k, :]` with Python's
      slice semantics. */
  function ClampRank(f: Factors, rank: int): (r: Factors)
    ensures |r.u| == |f.u| && forall a :: 0 <= a < |r.u| ==> r.u[a] == PyPrefix(f.u[a], if rank < |f.s| then rank else |f.s|)
    ensures r.s == PyPrefix(f.s, if rank < |f.s| then rank else |f.s|)
    ensures r.vt == PyPrefix(f.vt, if rank < |f.s| then rank else |f.s|)
  {
    var k := if rank < |f.s| then rank else |f.s|;
    Factors(seq(|f.u|, a requires 0 <= a < |f.u| => PyPrefix(f.u[a], k)), PyPrefix(f.s, k), PyPrefix(f.vt, k))
  }

  /** With a non-negative rank the kept rank is `min(rank, len(s))`: that many
      singular values, at most that many rows of `Vt` and columns of `U`. */
  lemma ClampRankKeeps(f: Factors, rank: nat)
    ensures |ClampRank(f, rank).s| == if rank < |f.s| then rank else |f.s|
    ensures |ClampRank(f, rank).vt| <= |ClampRank(f, rank).s|
    ensures forall a :: 0 <= a < |f.u| ==> |ClampRank(f, rank).u[a]| <= |ClampRank(f, rank).s|
    ensures ClampRank(f, rank).s <= f.s
  {
  }

  /** `train_svd`: centre on the user means, factor with `svd` (an input here),
      keep the clamped rank. */
  method TrainSvd(matrix: array2<real>, mask: array2<bool>, rank: int, svd: seq<seq<real>> -> Factors)
    returns (f: Factors)
    requires matrix.Length0 == mask.Length0 && matrix.Length1 == mask.Length1
    ensures exists c: seq<seq<real>> :: CentredGrid(Grid(matrix), Grid(mask), c) && f == ClampRank(svd(c), rank)
  {
    ghost var g, m := Grid(matrix), Grid(mask);
    var userMeans, _, _ := ComputeMeans(matrix, mask);
    var centered := Centre(matrix, mask, userMeans[..]);
    var c := Grid(centered);
    CentredGridOf(g, m, userMeans[..], c, matrix.Length1);
    f := ClampRank(svd(c), rank);
  }

  /** Cell-by-cell centring on the row means builds the centred grid. */
  lemma CentredGridOf(g: seq<seq<real>>, m: seq<seq<bool>>, means: seq<real>, c: seq<seq<real>>, w: nat)
    requires |g| == |m| == |c| == |means| && Rect(g, w) && Rect(m, w) && Rect(c, w)
    requires forall u :: 0 <= u < |g| ==> means[u] == MaskedMean(g[u], m[u], GlobalMean(g, m))
    requires forall u, i :: 0 <= u < |c| && 0 <= i < w ==> c[u][i] == if m[u][i] then g[u][i] - means[u] else 0.0
    ensures CentredGrid(g, m, c)
  {
    forall u | 0 <= u < |g| ensures c[u] == CentredRow(g[u], m[u], means[u]) {
      assert |c[u]| == |CentredRow(g[u], m[u], means[u])|;
    }
  }

  /** The shapes of `np.linalg.svd(c, full_matrices=False)` for a grid of
      `rows` rows of width `w`: `U` has a row per grid row and a column per
      singular value, `Vt` a row per singular value and a column per grid
      column. */
  ghost predicate SvdShape(rows: nat, w: nat, f: Factors)
  {
    && |f.u| == rows
    && (forall a :: 0 <= a < |f.u| ==> |f.u[a]| == |f.s|)
    && |f.vt| == |f.s|
    && (forall k :: 0 <= k < |f.vt| ==> |f.vt[k]| == w)
  }

  /** `svd` gives those shapes on every grid of width `w`. */
  ghost predicate SvdShaped(svd: seq<seq<real>> -> Factors, w: nat)
  {
    forall c :: Rect(c, w) ==> SvdShape(|c|, w, svd(c))
  }

  /** Cutting the factors to a rank keeps their shapes consistent. */
  lemma ClampRankShape(rows: nat, w: nat, f: Factors, rank: int)
    requires SvdShape(rows, w, f)
    ensures SvdShape(rows, w, ClampRank(f, rank))
  {
    var r := ClampRank(f, rank);
    forall k | 0 <= k < |r.vt| ensures |r.vt[k]| == w {
      assert r.vt[k] == f.vt[k];
    }
  }

  /** The centred grid keeps the shape of the rating grid. */
  lemma CentredGridRect(g: seq<seq<real>>, m: seq<seq<bool>>, c: seq<seq<real>>, w: nat)
    requires CentredGrid(g, m, c) && Rect(g, w)
    ensures |c| == |g| && Rect(c, w)
  {
    forall u | 0 <= u < |c| ensures |c[u]| == w {
      assert c[u] == CentredRow(g[u], m[u], MaskedMean(g[u], m[u], GlobalMean(g, m)));
    }
  }

  /** A written cell lies inside the item range of the index maps. */
  lemma LastWriteBounded(ratings: seq<Rating>, userIndex: map<string, nat>, itemIndex: map<string, nat>, u: nat, i: nat)
    requires Indexed(ratings, userIndex, itemIndex)
    requires LastWrite(ratings, userIndex, itemIndex, u, i).Some?
    ensures i < |itemIndex|
  {
    LastWriteNone(ratings, userIndex, itemIndex, u, i);
    var k :| 0 <= k < |ratings| && Writes(ratings[k], userIndex, itemIndex, u, i);
  }

  /** `c` is `g` centred on its row means with the unobserved cells zeroed. */
  ghost predicate CentredGrid(g: seq<seq<real>>, m: seq<seq<bool>>, c: seq<seq<real>>)
  {
    && |g| == |m| == |c|
    && (forall u :: 0 <= u < |g| ==> |g[u]| == |m[u]|)
    && (forall u :: 0 <= u < |g| ==> c[u] == CentredRow(g[u], m[u], MaskedMean(g[u], m[u], GlobalMean(g, m))))
  }

  // ---------------------------------------------------------------------------
  // main

  /** The model record `main` saves. */
  datatype CfModel = CfModel(
    userIndex: map<string, nat>,
    itemIndex: map<string, nat>,
    indexUser: map<nat, string>,
    indexItem: map<nat, string>,
    factors: Factors,
    userMeans: seq<real>,
    itemMeans: seq<real>,
    globalMean: real,
    ratedItems: Option<map<nat, seq<nat>>>)

  datatype TrainError = NoRatingsAfterFiltering

  /** `sorted(items)` for a set of item indices below `bound`. */
  function SortedItems(items: set<nat>, bound: nat): (r: seq<nat>)
    requires forall i :: i in items ==> i < bound
    ensures forall i :: i in r <==> i in items
    ensures forall a, b :: 0 <= a < b < |r| ==> r[a] < r[b]
  {
    var p := (i: nat) => i in items;
    var r := Filter(Range(bound), p);
    FilterIsSubsequence(Range(bound), p);
    SubsequenceIncreasing(r, Range(bound));
    assert forall i :: i in items ==> Range(bound)[i] == i && p(Range(bound)[i]);
    r
  }

  /** A subsequence of a strictly increasing list is strictly increasing. */
  lemma {:induction false} SubsequenceIncreasing(a: seq<nat>, b: seq<nat>)
    requires IsSubsequence(a, b) && forall x, y :: 0 <= x < y < |b| ==> b[x] < b[y]
    ensures forall x, y :: 0 <= x < y < |a| ==> a[x] < a[y]
    ensures forall x :: 0 <= x < |a| ==> a[x] in b
    decreases |b|
  {
    if b != [] {
      if a != [] && a[0] == b[0] && IsSubsequence(a[1..], b[1..]) {
        SubsequenceIncreasing(a[1..], b[1..]);
        forall y | 0 < y < |a| ensures a[0] < a[y] {
          assert a[1..][y - 1] in b[1..];
        }
      } else {
        SubsequenceIncreasing(a, b[1..]);
      }
    }
  }

  /** `{idx: sorted(items) for idx, items in rated_items.items()}`. */
  function SortedRated(rated: map<nat, set<nat>>, bound: nat): (r: map<nat, seq<nat>>)
    requires forall u, i :: u in rated && i in rated[u] ==> i < bound
    ensures r.Keys == rated.Keys
    ensures forall u :: u in r ==> (forall i :: i in r[u] <==> i in rated[u])
  {
    map u | u in rated :: SortedItems(rated[u], bound)
  }

  /** The mappings send every filtered triple into the matrix bounds. */
  lemma MappingsIndexRatings(ratings: seq<Rating>)
    ensures Indexed(ratings, FirstSeen(UserIds(ratings)), FirstSeen(MovieIds(ratings)))
  {
    forall k | 0 <= k < |ratings|
      ensures ratings[k].userId in FirstSeen(UserIds(ratings))
      ensures FirstSeen(UserIds(ratings))[ratings[k].userId] < |FirstSeen(UserIds(ratings))|
      ensures ratings[k].movieId in FirstSeen(MovieIds(ratings))
      ensures FirstSeen(MovieIds(ratings))[ratings[k].movieId] < |FirstSeen(MovieIds(ratings))|
    {
      FirstSeenIndexes(UserIds(ratings), k);
      FirstSeenIndexes(MovieIds(ratings), k);
    }
  }

  /** Every id read has an index below the number of ids. */
  lemma FirstSeenIndexes(ids: seq<string>, k: nat)
    requires k < |ids|
    ensures ids[k] in FirstSeen(ids) && FirstSeen(ids)[ids[k]] < |FirstSeen(ids)|
  {
    FirstSeenKeys(ids);
    FirstSeenDense(ids);
    assert ids[k] in ids;
  }

  /** The matrix and the mask that `build_matrix` fills, as values. */
  function ValueGrid(ratings: seq<Rating>, userIndex: map<string, nat>, itemIndex: map<string, nat>): (g: seq<seq<real>>)
    ensures |g| == |userIndex| && forall u :: 0 <= u < |g| ==> |g[u]| == |itemIndex|
  {
    seq(|userIndex|, (u: nat) => seq(|itemIndex|, (i: nat) => CellValue(LastWrite(ratings, userIndex, itemIndex, u, i))))
  }

  function MaskGrid(ratings: seq<Rating>, userIndex: map<string, nat>, itemIndex: map<string, nat>): (g: seq<seq<bool>>)
    ensures |g| == |userIndex| && forall u :: 0 <= u < |g| ==> |g[u]| == |itemIndex|
  {
    seq(|userIndex|, (u: nat) => seq(|itemIndex|, (i: nat) => LastWrite(ratings, userIndex, itemIndex, u, i).Some?))
  }

  /** The arrays `BuildMatrix` returns hold exactly those values. */
  lemma BuiltGrids(ratings: seq<Rating>, userIndex: map<string, nat>, itemIndex: map<string, nat>,
                   matrix: array2<real>, mask: array2<bool>)
    requires matrix.Length0 == mask.Length0 == |userIndex| && matrix.Length1 == mask.Length1 == |itemIndex|
    requires forall u: nat, i: nat :: u < |userIndex| && i < |itemIndex| ==>
      mask[u, i] == LastWrite(ratings, userIndex, itemIndex, u, i).Some?
    requires forall u: nat, i: nat :: u < |userIndex| && i < |itemIndex| ==>
      matrix[u, i] == CellValue(LastWrite(ratings, userIndex, itemIndex, u, i))
    ensures Grid(matrix) == ValueGrid(ratings, userIndex, itemIndex)
    ensures Grid(mask) == MaskGrid(ratings, userIndex, itemIndex)
  {
    var g, vg := Grid(matrix), ValueGrid(ratings, userIndex, itemIndex);
    var m, mg := Grid(mask), MaskGrid(ratings, userIndex, itemIndex);
    forall u | 0 <= u < |userIndex| ensures g[u] == vg[u] && m[u] == mg[u] {
      assert forall i :: 0 <= i < |itemIndex| ==> g[u][i] == vg[u][i] && m[u][i] == mg[u][i];
    }
  }

  /** The index maps `main` stores and their inverses. */
  ghost predicate IndexMapsOf(model: CfModel, ui: map<string, nat>, ii: map<string, nat>)
  {
    && model.userIndex == ui && model.itemIndex == ii
    && (forall x :: x in ui ==> ui[x] in model.indexUser && model.indexUser[ui[x]] == x)
    && (forall v :: v in model.indexUser <==> 0 <= v < |ui|)
    && (forall x :: x in ii ==> ii[x] in model.indexItem && model.indexItem[ii[x]] == x)
    && (forall v :: v in model.indexItem <==> 0 <= v < |ii|)
  }

  /** The means `compute_means` derives from the grids `g` and `m`. */
  ghost predicate MeansOf(globalMean: real, userMeans: seq<real>, itemMeans: seq<real>, g: seq<seq<real>>, m: seq<seq<bool>>, w: nat)
  {
    && |g| == |m| && Rect(g, w) && Rect(m, w)
    && globalMean == GlobalMean(g, m)
    && |userMeans| == |g|
    && (forall u :: 0 <= u < |g| ==> userMeans[u] == MaskedMean(g[u], m[u], globalMean))
    && |itemMeans| == w
    && (forall i :: 0 <= i < w ==> itemMeans[i] == MaskedMean(Column(g, w, i), Column(m, w, i), globalMean))
  }

  /** The stored rated-item lists: sorted, and holding exactly the rated cells. */
  ghost predicate RatedOf(rated: Option<map<nat, seq<nat>>>, ratings: seq<Rating>, ui: map<string, nat>, ii: map<string, nat>)
  {
    && rated.Some?
    && (forall u, i :: u in rated.value && i in rated.value[u] <==> LastWrite(ratings, ui, ii, u, i).Some?)
    && (forall u :: u in rated.value ==> forall a, b :: 0 <= a < b < |rated.value[u]| ==> rated.value[u][a] < rated.value[u][b])
  }

  /** What `main` stores once the index maps `ui` and `ii` are fixed: the maps and
      their inverses, the means of the rating matrix, the factors of its centred
      form, and the sorted rated-item lists. */
  ghost predicate ModelFrom(model: CfModel, ratings: seq<Rating>, ui: map<string, nat>, ii: map<string, nat>,
                            rank: int, svd: seq<seq<real>> -> Factors)
  {
    var g, m := ValueGrid(ratings, ui, ii), MaskGrid(ratings, ui, ii);
    && IndexMapsOf(model, ui, ii)
    && MeansOf(model.globalMean, model.userMeans, model.itemMeans, g, m, |ii|)
    && (exists c: seq<seq<real>> :: CentredGrid(g, m, c) && model.factors == ClampRank(svd(c), rank))
    && RatedOf(model.ratedItems, ratings, ui, ii)
  }

  /** Everything `main` stores, as determined by the filtered ratings. */
  ghost predicate ModelOf(model: CfModel, ratings: seq<Rating>, rank: int, svd: seq<seq<real>> -> Factors)
  {
    var ui, ii := FirstSeen(UserIds(ratings)), FirstSeen(MovieIds(ratings));
    DenseIndex(ui) && DenseIndex(ii) && ModelFrom(model, ratings, ui, ii, rank, svd)
  }

  /** `main` on ratings already loaded: filter sparse users, fail on an empty
      result, then build the mappings and the model. */
  method Train(loaded: seq<Rating>, minRatings: int, rank: int, svd: seq<seq<real>> -> Factors)
    returns (r: Result<CfModel, TrainError>)
    ensures r.Err? <==> SparseFiltered(loaded, minRatings) == []
    ensures r.Ok? ==> ModelOf(r.value, SparseFiltered(loaded, minRatings), rank, svd)
  {
    var ratings := FilterSparseUsers(loaded, minRatings);
    if ratings == [] {
      return Err(NoRatingsAfterFiltering);
    }
    var userIndex, itemIndex := BuildMappings(ratings);
    MappingsIndexRatings(ratings);
    var model := BuildModel(ratings, userIndex, itemIndex, rank, svd);
    r := Ok(model);
  }

  /** The rest of `main`: matrix, means and factors, then the stored record. */
  method BuildModel(ratings: seq<Rating>, userIndex: map<string, nat>, itemIndex: map<string, nat>,
                    rank: int, svd: seq<seq<real>> -> Factors)
    returns (model: CfModel)
    requires Indexed(ratings, userIndex, itemIndex) && DenseIndex(userIndex) && DenseIndex(itemIndex)
    ensures ModelFrom(model, ratings, userIndex, itemIndex, rank, svd)
  {
    var matrix, mask, rated := MatrixOf(ratings, userIndex, itemIndex);
    var um, im, globalMean := MeansOfGrids(matrix, mask);
    var factors := TrainSvd(matrix, mask, rank, svd);
    RatedItemsBounded(ratings, userIndex, itemIndex);
    model := Assemble(userIndex, itemIndex, rated, um, im, globalMean, factors);
    AssembleModel(ratings, userIndex, itemIndex, rated, um, im, globalMean, factors, rank, svd);
  }

  /** `build_matrix`, its arrays read back as grids. */
  method MatrixOf(ratings: seq<Rating>, userIndex: map<string, nat>, itemIndex: map<string, nat>)
    returns (matrix: array2<real>, mask: array2<bool>, ratedItems: map<nat, set<nat>>)
    requires Indexed(ratings, userIndex, itemIndex)
    ensures fresh(matrix) && fresh(mask)
    ensures matrix.Length0 == mask.Length0 == |userIndex| && matrix.Length1 == mask.Length1 == |itemIndex|
    ensures Grid(matrix) == ValueGrid(ratings, userIndex, itemIndex) && Grid(mask) == MaskGrid(ratings, userIndex, itemIndex)
    ensures ratedItems == RatedItems(ratings, userIndex, itemIndex)
  {
    matrix, mask, ratedItems := BuildMatrix(ratings, userIndex, itemIndex);
    BuiltGrids(ratings, userIndex, itemIndex, matrix, mask);
  }

  /** `compute_means` on the two arrays, its results read back as lists. */
  method MeansOfGrids(matrix: array2<real>, mask: array2<bool>) returns (userMeans: seq<real>, itemMeans: seq<real>, globalMean: real)
    requires matrix.Length0 == mask.Length0 && matrix.Length1 == mask.Length1
    ensures MeansOf(globalMean, userMeans, itemMeans, Grid(matrix), Grid(mask), matrix.Length1)
  {
    var um, im, gm := ComputeMeans(matrix, mask);
    userMeans, itemMeans, globalMean := um[..], im[..], gm;
  }

  /** The record of `main`: the maps, their inverses, the factors, the means and
      the sorted rated-item lists. */
  function Assemble(ui: map<string, nat>, ii: map<string, nat>, rated: map<nat, set<nat>>,
                    userMeans: seq<real>, itemMeans: seq<real>, globalMean: real, factors: Factors): (model: CfModel)
    requires DenseIndex(ui) && DenseIndex(ii)
    requires forall u, i :: u in rated && i in rated[u] ==> i < |ii|
    ensures model.userIndex == ui && model.itemIndex == ii
    ensures model.userMeans == userMeans && model.itemMeans == itemMeans && model.globalMean == globalMean
    ensures model.factors == factors
  {
    CfModel(ui, ii, Invert(ui), Invert(ii), factors, userMeans, itemMeans, globalMean, Some(SortedRated(rated, |ii|)))
  }

  /** The assembled record is the model of the ratings once its parts are. */
  lemma AssembleModel(ratings: seq<Rating>, ui: map<string, nat>, ii: map<string, nat>, rated: map<nat, set<nat>>,
                      userMeans: seq<real>, itemMeans: seq<real>, globalMean: real, factors: Factors,
                      rank: int, svd: seq<seq<real>> -> Factors)
    requires Indexed(ratings, ui, ii) && DenseIndex(ui) && DenseIndex(ii)
    requires rated == RatedItems(ratings, ui, ii)
    requires forall u, i :: u in rated && i in rated[u] ==> i < |ii|
    requires MeansOf(globalMean, userMeans, itemMeans, ValueGrid(ratings, ui, ii), MaskGrid(ratings, ui, ii), |ii|)
    requires exists c: seq<seq<real>> :: CentredGrid(ValueGrid(ratings, ui, ii), MaskGrid(ratings, ui, ii), c) && factors == ClampRank(svd(c), rank)
    ensures ModelFrom(Assemble(ui, ii, rated, userMeans, itemMeans, globalMean, factors), ratings, ui, ii, rank, svd)
  {
    AssembleIndexMaps(ui, ii, rated, userMeans, itemMeans, globalMean, factors);
    AssembleRated(ratings, ui, ii, rated, userMeans, itemMeans, globalMean, factors);
  }

  lemma AssembleIndexMaps(ui: map<string, nat>, ii: map<string, nat>, rated: map<nat, set<nat>>,
                          userMeans: seq<real>, itemMeans: seq<real>, globalMean: real, factors: Factors)
    requires DenseIndex(ui) && DenseIndex(ii)
    requires forall u, i :: u in rated && i in rated[u] ==> i < |ii|
    ensures IndexMapsOf(Assemble(ui, ii, rated, userMeans, itemMeans, globalMean, factors), ui, ii)
  {
    InvertDense(ui);
    InvertDense(ii);
  }

  lemma AssembleRated(ratings: seq<Rating>, ui: map<string, nat>, ii: map<string, nat>, rated: map<nat, set<nat>>,
                      userMeans: seq<real>, itemMeans: seq<real>, globalMean: real, factors: Factors)
    requires Indexed(ratings, ui, ii) && DenseIndex(ui) && DenseIndex(ii)
    requires rated == RatedItems(ratings, ui, ii)
    requires forall u, i :: u in rated && i in rated[u] ==> i < |ii|
    ensures RatedOf(Assemble(ui, ii, rated, userMeans, itemMeans, globalMean, factors).ratedItems, ratings, ui, ii)
  {
    assert Assemble(ui, ii, rated, userMeans, itemMeans, globalMean, factors).ratedItems == Some(SortedRated(rated, |ii|));
    SortedRatedOf(ratings, ui, ii, rated);
  }

  /** The sorted lists of `rated_items` hold exactly the rated cells, in order. */
  lemma SortedRatedOf(ratings: seq<Rating>, ui: map<string, nat>, ii: map<string, nat>, rated: map<nat, set<nat>>)
    requires Indexed(ratings, ui, ii)
    requires rated == RatedItems(ratings, ui, ii)
    requires forall u, i :: u in rated && i in rated[u] ==> i < |ii|
    ensures RatedOf(Some(SortedRated(rated, |ii|)), ratings, ui, ii)
  {
    var r := SortedRated(rated, |ii|);
    RatedItemsMatchMask(ratings, ui, ii);
    forall u | u in r ensures forall a, b :: 0 <= a < b < |r[u]| ==> r[u][a] < r[u][b] {
      assert r[u] == SortedItems(rated[u], |ii|);
    }
  }
}
