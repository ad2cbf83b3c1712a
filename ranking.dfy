/** Ordering scores: the stable descending sort of Python's
    `sorted(..., key=..., reverse=True)` and `list.sort(..., reverse=True)`, and the
    top-n selection that `np.argpartition` followed by such a sort performs. */
module Ranking {
  import opened Common
  import opened Seqs

  /** Insert `x` into `ys` just before the first element whose key is at most
      `x`'s: `x` lands after every strictly larger key and before every equal key. */
  function InsertBy<T(==)>(x: T, ys: seq<T>, key: T -> Score): (r: seq<T>)
    ensures multiset(r) == multiset{x} + multiset(ys)
  {
    if ys == [] || Ge(key(x), key(ys[0])) then [x] + ys
    else
      assert ys == [ys[0]] + ys[1..];
      [ys[0]] + InsertBy(x, ys[1..], key)
  }

  /** Stable sort by descending key (insertion sort from the back). */
  function SortBy<T(==)>(xs: seq<T>, key: T -> Score): (r: seq<T>)
    ensures multiset(r) == multiset(xs)
  {
    if xs == [] then []
    else
      assert xs == [xs[0]] + xs[1..];
      InsertBy(xs[0], SortBy(xs[1..], key), key)
  }

  /** Keys never increase along `r`. */
  ghost predicate NonIncreasing<T>(r: seq<T>, key: T -> Score)
  {
    forall a, b :: 0 <= a < b < |r| ==> Ge(key(r[a]), key(r[b]))
  }

  lemma {:induction false} InsertByOrdered<T>(x: T, ys: seq<T>, key: T -> Score)
    requires NonIncreasing(ys, key)
    ensures NonIncreasing(InsertBy(x, ys, key), key)
  {
    var r := InsertBy(x, ys, key);
    if ys == [] || Ge(key(x), key(ys[0])) {
      assert r == [x] + ys;
      forall a, b | 0 <= a < b < |r| ensures Ge(key(r[a]), key(r[b])) {
        if a == 0 && b > 1 {
          GeTotalPreorder(key(x), key(ys[0]), key(ys[b - 1]));
        }
      }
    } else {
      var t := InsertBy(x, ys[1..], key);
      InsertByOrdered(x, ys[1..], key);
      assert r == [ys[0]] + t;
      GeTotalPreorder(key(x), key(ys[0]), key(x));
      forall b | 0 <= b < |t| ensures Ge(key(ys[0]), key(t[b])) {
        assert t[b] in multiset(t);
        if t[b] != x {
          assert t[b] in multiset(ys[1..]);
          var k :| 0 <= k < |ys[1..]| && ys[1..][k] == t[b];
          assert ys[k + 1] == t[b];
        }
      }
    }
  }

  /** The sort's result is ordered by non-increasing key. */
  lemma {:induction false} SortByOrdered<T>(xs: seq<T>, key: T -> Score)
    ensures NonIncreasing(SortBy(xs, key), key)
  {
    if xs != [] {
      SortByOrdered(xs[1..], key);
      InsertByOrdered(xs[0], SortBy(xs[1..], key), key);
    }
  }

  /** The elements of `xs` whose key is exactly `v`, in their order in `xs`. */
  function WithKey<T>(xs: seq<T>, key: T -> Score, v: Score): seq<T>
  {
    if xs == [] then []
    else (if key(xs[0]) == v then [xs[0]] else []) + WithKey(xs[1..], key, v)
  }

  lemma {:induction false} InsertByStable<T>(x: T, ys: seq<T>, key: T -> Score, v: Score)
    ensures WithKey(InsertBy(x, ys, key), key, v) == WithKey([x] + ys, key, v)
  {
    if ys == [] || Ge(key(x), key(ys[0])) {
      assert InsertBy(x, ys, key) == [x] + ys;
    } else {
      var rest := ys[1..];
      InsertByStable(x, rest, key, v);
      var t := InsertBy(x, rest, key);
      assert InsertBy(x, ys, key) == [ys[0]] + t;
      assert ys == [ys[0]] + rest;
      GeTotalPreorder(key(x), key(ys[0]), key(x));
      WithKeySwap(x, ys[0], t, rest, key, v);
    }
  }

  /** Two elements with different keys can trade places as far as `WithKey` sees. */
  lemma WithKeySwap<T>(x: T, y: T, t: seq<T>, rest: seq<T>, key: T -> Score, v: Score)
    requires key(x) != key(y)
    requires WithKey(t, key, v) == WithKey([x] + rest, key, v)
    ensures WithKey([y] + t, key, v) == WithKey([x] + ([y] + rest), key, v)
  {
    var w := WithKey(rest, key, v);
    WithKeyCons(y, t, key, v);
    WithKeyCons(x, rest, key, v);
    WithKeyCons(x, [y] + rest, key, v);
    WithKeyCons(y, rest, key, v);
    if key(x) == v {
      assert WithKey([y] + t, key, v) == [x] + w;
    } else {
      assert WithKey(t, key, v) == w;
    }
  }

  /** `WithKey` of a list with a given head. */
  lemma WithKeyCons<T>(x: T, s: seq<T>, key: T -> Score, v: Score)
    ensures WithKey([x] + s, key, v) == (if key(x) == v then [x] else []) + WithKey(s, key, v)
  {
    assert ([x] + s)[1..] == s;
  }

  /** Stability: among equal keys the sort keeps the input order. Together with
      `SortByOrdered` this determines the sorted list uniquely. */
  lemma {:induction false} SortByStable<T>(xs: seq<T>, key: T -> Score, v: Score)
    ensures WithKey(SortBy(xs, key), key, v) == WithKey(xs, key, v)
  {
    if xs != [] {
      SortByStable(xs[1..], key, v);
      InsertByStable(xs[0], SortBy(xs[1..], key), key, v);
      var t := SortBy(xs[1..], key);
      assert ([xs[0]] + t)[1..] == t;
    }
  }

  /** The score of position `k` (positions past the end never occur). */
  function ScoreAt(s: seq<Score>): nat -> Score
  {
    (k: nat) => if k < |s| then s[k] else NegInf
  }

  /** The positions of `s` by descending score, ties by ascending position:
      the model's choice for the order that `np.argsort(-s)` leaves unspecified. */
  function ArgSortDesc(s: seq<Score>): seq<nat>
  {
    SortBy(Range(|s|), ScoreAt(s))
  }

  ghost predicate Distinct<T>(r: seq<T>)
  {
    forall a, b :: 0 <= a < b < |r| ==> r[a] != r[b]
  }

  /** `r` is a top-`c` selection of `s`: `c` distinct positions in non-increasing
      score order, each scoring at least as high as every position left out. */
  ghost predicate IsTopN(s: seq<Score>, r: seq<nat>, c: nat)
  {
    && |r| == c
    && Distinct(r)
    && (forall a :: 0 <= a < |r| ==> r[a] < |s|)
    && (forall a, b :: 0 <= a < b < |r| ==> Ge(s[r[a]], s[r[b]]))
    && (forall a, k :: 0 <= a < |r| && 0 <= k < |s| && k !in r ==> Ge(s[r[a]], s[k]))
  }

  lemma {:induction false} RangeMultiplicity(n: nat, x: nat)
    ensures multiset(Range(n))[x] == if x < n then 1 else 0
  {
    if n > 0 {
      RangeMultiplicity(n - 1, x);
      assert Range(n) == Range(n - 1) + [n - 1];
    }
  }

  /** A sequence with the multiset of `range(n)` lists each position below `n` once. */
  lemma RangePermutation(r: seq<nat>, n: nat)
    requires multiset(r) == multiset(Range(n))
    ensures |r| == n && Distinct(r)
    ensures forall k :: k in r <==> 0 <= k < n
  {
    assert |r| == |multiset(r)| == |multiset(Range(n))| == n;
    forall k ensures k in r <==> 0 <= k < n {
      if k >= 0 {
        RangeMultiplicity(n, k);
        assert k in r <==> k in multiset(r);
      }
    }
    forall a, b | 0 <= a < b < |r| ensures r[a] != r[b] {
      RangeMultiplicity(n, r[a]);
      RepeatedMultiplicity(r, a, b);
    }
  }

  /** An element at two positions occurs at least twice in the multiset. */
  lemma RepeatedMultiplicity<T>(r: seq<T>, a: nat, b: nat)
    requires a < b < |r|
    ensures r[a] == r[b] ==> multiset(r)[r[a]] >= 2
  {
    assert r == r[..b] + r[b..];
    assert r[a] in multiset(r[..b]) && r[b] in multiset(r[b..]);
  }

  /** The full descending argsort is a top-`len(s)` selection listing every position. */
  lemma ArgSortDescTop(s: seq<Score>)
    ensures IsTopN(s, ArgSortDesc(s), |s|)
    ensures forall k :: 0 <= k < |s| ==> k in ArgSortDesc(s)
  {
    var full := ArgSortDesc(s);
    RangePermutation(full, |s|);
    SortByOrdered(Range(|s|), ScoreAt(s));
    forall a | 0 <= a < |full| ensures full[a] < |s| {
      assert full[a] in full;
    }
    forall a, b | 0 <= a < b < |full| ensures Ge(s[full[a]], s[full[b]]) {
      assert ScoreAt(s)(full[a]) == s[full[a]] && ScoreAt(s)(full[b]) == s[full[b]];
    }
  }

  /** A prefix of an ordered listing of all positions is a top selection. */
  lemma PrefixTop(s: seq<Score>, full: seq<nat>, c: nat)
    requires IsTopN(s, full, |s|) && c <= |s|
    requires forall k :: 0 <= k < |s| ==> k in full
    ensures IsTopN(s, full[..c], c)
  {
    var r := full[..c];
    forall a, k | 0 <= a < c && 0 <= k < |s| && k !in r ensures Ge(s[r[a]], s[k]) {
      assert k in full;
      var p :| 0 <= p < |full| && full[p] == k;
      assert full[a] == r[a];
      assert forall q :: 0 <= q < c ==> r[q] == full[q];
    }
  }

  /** The first `c` positions by descending score. */
  function ArgTop(s: seq<Score>, c: nat): (r: seq<nat>)
    requires c <= |s|
    ensures IsTopN(s, r, c)
  {
    ArgSortDescTop(s);
    PrefixTop(s, ArgSortDesc(s), c);
    ArgSortDesc(s)[..c]
  }

  /** `sorted(np.argpartition(-s, n - 1)[:n], key=lambda i: s[i], reverse=True)`.
      `argpartition` raises `ValueError` (here `None`) unless `-len(s) <= n - 1 < len(s)`;
      a negative `n` selects the top `len(s) + n`, as Python's slice does. */
  function ArgPartitionTop(s: seq<Score>, n: int): (r: Option<seq<nat>>)
    ensures r.Some? <==> -|s| < n <= |s|
    ensures r.Some? ==> IsTopN(s, r.value, if n >= 0 then n else |s| + n)
  {
    if -|s| < n <= |s| then Some(ArgTop(s, if n >= 0 then n else |s| + n)) else None
  }

  /** `s` with every position listed in `ks` overwritten by `-inf`, as the
      exclusion loops do with `scores[idx] = -np.inf`. */
  function Excluded(s: seq<Score>, ks: seq<nat>): (r: seq<Score>)
    ensures |r| == |s|
    ensures forall i :: 0 <= i < |s| ==> r[i] == if i in ks then NegInf else s[i]
  {
    seq(|s|, i requires 0 <= i < |s| => if i in ks then NegInf else s[i])
  }

  /** Excluding one more position is one more `-inf` write. */
  lemma ExcludedSnoc(s: seq<Score>, ks: seq<nat>, x: nat)
    requires x < |s|
    ensures Excluded(s, ks + [x]) == Excluded(s, ks)[x := NegInf]
  {
    assert forall i :: i in ks + [x] <==> i in ks || i == x;
  }

  /** Excluded positions rank below every other one: if a top selection of the
      excluded scores picks an excluded position, it has already picked every
      position that was not excluded. */
  lemma {:induction false} ExcludedRankLast(s: seq<Score>, ks: seq<nat>, r: seq<nat>, c: nat)
    requires forall i :: 0 <= i < |s| ==> s[i].Finite?
    requires IsTopN(Excluded(s, ks), r, c)
    ensures forall a, k :: 0 <= a < |r| && r[a] in ks && 0 <= k < |s| && k !in ks ==> k in r
  {
    var e := Excluded(s, ks);
    forall a, k | 0 <= a < |r| && r[a] in ks && 0 <= k < |s| && k !in ks ensures k in r {
      assert e[r[a]] == NegInf && e[k] == s[k];
    }
  }
}
