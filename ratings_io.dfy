/** Reading rating triples and dropping users with too few ratings
    (`ml/training/io.py`). */
module RatingsIo {
  import opened Common
  import opened Seqs
  import opened Strings

  /** One `(user_id, movie_id, rating)` triple. */
  datatype Rating = Rating(userId: string, movieId: string, rating: real)

  /** A CSV record as `csv.DictReader` gives it: column name to cell text;
      a column the record lacks is an absent key. */
  type CsvRow = map<string, string>

  datatype LoadError = FileNotFound | MissingHeader

  /** `(row.get(column) or "").strip()`. */
  function Field(row: CsvRow, column: string): string
  {
    Strip(if column in row then row[column] else "")
  }

  /** The decision `load_ratings_csv` makes for one record: keep it, with stripped
      ids, when both ids and the rating text are non-empty after stripping and
      `parseFloat` (Python's `float`) accepts the rating text. */
  function AcceptRow(row: CsvRow, parseFloat: string -> Option<real>): (r: Option<Rating>)
    ensures r.Some? <==> Field(row, "user_id") != "" && Field(row, "movie_id") != "" && Field(row, "rating") != "" &&
                         parseFloat(Field(row, "rating")).Some?
    ensures r.Some? ==> r.value == Rating(Field(row, "user_id"), Field(row, "movie_id"), parseFloat(Field(row, "rating")).value)
  {
    var userId := Field(row, "user_id");
    var movieId := Field(row, "movie_id");
    var ratingRaw := Field(row, "rating");
    if userId == "" || movieId == "" || ratingRaw == "" then None
    else match parseFloat(ratingRaw)
      case None => None
      case Some(x) => Some(Rating(userId, movieId, x))
  }

  /** The records kept, in file order. */
  function Accepted(rows: seq<CsvRow>, parseFloat: string -> Option<real>): seq<Rating>
  {
    FilterMap(rows, row => AcceptRow(row, parseFloat))
  }

  /** The record loop of `load_ratings_csv`: each record is read and appended
      when accepted. */
  method ReadRatings(rows: seq<CsvRow>, parseFloat: string -> Option<real>) returns (ratings: seq<Rating>)
    ensures ratings == Accepted(rows, parseFloat)
  {
    ghost var f := row => AcceptRow(row, parseFloat);
    ratings := [];
    var i := 0;
    while i < |rows|
      invariant 0 <= i <= |rows|
      invariant ratings == FilterMap(rows[..i], f)
    {
      FilterMapSnoc(rows, i, f);
      var kept := AcceptRow(rows[i], parseFloat);
      assert f(rows[i]) == kept;
      if kept.Some? {
        ratings := ratings + [kept.value];
      }
      i := i + 1;
    }
    assert rows[..|rows|] == rows;
  }

  /** `load_ratings_csv`: the file's existence and its header are inputs. */
  method LoadRatingsCsv(fileExists: bool, header: Option<seq<string>>, rows: seq<CsvRow>,
                        parseFloat: string -> Option<real>)
    returns (r: Result<seq<Rating>, LoadError>)
    ensures !fileExists ==> r == Err(FileNotFound)
    ensures fileExists && header.None? ==> r == Err(MissingHeader)
    ensures fileExists && header.Some? ==> r == Ok(Accepted(rows, parseFloat))
  {
    if !fileExists {
      return Err(FileNotFound);
    }
    if header.None? {
      return Err(MissingHeader);
    }
    var ratings := ReadRatings(rows, parseFloat);
    return Ok(ratings);
  }

  /** A kept rating has non-empty ids without surrounding whitespace (so each
      id is its own `strip()`, by `StripTrimmed`). */
  ghost predicate WellFormed(r: Rating)
  {
    r.userId != "" && Trimmed(r.userId) && r.movieId != "" && Trimmed(r.movieId)
  }

  lemma AcceptRowWellFormed(row: CsvRow, parseFloat: string -> Option<real>)
    ensures AcceptRow(row, parseFloat).Some? ==> WellFormed(AcceptRow(row, parseFloat).value)
  {
  }

  /** Every kept rating has non-empty ids with no surrounding whitespace, and at
      most one rating is kept per record. */
  lemma AcceptedWellFormed(rows: seq<CsvRow>, parseFloat: string -> Option<real>)
    ensures |Accepted(rows, parseFloat)| <= |rows|
    ensures forall j :: 0 <= j < |Accepted(rows, parseFloat)| ==> WellFormed(Accepted(rows, parseFloat)[j])
  {
    var f := row => AcceptRow(row, parseFloat);
    FilterMapFrom(rows, f);
    var r := Accepted(rows, parseFloat);
    forall j | 0 <= j < |r| ensures WellFormed(r[j]) {
      var k :| 0 <= k < |rows| && f(rows[k]) == Some(r[j]);
      AcceptRowWellFormed(rows[k], parseFloat);
    }
  }

  /** Records are processed independently and in order: the kept ratings of a
      concatenation are the concatenation of the kept ratings. */
  lemma AcceptedAppend(a: seq<CsvRow>, b: seq<CsvRow>, parseFloat: string -> Option<real>)
    ensures Accepted(a + b, parseFloat) == Accepted(a, parseFloat) + Accepted(b, parseFloat)
  {
    FilterMapAppend(a, b, row => AcceptRow(row, parseFloat));
  }

  /** `r => r.user_id == u`. */
  function IsUser(u: string): Rating -> bool
  {
    (r: Rating) => r.userId == u
  }

  /** The number of ratings by user `u`. */
  function CountUser(ratings: seq<Rating>, u: string): nat
  {
    |Filter(ratings, IsUser(u))|
  }

  /** `counts[row.user_id] >= min_ratings`, with `counts` taken over `all`. */
  function Frequent(all: seq<Rating>, minRatings: int): Rating -> bool
  {
    (r: Rating) => CountUser(all, r.userId) >= minRatings
  }

  /** What `filter_sparse_users` returns: everything when `min_ratings <= 1`,
      otherwise the ratings of users with at least `min_ratings` ratings, in order. */
  function SparseFiltered(ratings: seq<Rating>, minRatings: int): seq<Rating>
  {
    if minRatings <= 1 then ratings else Filter(ratings, Frequent(ratings, minRatings))
  }

  lemma CountUserSnoc(s: seq<Rating>, x: Rating, u: string)
    ensures CountUser(s + [x], u) == CountUser(s, u) + (if x.userId == u then 1 else 0)
  {
    FilterAppend(s, [x], IsUser(u));
  }

  /** `filter_sparse_users`: one pass fills `counts`, then a comprehension keeps
      the frequent users' rows. */
  method FilterSparseUsers(ratings: seq<Rating>, minRatings: int) returns (out: seq<Rating>)
    ensures out == SparseFiltered(ratings, minRatings)
    ensures minRatings <= 1 ==> out == ratings
  {
    if minRatings <= 1 {
      return ratings;
    }
    var counts: map<string, nat> := map[];
    var i := 0;
    while i < |ratings|
      invariant 0 <= i <= |ratings|
      invariant forall u :: CountUser(ratings[..i], u) == if u in counts then counts[u] else 0
    {
      var u := ratings[i].userId;
      var c := if u in counts then counts[u] else 0;
      counts := counts[u := c + 1];
      forall v ensures CountUser(ratings[..i + 1], v) == if v in counts then counts[v] else 0 {
        assert ratings[..i + 1] == ratings[..i] + [ratings[i]];
        CountUserSnoc(ratings[..i], ratings[i], v);
      }
      i := i + 1;
    }
    assert ratings[..|ratings|] == ratings;
    var keep := (r: Rating) => r.userId in counts && counts[r.userId] >= minRatings;
    out := Filter(ratings, keep);
    FilterCongruent(ratings, keep, Frequent(ratings, minRatings));
  }

  /** A user who survives the filter keeps every one of their rows. */
  lemma RetainedUserKeepsAllRows(ratings: seq<Rating>, minRatings: int, u: string)
    requires CountUser(ratings, u) >= minRatings
    ensures CountUser(SparseFiltered(ratings, minRatings), u) == CountUser(ratings, u)
  {
    if minRatings > 1 {
      FilterImplied(ratings, Frequent(ratings, minRatings), IsUser(u));
    }
  }

  /** Every user present in the output has at least `min_ratings` rows in the output. */
  lemma OutputUsersAreFrequent(ratings: seq<Rating>, minRatings: int, k: nat)
    requires k < |SparseFiltered(ratings, minRatings)|
    ensures CountUser(SparseFiltered(ratings, minRatings), SparseFiltered(ratings, minRatings)[k].userId) >= minRatings
  {
    var out := SparseFiltered(ratings, minRatings);
    var u := out[k].userId;
    if minRatings > 1 {
      assert Frequent(ratings, minRatings)(out[k]);
      RetainedUserKeepsAllRows(ratings, minRatings, u);
    } else {
      assert out[k] in Filter(out, IsUser(u));
    }
  }

  /** Filtering twice with the same threshold is filtering once. */
  lemma FilterSparseUsersIdempotent(ratings: seq<Rating>, minRatings: int)
    ensures SparseFiltered(SparseFiltered(ratings, minRatings), minRatings) == SparseFiltered(ratings, minRatings)
  {
    var out := SparseFiltered(ratings, minRatings);
    if minRatings > 1 {
      forall k | 0 <= k < |out| ensures Frequent(out, minRatings)(out[k]) {
        OutputUsersAreFrequent(ratings, minRatings, k);
      }
      FilterAll(out, Frequent(out, minRatings));
    }
  }

  /** The output is a subsequence of the input, hence never longer. */
  lemma SparseFilteredIsSubsequence(ratings: seq<Rating>, minRatings: int)
    ensures IsSubsequence(SparseFiltered(ratings, minRatings), ratings)
    ensures |SparseFiltered(ratings, minRatings)| <= |ratings|
  {
    FilterIsSubsequence(ratings, Frequent(ratings, minRatings));
    if minRatings <= 1 {
      SubsequenceRefl(ratings);
    }
  }
}
