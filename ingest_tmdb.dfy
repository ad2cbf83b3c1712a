/** The TMDB ingestion script (`ml/ingest_tmdb.py`): splitting a MovieLens
    title into title and year, reading the movie rows, the content text of a
    bundle, the failure-log line, and the ingestion loop's bookkeeping. The
    TMDB search and fetch, the database and the log file are not modelled:
    the two remote calls are inputs and the loop returns what it would write. */
module IngestTmdb {
  import opened Common
  import opened Seqs
  import opened Strings
  import opened TmdbClient

  // ---------------------------------------------------------------------------
  // _parse_title_year

  datatype TitleYear = TitleYear(title: string, year: Option<string>)

  predicate NoNewline(s: string)
  {
    '\n' !in s
  }

  /** What `\d{4}` matches. */
  predicate IsYear(y: string)
  {
    |y| == 4 && IsDigit(y[0]) && IsDigit(y[1]) && IsDigit(y[2]) && IsDigit(y[3])
  }

  /** `a + "(" + y + ")"`. */
  function WithYear(a: string, y: string): string
  {
    a + "(" + y + ")"
  }

  /** The four characters between the final parentheses. */
  function YearPart(s: string): string
    requires |s| >= 6
  {
    s[|s| - 5..|s| - 1]
  }

  /** What precedes the final `(`: the title group and the whitespace. */
  function Group(s: string): string
    requires |s| >= 6
  {
    s[..|s| - 6]
  }

  lemma WithYearParts(a: string, y: string)
    requires |y| == 4
    ensures var s := WithYear(a, y);
      |s| == |a| + 6 && Group(s) == a && s[|s| - 6] == '(' && YearPart(s) == y && s[|s| - 1] == ')'
  {
    var s := WithYear(a, y);
    assert s == a + ("(" + y + ")");
  }

  lemma SplitYear(s: string)
    requires |s| >= 6 && s[|s| - 6] == '(' && s[|s| - 1] == ')'
    ensures s == WithYear(Group(s), YearPart(s))
  {
  }

  /** A match of `^(.*)\s+\((\d{4})\)$` on `s`, written out: `pre` is what the
      title group takes (`.` stops at a newline), `w` what `\s+` takes. */
  ghost predicate MatchesAs(s: string, pre: string, w: string, y: string)
  {
    s == WithYear(pre + w, y) && w != [] && AllSpace(w) && NoNewline(pre) && IsYear(y)
  }

  /** The regular expression decided on a stripped string: it ends in a
      parenthesised four-digit year, preceded by whitespace, and the text before
      that whitespace is on one line. */
  predicate TitleYearMatch(s: string)
  {
    && |s| >= 6 && s[|s| - 6] == '(' && IsYear(YearPart(s)) && s[|s| - 1] == ')'
    && var t := RStrip(Group(s));
    |t| < |s| - 6 && NoNewline(t)
  }

  /** `_parse_title_year`: the stripped title group and the year on a match
      (the group's strip does not depend on how the greedy `.*` and `\s+`
      share the whitespace between them), the stripped input otherwise. */
  function ParseTitleYear(raw: string): (r: TitleYear)
    ensures Trimmed(r.title)
    ensures r.year.Some? ==> IsYear(r.year.value)
    ensures r.year.None? ==> r.title == Strip(raw)
  {
    var s := Strip(raw);
    if TitleYearMatch(s) then TitleYear(Strip(Group(s)), Some(YearPart(s)))
    else TitleYear(s, None)
  }

  /** How a match splits a stripped string. */
  lemma MatchWitness(s: string) returns (pre: string, w: string)
    requires TitleYearMatch(s)
    ensures MatchesAs(s, pre, w, YearPart(s)) && Strip(Group(s)) == Strip(pre)
  {
    var g := Group(s);
    pre := RStrip(g);
    w := g[|pre|..];
    assert g == pre + w;
    SplitYear(s);
    StripTrailingSpace(pre, w);
  }

  /** A year is found only where the expression matches, and the title is then
      the strip of what the title group took. */
  lemma ParseTitleYearSound(raw: string)
    ensures var r := ParseTitleYear(raw);
      r.year.Some? ==> exists pre, w :: MatchesAs(Strip(raw), pre, w, r.year.value) && r.title == Strip(pre)
  {
    if TitleYearMatch(Strip(raw)) {
      var pre, w := MatchWitness(Strip(raw));
    }
  }

  /** Wherever the expression matches, the year is found and the title is the
      strip of the title group. */
  lemma ParseTitleYearComplete(raw: string, pre: string, w: string, y: string)
    requires MatchesAs(Strip(raw), pre, w, y)
    ensures ParseTitleYear(raw) == TitleYear(Strip(pre), Some(y))
  {
    var s := Strip(raw);
    var g := pre + w;
    WithYearParts(g, y);
    assert |s| - 6 == |g|;
    RStripTrailingSpace(pre, w);
    var t := RStrip(pre);
    assert NoNewline(t) by {
      assert t == pre[..|t|];
    }
    assert TitleYearMatch(s);
    StripTrailingSpace(pre, w);
  }

  lemma YearSuffixShape(l: string, y: string)
    requires |y| == 4
    ensures l + " (" + y + ")" == l + (" (" + y + ")") == WithYear(l + " ", y)
  {
  }

  /** A string ending in `)` has no trailing whitespace. */
  lemma RStripWithYear(a: string, y: string)
    requires |y| == 4
    ensures RStrip(WithYear(a, y)) == WithYear(a, y)
  {
    WithYearParts(a, y);
    RStripNoTrailingSpace(WithYear(a, y));
  }

  /** Stripping a non-blank title followed by ` (yyyy)` removes only its
      leading whitespace. */
  lemma StripBeforeYear(t: string, y: string)
    requires Strip(t) != [] && |y| == 4
    ensures Strip(t + " (" + y + ")") == WithYear(LStrip(t) + " ", y)
  {
    var rest := " (" + y + ")";
    var l := LStrip(t);
    var u := t + rest;
    var s := WithYear(l + " ", y);
    assert t + " (" + y + ")" == u by {
      YearSuffixShape(t, y);
    }
    assert LStrip(u) == l + rest by {
      assert l != [];
      LStripAppend(t, rest);
    }
    assert l + rest == s by {
      YearSuffixShape(l, y);
    }
    RStripWithYear(l + " ", y);
  }

  /** Round trip: a one-line, non-blank title with a four-digit year appended
      as ` (yyyy)` parses back to the stripped title and that year. */
  lemma ParseTitleYearRoundTrip(t: string, y: string)
    requires NoNewline(t) && Strip(t) != [] && IsYear(y)
    ensures ParseTitleYear(t + " (" + y + ")") == TitleYear(Strip(t), Some(y))
  {
    var raw := t + " (" + y + ")";
    RoundTripMatch(t, y);
    ParseTitleYearComplete(raw, LStrip(t), " ", y);
    LStripStripped(t);
  }

  /** The appended year matches with the left-stripped title as its title group
      and the one space as its whitespace. */
  lemma RoundTripMatch(t: string, y: string)
    requires NoNewline(t) && Strip(t) != [] && IsYear(y)
    ensures MatchesAs(Strip(t + " (" + y + ")"), LStrip(t), " ", y)
  {
    var l := LStrip(t);
    assert Strip(t + " (" + y + ")") == WithYear(l + " ", y) by {
      StripBeforeYear(t, y);
    }
    assert NoNewline(l) by {
      NoNewlineSuffix(t, |t| - |l|);
    }
    OneSpace();
  }

  /** A line's suffix is on one line. */
  lemma NoNewlineSuffix(t: string, n: nat)
    requires NoNewline(t) && n <= |t|
    ensures NoNewline(t[n..])
  {
  }

  /** The title group is greedy, so only the last parenthesised year is split
      off: an earlier ` (yyyy)` stays in the title. */
  lemma ParseTitleYearLastYearWins(a: string, y1: string, y2: string)
    requires NoNewline(a) && Strip(a) != [] && IsYear(y1) && IsYear(y2)
    ensures ParseTitleYear(a + " (" + y1 + ")" + " (" + y2 + ")") == TitleYear(LStrip(a) + " (" + y1 + ")", Some(y2))
  {
    var t := a + " (" + y1 + ")";
    StripTitleWithYear(a, y1);
    TitleWithYearNoNewline(a, y1);
    ParseTitleYearRoundTrip(t, y2);
  }

  /** The strip of a title with ` (yyyy)` appended. */
  lemma StripTitleWithYear(a: string, y: string)
    requires Strip(a) != [] && |y| == 4
    ensures Strip(a + " (" + y + ")") == LStrip(a) + " (" + y + ")" != []
  {
    StripBeforeYear(a, y);
    YearSuffixShape(LStrip(a), y);
  }

  /** Appending ` (yyyy)` to a one-line title keeps it on one line. */
  lemma TitleWithYearNoNewline(a: string, y: string)
    requires NoNewline(a) && IsYear(y)
    ensures NoNewline(a + " (" + y + ")")
  {
  }

  // ---------------------------------------------------------------------------
  // _iter_movies

  /** A `csv.DictReader` row: the cells of the columns read, `None` when the
      column is missing. */
  datatype CsvRow = CsvRow(movieIdCell: Option<string>, altMovieIdCell: Option<string>, titleCell: Option<string>)

  /** A movie as `_iter_movies` yields it. */
  datatype MovieRow = MovieRow(movieId: int, title: string, year: Option<string>)

  /** The movies yielded, and whether `int(movie_id_raw)` then raised. */
  datatype MovieIter = MovieIter(movies: seq<MovieRow>, failed: bool)

  /** `(row.get("movieId") or row.get("movie_id") or "").strip()`. */
  function IdText(row: CsvRow): string
  {
    Strip(if OrEmpty(row.movieIdCell) != "" then row.movieIdCell.value else OrEmpty(row.altMovieIdCell))
  }

  /** `(row.get("title") or "").strip()`. */
  function TitleText(row: CsvRow): string
  {
    Strip(OrEmpty(row.titleCell))
  }

  predicate Skipped(row: CsvRow)
  {
    IdText(row) == "" || TitleText(row) == ""
  }

  /** The movie a row that is not skipped yields. */
  function MovieOf(row: CsvRow, id: int): (m: MovieRow)
    ensures m.movieId == id && Trimmed(m.title)
  {
    var parsed := ParseTitleYear(TitleText(row));
    MovieRow(id, parsed.title, parsed.year)
  }

  /** What one row of the file does to the iteration. */
  datatype RowOutcome = Skip | BadId | Yield(movie: MovieRow)

  /** A row without an id or a title is skipped; otherwise `int` either parses
      its id or raises. */
  function Classify(row: CsvRow): (r: RowOutcome)
    ensures r.Skip? <==> Skipped(row)
    ensures r.BadId? <==> !Skipped(row) && ParseInt(IdText(row)).None?
    ensures r.Yield? ==> ParseInt(IdText(row)) == Some(r.movie.movieId) && r.movie == MovieOf(row, r.movie.movieId)
  {
    if Skipped(row) then Skip
    else
      match ParseInt(IdText(row))
      case None => BadId
      case Some(id) => Yield(MovieOf(row, id))
  }

  /** The generator run over the rows' outcomes: skips are dropped, yields
      passed on, and the first bad id ends the iteration. */
  function Gather(outcomes: seq<RowOutcome>): (r: MovieIter)
    ensures |r.movies| <= |outcomes|
  {
    if outcomes == [] then MovieIter([], false)
    else
      match outcomes[0]
      case Skip => Gather(outcomes[1..])
      case BadId => MovieIter([], true)
      case Yield(m) =>
        var rest := Gather(outcomes[1..]);
        MovieIter([m] + rest.movies, rest.failed)
  }

  /** `_iter_movies`: rows without an id or a title are skipped; the others
      yield the parsed id and the split title, until an id fails to parse. */
  function IterMovies(rows: seq<CsvRow>): (r: MovieIter)
    ensures |r.movies| <= |rows|
  {
    Gather(MapSeq(rows, Classify))
  }

  lemma {:induction false} GatherAppend(a: seq<RowOutcome>, b: seq<RowOutcome>)
    ensures Gather(a).failed ==> Gather(a + b) == Gather(a)
    ensures !Gather(a).failed ==> Gather(a + b) == MovieIter(Gather(a).movies + Gather(b).movies, Gather(b).failed)
  {
    if a == [] {
      assert a + b == b;
    } else {
      assert (a + b)[0] == a[0];
      assert (a + b)[1..] == a[1..] + b;
      GatherAppend(a[1..], b);
      if a[0].Yield? {
        var m := a[0].movie;
        var ta, tb := Gather(a[1..]).movies, Gather(b).movies;
        assert [m] + ta + tb == [m] + (ta + tb);
      }
    }
  }

  /** Reading is row by row: the movies of `a + b` are those of `a` followed by
      those of `b`, unless an id in `a` already failed to parse, which ends the
      iteration there. */
  lemma IterMoviesAppend(a: seq<CsvRow>, b: seq<CsvRow>)
    ensures IterMovies(a).failed ==> IterMovies(a + b) == IterMovies(a)
    ensures !IterMovies(a).failed ==>
      IterMovies(a + b) == MovieIter(IterMovies(a).movies + IterMovies(b).movies, IterMovies(b).failed)
  {
    MapSeqAppend(a, b, Classify);
    GatherAppend(MapSeq(a, Classify), MapSeq(b, Classify));
  }

  lemma GatherOne(o: RowOutcome)
    ensures Gather([o]) == match o
      case Skip => MovieIter([], false)
      case BadId => MovieIter([], true)
      case Yield(m) => MovieIter([m], false)
  {
    assert [o][1..] == [];
  }

  /** One row: a skipped row yields nothing; any other yields its movie, or
      ends the iteration when its id is not an integer. */
  lemma IterMoviesOne(row: CsvRow)
    ensures Skipped(row) ==> IterMovies([row]) == MovieIter([], false)
    ensures !Skipped(row) && ParseInt(IdText(row)).None? ==> IterMovies([row]) == MovieIter([], true)
    ensures !Skipped(row) && ParseInt(IdText(row)).Some? ==>
      IterMovies([row]) == MovieIter([MovieOf(row, ParseInt(IdText(row)).value)], false)
  {
    var o := Classify(row);
    assert MapSeq([row], Classify) == [o];
    GatherOne(o);
  }

  /** Every movie yielded comes from a row that is not skipped, with that row's
      id and split title; every title is stripped. */
  lemma {:induction false} GatherFrom(outcomes: seq<RowOutcome>, k: int)
    requires 0 <= k < |Gather(outcomes).movies|
    ensures exists j :: 0 <= j < |outcomes| && outcomes[j] == Yield(Gather(outcomes).movies[k])
  {
    assert outcomes != [];
    var rest := Gather(outcomes[1..]);
    if outcomes[0].Skip? {
      GatherFrom(outcomes[1..], k);
      var j :| 0 <= j < |outcomes[1..]| && outcomes[1..][j] == Yield(rest.movies[k]);
      assert outcomes[j + 1] == outcomes[1..][j];
    } else if k > 0 {
      assert Gather(outcomes).movies[k] == rest.movies[k - 1];
      GatherFrom(outcomes[1..], k - 1);
      var j :| 0 <= j < |outcomes[1..]| && outcomes[1..][j] == Yield(rest.movies[k - 1]);
      assert outcomes[j + 1] == outcomes[1..][j];
    }
  }

  lemma IterMoviesFrom(rows: seq<CsvRow>, k: int)
    requires 0 <= k < |IterMovies(rows).movies|
    ensures var m := IterMovies(rows).movies[k];
      exists j :: 0 <= j < |rows| && !Skipped(rows[j]) && ParseInt(IdText(rows[j])) == Some(m.movieId)
        && m == MovieOf(rows[j], m.movieId) && Trimmed(m.title)
  {
    GatherFrom(MapSeq(rows, Classify), k);
  }

  // ---------------------------------------------------------------------------
  // _build_content_text

  predicate NonEmpty(s: string)
  {
    s != ""
  }

  /** The six parts, in order. */
  function ContentParts(b: Bundle): seq<string>
  {
    [b.title, Join(b.genres, " "), Join(b.cast, " "), OrEmpty(b.director), Join(b.keywords, " "), OrEmpty(b.overview)]
  }

  predicate NoUpper(s: string)
  {
    forall i :: 0 <= i < |s| ==> !('A' <= s[i] <= 'Z')
  }

  /** `_build_content_text`: the non-empty parts joined by single spaces,
      stripped, lowercased. */
  function BuildContentText(b: Bundle): (r: string)
    ensures Trimmed(r) && NoUpper(r)
  {
    var joined := Strip(Join(Filter(ContentParts(b), NonEmpty), " "));
    LowerTrimmed(joined);
    Lower(joined)
  }

  /** Lowercasing keeps a trimmed string trimmed and leaves no capital letter. */
  lemma LowerTrimmed(s: string)
    requires Trimmed(s)
    ensures Trimmed(Lower(s)) && NoUpper(Lower(s))
  {
    assert forall c :: IsSpace(LowerChar(c)) == IsSpace(c);
  }

  /** Sequences of strings that are each trimmed and non-empty join with single
      spaces into a trimmed string. */
  lemma {:induction false} JoinTrimmed(parts: seq<string>)
    requires forall k :: 0 <= k < |parts| ==> parts[k] != "" && Trimmed(parts[k])
    ensures Trimmed(Join(parts, " "))
    ensures parts != [] ==> Join(parts, " ") != ""
  {
    if |parts| > 1 {
      JoinTrimmed(parts[1..]);
      var rest := Join(parts[1..], " ");
      assert Join(parts, " ") == parts[0] + " " + rest;
      assert (parts[0] + " " + rest)[0] == parts[0][0];
      assert (parts[0] + " " + rest)[|parts[0] + " " + rest| - 1] == rest[|rest| - 1];
    }
  }

  /** When every part is trimmed the strip has nothing to remove: the text is
      the lowercased non-empty parts, in order, separated by single spaces. */
  lemma ContentTextOfTrimmedParts(b: Bundle)
    requires forall k :: 0 <= k < 6 ==> Trimmed(ContentParts(b)[k])
    ensures BuildContentText(b) == Lower(Join(Filter(ContentParts(b), NonEmpty), " "))
  {
    var parts := Filter(ContentParts(b), NonEmpty);
    forall k | 0 <= k < |parts| ensures parts[k] != "" && Trimmed(parts[k]) {
      assert parts[k] in ContentParts(b);
    }
    JoinTrimmed(parts);
    StripTrimmed(Join(parts, " "));
  }

  /** Empty parts leave no trace: a bundle with only a title has exactly the
      title's text. */
  lemma ContentTextOfTitleOnly(b: Bundle)
    requires b.genres == [] && b.cast == [] && b.keywords == [] && OrEmpty(b.director) == "" && OrEmpty(b.overview) == ""
    ensures BuildContentText(b) == Lower(Strip(b.title))
  {
    assert ContentParts(b) == [b.title, "", "", "", "", ""];
    JoinTitleOnly(b.title);
  }

  /** Joining a title followed by five empty parts gives the title back. */
  lemma JoinTitleOnly(t: string)
    ensures Join(Filter([t, "", "", "", "", ""], NonEmpty), " ") == t
  {
    var tail := ["", "", "", "", ""];
    assert [t, "", "", "", "", ""] == [t] + tail;
    FilterAppend([t], tail, NonEmpty);
    assert Filter(tail, NonEmpty) == [];
    assert [t][1..] == [];
  }

  // ---------------------------------------------------------------------------
  // _write_failure

  /** Each `"` doubled. */
  function Escape(s: string): (r: string)
    ensures |r| >= |s|
  {
    if s == [] then [] else (if s[0] == '"' then "\"\"" else [s[0]]) + Escape(s[1..])
  }

  /** A quoted CSV field. */
  function Quoted(s: string): (r: string)
    ensures |r| >= |s| + 2 && r[0] == '"' && r[|r| - 1] == '"'
  {
    "\"" + Escape(s) + "\""
  }

  /** The line `_write_failure` writes: the id, the quoted title, the year (or
      nothing), the quoted reason, and a newline. */
  function FailureLine(movieId: int, title: string, year: Option<string>, reason: string): (r: string)
    ensures r != [] && r[|r| - 1] == '\n'
  {
    IntToString(movieId) + "," + Quoted(title) + "," + OrEmpty(year) + "," + Quoted(reason) + "\n"
  }

  /** Section 2, rule 7 of RFC 4180: read the body of a quoted field up to its
      closing quote, a doubled quote standing for one quote; the field's text
      and what follows the closing quote. */
  function ReadQuoted(s: string): Option<(string, string)>
  {
    if s == [] then None
    else if s[0] == '"' then
      if |s| >= 2 && s[1] == '"' then
        match ReadQuoted(s[2..])
        case None => None
        case Some(p) => Some(("\"" + p.0, p.1))
      else Some(("", s[1..]))
    else
      match ReadQuoted(s[1..])
      case None => None
      case Some(p) => Some(([s[0]] + p.0, p.1))
  }

  lemma ReadQuotedClose(rest: string)
    requires rest == [] || rest[0] != '"'
    ensures ReadQuoted("\"" + rest) == Some(("", rest))
  {
    assert ("\"" + rest)[1..] == rest;
  }

  lemma ReadQuotedDoubled(t: string)
    ensures ReadQuoted("\"\"" + t) ==
      match ReadQuoted(t)
      case None => None
      case Some(p) => Some(("\"" + p.0, p.1))
  {
    assert ("\"\"" + t)[2..] == t;
  }

  lemma ReadQuotedPlain(c: char, t: string)
    requires c != '"'
    ensures ReadQuoted([c] + t) ==
      match ReadQuoted(t)
      case None => None
      case Some(p) => Some(([c] + p.0, p.1))
  {
    assert ([c] + t)[1..] == t;
  }

  lemma EscapeCons(x: string, t: string)
    requires x != []
    ensures Escape(x) + t == (if x[0] == '"' then "\"\"" else [x[0]]) + (Escape(x[1..]) + t)
  {
  }

  /** Reading an escaped text back, up to its closing quote, gives the text. */
  lemma {:induction false} ReadQuotedEscape(x: string, rest: string)
    requires rest == [] || rest[0] != '"'
    ensures ReadQuoted(Escape(x) + ("\"" + rest)) == Some((x, rest))
  {
    if x == [] {
      assert Escape(x) + ("\"" + rest) == "\"" + rest;
      ReadQuotedClose(rest);
    } else {
      var t := "\"" + rest;
      EscapeCons(x, t);
      ReadQuotedEscape(x[1..], rest);
      var tail := Escape(x[1..]) + t;
      assert [x[0]] + x[1..] == x;
      if x[0] == '"' {
        assert Escape(x) + t == "\"\"" + tail;
        ReadQuotedDoubled(tail);
      } else {
        assert Escape(x) + t == [x[0]] + tail;
        ReadQuotedPlain(x[0], tail);
      }
    }
  }

  /** The text before the first `c`, and the text after it. */
  function UpTo(s: string, c: char): Option<(string, string)>
  {
    if s == [] then None
    else if s[0] == c then Some(("", s[1..]))
    else
      match UpTo(s[1..], c)
      case None => None
      case Some(p) => Some(([s[0]] + p.0, p.1))
  }

  lemma {:induction false} UpToAppend(a: string, c: char, b: string)
    requires c !in a
    ensures UpTo(a + [c] + b, c) == Some((a, b))
  {
    if a == [] {
      assert a + [c] + b == [c] + b;
    } else {
      assert (a + [c] + b)[1..] == a[1..] + [c] + b;
      UpToAppend(a[1..], c, b);
      assert [a[0]] + a[1..] == a;
    }
  }

  /** A failure record read back from its line. */
  datatype FailureFields = FailureFields(movieId: int, title: string, year: string, reason: string)

  /** A quoted field at the start of `s`: its text and what follows it. */
  function QuotedPrefix(s: string): Option<(string, string)>
  {
    if s == [] || s[0] != '"' then None else ReadQuoted(s[1..])
  }

  /** What follows a leading comma. */
  function AfterComma(s: string): Option<string>
  {
    if s == [] || s[0] != ',' then None else Some(s[1..])
  }

  /** The last column: a quoted reason that ends the line. */
  function ReasonColumn(s: string): Option<string>
  {
    match QuotedPrefix(s)
    case None => None
    case Some(p) => if p.1 == "\n" then Some(p.0) else None
  }

  /** The year and reason columns. */
  function YearReasonColumns(s: string): Option<(string, string)>
  {
    match UpTo(s, ',')
    case None => None
    case Some(p) =>
      match ReasonColumn(p.1)
      case None => None
      case Some(reason) => Some((p.0, reason))
  }

  /** The title, year and reason columns. */
  function TitleYearReasonColumns(s: string): Option<(string, string, string)>
  {
    match QuotedPrefix(s)
    case None => None
    case Some(p) =>
      match AfterComma(p.1)
      case None => None
      case Some(u) =>
        match YearReasonColumns(u)
        case None => None
        case Some(q) => Some((p.0, q.0, q.1))
  }

  /** A reader for the failure log's four columns. */
  function ParseFailureLine(line: string): Option<FailureFields>
  {
    match UpTo(line, ',')
    case None => None
    case Some(p) =>
      match ParseInt(p.0)
      case None => None
      case Some(id) =>
        match TitleYearReasonColumns(p.1)
        case None => None
        case Some(q) => Some(FailureFields(id, q.0, q.1, q.2))
  }

  /** The line as nested fields, each followed by what comes after it. */
  lemma FailureLineShape(a: string, b: string, c: string, d: string)
    ensures a + "," + b + "," + c + "," + d + "\n" == a + [','] + (b + [','] + (c + [','] + (d + "\n")))
  {
  }

  lemma QuotedShape(x: string, rest: string)
    ensures Quoted(x) + rest == ['"'] + (Escape(x) + ("\"" + rest))
  {
  }

  /** A quoted field followed by `rest` reads back as its text and `rest`. */
  lemma QuotedPrefixOf(x: string, rest: string)
    requires rest == [] || rest[0] != '"'
    ensures QuotedPrefix(Quoted(x) + rest) == Some((x, rest))
  {
    QuotedShape(x, rest);
    var s := Quoted(x) + rest;
    assert s[1..] == Escape(x) + ("\"" + rest);
    ReadQuotedEscape(x, rest);
  }

  lemma YearReasonColumnsOf(y: string, reason: string)
    requires ',' !in y
    ensures YearReasonColumns(y + [','] + (Quoted(reason) + "\n")) == Some((y, reason))
  {
    UpToAppend(y, ',', Quoted(reason) + "\n");
    QuotedPrefixOf(reason, "\n");
  }

  lemma TitleYearReasonColumnsOf(title: string, y: string, reason: string)
    requires ',' !in y
    ensures TitleYearReasonColumns(Quoted(title) + ([','] + (y + [','] + (Quoted(reason) + "\n")))) ==
      Some((title, y, reason))
  {
    var r2 := y + [','] + (Quoted(reason) + "\n");
    QuotedPrefixOf(title, [','] + r2);
    assert ([','] + r2)[1..] == r2;
    YearReasonColumnsOf(y, reason);
  }

  /** A failure line reads back as the id, title, year and reason written, for
      any title and reason (commas, quotes and newlines included) and any year
      without a comma. */
  lemma FailureLineRoundTrip(movieId: int, title: string, year: Option<string>, reason: string)
    requires ',' !in OrEmpty(year)
    ensures ParseFailureLine(FailureLine(movieId, title, year, reason)) ==
      Some(FailureFields(movieId, title, OrEmpty(year), reason))
  {
    var id, y := IntToString(movieId), OrEmpty(year);
    var r1 := Quoted(title) + ([','] + (y + [','] + (Quoted(reason) + "\n")));
    FailureLineShape(id, Quoted(title), y, Quoted(reason));
    assert FailureLine(movieId, title, year, reason) == id + [','] + r1;
    assert ',' !in id;
    UpToAppend(id, ',', r1);
    ParseIntOfIntToString(movieId);
    TitleYearReasonColumnsOf(title, y, reason);
  }

  // ---------------------------------------------------------------------------
  // ingest

  /** What `search_movie` gives: a request error, or the ids of the results
      (`results[i].get("id")`). */
  datatype SearchOutcome = SearchFailed(message: string) | Found(ids: seq<Option<int>>)

  /** A line of the failure log. */
  datatype Failure = Failure(movie: MovieRow, reason: string)

  /** A mapping written to the database: the MovieLens movie, its TMDB id, the
      stored title (`bundle.get("title") or title`) and the bundle whose fields
      the `tmdb_movies` row stores. */
  datatype Ingested = Ingested(movie: MovieRow, tmdbId: int, title: string, bundle: Bundle)

  /** The `content_text` column of a mapping's row. */
  function ContentText(x: Ingested): (r: string)
    ensures Trimmed(r) && NoUpper(r)
  {
    BuildContentText(x.bundle)
  }

  function TmdbIds(xs: seq<Ingested>): set<int>
  {
    set k | 0 <= k < |xs| :: xs[k].tmdbId
  }

  lemma TmdbIdsAppend(xs: seq<Ingested>, x: Ingested)
    ensures TmdbIds(xs + [x]) == TmdbIds(xs) + {x.tmdbId}
  {
    var ys := xs + [x];
    assert forall k :: 0 <= k < |xs| ==> ys[k] == xs[k];
    assert ys[|xs|] == x;
  }

  /** The reason logged for a request error, `f"request_error: {exc}"`. */
  function RequestError(message: string): (r: string)
    ensures |r| == 15 + |message| && r[..15] == "request_error: " && r[15..] == message
  {
    "request_error: " + message
  }

  predicate IsRequestError(f: Failure)
  {
    |f.reason| >= 15 && f.reason[..15] == "request_error: "
  }

  /** `if limit and count >= limit`: a limit of `None` or `0` never stops. */
  predicate LimitReached(limit: Option<int>, count: int)
  {
    limit.Some? && limit.value != 0 && count >= limit.value
  }

  /** An ingest that `movie` and the two remote calls account for. */
  ghost predicate Justified(x: Ingested, search: (string, Option<string>) -> SearchOutcome, fetch: int -> Result<Bundle, string>)
  {
    var s := search(x.movie.title, x.movie.year);
    && s.Found? && s.ids != [] && s.ids[0] == Some(x.tmdbId) && x.tmdbId != 0
    && fetch(x.tmdbId).Ok?
    && x.bundle == fetch(x.tmdbId).value
    && x.title == (if fetch(x.tmdbId).value.title != "" then fetch(x.tmdbId).value.title else x.movie.title)
  }

  /** What the loop does with one movie. */
  datatype Step = Pass | Failed(reason: string, requestError: bool) | Mapped(x: Ingested)

  /** `client.search_movie(title=title, year=year)` for a movie. */
  function SearchOf(movie: MovieRow, search: (string, Option<string>) -> SearchOutcome): SearchOutcome
  {
    search(movie.title, movie.year)
  }

  /** The first search result's TMDB id when it is usable (`if not tmdb_id`
      rejects a missing id and the id 0). */
  function FirstId(s: SearchOutcome): Option<int>
  {
    if s.Found? && s.ids != [] && s.ids[0].Some? && s.ids[0].value != 0 then s.ids[0] else None
  }

  /** A first result without a usable id: missing, or 0. */
  predicate MissingId(s: SearchOutcome)
  {
    s.Found? && s.ids != [] && (s.ids[0].None? || s.ids[0].value == 0)
  }

  /** What the body of the loop does with one movie, cause by cause: an
      already-mapped MovieLens id or TMDB id passes; a search exception logs
      `request_error: ` and its message, an empty result `no_results`, a first
      result without an id `missing_tmdb_id`, and a fetch exception
      `request_error: ` and its message; otherwise the movie is mapped. */
  function StepOf(movie: MovieRow, mapped: set<int>, mappedTmdb: set<int>,
                  search: (string, Option<string>) -> SearchOutcome, fetch: int -> Result<Bundle, string>): (step: Step)
    ensures step.Pass? <==> movie.movieId in mapped || (FirstId(SearchOf(movie, search)).Some? &&
                                                       FirstId(SearchOf(movie, search)).value in mappedTmdb)
    ensures step.Mapped? <==> (
      movie.movieId !in mapped && FirstId(SearchOf(movie, search)).Some? &&
      FirstId(SearchOf(movie, search)).value !in mappedTmdb &&
      fetch(FirstId(SearchOf(movie, search)).value).Ok?)
    ensures step.Mapped? ==> (
      step.x.movie == movie && Justified(step.x, search, fetch) && step.x.tmdbId !in mappedTmdb)
    ensures step == Failed("no_results", false) <==> movie.movieId !in mapped && SearchOf(movie, search) == Found([])
    ensures step == Failed("missing_tmdb_id", false) <==> movie.movieId !in mapped && MissingId(SearchOf(movie, search))
    ensures movie.movieId !in mapped && SearchOf(movie, search).SearchFailed? ==>
      step == Failed(RequestError(SearchOf(movie, search).message), true)
    ensures movie.movieId !in mapped && FirstId(SearchOf(movie, search)).Some? &&
            FirstId(SearchOf(movie, search)).value !in mappedTmdb && fetch(FirstId(SearchOf(movie, search)).value).Err? ==>
      step == Failed(RequestError(fetch(FirstId(SearchOf(movie, search)).value).error), true)
    ensures step.Failed? ==> (step.requestError <==> IsRequestError(Failure(movie, step.reason)))
  {
    var s := SearchOf(movie, search);
    if movie.movieId in mapped then Pass
    else if s.SearchFailed? then
      assert RequestError(s.message)[..15] == "request_error: ";
      Failed(RequestError(s.message), true)
    else if s.ids == [] then Failed("no_results", false)
    else if s.ids[0].None? || s.ids[0].value == 0 then
      assert "missing_tmdb_id"[0] != "request_error: "[0];
      Failed("missing_tmdb_id", false)
    else if s.ids[0].value in mappedTmdb then Pass
    else
      match fetch(s.ids[0].value)
      case Err(e) =>
        assert RequestError(e)[..15] == "request_error: ";
        Failed(RequestError(e), true)
      case Ok(b) => Mapped(Ingested(movie, s.ids[0].value, if b.title != "" then b.title else movie.title, b))
  }

  /** The body of the loop for one movie, with its early `continue`s. */
  method IngestOne(movie: MovieRow, mapped: set<int>, mappedTmdb: set<int>,
                   search: (string, Option<string>) -> SearchOutcome, fetch: int -> Result<Bundle, string>)
    returns (step: Step)
    ensures step == StepOf(movie, mapped, mappedTmdb, search, fetch)
  {
    if movie.movieId in mapped {
      return Pass;
    }
    var outcome := search(movie.title, movie.year);
    if outcome.SearchFailed? {
      return Failed(RequestError(outcome.message), true);
    }
    if outcome.ids == [] {
      return Failed("no_results", false);
    }
    if outcome.ids[0].None? || outcome.ids[0].value == 0 {
      return Failed("missing_tmdb_id", false);
    }
    var tmdbId := outcome.ids[0].value;
    if tmdbId in mappedTmdb {
      return Pass;
    }
    var bundle := fetch(tmdbId);
    if bundle.Err? {
      return Failed(RequestError(bundle.error), true);
    }
    var title := if bundle.value.title != "" then bundle.value.title else movie.title;
    return Mapped(Ingested(movie, tmdbId, title, bundle.value));
  }

  /** What the loop has written so far: the mappings, the failure log, the
      request-error count and the mapped TMDB ids. */
  datatype IngestState = IngestState(ingested: seq<Ingested>, failures: seq<Failure>, errors: nat, mappedTmdb: set<int>)

  /** One step's effect: nothing for a pass; a failure line, counted when it is
      a request error; or a mapping with its TMDB id marked. */
  function Apply(st: IngestState, movie: MovieRow, step: Step): IngestState
  {
    match step
    case Pass => st
    case Failed(reason, requestError) =>
      IngestState(st.ingested, st.failures + [Failure(movie, reason)], st.errors + (if requestError then 1 else 0), st.mappedTmdb)
    case Mapped(x) => IngestState(st.ingested + [x], st.failures, st.errors, st.mappedTmdb + {x.tmdbId})
  }

  /** The loop of `ingest` as a fold: each movie's step applied in turn,
      stopping after the mapping that reaches the limit; the final state and
      the number of movies consumed. */
  function IngestRun(movies: seq<MovieRow>, mapped: set<int>, limit: Option<int>,
                     search: (string, Option<string>) -> SearchOutcome, fetch: int -> Result<Bundle, string>,
                     st: IngestState): (r: (IngestState, nat))
    ensures r.1 <= |movies|
    decreases |movies|
  {
    if movies == [] then (st, 0)
    else
      var step := StepOf(movies[0], mapped, st.mappedTmdb, search, fetch);
      var next := Apply(st, movies[0], step);
      if step.Mapped? && LimitReached(limit, |next.ingested|) then (next, 1)
      else
        var rest := IngestRun(movies[1..], mapped, limit, search, fetch, next);
        (rest.0, rest.1 + 1)
  }

  /** Every mapping comes from an unmapped movie of `done` and is justified by
      the two remote calls. */
  ghost predicate MappingsFrom(done: seq<MovieRow>, mapped: set<int>, search: (string, Option<string>) -> SearchOutcome,
                               fetch: int -> Result<Bundle, string>, ingested: seq<Ingested>)
  {
    forall k :: 0 <= k < |ingested| ==>
      ingested[k].movie in done && ingested[k].movie.movieId !in mapped && Justified(ingested[k], search, fetch)
  }

  /** No mapping's TMDB id was mapped before, no two mappings share one, and the
      mapped TMDB ids are the initial ones and the new ones. */
  ghost predicate MappingsFresh(mappedTmdb0: set<int>, ingested: seq<Ingested>, mappedTmdb: set<int>)
  {
    && (forall k :: 0 <= k < |ingested| ==> ingested[k].tmdbId !in mappedTmdb0)
    && (forall j, k :: 0 <= j < k < |ingested| ==> ingested[j].tmdbId != ingested[k].tmdbId)
    && mappedTmdb == mappedTmdb0 + TmdbIds(ingested)
  }

  /** Every failure comes from an unmapped movie of `done`. */
  ghost predicate FailuresFrom(done: seq<MovieRow>, mapped: set<int>, failures: seq<Failure>)
  {
    forall k :: 0 <= k < |failures| ==> failures[k].movie in done && failures[k].movie.movieId !in mapped
  }

  /** A movie the loop consumed left its trace by cause: unless its MovieLens id
      was already mapped, a search exception, an empty result and a missing
      first id are each logged with their reason, and a usable TMDB id ends
      up mapped or, when fetching it raised, logged as a request error. */
  ghost predicate Logged(m: MovieRow, mapped: set<int>, search: (string, Option<string>) -> SearchOutcome,
                         fetch: int -> Result<Bundle, string>, failures: seq<Failure>, mappedTmdb: set<int>)
  {
    var s := SearchOf(m, search);
    m.movieId !in mapped ==>
      && (s.SearchFailed? ==> Failure(m, RequestError(s.message)) in failures)
      && (s == Found([]) ==> Failure(m, "no_results") in failures)
      && (MissingId(s) ==> Failure(m, "missing_tmdb_id") in failures)
      && (FirstId(s).Some? ==>
            || FirstId(s).value in mappedTmdb
            || (fetch(FirstId(s).value).Err? && Failure(m, RequestError(fetch(FirstId(s).value).error)) in failures))
  }

  /** What the loop has written after consuming the movies `done`: every
      mapping justified and fresh, every failure from an unmapped movie of
      `done`, `errors` the number of request errors, and every movie of `done`
      logged by cause. */
  ghost predicate Accounted(done: seq<MovieRow>, mapped: set<int>, mappedTmdb0: set<int>,
                           search: (string, Option<string>) -> SearchOutcome, fetch: int -> Result<Bundle, string>,
                           st: IngestState)
  {
    && MappingsFrom(done, mapped, search, fetch, st.ingested)
    && MappingsFresh(mappedTmdb0, st.ingested, st.mappedTmdb)
    && FailuresFrom(done, mapped, st.failures)
    && st.errors == |Filter(st.failures, IsRequestError)|
    && (forall k :: 0 <= k < |done| ==> Logged(done[k], mapped, search, fetch, st.failures, st.mappedTmdb))
  }

  /** Logging more failures and mapping more TMDB ids keeps a movie logged. */
  lemma LoggedMore(m: MovieRow, mapped: set<int>, search: (string, Option<string>) -> SearchOutcome,
                   fetch: int -> Result<Bundle, string>, failures: seq<Failure>, mappedTmdb: set<int>,
                   more: seq<Failure>, mappedTmdb': set<int>)
    requires Logged(m, mapped, search, fetch, failures, mappedTmdb) && mappedTmdb <= mappedTmdb'
    ensures Logged(m, mapped, search, fetch, failures + more, mappedTmdb')
  {
    forall f | f in failures ensures f in failures + more {
    }
  }

  lemma MappingsFromMore(done: seq<MovieRow>, more: seq<MovieRow>, mapped: set<int>,
                         search: (string, Option<string>) -> SearchOutcome, fetch: int -> Result<Bundle, string>,
                         ingested: seq<Ingested>)
    requires MappingsFrom(done, mapped, search, fetch, ingested)
    ensures MappingsFrom(done + more, mapped, search, fetch, ingested)
  {
    forall k | 0 <= k < |ingested| ensures ingested[k].movie in done + more {
      assert ingested[k].movie in done;
    }
  }

  lemma FailuresFromMore(done: seq<MovieRow>, more: seq<MovieRow>, mapped: set<int>, failures: seq<Failure>)
    requires FailuresFrom(done, mapped, failures)
    ensures FailuresFrom(done + more, mapped, failures)
  {
    forall k | 0 <= k < |failures| ensures failures[k].movie in done + more {
      assert failures[k].movie in done;
    }
  }

  lemma AccountedFailure(done: seq<MovieRow>, mapped: set<int>, failures: seq<Failure>, errors: nat, f: Failure)
    requires FailuresFrom(done, mapped, failures) && errors == |Filter(failures, IsRequestError)|
    requires f.movie in done && f.movie.movieId !in mapped
    ensures FailuresFrom(done, mapped, failures + [f])
    ensures errors + (if IsRequestError(f) then 1 else 0) == |Filter(failures + [f], IsRequestError)|
  {
    FilterAppend(failures, [f], IsRequestError);
    assert [f][1..] == [];
  }

  lemma MappingsFromAppend(done: seq<MovieRow>, mapped: set<int>, search: (string, Option<string>) -> SearchOutcome,
                           fetch: int -> Result<Bundle, string>, ingested: seq<Ingested>, x: Ingested)
    requires MappingsFrom(done, mapped, search, fetch, ingested)
    requires x.movie in done && x.movie.movieId !in mapped && Justified(x, search, fetch)
    ensures MappingsFrom(done, mapped, search, fetch, ingested + [x])
  {
    var ys := ingested + [x];
    forall k | 0 <= k < |ys|
      ensures ys[k].movie in done && ys[k].movie.movieId !in mapped && Justified(ys[k], search, fetch)
    {
      if k < |ingested| {
        assert ys[k] == ingested[k];
      }
    }
  }

  lemma MappingsFreshAppend(mappedTmdb0: set<int>, ingested: seq<Ingested>, mappedTmdb: set<int>, x: Ingested)
    requires MappingsFresh(mappedTmdb0, ingested, mappedTmdb) && x.tmdbId !in mappedTmdb
    ensures MappingsFresh(mappedTmdb0, ingested + [x], mappedTmdb + {x.tmdbId})
  {
    TmdbIdsAppend(ingested, x);
    forall k | 0 <= k < |ingested| ensures ingested[k].tmdbId != x.tmdbId {
      assert ingested[k].tmdbId in TmdbIds(ingested);
    }
    var ys := ingested + [x];
    forall k | 0 <= k < |ys| ensures ys[k].tmdbId !in mappedTmdb0 {
      if k < |ingested| {
        assert ys[k] == ingested[k];
      }
    }
    forall j, k | 0 <= j < k < |ys| ensures ys[j].tmdbId != ys[k].tmdbId {
      if k < |ingested| {
        assert ys[j] == ingested[j] && ys[k] == ingested[k];
      } else {
        assert ys[j] == ingested[j] && ys[k] == x;
      }
    }
  }

  /** One pass of the loop of `ingest`: the movie's step, and its failure
      logged (a request error counted) or its mapping written and its TMDB id
      marked; a pass changes nothing. */
  method IngestStep(movie: MovieRow, mapped: set<int>,
                    search: (string, Option<string>) -> SearchOutcome, fetch: int -> Result<Bundle, string>,
                    st: IngestState)
    returns (st': IngestState, added: bool)
    ensures var step := StepOf(movie, mapped, st.mappedTmdb, search, fetch);
      && (added <==> step.Mapped?)
      && (step.Pass? ==> st' == st)
      && (step.Failed? ==> st' == IngestState(st.ingested, st.failures + [Failure(movie, step.reason)],
                                              st.errors + (if step.requestError then 1 else 0), st.mappedTmdb))
      && (step.Mapped? ==> st' == IngestState(st.ingested + [step.x], st.failures, st.errors, st.mappedTmdb + {step.x.tmdbId}))
      && st' == Apply(st, movie, step)
  {
    st', added := st, false;
    var step := IngestOne(movie, mapped, st.mappedTmdb, search, fetch);
    match step
    case Pass =>
    case Failed(reason, requestError) =>
      st' := IngestState(st.ingested, st.failures + [Failure(movie, reason)],
                         st.errors + (if requestError then 1 else 0), st.mappedTmdb);
    case Mapped(x) =>
      st' := IngestState(st.ingested + [x], st.failures, st.errors, st.mappedTmdb + {x.tmdbId});
      added := true;
  }

  /** One step keeps what has been written accounted for, the consumed movie
      included. */
  lemma AccountedStep(done: seq<MovieRow>, movie: MovieRow, mapped: set<int>, mappedTmdb0: set<int>,
                      search: (string, Option<string>) -> SearchOutcome, fetch: int -> Result<Bundle, string>,
                      st: IngestState)
    requires Accounted(done, mapped, mappedTmdb0, search, fetch, st)
    ensures Accounted(done + [movie], mapped, mappedTmdb0, search, fetch,
                      Apply(st, movie, StepOf(movie, mapped, st.mappedTmdb, search, fetch)))
  {
    var now := done + [movie];
    var step := StepOf(movie, mapped, st.mappedTmdb, search, fetch);
    MappingsFromMore(done, [movie], mapped, search, fetch, st.ingested);
    FailuresFromMore(done, [movie], mapped, st.failures);
    match step
    case Pass =>
    case Failed(reason, requestError) =>
      AccountedFailure(now, mapped, st.failures, st.errors, Failure(movie, reason));
    case Mapped(x) =>
      MappingsFromAppend(now, mapped, search, fetch, st.ingested, x);
      MappingsFreshAppend(mappedTmdb0, st.ingested, st.mappedTmdb, x);
    LoggedStep(done, movie, mapped, search, fetch, st, step, Apply(st, movie, step));
  }

  lemma PrefixCons<T>(done: seq<T>, ms: seq<T>, k: nat)
    requires ms != [] && k < |ms|
    ensures done + [ms[0]] + ms[1..][..k] == done + ms[..k + 1]
  {
  }

  /** Nothing written accounts for no movies. */
  lemma AccountedInit(mapped: set<int>, mappedTmdb0: set<int>,
                      search: (string, Option<string>) -> SearchOutcome, fetch: int -> Result<Bundle, string>)
    ensures Accounted([], mapped, mappedTmdb0, search, fetch, IngestState([], [], 0, mappedTmdb0))
  {
    assert TmdbIds([]) == {};
  }

  /** The fold from movie `p` on, its count shifted by the `p` movies before. */
  function RunFrom(movies: seq<MovieRow>, p: nat, mapped: set<int>, limit: Option<int>,
                   search: (string, Option<string>) -> SearchOutcome, fetch: int -> Result<Bundle, string>,
                   st: IngestState): (IngestState, nat)
    requires p <= |movies|
  {
    var rest := IngestRun(movies[p..], mapped, limit, search, fetch, st);
    (rest.0, rest.1 + p)
  }

  /** Consuming movie `p` with one step moves the fold on to movie `p + 1`,
      or ends it when that step's mapping reaches the limit. */
  lemma RunFromStep(movies: seq<MovieRow>, p: nat, mapped: set<int>, limit: Option<int>,
                    search: (string, Option<string>) -> SearchOutcome, fetch: int -> Result<Bundle, string>,
                    st: IngestState, st': IngestState, added: bool)
    requires p < |movies|
    requires var step := StepOf(movies[p], mapped, st.mappedTmdb, search, fetch);
      st' == Apply(st, movies[p], step) && (added <==> step.Mapped?)
    ensures added && LimitReached(limit, |st'.ingested|) ==> RunFrom(movies, p, mapped, limit, search, fetch, st) == (st', p + 1)
    ensures !(added && LimitReached(limit, |st'.ingested|)) ==>
      RunFrom(movies, p, mapped, limit, search, fetch, st) == RunFrom(movies, p + 1, mapped, limit, search, fetch, st')
  {
    var ms := movies[p..];
    assert ms[0] == movies[p] && ms[1..] == movies[p + 1..];
    IngestRunStep(ms, mapped, limit, search, fetch, st, st', added);
    if !(added && LimitReached(limit, |st'.ingested|)) {
      var rest := IngestRun(movies[p + 1..], mapped, limit, search, fetch, st');
      assert IngestRun(ms, mapped, limit, search, fetch, st) == (rest.0, rest.1 + 1);
      assert RunFrom(movies, p + 1, mapped, limit, search, fetch, st') == (rest.0, rest.1 + (p + 1));
    }
  }

  /** Everything the fold writes is accounted for by the movies it consumes. */
  lemma {:induction false} IngestRunAccounted(done: seq<MovieRow>, ms: seq<MovieRow>, mapped: set<int>, mappedTmdb0: set<int>,
                                              limit: Option<int>, search: (string, Option<string>) -> SearchOutcome,
                                              fetch: int -> Result<Bundle, string>, st: IngestState)
    requires Accounted(done, mapped, mappedTmdb0, search, fetch, st)
    ensures var r := IngestRun(ms, mapped, limit, search, fetch, st);
      Accounted(done + ms[..r.1], mapped, mappedTmdb0, search, fetch, r.0)
    decreases |ms|
  {
    var r := IngestRun(ms, mapped, limit, search, fetch, st);
    if ms == [] {
      assert done + ms[..r.1] == done;
    } else {
      var step := StepOf(ms[0], mapped, st.mappedTmdb, search, fetch);
      var next := Apply(st, ms[0], step);
      AccountedStep(done, ms[0], mapped, mappedTmdb0, search, fetch, st);
      if step.Mapped? && LimitReached(limit, |next.ingested|) {
        assert ms[..r.1] == [ms[0]];
      } else {
        var rest := IngestRun(ms[1..], mapped, limit, search, fetch, next);
        IngestRunAccounted(done + [ms[0]], ms[1..], mapped, mappedTmdb0, limit, search, fetch, next);
        assert r == (rest.0, rest.1 + 1);
        PrefixCons(done, ms, rest.1);
      }
    }
  }

  /** After one step, the movies consumed before it and the movie itself are
      logged. */
  lemma LoggedStep(done: seq<MovieRow>, movie: MovieRow, mapped: set<int>,
                   search: (string, Option<string>) -> SearchOutcome, fetch: int -> Result<Bundle, string>,
                   st: IngestState, step: Step, st': IngestState)
    requires forall k :: 0 <= k < |done| ==> Logged(done[k], mapped, search, fetch, st.failures, st.mappedTmdb)
    requires step == StepOf(movie, mapped, st.mappedTmdb, search, fetch) && st' == Apply(st, movie, step)
    ensures forall k :: 0 <= k < |done + [movie]| ==> Logged((done + [movie])[k], mapped, search, fetch, st'.failures, st'.mappedTmdb)
  {
    var more := st'.failures[|st.failures|..];
    assert st'.failures == st.failures + more;
    assert st.mappedTmdb <= st'.mappedTmdb;
    forall k | 0 <= k < |done + [movie]|
      ensures Logged((done + [movie])[k], mapped, search, fetch, st'.failures, st'.mappedTmdb)
    {
      if k < |done| {
        assert (done + [movie])[k] == done[k];
        LoggedMore(done[k], mapped, search, fetch, st.failures, st.mappedTmdb, more, st'.mappedTmdb);
      } else {
        assert (done + [movie])[k] == movie;
        LoggedNew(movie, mapped, search, fetch, st, step, st');
      }
    }
  }

  /** The movie a step consumes is logged by that step. */
  lemma LoggedNew(movie: MovieRow, mapped: set<int>,
                  search: (string, Option<string>) -> SearchOutcome, fetch: int -> Result<Bundle, string>,
                  st: IngestState, step: Step, st': IngestState)
    requires step == StepOf(movie, mapped, st.mappedTmdb, search, fetch) && st' == Apply(st, movie, step)
    ensures Logged(movie, mapped, search, fetch, st'.failures, st'.mappedTmdb)
  {
    if step.Failed? {
      assert st'.failures[|st.failures|] == Failure(movie, step.reason);
    }
  }

  /** The fold consumes its first movie as one step does. */
  lemma IngestRunStep(ms: seq<MovieRow>, mapped: set<int>, limit: Option<int>,
                      search: (string, Option<string>) -> SearchOutcome, fetch: int -> Result<Bundle, string>,
                      st: IngestState, st': IngestState, added: bool)
    requires ms != []
    requires var step := StepOf(ms[0], mapped, st.mappedTmdb, search, fetch);
      st' == Apply(st, ms[0], step) && (added <==> step.Mapped?)
    ensures added && LimitReached(limit, |st'.ingested|) ==> IngestRun(ms, mapped, limit, search, fetch, st) == (st', 1)
    ensures !(added && LimitReached(limit, |st'.ingested|)) ==>
      var rest := IngestRun(ms[1..], mapped, limit, search, fetch, st');
      IngestRun(ms, mapped, limit, search, fetch, st) == (rest.0, rest.1 + 1)
  {
  }

  /** The loop of `ingest` over the movies read, one step per movie: a failure
      is logged (and a request error counted), a mapping is written and its
      TMDB id marked as mapped. The loop ends after `limit` mappings when the
      limit is set and non-zero (a negative limit stops after the first).
      `processed` is the number of movies the loop consumed. */
  method Ingest(movies: seq<MovieRow>, mapped: set<int>, mappedTmdb0: set<int>, limit: Option<int>,
                search: (string, Option<string>) -> SearchOutcome, fetch: int -> Result<Bundle, string>)
    returns (ingested: seq<Ingested>, failures: seq<Failure>, errors: nat, mappedTmdb: set<int>, processed: nat)
    ensures (IngestState(ingested, failures, errors, mappedTmdb), processed) ==
      IngestRun(movies, mapped, limit, search, fetch, IngestState([], [], 0, mappedTmdb0))
    ensures processed <= |movies|
    ensures processed < |movies| ==> LimitReached(limit, |ingested|)
    ensures limit.Some? && limit.value > 0 ==> |ingested| <= limit.value
    ensures limit.Some? && limit.value < 0 ==> |ingested| <= 1
    ensures Accounted(movies[..processed], mapped, mappedTmdb0, search, fetch, IngestState(ingested, failures, errors, mappedTmdb))
  {
    var count := 0;
    var st := IngestState([], [], 0, mappedTmdb0);
    ghost var init := st;
    processed := 0;
    while processed < |movies|
      invariant processed <= |movies|
      invariant count == |st.ingested| && (count == 0 || !LimitReached(limit, count))
      invariant RunFrom(movies, processed, mapped, limit, search, fetch, st) == RunFrom(movies, 0, mapped, limit, search, fetch, init)
    {
      var movie := movies[processed];
      var added;
      ghost var before := st;
      st, added := IngestStep(movie, mapped, search, fetch, st);
      RunFromStep(movies, processed, mapped, limit, search, fetch, before, st, added);
      processed := processed + 1;
      if added {
        count := count + 1;
        if LimitReached(limit, count) {
          break;
        }
      }
    }
    ingested, failures, errors, mappedTmdb := st.ingested, st.failures, st.errors, st.mappedTmdb;
    assert movies[0..] == movies;
    AccountedInit(mapped, mappedTmdb0, search, fetch);
    IngestRunAccounted([], movies, mapped, mappedTmdb0, limit, search, fetch, init);
    assert [] + movies[..processed] == movies[..processed];
  }
}
