/** The response shaping of the TMDB client (`ml/tmdb_client.py`): the query
    parameters of a movie search, and the bundle `fetch_movie_bundle` builds
    out of the details, credits and keywords responses. The HTTP calls
    themselves are not modelled; their decoded JSON bodies are inputs. */
module TmdbClient {
  import opened Common
  import opened Seqs

  /** A JSON member that may be missing, `null`, or present. */
  datatype Field<T> = Absent | Null | Present(value: T)

  /** An element of `genres`, `cast` or `keywords`: its `name`, if any. */
  datatype Named = Named(name: Option<string>)

  /** An element of `crew`. */
  datatype CrewMember = CrewMember(job: Option<string>, name: Option<string>)

  /** The members of the three responses the bundle reads. */
  datatype Details = Details(title: Option<string>, releaseDate: Option<string>, genres: Field<seq<Named>>,
                             overview: Option<string>)
  datatype Credits = Credits(cast: Field<seq<Named>>, crew: Field<seq<CrewMember>>)
  datatype Keywords = Keywords(keywords: Field<seq<Named>>)

  /** The dictionary `fetch_movie_bundle` returns. */
  datatype Bundle = Bundle(title: string, releaseDate: Option<string>, genres: seq<string>, cast: seq<string>,
                           director: Option<string>, keywords: seq<string>, overview: Option<string>)

  /** Iterating a `null` list raises `TypeError`. */
  datatype BundleError = NullGenres | NullCast

  // ---------------------------------------------------------------------------
  // search_movie

  /** The query parameters of `search_movie` (before `_get` adds the key):
      `query` always, `year` only when a non-empty year is given. */
  function SearchParams(title: string, year: Option<string>): (r: map<string, string>)
    ensures "query" in r && r["query"] == title
    ensures "year" in r <==> year.Some? && year.value != ""
    ensures "year" in r ==> r["year"] == year.value
    ensures forall k :: k in r ==> k == "query" || k == "year"
  {
    var params := map["query" := title];
    if year.Some? && year.value != "" then params["year" := year.value] else params
  }

  // ---------------------------------------------------------------------------
  // fetch_movie_bundle

  /** `if g.get("name")`: a name that is present and non-empty. */
  predicate HasName(x: Named)
  {
    x.name.Some? && x.name.value != ""
  }

  /** `[x.get("name", "") for x in xs if x.get("name")]`. */
  function Names(xs: seq<Named>): (r: seq<string>)
    ensures |r| <= |xs|
    ensures forall k :: 0 <= k < |r| ==> r[k] != ""
  {
    if xs == [] then []
    else (if HasName(xs[0]) then [xs[0].name.value] else []) + Names(xs[1..])
  }

  /** The names are exactly the non-empty names of the elements ... */
  lemma {:induction false} NamesMember(xs: seq<Named>, s: string)
    ensures s in Names(xs) <==> s != "" && exists k :: 0 <= k < |xs| && xs[k].name == Some(s)
  {
    if xs != [] {
      NamesMember(xs[1..], s);
      if s != "" && xs[0].name != Some(s) && (exists k :: 0 <= k < |xs| && xs[k].name == Some(s)) {
        var k :| 0 <= k < |xs| && xs[k].name == Some(s);
        assert xs[1..][k - 1].name == Some(s);
      }
      if s != "" && (exists k :: 0 <= k < |xs[1..]| && xs[1..][k].name == Some(s)) {
        var k :| 0 <= k < |xs[1..]| && xs[1..][k].name == Some(s);
        assert xs[k + 1].name == Some(s);
      }
    }
  }

  /** ... in their original order, each element contributing its own. */
  lemma {:induction false} NamesAppend(a: seq<Named>, b: seq<Named>)
    ensures Names(a + b) == Names(a) + Names(b)
  {
    if a == [] {
      assert a + b == b;
    } else {
      assert (a + b)[1..] == a[1..] + b;
      NamesAppend(a[1..], b);
    }
  }

  /** `details.get("genres", [])` and `credits.get("cast", [])`: a missing list
      is empty, a `null` one cannot be iterated. */
  function ListOrEmpty<T>(f: Field<seq<T>>): (r: Option<seq<T>>)
    ensures r.None? <==> f.Null?
    ensures f.Absent? ==> r == Some([])
    ensures f.Present? ==> r == Some(f.value)
  {
    match f
    case Absent => Some([])
    case Null => None
    case Present(xs) => Some(xs)
  }

  /** `credits.get("crew", []) or []`: missing and `null` both read as empty. */
  function ListOrNone<T>(f: Field<seq<T>>): (r: seq<T>)
    ensures f.Present? ==> r == f.value
    ensures !f.Present? ==> r == []
  {
    if f.Present? then f.value else []
  }

  predicate IsDirector(c: CrewMember)
  {
    c.job == Some("Director")
  }

  /** The name of the first crew member whose job is "Director". */
  function FirstDirector(crew: seq<CrewMember>): (r: Option<string>)
    ensures (forall k :: 0 <= k < |crew| ==> !IsDirector(crew[k])) ==> r == None
    ensures forall k :: 0 <= k < |crew| && IsDirector(crew[k]) && (forall j :: 0 <= j < k ==> !IsDirector(crew[j])) ==>
      r == crew[k].name
  {
    if crew == [] then None
    else if IsDirector(crew[0]) then crew[0].name
    else
      var r := FirstDirector(crew[1..]);
      FirstDirectorStep(crew, r);
      r
  }

  /** A crew whose first member is not a director has the first director of the
      rest. */
  lemma FirstDirectorStep(crew: seq<CrewMember>, r: Option<string>)
    requires crew != [] && !IsDirector(crew[0])
    requires var t := crew[1..];
      && ((forall k :: 0 <= k < |t| ==> !IsDirector(t[k])) ==> r == None)
      && (forall k :: 0 <= k < |t| && IsDirector(t[k]) && (forall j :: 0 <= j < k ==> !IsDirector(t[j])) ==> r == t[k].name)
    ensures (forall k :: 0 <= k < |crew| ==> !IsDirector(crew[k])) ==> r == None
    ensures forall k :: 0 <= k < |crew| && IsDirector(crew[k]) && (forall j :: 0 <= j < k ==> !IsDirector(crew[j])) ==>
      r == crew[k].name
  {
    var t := crew[1..];
    if forall k :: 0 <= k < |crew| ==> !IsDirector(crew[k]) {
      forall k | 0 <= k < |t| ensures !IsDirector(t[k]) {
        assert t[k] == crew[k + 1];
      }
    }
    forall k | 0 <= k < |crew| && IsDirector(crew[k]) && (forall j :: 0 <= j < k ==> !IsDirector(crew[j]))
      ensures r == crew[k].name
    {
      assert k > 0 && t[k - 1] == crew[k];
      forall j | 0 <= j < k - 1 ensures !IsDirector(t[j]) {
        assert t[j] == crew[j + 1];
      }
    }
  }

  /** The director loop: scan the crew and stop at the first director. */
  method FindDirector(crew: seq<CrewMember>) returns (director: Option<string>)
    ensures director == FirstDirector(crew)
  {
    director := None;
    var k := 0;
    while k < |crew|
      invariant 0 <= k <= |crew|
      invariant director == None
      invariant FirstDirector(crew) == FirstDirector(crew[k..])
    {
      assert crew[k..][1..] == crew[k + 1..];
      if IsDirector(crew[k]) {
        director := crew[k].name;
        break;
      }
      k := k + 1;
    }
  }

  /** The keyword loop: append every non-empty name. */
  method CollectKeywords(items: seq<Named>) returns (keywordList: seq<string>)
    ensures keywordList == Names(items)
  {
    keywordList := [];
    for k := 0 to |items|
      invariant keywordList == Names(items[..k])
    {
      NamesAppend(items[..k], [items[k]]);
      assert items[..k + 1] == items[..k] + [items[k]];
      assert Names([items[k]]) == if HasName(items[k]) then [items[k].name.value] else [] by {
        assert [items[k]][1..] == [];
      }
      if HasName(items[k]) {
        keywordList := keywordList + [items[k].name.value];
      }
    }
    assert items[..|items|] == items;
  }

  /** The bundle, or the `TypeError` of a `null` genre or cast list. */
  function BundleOf(details: Details, credits: Credits, keywords: Keywords, castLimit: int): (r: Result<Bundle, BundleError>)
    ensures r.Err? <==> details.genres.Null? || credits.cast.Null?
    ensures r.Ok? ==> (
      r.value.title == OrEmpty(details.title) && r.value.releaseDate == details.releaseDate &&
      r.value.overview == details.overview)
  {
    match (ListOrEmpty(details.genres), ListOrEmpty(credits.cast))
    case (None, _) => Err(NullGenres)
    case (_, None) => Err(NullCast)
    case (Some(genres), Some(cast)) =>
      Ok(Bundle(OrEmpty(details.title), details.releaseDate, Names(genres), PyPrefix(Names(cast), castLimit),
                FirstDirector(ListOrNone(credits.crew)), Names(ListOrNone(keywords.keywords)), details.overview))
  }

  /** `fetch_movie_bundle` once the three responses have arrived. */
  method FetchMovieBundle(details: Details, credits: Credits, keywords: Keywords, castLimit: int)
    returns (r: Result<Bundle, BundleError>)
    ensures r == BundleOf(details, credits, keywords, castLimit)
  {
    var genres := ListOrEmpty(details.genres);
    if genres.None? {
      return Err(NullGenres);
    }
    var cast := ListOrEmpty(credits.cast);
    if cast.None? {
      return Err(NullCast);
    }
    var castNames := PyPrefix(Names(cast.value), castLimit);
    var director := FindDirector(ListOrNone(credits.crew));
    var keywordList := CollectKeywords(ListOrNone(keywords.keywords));
    return Ok(Bundle(OrEmpty(details.title), details.releaseDate, Names(genres.value), castNames,
                     director, keywordList, details.overview));
  }

  /** The lists of a bundle: the genres are every non-empty genre name in
      order, duplicates kept; the cast the first `cast_limit` non-empty cast
      names (filtered, then cut); the director the first crew member named
      "Director"; the keywords every non-empty keyword name in order. */
  lemma BundleLists(details: Details, credits: Credits, keywords: Keywords, castLimit: int)
    requires details.genres.Present? && credits.cast.Present?
    ensures var r := BundleOf(details, credits, keywords, castLimit);
      && r.Ok?
      && r.value.genres == Names(details.genres.value)
      && r.value.keywords == Names(ListOrNone(keywords.keywords))
      && (castLimit >= 0 ==> |r.value.cast| == if castLimit < |Names(credits.cast.value)| then castLimit else |Names(credits.cast.value)|)
      && (forall s :: s in r.value.genres <==> s != "" && exists k :: 0 <= k < |details.genres.value| && details.genres.value[k].name == Some(s))
      && r.value.cast <= Names(credits.cast.value)
      && (castLimit >= 0 ==> |r.value.cast| <= castLimit)
      && (castLimit >= 0 && |Names(credits.cast.value)| <= castLimit ==> r.value.cast == Names(credits.cast.value))
      && r.value.director == FirstDirector(ListOrNone(credits.crew))
      && (forall s :: s in r.value.keywords <==> s != "" && exists k :: 0 <= k < |ListOrNone(keywords.keywords)| && ListOrNone(keywords.keywords)[k].name == Some(s))
  {
    forall s ensures s in Names(details.genres.value) <==> s != "" && exists k :: 0 <= k < |details.genres.value| && details.genres.value[k].name == Some(s) {
      NamesMember(details.genres.value, s);
    }
    forall s ensures s in Names(ListOrNone(keywords.keywords)) <==> s != "" && exists k :: 0 <= k < |ListOrNone(keywords.keywords)| && ListOrNone(keywords.keywords)[k].name == Some(s) {
      NamesMember(ListOrNone(keywords.keywords), s);
    }
  }
}
