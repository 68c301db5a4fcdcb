/**
 * The HTTP face of the movie catalogue and the client state that drives it:
 * the controller's default filling, the search guard and the not-found
 * mapping (server/src/movies/movies.controller.ts), the filter DTO bounds
 * (server/src/movies/dto/movie-filter.dto.ts), the infinite-scroll hook
 * (client/lib/hooks/useMovies.ts) and the filter bar's state updates and
 * labels (client/components/filter-bar.tsx).
 *
 * Query parameters arrive as optional strings; JavaScript truthiness makes
 * the empty string count as absent. parseInt is Text.ParseIntJs, and a
 * string it rejects becomes NaN.
 */
module MoviesApi {
  import opened Wrappers
  import opened Text
  import opened Http
  import Catalog

  type Movie = Catalog.Movie

  // ---------------------------------------------------------------- the filter DTO

  /** The sort fields and orders MovieFilterDto accepts. */
  const SortFields: seq<String> :=
    ["title", "year", "rating", "peers", "seeds", "download_count", "like_count", "date_added"]
  const Orders: seq<String> := ["desc", "asc"]

  /** A number produced by parseInt: an integer or NaN. */
  datatype Num = Int(value: int) | NaN

  /** The filters the controller hands to the library service. */
  datatype LibraryFilters = LibraryFilters(
    page: Num,
    limit: Num,
    minimumRating: Option<Num>,
    queryTerm: Option<String>,
    genre: Option<String>,
    sortBy: String,
    orderBy: String)

  const DefaultFilters: LibraryFilters :=
    LibraryFilters(Int(1), Int(20), None, None, None, "date_added", "desc")

  /** The class-validator constraints of MovieFilterDto; @IsNumber rejects NaN. */
  predicate DtoValid(f: LibraryFilters) {
    && f.page.Int? && f.page.value >= 1
    && f.limit.Int? && 1 <= f.limit.value <= 50
    && (f.minimumRating.Some? ==> f.minimumRating.value.Int? && 0 <= f.minimumRating.value.value <= 9)
    && f.sortBy in SortFields
    && f.orderBy in Orders
  }

  /** The defaults the controller and the DTO share satisfy the DTO. */
  lemma DefaultsValid()
    ensures DtoValid(DefaultFilters)
    ensures DefaultFilters.sortBy == SortFields[7] && DefaultFilters.orderBy == Orders[0]
  {
    assert DefaultFilters.sortBy == SortFields[7];
    assert DefaultFilters.orderBy == Orders[0];
  }

  // ---------------------------------------------------------------- genres

  /** MOVIE_GENRES on the server. */
  const MovieGenres: seq<String> := [
    "Action", "Adventure", "Animation", "Biography", "Comedy", "Crime", "Documentary",
    "Drama", "Family", "Fantasy", "Film-Noir", "History", "Horror", "Music", "Musical",
    "Mystery", "Romance", "Sci-Fi", "Sport", "Thriller", "War", "Western"]

  /** GENRES in the filter bar. */
  const ClientGenres: seq<String> := [
    "Action", "Adventure", "Animation", "Biography", "Comedy", "Crime", "Documentary",
    "Drama", "Family", "Fantasy", "Film-Noir", "History", "Horror", "Music", "Musical",
    "Mystery", "Romance", "Sci-Fi", "Sport", "Thriller", "War", "Western"]

  /** Entry i comes strictly before entry i + 1 in code-point order. */
  predicate StepUp(s: seq<String>, i: int)
    requires 0 <= i < |s| - 1
  {
    LexLe(s[i], s[i + 1]) && s[i] != s[i + 1]
  }

  /** Each genre comes strictly before the next: at the first differing letter, or as a prefix. */
  lemma GenresAscending0()
    ensures forall i | 0 <= i < 3 :: StepUp(MovieGenres, i)
  {
    LexLtAt(MovieGenres[0], MovieGenres[1], 1);
    LexLtAt(MovieGenres[1], MovieGenres[2], 1);
    LexLtAt(MovieGenres[2], MovieGenres[3], 0);
  }

  lemma GenresAscending3()
    ensures forall i | 3 <= i < 6 :: StepUp(MovieGenres, i)
  {
    LexLtAt(MovieGenres[3], MovieGenres[4], 0);
    LexLtAt(MovieGenres[4], MovieGenres[5], 1);
    LexLtAt(MovieGenres[5], MovieGenres[6], 0);
  }

  lemma GenresAscending6()
    ensures forall i | 6 <= i < 9 :: StepUp(MovieGenres, i)
  {
    LexLtAt(MovieGenres[6], MovieGenres[7], 1);
    LexLtAt(MovieGenres[7], MovieGenres[8], 0);
    LexLtAt(MovieGenres[8], MovieGenres[9], 2);
  }

  lemma GenresAscending9()
    ensures forall i | 9 <= i < 12 :: StepUp(MovieGenres, i)
  {
    LexLtAt(MovieGenres[9], MovieGenres[10], 1);
    LexLtAt(MovieGenres[10], MovieGenres[11], 0);
    LexLtAt(MovieGenres[11], MovieGenres[12], 1);
  }

  lemma GenresAscending12()
    ensures forall i | 12 <= i < 15 :: StepUp(MovieGenres, i)
  {
    LexLtAt(MovieGenres[12], MovieGenres[13], 0);
    LexPrefixLt(MovieGenres[13], MovieGenres[14]);
    LexLtAt(MovieGenres[14], MovieGenres[15], 1);
  }

  lemma GenresAscending15()
    ensures forall i | 15 <= i < 18 :: StepUp(MovieGenres, i)
  {
    LexLtAt(MovieGenres[15], MovieGenres[16], 0);
    LexLtAt(MovieGenres[16], MovieGenres[17], 0);
    LexLtAt(MovieGenres[17], MovieGenres[18], 1);
  }

  lemma GenresAscending18()
    ensures forall i | 18 <= i < 21 :: StepUp(MovieGenres, i)
  {
    LexLtAt(MovieGenres[18], MovieGenres[19], 0);
    LexLtAt(MovieGenres[19], MovieGenres[20], 0);
    LexLtAt(MovieGenres[20], MovieGenres[21], 1);
  }

  /** In a strictly ascending list an entry precedes every later one. */
  lemma {:induction false} AscendingChain(s: seq<String>, i: int, j: int)
    requires forall k | 0 <= k < |s| - 1 :: StepUp(s, k)
    requires 0 <= i < j < |s|
    ensures LexLe(s[i], s[j]) && s[i] != s[j]
    decreases j - i
  {
    assert StepUp(s, i);
    if j > i + 1 {
      AscendingChain(s, i + 1, j);
      LexLeTransitive(s[i], s[i + 1], s[j]);
      if s[i] == s[j] {
        LexLeAntisymmetric(s[i], s[i + 1]);
      }
    }
  }

  /** The server and client genre lists hold the same 22 distinct names in the same order. */
  lemma GenresAgree()
    ensures MovieGenres == ClientGenres
    ensures |MovieGenres| == 22
    ensures forall i, j | 0 <= i < j < |MovieGenres| :: MovieGenres[i] != MovieGenres[j]
  {
    GenresAscending0();
    GenresAscending3();
    GenresAscending6();
    GenresAscending9();
    GenresAscending12();
    GenresAscending15();
    GenresAscending18();
    forall i, j | 0 <= i < j < |MovieGenres|
      ensures MovieGenres[i] != MovieGenres[j]
    {
      AscendingChain(MovieGenres, i, j);
    }
  }

  // ---------------------------------------------------------------- the controller

  /** The raw query string parameters of GET /movies/library. */
  datatype LibraryQuery = LibraryQuery(
    page: Option<String>,
    limit: Option<String>,
    minimumRating: Option<String>,
    queryTerm: Option<String>,
    genre: Option<String>,
    sortBy: Option<String>,
    orderBy: Option<String>)

  /** JavaScript truthiness of an optional string. */
  predicate Truthy(s: Option<String>) { s.Some? && s.value != [] }

  function ParseNum(s: String): Num {
    match ParseIntJs(s)
    case Some(v) => Int(v)
    case None => NaN
  }

  /** `x ? parseInt(x) : d` */
  function NumOr(s: Option<String>, d: int): Num {
    if Truthy(s) then ParseNum(s.value) else Int(d)
  }

  /** `x || undefined` */
  function OrUndefined(s: Option<String>): (r: Option<String>)
    ensures r.None? <==> !Truthy(s)
    ensures r.Some? ==> r == s
  {
    if Truthy(s) then s else None
  }

  /** `x || d` */
  function OrDefault(s: Option<String>, d: String): String {
    if Truthy(s) then s.value else d
  }

  /** getLibrary's filter object: defaults for absent or empty parameters, parseInt for numbers. */
  function LibraryFiltersOf(q: LibraryQuery): LibraryFilters {
    LibraryFilters(
      NumOr(q.page, 1),
      NumOr(q.limit, 20),
      if Truthy(q.minimumRating) then Some(ParseNum(q.minimumRating.value)) else None,
      OrUndefined(q.queryTerm),
      OrUndefined(q.genre),
      OrDefault(q.sortBy, "date_added"),
      OrDefault(q.orderBy, "desc"))
  }

  /** Every parameter absent or empty: the service receives the DTO defaults. */
  lemma FalsyQueryGivesDefaults(q: LibraryQuery)
    requires !Truthy(q.page) && !Truthy(q.limit) && !Truthy(q.minimumRating)
    requires !Truthy(q.queryTerm) && !Truthy(q.genre) && !Truthy(q.sortBy) && !Truthy(q.orderBy)
    ensures LibraryFiltersOf(q) == DefaultFilters
    ensures DtoValid(LibraryFiltersOf(q))
  {
    DefaultsValid();
  }

  lemma ParseNumOfNat(n: nat)
    ensures ParseNum(NatToString(n)) == Int(n)
  {
    ParseIntJsPrefix(n, []);
    assert NatToString(n) + [] == NatToString(n);
  }

  /**
   * The filter object is built, not validated: a page of "0" reaches the
   * service as 0, outside the DTO bounds ...
   */
  lemma PageZeroNotValidated()
    ensures var f := LibraryFiltersOf(LibraryQuery(Some("0"), None, None, None, None, None, None));
            f.page == Int(0) && !DtoValid(f)
  {
    ParseNumOfNat(0);
    assert NatToString(0) == "0";
  }

  /** ... and a limit that does not start like a number (say "x") as NaN. */
  lemma LimitNaNNotValidated(x: String)
    requires x != [] && !IsJsSpace(x[0]) && x[0] != '-' && x[0] != '+' && !IsDigit(x[0])
    ensures var f := LibraryFiltersOf(LibraryQuery(None, Some(x), None, None, None, None, None));
            f.limit == NaN && !DtoValid(f)
  {
    ParseIntJsNonNumeric(x);
  }

  /** The result shape of the (not shown) library service. */
  datatype LibraryResult<M> = LibraryResult(movies: seq<Movie>, rest: M)

  /** getLibrary: the service's movies for the filled-in filters, nothing else. */
  function GetLibrary<M>(q: LibraryQuery, service: LibraryFilters -> LibraryResult<M>): seq<Movie> {
    service(LibraryFiltersOf(q)).movies
  }

  datatype SearchResponse = SearchResponse(query: String, count: nat, results: seq<Movie>)

  const QueryRequired: String := "Query parameter \"q\" is required"

  /**
   * searchMovies: a missing or blank q is a BadRequest and the service is not
   * consulted; otherwise the service searches the trimmed term and the reply
   * echoes the raw q with the result count.
   */
  function SearchMovies(q: Option<String>, search: String -> seq<Movie>): (r: Result<SearchResponse, HttpError>)
    ensures r.Err? <==> q.None? || IsBlank(q.value, JsWhitespace)
    ensures r.Err? ==> r.error == BadRequest(QueryRequired)
    ensures r.Ok? ==> r.value.query == q.value && r.value.count == |r.value.results|
  {
    if q.None? then Err(BadRequest(QueryRequired))
    else
      TrimEmptyIffBlank(q.value, JsWhitespace);
      if TrimJs(q.value) == [] then Err(BadRequest(QueryRequired))
      else
        var results := search(TrimJs(q.value));
        Ok(SearchResponse(q.value, |results|, results))
  }

  /** The term searched is non-empty, already trimmed, and a slice of q between blank margins. */
  lemma SearchedTermIsTrimmed(q: String, search: String -> seq<Movie>)
    requires !IsBlank(q, JsWhitespace)
    ensures var t := TrimJs(q);
            && SearchMovies(Some(q), search) == Ok(SearchResponse(q, |search(t)|, search(t)))
            && t != [] && TrimJs(t) == t
            && exists i, j :: 0 <= i <= j <= |q| && t == q[i..j]
                              && IsBlank(q[..i], JsWhitespace) && IsBlank(q[j..], JsWhitespace)
  {
    TrimEmptyIffBlank(q, JsWhitespace);
    TrimIdempotent(q, JsWhitespace);
    TrimIsInnerSlice(q, JsWhitespace);
  }

  const MovieNotFound: String := "Movie not found"

  /** getMovie's mapping of the service result: null is NotFound, a record is returned unchanged. */
  function MovieResponse(found: Option<Movie>): (r: Result<Movie, HttpError>)
    ensures r.Ok? <==> found.Some?
    ensures r.Ok? ==> r.value == found.value
    ensures r.Err? ==> r.error == NotFound(MovieNotFound)
  {
    match found
    case Some(m) => Ok(m)
    case None => Err(NotFound(MovieNotFound))
  }

  /**
   * GET /movies/:id over the catalogue list: the first record carrying that
   * IMDb code, and NotFound exactly when no record carries it.
   */
  lemma GetMovieFirstMatch(all: seq<Movie>, id: String)
    ensures MovieResponse(Catalog.FindByImdb(all, id)).Err? <==>
            forall k | 0 <= k < |all| :: all[k].imdbCode != Some(id)
    ensures forall k | 0 <= k < |all| && all[k].imdbCode == Some(id)
                       && (forall j | 0 <= j < k :: all[j].imdbCode != Some(id)) ::
              MovieResponse(Catalog.FindByImdb(all, id)) == Ok(all[k])
  {
    forall k | 0 <= k < |all| && all[k].imdbCode == Some(id)
                && (forall j | 0 <= j < k :: all[j].imdbCode != Some(id))
      ensures MovieResponse(Catalog.FindByImdb(all, id)) == Ok(all[k])
    {
      Catalog.FindByImdbFirst(all, id, k);
    }
    if Catalog.FindByImdb(all, id).None? {
      forall k | 0 <= k < |all| ensures all[k].imdbCode != Some(id) {
        assert all[k] in all;
      }
    }
  }

  // ---------------------------------------------------------------- watched and watch-later

  datatype Verb = Post | Delete

  /** The four (not shown) list methods of the movies service. */
  datatype ListAction = AddToWatchLater | AddToWatched | RemoveFromWatchLater | RemoveFromWatched

  /** A call to one of the list methods, with its arguments in the order the controller passes them. */
  datatype ListCall = ListCall(action: ListAction, userId: int, movieId: String)

  /** The routes `:id/watch-later` and `:id/watched` under POST and DELETE. */
  function ListRoute(verb: Verb, suffix: String): (a: Option<ListAction>)
    ensures a.Some? <==> suffix == "watch-later" || suffix == "watched"
    ensures a.Some? ==> ((a.value.AddToWatchLater? || a.value.AddToWatched?) <==> verb == Post)
    ensures a.Some? ==> ((a.value.AddToWatchLater? || a.value.RemoveFromWatchLater?) <==> suffix == "watch-later")
  {
    if suffix == "watch-later" then Some(if verb == Post then AddToWatchLater else RemoveFromWatchLater)
    else if suffix == "watched" then Some(if verb == Post then AddToWatched else RemoveFromWatched)
    else None
  }

  /**
   * The four list endpoints behind the JWT guard: without an authenticated
   * user the request is refused; otherwise the service gets the user id from
   * the request first and the movie id from the path second.
   */
  function ListEndpoint(verb: Verb, suffix: String, movieId: String, requestUser: Option<int>)
    : (r: Option<Result<ListCall, HttpError>>)
    ensures r.Some? <==> ListRoute(verb, suffix).Some?
    ensures r.Some? && requestUser.None? ==> r.value == Err(Unauthorized("Unauthorized"))
    ensures r.Some? && requestUser.Some? ==>
              && r.value.Ok?
              && r.value.value.action == ListRoute(verb, suffix).value
              && r.value.value.userId == requestUser.value
              && r.value.value.movieId == movieId
  {
    match ListRoute(verb, suffix)
    case None => None
    case Some(action) =>
      Some(if requestUser.None? then Err(Unauthorized("Unauthorized"))
           else Ok(ListCall(action, requestUser.value, movieId)))
  }

  /** Each of the four actions is reached by exactly one verb and route. */
  lemma ListRoutesDistinct(verb: Verb, suffix: String, verb': Verb, suffix': String)
    requires ListRoute(verb, suffix).Some? && ListRoute(verb, suffix) == ListRoute(verb', suffix')
    ensures verb == verb' && suffix == suffix'
  {
    var a := ListRoute(verb, suffix).value;
    if suffix == "watch-later" {
      assert a.AddToWatchLater? || a.RemoveFromWatchLater?;
    } else {
      assert !(a.AddToWatchLater? || a.RemoveFromWatchLater?);
    }
  }

  // ---------------------------------------------------------------- client filter state

  /** MovieFilters as the filter bar keeps it, with the hideWatched flag the toggle adds. */
  datatype ClientFilters = ClientFilters(
    quality: Option<String>,
    minimumRating: Option<nat>,
    queryTerm: Option<String>,
    genre: Option<String>,
    sortBy: Option<String>,
    orderBy: Option<String>,
    hideWatched: Option<bool>)

  datatype Field = Quality | MinimumRating | QueryTerm | Genre | SortBy | OrderBy | HideWatched

  /** Every field outside `changed` holds the same value in `f` and `g`. */
  predicate KeepsOthers(f: ClientFilters, g: ClientFilters, changed: set<Field>) {
    && (Quality !in changed ==> g.quality == f.quality)
    && (MinimumRating !in changed ==> g.minimumRating == f.minimumRating)
    && (QueryTerm !in changed ==> g.queryTerm == f.queryTerm)
    && (Genre !in changed ==> g.genre == f.genre)
    && (SortBy !in changed ==> g.sortBy == f.sortBy)
    && (OrderBy !in changed ==> g.orderBy == f.orderBy)
    && (HideWatched !in changed ==> g.hideWatched == f.hideWatched)
  }

  /** handleSortChange */
  function SortChange(f: ClientFilters, sortBy: Option<String>, orderBy: Option<String>): (r: ClientFilters)
    ensures r.sortBy == sortBy && r.orderBy == orderBy
    ensures KeepsOthers(f, r, {SortBy, OrderBy})
  {
    f.(sortBy := sortBy, orderBy := orderBy)
  }

  /** handleGenreChange */
  function GenreChange(f: ClientFilters, genre: Option<String>): (r: ClientFilters)
    ensures r.genre == genre
    ensures KeepsOthers(f, r, {Genre})
  {
    f.(genre := genre)
  }

  /** handleRatingChange */
  function RatingChange(f: ClientFilters, rating: Option<nat>): (r: ClientFilters)
    ensures r.minimumRating == rating
    ensures KeepsOthers(f, r, {MinimumRating})
  {
    f.(minimumRating := rating)
  }

  /** handleQualityChange: 'all' clears the quality. */
  function QualityChange(f: ClientFilters, quality: Option<String>): (r: ClientFilters)
    ensures r.quality.None? <==> quality.None? || quality == Some("all")
    ensures r.quality.Some? ==> r.quality == quality
    ensures KeepsOthers(f, r, {Quality})
  {
    var q := if quality == Some("all") then None else quality;
    f.(quality := q)
  }

  /** JavaScript truthiness of an optional flag. */
  predicate IsSet(b: Option<bool>) { b == Some(true) }

  /** handleHideWatchedToggle: `hideWatched: !filters.hideWatched` */
  function HideWatchedToggle(f: ClientFilters): (r: ClientFilters)
    ensures r.hideWatched.Some? && (IsSet(r.hideWatched) <==> !IsSet(f.hideWatched))
    ensures KeepsOthers(f, r, {HideWatched})
  {
    f.(hideWatched := Some(!IsSet(f.hideWatched)))
  }

  /** Two toggles leave the flag set as it was, and restore the record iff the flag had a value. */
  lemma HideWatchedTwice(f: ClientFilters)
    ensures HideWatchedToggle(HideWatchedToggle(f)).hideWatched == Some(IsSet(f.hideWatched))
    ensures HideWatchedToggle(HideWatchedToggle(f)) == f <==> f.hideWatched.Some?
  {
    var g := HideWatchedToggle(HideWatchedToggle(f));
    if f.hideWatched.None? {
      assert g.hideWatched != f.hideWatched;
    } else {
      var h := HideWatchedToggle(f);
      assert h.hideWatched == Some(!f.hideWatched.value);
      assert g.hideWatched == Some(!!f.hideWatched.value);
      assert g.hideWatched == f.hideWatched;
      assert KeepsOthers(f, g, {});
    }
  }

  /** handleSearchSubmit: the trimmed term, or undefined when it is empty. */
  function SearchSubmit(f: ClientFilters, query: String): (r: ClientFilters)
    ensures KeepsOthers(f, r, {QueryTerm})
  {
    var t := TrimJs(query);
    if t != [] then f.(queryTerm := Some(t)) else f.(queryTerm := None)
  }

  /** The stored term is absent iff the box was blank; otherwise it is the box's non-empty, trimmed core. */
  lemma SearchSubmitStoresTrimmed(f: ClientFilters, query: String)
    ensures SearchSubmit(f, query).queryTerm.None? <==> IsBlank(query, JsWhitespace)
    ensures var r := SearchSubmit(f, query);
            r.queryTerm.Some? ==>
              && r.queryTerm.value != []
              && TrimJs(r.queryTerm.value) == r.queryTerm.value
              && exists i, j :: 0 <= i <= j <= |query| && r.queryTerm.value == query[i..j]
                                && IsBlank(query[..i], JsWhitespace) && IsBlank(query[j..], JsWhitespace)
  {
    TrimEmptyIffBlank(query, JsWhitespace);
    TrimIdempotent(query, JsWhitespace);
    TrimIsInnerSlice(query, JsWhitespace);
  }

  /** handleClearSearch */
  function ClearSearch(f: ClientFilters): (r: ClientFilters)
    ensures r.queryTerm.None?
    ensures KeepsOthers(f, r, {QueryTerm})
  {
    f.(queryTerm := None)
  }

  /** The condition under which the Clear Filters button is shown. */
  predicate AnyActive(f: ClientFilters) {
    || Truthy(f.genre)
    || (f.minimumRating.Some? && f.minimumRating.value != 0)
    || Truthy(f.quality)
    || Truthy(f.queryTerm)
    || IsSet(f.hideWatched)
  }

  /** Clear Filters: a fresh record holding only sort_by and order_by. */
  function ClearFilters(f: ClientFilters): (r: ClientFilters)
    ensures !AnyActive(r)
    ensures KeepsOthers(f, r, {Quality, MinimumRating, QueryTerm, Genre, HideWatched})
    ensures r.quality.None? && r.minimumRating.None? && r.queryTerm.None? && r.genre.None? && r.hideWatched.None?
  {
    ClientFilters(None, None, None, None, f.sortBy, f.orderBy, None)
  }

  // ---------------------------------------------------------------- labels

  datatype SortOption = SortOption(caption: String, sortBy: String, orderBy: String)

  /** SORT_OPTIONS, in menu order. */
  const SortOptions: seq<SortOption> := [
    SortOption("Name (A-Z)", "title", "asc"),
    SortOption("Name (Z-A)", "title", "desc"),
    SortOption("Highest Rated", "rating", "desc"),
    SortOption("Lowest Rated", "rating", "asc"),
    SortOption("Newest", "year", "desc"),
    SortOption("Oldest", "year", "asc"),
    SortOption("Most Downloaded", "download_count", "desc"),
    SortOption("Most Liked", "like_count", "desc"),
    SortOption("Recently Added", "date_added", "desc")]

  predicate SortMatches(o: SortOption, sortBy: Option<String>, orderBy: Option<String>) {
    Some(o.sortBy) == sortBy && Some(o.orderBy) == orderBy
  }

  /** SORT_OPTIONS.find(...) */
  function FindSort(opts: seq<SortOption>, sortBy: Option<String>, orderBy: Option<String>): (r: Option<SortOption>)
    ensures r.Some? ==> r.value in opts && SortMatches(r.value, sortBy, orderBy)
    ensures r.None? <==> forall o | o in opts :: !SortMatches(o, sortBy, orderBy)
    decreases |opts|
  {
    if opts == [] then None
    else if SortMatches(opts[0], sortBy, orderBy) then Some(opts[0])
    else
      var r := FindSort(opts[1..], sortBy, orderBy);
      assert forall o | o in opts[1..] :: o in opts;
      assert forall o | o in opts && o != opts[0] :: o in opts[1..];
      r
  }

  lemma {:induction false} FindSortFirst(opts: seq<SortOption>, sortBy: Option<String>, orderBy: Option<String>, k: nat)
    requires k < |opts| && SortMatches(opts[k], sortBy, orderBy)
    requires forall j | 0 <= j < k :: !SortMatches(opts[j], sortBy, orderBy)
    ensures FindSort(opts, sortBy, orderBy) == Some(opts[k])
    decreases k
  {
    if k > 0 {
      FindSortFirst(opts[1..], sortBy, orderBy, k - 1);
    }
  }

  /** The label shown on the sort button; "Recently Added" when nothing matches. */
  function CurrentSort(f: ClientFilters): SortOption {
    FindSort(SortOptions, f.sortBy, f.orderBy).GetOr(SortOptions[8])
  }

  /** No two sort options share a (sort_by, order_by) pair. */
  lemma SortPairsDistinct()
    ensures forall i, j | 0 <= j < i < |SortOptions| ::
              !SortMatches(SortOptions[j], Some(SortOptions[i].sortBy), Some(SortOptions[i].orderBy))
  {
  }

  /** Picking option i from the sort menu makes option i the current label. */
  lemma SortLabelRoundTrip(f: ClientFilters, i: int)
    requires 0 <= i < |SortOptions|
    ensures CurrentSort(SortChange(f, Some(SortOptions[i].sortBy), Some(SortOptions[i].orderBy))) == SortOptions[i]
  {
    SortPairsDistinct();
    FindSortFirst(SortOptions, Some(SortOptions[i].sortBy), Some(SortOptions[i].orderBy), i);
  }

  /**
   * With no sort chosen the button says "Recently Added", and that option's
   * pair is exactly the default the controller fills in.
   */
  lemma DefaultSortAgrees(f: ClientFilters)
    requires f.sortBy.None? && f.orderBy.None?
    ensures CurrentSort(f).caption == "Recently Added"
    ensures CurrentSort(f).sortBy == DefaultFilters.sortBy && CurrentSort(f).orderBy == DefaultFilters.orderBy
  {
  }

  /** Every sort option is accepted by the server's DTO. */
  lemma SortOptionsAccepted()
    ensures forall o | o in SortOptions :: o.sortBy in SortFields && o.orderBy in Orders
  {
    assert SortOptions[0].sortBy == SortFields[0] && SortOptions[0].orderBy == Orders[1];
    assert SortOptions[1].sortBy == SortFields[0] && SortOptions[1].orderBy == Orders[0];
    assert SortOptions[2].sortBy == SortFields[2] && SortOptions[2].orderBy == Orders[0];
    assert SortOptions[3].sortBy == SortFields[2] && SortOptions[3].orderBy == Orders[1];
    assert SortOptions[4].sortBy == SortFields[1] && SortOptions[4].orderBy == Orders[0];
    assert SortOptions[5].sortBy == SortFields[1] && SortOptions[5].orderBy == Orders[1];
    assert SortOptions[6].sortBy == SortFields[5] && SortOptions[6].orderBy == Orders[0];
    assert SortOptions[7].sortBy == SortFields[6] && SortOptions[7].orderBy == Orders[0];
    assert SortOptions[8].sortBy == SortFields[7] && SortOptions[8].orderBy == Orders[0];
  }

  datatype RatingOption = RatingOption(caption: String, value: nat)

  /** RATINGS, in menu order. */
  const Ratings: seq<RatingOption> := [
    RatingOption("9+", 9), RatingOption("8+", 8), RatingOption("7+", 7),
    RatingOption("6+", 6), RatingOption("5+", 5)]

  const AnyRating: String := "Any Rating"

  /** RATINGS.find(r => r.value === v) */
  function FindRating(opts: seq<RatingOption>, v: nat): (r: Option<RatingOption>)
    ensures r.Some? ==> r.value in opts && r.value.value == v
    ensures r.None? <==> forall o | o in opts :: o.value != v
    decreases |opts|
  {
    if opts == [] then None
    else if opts[0].value == v then Some(opts[0])
    else
      var r := FindRating(opts[1..], v);
      assert forall o | o in opts[1..] :: o in opts;
      assert forall o | o in opts && o != opts[0] :: o in opts[1..];
      r
  }

  lemma {:induction false} FindRatingFirst(opts: seq<RatingOption>, v: nat, k: nat)
    requires k < |opts| && opts[k].value == v
    requires forall j | 0 <= j < k :: opts[j].value != v
    ensures FindRating(opts, v) == Some(opts[k])
    decreases k
  {
    if k > 0 {
      FindRatingFirst(opts[1..], v, k - 1);
    }
  }

  /** The label on the rating button; an unset or zero rating reads "Any Rating". */
  function CurrentRating(f: ClientFilters): String {
    if f.minimumRating.Some? && f.minimumRating.value != 0 then
      match FindRating(Ratings, f.minimumRating.value)
      case Some(o) => if o.caption != [] then o.caption else AnyRating
      case None => AnyRating
    else AnyRating
  }

  /**
   * The rating button names a rating exactly when the minimum is one of 5..9,
   * and then it shows that digit followed by '+'.
   */
  lemma RatingLabel(f: ClientFilters)
    ensures CurrentRating(f) != AnyRating <==> f.minimumRating.Some? && 5 <= f.minimumRating.value <= 9
    ensures f.minimumRating.Some? && 5 <= f.minimumRating.value <= 9 ==>
              CurrentRating(f) == [DigitChar(f.minimumRating.value), '+']
  {
    if f.minimumRating.Some? && f.minimumRating.value != 0 {
      var v := f.minimumRating.value;
      if 5 <= v <= 9 {
        var k := 9 - v;
        assert Ratings[k].value == v && Ratings[k].caption == [DigitChar(v), '+'];
        FindRatingFirst(Ratings, v, k);
      } else {
        assert forall o | o in Ratings :: 5 <= o.value <= 9;
      }
    }
  }

  /** Clearing keeps the sort label and resets the rating label. */
  lemma ClearFiltersLabels(f: ClientFilters)
    ensures CurrentSort(ClearFilters(f)) == CurrentSort(f)
    ensures CurrentRating(ClearFilters(f)) == AnyRating
    ensures ClearFilters(ClearFilters(f)) == ClearFilters(f)
  {
  }

  // ---------------------------------------------------------------- infinite scroll

  const PageSize: nat := 20
  const InitialPageParam: nat := 1

  /** getNextPageParam: none after a null or short page, else one past the pages loaded. */
  function NextPageParam(lastPage: Option<seq<Movie>>, pagesLoaded: nat): (r: Option<nat>)
    ensures r.None? <==> lastPage.None? || |lastPage.value| < PageSize
  {
    if lastPage.None? || |lastPage.value| < PageSize then None else Some(pagesLoaded + 1)
  }

  /**
   * The page parameters requested as the user scrolls: `next` is asked for,
   * `replies[0]` is what comes back (None for a failed request, which the
   * query function turns into a null page), and `loaded` pages were held before.
   */
  function Requests(replies: seq<Option<seq<Movie>>>, next: nat, loaded: nat): seq<nat>
    decreases |replies|
  {
    if replies == [] then []
    else
      [next] + match NextPageParam(replies[0], loaded + 1)
               case None => []
               case Some(n) => Requests(replies[1..], n, loaded + 1)
  }

  /**
   * Pages are requested consecutively; every page but the last one fetched
   * was full, and scrolling stops early only after a null or short page.
   */
  lemma {:induction false} RequestsConsecutive(replies: seq<Option<seq<Movie>>>, loaded: nat)
    ensures var r := Requests(replies, loaded + 1, loaded);
            && |r| <= |replies|
            && (replies != [] ==> |r| >= 1)
            && (forall i | 0 <= i < |r| :: r[i] == loaded + 1 + i)
            && (forall i | 0 <= i < |r| - 1 :: replies[i].Some? && |replies[i].value| >= PageSize)
            && (|r| < |replies| ==> replies[|r| - 1].None? || |replies[|r| - 1].value| < PageSize)
    decreases |replies|
  {
    if replies != [] {
      var r := Requests(replies, loaded + 1, loaded);
      match NextPageParam(replies[0], loaded + 1)
      case None =>
        assert r == [loaded + 1];
      case Some(n) =>
        RequestsConsecutive(replies[1..], loaded + 1);
        var tail := Requests(replies[1..], loaded + 2, loaded + 1);
        assert r == [loaded + 1] + tail;
        forall i | 1 <= i < |r| - 1
          ensures replies[i].Some? && |replies[i].value| >= PageSize
        {
          assert replies[i] == replies[1..][i - 1];
        }
        if |r| < |replies| {
          assert replies[|r| - 1] == replies[1..][|tail| - 1];
        }
    }
  }

  /** From the initial page parameter the requests are 1, 2, 3, ... */
  lemma ScrollFromStart(replies: seq<Option<seq<Movie>>>)
    ensures var r := Requests(replies, InitialPageParam, 0);
            forall i | 0 <= i < |r| :: r[i] == i + 1
  {
    RequestsConsecutive(replies, 0);
  }

  // ---------------------------------------------------------------- the request

  /** The query-string parameters the hook can send; Name gives each one's wire name. */
  datatype Param = PageParam | LimitParam | QualityParam | RatingParam | QueryTermParam
                 | GenreParam | SortByParam | OrderByParam | HideWatchedParam

  function Name(p: Param): String {
    match p
    case PageParam => "page"
    case LimitParam => "limit"
    case QualityParam => "quality"
    case RatingParam => "minimum_rating"
    case QueryTermParam => "query_term"
    case GenreParam => "genre"
    case SortByParam => "sort_by"
    case OrderByParam => "order_by"
    case HideWatchedParam => "hideWatched"
  }

  const AllParams: set<Param> := {PageParam, LimitParam, QualityParam, RatingParam, QueryTermParam,
                                  GenreParam, SortByParam, OrderByParam, HideWatchedParam}

  lemma ParamListed(p: Param)
    ensures p in AllParams
  {
    match p
    case PageParam =>
    case LimitParam =>
    case QualityParam =>
    case RatingParam =>
    case QueryTermParam =>
    case GenreParam =>
    case SortByParam =>
    case OrderByParam =>
    case HideWatchedParam =>
  }

  /** How axios writes a number parameter. */
  function NumberText(n: Option<nat>): Option<String> {
    if n.Some? then Some(NatToString(n.value)) else None
  }

  /** How axios writes a boolean parameter. */
  function FlagText(b: Option<bool>): Option<String> {
    if b.Some? then Some(if b.value then "true" else "false") else None
  }

  /** What one library request carries for each parameter: page, limit 20, then the filter fields. */
  function ParamValue(p: Param, page: nat, f: ClientFilters): Option<String> {
    match p
    case PageParam => Some(NatToString(page))
    case LimitParam => Some(NatToString(PageSize))
    case QualityParam => f.quality
    case RatingParam => NumberText(f.minimumRating)
    case QueryTermParam => f.queryTerm
    case GenreParam => f.genre
    case SortByParam => f.sortBy
    case OrderByParam => f.orderBy
    case HideWatchedParam => FlagText(f.hideWatched)
  }

  /** The query parameters sent; axios drops the undefined ones. */
  function RequestParams(page: nat, f: ClientFilters): map<Param, String> {
    map p | p in AllParams && ParamValue(p, page, f).Some? :: ParamValue(p, page, f).value
  }

  function Lookup(m: map<Param, String>, key: Param): Option<String> {
    if key in m then Some(m[key]) else None
  }

  /** The parameters the library endpoint reads from a query string. */
  function QueryOf(m: map<Param, String>): LibraryQuery {
    LibraryQuery(Lookup(m, PageParam), Lookup(m, LimitParam), Lookup(m, RatingParam),
                 Lookup(m, QueryTermParam), Lookup(m, GenreParam), Lookup(m, SortByParam), Lookup(m, OrderByParam))
  }

  /** What the controller reads from the request the hook sends for a given page and filter state. */
  lemma QueryOfRequest(page: nat, f: ClientFilters)
    ensures QueryOf(RequestParams(page, f)) ==
            LibraryQuery(Some(NatToString(page)), Some(NatToString(PageSize)),
                         NumberText(f.minimumRating),
                         f.queryTerm, f.genre, f.sortBy, f.orderBy)
  {
    forall p: Param ensures Lookup(RequestParams(page, f), p) == ParamValue(p, page, f) {
      ParamListed(p);
    }
    assert Lookup(RequestParams(page, f), PageParam) == ParamValue(PageParam, page, f);
    assert Lookup(RequestParams(page, f), LimitParam) == ParamValue(LimitParam, page, f);
  }

  /**
   * The service sees the page asked for, a limit of 20, the chosen rating,
   * genre and search term (empty strings dropped) and the chosen sort or the
   * defaults; quality and hideWatched are sent but never read.
   */
  lemma ClientServerAgree(page: nat, f: ClientFilters)
    ensures LibraryFiltersOf(QueryOf(RequestParams(page, f))) ==
            LibraryFilters(
              Int(page), Int(PageSize),
              if f.minimumRating.Some? then Some(Int(f.minimumRating.value)) else None,
              OrUndefined(f.queryTerm), OrUndefined(f.genre),
              OrDefault(f.sortBy, "date_added"), OrDefault(f.orderBy, "desc"))
  {
    QueryOfRequest(page, f);
    ParseNumOfNat(page);
    ParseNumOfNat(PageSize);
    if f.minimumRating.Some? {
      ParseNumOfNat(f.minimumRating.value);
    }
  }

  /** getLibrary answers a client request with the service's movies for those filters. */
  lemma GetLibraryForClient<M>(page: nat, f: ClientFilters, service: LibraryFilters -> LibraryResult<M>)
    ensures GetLibrary(QueryOf(RequestParams(page, f)), service) ==
            service(LibraryFilters(
              Int(page), Int(PageSize),
              if f.minimumRating.Some? then Some(Int(f.minimumRating.value)) else None,
              OrUndefined(f.queryTerm), OrUndefined(f.genre),
              OrDefault(f.sortBy, "date_added"), OrDefault(f.orderBy, "desc"))).movies
  {
    ClientServerAgree(page, f);
  }

  /** The quality filter and the hide-watched toggle have no effect on what the server is asked. */
  lemma QualityAndHideWatchedIgnored(page: nat, f: ClientFilters, quality: Option<String>, hidden: Option<bool>)
    ensures var g := f.(quality := quality, hideWatched := hidden);
            LibraryFiltersOf(QueryOf(RequestParams(page, f))) == LibraryFiltersOf(QueryOf(RequestParams(page, g)))
  {
    ClientServerAgree(page, f);
    var g := f.(quality := quality, hideWatched := hidden);
    ClientServerAgree(page, g);
  }

  /** A filter state built from the menus, sent for a page from 1 on, passes the DTO. */
  lemma MenuRequestsValid(page: nat, f: ClientFilters)
    requires page >= 1
    requires f.minimumRating.None? || f.minimumRating.value <= 9
    requires f.sortBy.None? || f.sortBy.value in SortFields
    requires f.orderBy.None? || f.orderBy.value in Orders
    ensures DtoValid(LibraryFiltersOf(QueryOf(RequestParams(page, f))))
  {
    ClientServerAgree(page, f);
    DefaultsValid();
  }
}
