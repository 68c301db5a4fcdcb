/**
 * The movie catalogue service of the API server: the trending list built
 * from two torrent providers, cached for a day under one key, paged by
 * offset and searched by IMDb code.
 *
 * Provider answers are inputs: None stands for a request that failed.
 * The cache is a class whose entries map a key to a value and the
 * millisecond at which it expires; the clock is a parameter.
 */
module Catalog {
  import opened Wrappers
  import opened Text

  // ---------------------------------------------------------------- records

  datatype Torrent = Torrent(url: String, hash: String, quality: String, seeds: Option<int>, peers: Option<int>, size: Option<int>)

  /** The one movie shape both providers are normalised to. */
  datatype Movie = Movie(
    source: String,
    imdbCode: Option<String>,
    title: Option<String>,
    year: Option<String>,
    rating: real,
    thumbnail: Option<String>,
    synopsis: Option<String>,
    runtime: Option<int>,
    mpaRating: Option<String>,
    genres: seq<String>,
    backgroundImage: Option<String>,
    torrents: seq<Torrent>)

  // ---------------------------------------------------------------- YTS

  /** A movie as the YTS list endpoint describes it; rating None is a missing or null rating. */
  datatype YtsMovie = YtsMovie(
    imdbCode: Option<String>,
    title: Option<String>,
    year: Option<String>,
    rating: Option<real>,
    largeCoverImage: Option<String>,
    synopsis: Option<String>,
    runtime: Option<int>,
    mpaRating: Option<String>,
    genres: seq<String>,
    backgroundImage: Option<String>,
    torrents: seq<Torrent>)

  /** movie.rating || 0 */
  function RatingOrZero(r: Option<real>): real {
    if r.Some? && r.value != 0.0 then r.value else 0.0
  }

  function FromYts(m: YtsMovie): Movie {
    Movie("YTS", m.imdbCode, m.title, m.year, RatingOrZero(m.rating), m.largeCoverImage, m.synopsis,
          m.runtime, m.mpaRating, m.genres, m.backgroundImage, m.torrents)
  }

  /** getYtsTrending: one record per YTS movie, in order; a failed request gives None (undefined). */
  function YtsTrending(payload: Option<seq<YtsMovie>>): (r: Option<seq<Movie>>)
    ensures r.Some? <==> payload.Some?
    ensures r.Some? ==> |r.value| == |payload.value|
    ensures r.Some? ==> forall i :: 0 <= i < |r.value| ==>
              var m := payload.value[i];
              && r.value[i].source == "YTS"
              && r.value[i].imdbCode == m.imdbCode
              && r.value[i].title == m.title
              && r.value[i].year == m.year
              && r.value[i].synopsis == m.synopsis
              && r.value[i].runtime == m.runtime
              && r.value[i].mpaRating == m.mpaRating
              && r.value[i].genres == m.genres
              && r.value[i].torrents == m.torrents
              && r.value[i].thumbnail == m.largeCoverImage
              && r.value[i].backgroundImage == m.backgroundImage
              && (r.value[i].rating == 0.0 <==> m.rating.None? || m.rating.value == 0.0)
              && (m.rating.Some? ==> r.value[i].rating == m.rating.value)
  {
    match payload
    case None => None
    case Some(ms) => Some(seq(|ms|, i requires 0 <= i < |ms| => FromYts(ms[i])))
  }

  // ---------------------------------------------------------------- encodeURIComponent

  /** The characters encodeURIComponent leaves as they are. */
  predicate IsUnreserved(c: char) {
    IsUpper(c) || IsLower(c) || IsDigit(c) || c in "-_.!~*'()"
  }

  function HexUpper(d: nat): (c: char)
    requires d < 16
    ensures IsDigit(c) || 'A' <= c <= 'F'
  {
    if d < 10 then DigitChar(d) else ('A' as int + d - 10) as char
  }

  function PercentByte(b: nat): (s: String)
    requires b < 256
    ensures |s| == 3 && s[0] == '%'
  {
    ['%', HexUpper(b / 16), HexUpper(b % 16)]
  }

  /** The UTF-8 bytes of a Unicode scalar value. */
  function Utf8(c: char): (bytes: seq<nat>)
    ensures 1 <= |bytes| <= 4
    ensures forall k :: 0 <= k < |bytes| ==> bytes[k] < 256
    ensures c as int < 0x80 ==> bytes == [c as int]
  {
    var v := c as int;
    if v < 0x80 then [v]
    else if v < 0x800 then [0xC0 + v / 64, 0x80 + v % 64]
    else if v < 0x10000 then [0xE0 + v / 4096, 0x80 + (v / 64) % 64, 0x80 + v % 64]
    else [0xF0 + v / 262144, 0x80 + (v / 4096) % 64, 0x80 + (v / 64) % 64, 0x80 + v % 64]
  }

  function PercentBytes(bytes: seq<nat>): (s: String)
    requires forall k :: 0 <= k < |bytes| ==> bytes[k] < 256
    ensures |s| == 3 * |bytes|
  {
    if bytes == [] then [] else PercentByte(bytes[0]) + PercentBytes(bytes[1..])
  }

  function EncodeChar(c: char): String {
    if IsUnreserved(c) then [c] else PercentBytes(Utf8(c))
  }

  /** JavaScript's encodeURIComponent on a string of Unicode scalar values. */
  function EncodeUriComponent(s: String): String
    decreases |s|
  {
    if s == [] then [] else EncodeChar(s[0]) + EncodeUriComponent(s[1..])
  }

  /** What may appear in a URI component: unreserved characters, '%' and upper-case hex digits. */
  predicate UriSafe(c: char) { IsUnreserved(c) || c == '%' || 'A' <= c <= 'F' }

  lemma PercentBytesSafe(bytes: seq<nat>)
    requires forall k :: 0 <= k < |bytes| ==> bytes[k] < 256
    ensures forall i :: 0 <= i < |PercentBytes(bytes)| ==> UriSafe(PercentBytes(bytes)[i])
    decreases |bytes|
  {
    if bytes != [] {
      PercentBytesSafe(bytes[1..]);
      var s := PercentBytes(bytes);
      assert s == PercentByte(bytes[0]) + PercentBytes(bytes[1..]);
      forall i | 3 <= i < |s| ensures UriSafe(s[i]) {
        assert s[i] == PercentBytes(bytes[1..])[i - 3];
      }
    }
  }

  /** The encoding only produces URI-safe characters, so it never holds '&', '=', '#' or a space. */
  lemma {:induction false} EncodedIsSafe(s: String)
    ensures forall i :: 0 <= i < |EncodeUriComponent(s)| ==> UriSafe(EncodeUriComponent(s)[i])
    decreases |s|
  {
    if s != [] {
      EncodedIsSafe(s[1..]);
      var head := EncodeChar(s[0]);
      var tail := EncodeUriComponent(s[1..]);
      if !IsUnreserved(s[0]) {
        PercentBytesSafe(Utf8(s[0]));
      }
      forall i | 0 <= i < |head + tail| ensures UriSafe((head + tail)[i]) {
        if i >= |head| { assert (head + tail)[i] == tail[i - |head|]; }
      }
    }
  }

  function HexDigitValue(c: char): Option<nat> {
    if IsDigit(c) then Some(DigitValue(c))
    else if 'A' <= c <= 'F' then Some(c as int - 'A' as int + 10)
    else None
  }

  /** decodeURIComponent restricted to single-byte escapes: %XX becomes the character XX. */
  function PercentDecode(s: String): String
    decreases |s|
  {
    if s == [] then []
    else if s[0] == '%' && |s| >= 3 && HexDigitValue(s[1]).Some? && HexDigitValue(s[2]).Some? then
      [(HexDigitValue(s[1]).value * 16 + HexDigitValue(s[2]).value) as char] + PercentDecode(s[3..])
    else [s[0]] + PercentDecode(s[1..])
  }

  lemma HexRoundTrip(d: nat)
    requires d < 16
    ensures HexDigitValue(HexUpper(d)) == Some(d)
  {
  }

  lemma DecodeEncodedChar(c: char, rest: String)
    requires c as int < 0x80
    ensures PercentDecode(EncodeChar(c) + rest) == [c] + PercentDecode(rest)
  {
    if IsUnreserved(c) {
      assert ([c] + rest)[1..] == rest;
    } else {
      var v := c as int;
      HexRoundTrip(v / 16);
      HexRoundTrip(v % 16);
      var s := EncodeChar(c) + rest;
      assert EncodeChar(c) == PercentByte(v);
      assert s[3..] == rest;
    }
  }

  /** For ASCII text the encoding is undone by the decoding. */
  lemma {:induction false} EncodeDecodeAscii(s: String)
    requires forall i :: 0 <= i < |s| ==> s[i] as int < 0x80
    ensures PercentDecode(EncodeUriComponent(s)) == s
    decreases |s|
  {
    if s != [] {
      DecodeEncodedChar(s[0], EncodeUriComponent(s[1..]));
      EncodeDecodeAscii(s[1..]);
      assert [s[0]] + s[1..] == s;
    }
  }

  // ---------------------------------------------------------------- APIBay

  /** A torrent of the APIBay top-100 list; the counts are the strings the list carries. */
  datatype ApiBayItem = ApiBayItem(name: String, imdb: Option<String>, infoHash: String, seeders: String, leechers: String, size: String)

  /** The OMDb answer for an IMDb id; OmdbFailed is a request that threw. */
  datatype OmdbReply =
    | OmdbFailed
    | OmdbAnswer(response: String, poster: Option<String>, title: Option<String>, year: Option<String>,
                 imdbRating: real, plot: Option<String>, runtime: Option<String>, rated: Option<String>,
                 genre: Option<String>)

  const MagnetPrefix: String := "magnet:?xt=urn:btih:"

  function MagnetUri(hash: String, name: String): String {
    MagnetPrefix + hash + "&dn=" + EncodeUriComponent(name)
  }

  lemma HashPartLacksAmpersand(hash: String)
    requires forall i :: 0 <= i < |hash| ==> hash[i] != '&'
    ensures forall i :: 0 <= i < |MagnetPrefix + hash| ==> (MagnetPrefix + hash)[i] != '&'
  {
    var a := MagnetPrefix + hash;
    forall i | 0 <= i < |a| ensures a[i] != '&' {
      if i >= |MagnetPrefix| { assert a[i] == hash[i - |MagnetPrefix|]; }
    }
  }

  lemma NamePartLacksAmpersand(name: String)
    ensures forall i :: 0 <= i < |"dn=" + EncodeUriComponent(name)| ==> ("dn=" + EncodeUriComponent(name))[i] != '&'
  {
    var b := "dn=" + EncodeUriComponent(name);
    EncodedIsSafe(name);
    forall i | 0 <= i < |b| ensures b[i] != '&' {
      if i >= 3 { assert b[i] == EncodeUriComponent(name)[i - 3]; }
    }
  }

  /** A magnet URI carries exactly two parameters: the info hash and the encoded name. */
  lemma MagnetHasTwoParameters(hash: String, name: String)
    requires forall i :: 0 <= i < |hash| ==> hash[i] != '&'
    ensures Split(MagnetUri(hash, name), "&") == [MagnetPrefix + hash, "dn=" + EncodeUriComponent(name)]
  {
    var a := MagnetPrefix + hash;
    var b := "dn=" + EncodeUriComponent(name);
    HashPartLacksAmpersand(hash);
    NamePartLacksAmpersand(name);
    assert "&dn=" == ['&'] + "dn=";
    assert MagnetUri(hash, name) == a + ['&'] + b;
    SplitOnce(a, '&', b);
  }

  /** OMDb is asked only for an IMDb id that starts with "tt", and used only when it answers "True". */
  predicate Enriched(item: ApiBayItem, reply: OmdbReply) {
    && item.imdb.Some? && StartsWith(item.imdb.value, "tt")
    && reply.OmdbAnswer? && reply.response == "True"
  }

  /** parseInt(s) || 0 */
  function IntOrZero(s: Option<String>): int {
    if s.None? then 0
    else match ParseIntJs(s.value) case Some(v) => v case None => 0
  }

  /** movie.genres ? movie.genres.split(', ') : [] */
  function GenreList(genre: Option<String>): seq<String> {
    if genre.None? || genre.value == [] then [] else Split(genre.value, ", ")
  }

  function ApiBayTorrent(item: ApiBayItem): Torrent {
    Torrent(MagnetUri(item.infoHash, item.name), item.infoHash, "1080p",
            ParseIntJs(item.seeders), ParseIntJs(item.leechers), ParseIntJs(item.size))
  }

  /** The record an APIBay torrent becomes, with OMDb metadata when it was used and defaults otherwise. */
  function ApiBayMovie(item: ApiBayItem, reply: OmdbReply): Movie {
    if Enriched(item, reply) then
      var poster := if reply.poster == Some("N/A") then None else reply.poster;
      Movie("APIBay", item.imdb, reply.title, reply.year, reply.imdbRating, poster, reply.plot,
            Some(IntOrZero(reply.runtime)), reply.rated, GenreList(reply.genre), poster, [ApiBayTorrent(item)])
    else
      Movie("APIBay", item.imdb, Some(item.name), None, 0.0, None, Some(""), Some(0), Some(""), [], None, [ApiBayTorrent(item)])
  }

  /** The metadata record getApiBayTrending fills in field by field before the movie is built. */
  datatype Draft = Draft(posterUrl: Option<String>, movieTitle: Option<String>, movieYear: Option<String>, imdbRating: real,
                         plot: Option<String>, runtime: int, rated: Option<String>, genres: Option<String>)

  /** Normalises one APIBay torrent: defaults first, overwritten from OMDb when its answer is used. */
  method NormaliseApiBay(item: ApiBayItem, omdb: String -> OmdbReply) returns (m: Movie)
    ensures m == ApiBayMovie(item, if item.imdb.Some? then omdb(item.imdb.value) else OmdbFailed)
  {
    var movie := Draft(None, Some(item.name), None, 0.0, Some(""), 0, Some(""), Some(""));
    if item.imdb.Some? && StartsWith(item.imdb.value, "tt") {
      var metadata := omdb(item.imdb.value);
      if metadata.OmdbAnswer? && metadata.response == "True" {
        movie := movie.(posterUrl := if metadata.poster != Some("N/A") then metadata.poster else None);
        movie := movie.(movieTitle := metadata.title);
        movie := movie.(movieYear := metadata.year);
        movie := movie.(imdbRating := metadata.imdbRating);
        movie := movie.(plot := metadata.plot);
        movie := movie.(runtime := IntOrZero(metadata.runtime));
        movie := movie.(rated := metadata.rated);
        movie := movie.(genres := metadata.genre);
      }
    }
    var genres := if movie.genres.Some? && movie.genres.value != [] then Split(movie.genres.value, ", ") else [];
    m := Movie("APIBay", item.imdb, movie.movieTitle, movie.movieYear, movie.imdbRating, movie.posterUrl, movie.plot,
               Some(movie.runtime), movie.rated, genres, movie.posterUrl, [ApiBayTorrent(item)]);
  }

  /** Every APIBay record has one 1080p torrent whose magnet URI is built from the info hash and the encoded name. */
  lemma ApiBayRecord(item: ApiBayItem, reply: OmdbReply)
    ensures var m := ApiBayMovie(item, reply);
            && m.source == "APIBay" && m.imdbCode == item.imdb
            && |m.torrents| == 1
            && m.torrents[0].hash == item.infoHash
            && m.torrents[0].quality == "1080p"
            && m.torrents[0].url == "magnet:?xt=urn:btih:" + item.infoHash + "&dn=" + EncodeUriComponent(item.name)
            && m.backgroundImage == m.thumbnail
            && m.thumbnail != Some("N/A")
  {
  }

  /** Without usable metadata the record falls back to the raw torrent name and empty details. */
  lemma ApiBayFallback(item: ApiBayItem, reply: OmdbReply)
    requires !Enriched(item, reply)
    ensures var m := ApiBayMovie(item, reply);
            && m.title == Some(item.name) && m.rating == 0.0 && m.synopsis == Some("")
            && m.runtime == Some(0) && m.mpaRating == Some("") && m.genres == [] && m.thumbnail == None
  {
  }

  /** With metadata, the title is OMDb's and a runtime such as "108 min" becomes its leading number. */
  lemma ApiBayEnriched(item: ApiBayItem, reply: OmdbReply, minutes: nat, unit: String)
    requires Enriched(item, reply)
    requires reply.runtime == Some(NatToString(minutes) + unit)
    requires unit == [] || (!IsDigit(unit[0]) && unit[0] != 'x' && unit[0] != 'X')
    ensures ApiBayMovie(item, reply).title == reply.title
    ensures ApiBayMovie(item, reply).runtime == Some(minutes)
    ensures reply.genre.Some? && reply.genre.value != [] ==> ApiBayMovie(item, reply).genres == Split(reply.genre.value, ", ")
  {
    ParseIntJsPrefix(minutes, unit);
    assert IntOrZero(reply.runtime) == minutes;
  }

  /** getApiBayTrending: one record per torrent, in order; a failed list request gives []. */
  method ApiBayTrending(payload: Option<seq<ApiBayItem>>, omdb: String -> OmdbReply) returns (movies: seq<Movie>)
    ensures payload.None? ==> movies == []
    ensures payload.Some? ==> |movies| == |payload.value|
    ensures payload.Some? ==> forall i :: 0 <= i < |movies| ==>
              movies[i] == ApiBayMovie(payload.value[i], ReplyFor(payload.value[i], omdb))
  {
    if payload.None? {
      return [];
    }
    var items := payload.value;
    movies := [];
    for k := 0 to |items|
      invariant |movies| == k
      invariant forall i :: 0 <= i < k ==> movies[i] == ApiBayMovie(items[i], ReplyFor(items[i], omdb))
    {
      var m := NormaliseApiBay(items[k], omdb);
      movies := movies + [m];
    }
  }

  /** The OMDb reply an item's normalisation consults. */
  function ReplyFor(item: ApiBayItem, omdb: String -> OmdbReply): OmdbReply {
    if item.imdb.Some? then omdb(item.imdb.value) else OmdbFailed
  }

  // ---------------------------------------------------------------- lookups

  /** Array.prototype.slice(start, end) with JavaScript's negative-index rule. */
  function JsSlice<T>(s: seq<T>, start: int, end: int): (r: seq<T>)
    ensures |r| <= |s|
  {
    var from := if start < 0 then (if |s| + start < 0 then 0 else |s| + start) else (if start > |s| then |s| else start);
    var to := if end < 0 then (if |s| + end < 0 then 0 else |s| + end) else (if end > |s| then |s| else end);
    if from < to then s[from..to] else []
  }

  /** The page of the trending list asked for by page and limit. */
  function TrendingPage(all: seq<Movie>, page: int, limit: int): seq<Movie> {
    var start := (page - 1) * limit;
    JsSlice(all, start, start + limit)
  }

  /** For a positive page the page holds exactly the elements from (page-1)*limit on, at most limit of them. */
  lemma TrendingPageContents(all: seq<Movie>, page: int, limit: int)
    requires page >= 1 && limit >= 0
    ensures var start := (page - 1) * limit;
            var r := TrendingPage(all, page, limit);
            && |r| == (if start >= |all| then 0 else if start + limit > |all| then |all| - start else limit)
            && forall i :: 0 <= i < |r| ==> r[i] == all[start + i]
  {
    var start := (page - 1) * limit;
    assert start >= 0 by {
      assert page - 1 >= 0;
    }
  }

  /** A page that starts past the end of the list is empty. */
  lemma PagePastEndEmpty(all: seq<Movie>, page: int, limit: int)
    requires page >= 1 && limit >= 0 && (page - 1) * limit >= |all|
    ensures TrendingPage(all, page, limit) == []
  {
    TrendingPageContents(all, page, limit);
  }

  /** heavyData.find(m => m.imdb_code === id) */
  function FindByImdb(all: seq<Movie>, id: String): (r: Option<Movie>)
    ensures r.Some? ==> r.value in all && r.value.imdbCode == Some(id)
    ensures r.None? <==> forall m | m in all :: m.imdbCode != Some(id)
    decreases |all|
  {
    if all == [] then None
    else if all[0].imdbCode == Some(id) then Some(all[0])
    else
      var r := FindByImdb(all[1..], id);
      assert forall m | m in all[1..] :: m in all;
      assert forall m | m in all && m != all[0] :: m in all[1..];
      r
  }

  /** The record found is the first one with that code. */
  lemma {:induction false} FindByImdbFirst(all: seq<Movie>, id: String, k: nat)
    requires k < |all| && all[k].imdbCode == Some(id)
    requires forall j :: 0 <= j < k ==> all[j].imdbCode != Some(id)
    ensures FindByImdb(all, id) == Some(all[k])
    decreases k
  {
    if k > 0 {
      FindByImdbFirst(all[1..], id, k - 1);
    }
  }

  // ---------------------------------------------------------------- the cache

  /** The module-wide cache time to live: 24 hours in milliseconds. */
  const CacheTtl: int := 60 * 60 * 1000 * 24
  /** The module-wide entry bound; only one key is ever used here. */
  const CacheMax: nat := 300
  const AllMoviesKey: String := "all_movies"

  datatype CatalogError = YtsUnavailable

  /** The cache-backed catalogue service. */
  class MovieCache {
    /** key -> (cached list, millisecond at which it expires) */
    var entries: map<String, (seq<Movie>, int)>

    constructor ()
      ensures entries == map[]
    {
      entries := map[];
    }

    /** cacheManager.get: the value while it has not expired. */
    function Cached(key: String, now: int): Option<seq<Movie>>
      reads this
    {
      if key in entries && now <= entries[key].1 then Some(entries[key].0) else None
    }

    /**
     * getAndCacheHeavyData: a live entry is returned as is; otherwise the
     * YTS list followed by the APIBay list is cached for a day and returned.
     * A failed YTS request makes the spread throw, and nothing is cached.
     */
    method HeavyData(now: int, yts: Option<seq<YtsMovie>>, apiBay: Option<seq<ApiBayItem>>, omdb: String -> OmdbReply)
      returns (r: Result<seq<Movie>, CatalogError>)
      modifies this
      ensures old(Cached(AllMoviesKey, now)).Some? ==>
                r == Ok(old(Cached(AllMoviesKey, now)).value) && entries == old(entries)
      ensures old(Cached(AllMoviesKey, now)).None? && yts.None? ==>
                r == Err(YtsUnavailable) && entries == old(entries)
      ensures old(Cached(AllMoviesKey, now)).None? && yts.Some? ==>
                && r.Ok?
                && r.value == YtsTrending(yts).value + ApiBayList(apiBay, omdb)
                && entries == old(entries)[AllMoviesKey := (r.value, now + CacheTtl)]
    {
      var hit := Cached(AllMoviesKey, now);
      if hit.Some? {
        return Ok(hit.value);
      }
      var ytsData := YtsTrending(yts);
      var apiBayData := ApiBayTrending(apiBay, omdb);
      ApiBayListIs(apiBay, omdb, apiBayData);
      if ytsData.None? {
        return Err(YtsUnavailable);
      }
      var allMovies := ytsData.value + apiBayData;
      entries := entries[AllMoviesKey := (allMovies, now + CacheTtl)];
      r := Ok(allMovies);
    }

    /** getTrendingMovies: the requested page of the cached or freshly built list. */
    method TrendingMovies(page: int, limit: int, now: int, yts: Option<seq<YtsMovie>>, apiBay: Option<seq<ApiBayItem>>,
                          omdb: String -> OmdbReply)
      returns (r: Result<seq<Movie>, CatalogError>)
      modifies this
      ensures r.Ok? <==> old(Cached(AllMoviesKey, now)).Some? || yts.Some?
      ensures r.Ok? ==> AllMoviesKey in entries && entries[AllMoviesKey].0 == HeavyList(old(Cached(AllMoviesKey, now)), yts, apiBay, omdb)
      ensures r.Ok? ==> r.value == TrendingPage(HeavyList(old(Cached(AllMoviesKey, now)), yts, apiBay, omdb), page, limit)
      ensures old(Cached(AllMoviesKey, now)).Some? || yts.None? ==> entries == old(entries)
      ensures old(Cached(AllMoviesKey, now)).None? && yts.Some? ==>
                entries == old(entries)[AllMoviesKey := (HeavyList(None, yts, apiBay, omdb), now + CacheTtl)]
    {
      var all := HeavyData(now, yts, apiBay, omdb);
      if all.Err? {
        return Err(all.error);
      }
      var start := (page - 1) * limit;
      r := Ok(JsSlice(all.value, start, start + limit));
    }

    /** getMovie: the first record of the list with that IMDb code, or None (null). */
    method GetMovie(id: String, now: int, yts: Option<seq<YtsMovie>>, apiBay: Option<seq<ApiBayItem>>,
                    omdb: String -> OmdbReply)
      returns (r: Result<Option<Movie>, CatalogError>)
      modifies this
      ensures r.Ok? <==> old(Cached(AllMoviesKey, now)).Some? || yts.Some?
      ensures r.Ok? ==> r.value == FindByImdb(HeavyList(old(Cached(AllMoviesKey, now)), yts, apiBay, omdb), id)
      ensures old(Cached(AllMoviesKey, now)).Some? || yts.None? ==> entries == old(entries)
      ensures old(Cached(AllMoviesKey, now)).None? && yts.Some? ==>
                entries == old(entries)[AllMoviesKey := (HeavyList(None, yts, apiBay, omdb), now + CacheTtl)]
    {
      var all := HeavyData(now, yts, apiBay, omdb);
      if all.Err? {
        return Err(all.error);
      }
      r := Ok(FindByImdb(all.value, id));
    }
  }

  /** The APIBay part of the list: [] when the request failed. */
  function ApiBayList(payload: Option<seq<ApiBayItem>>, omdb: String -> OmdbReply): (r: seq<Movie>)
    ensures payload.None? ==> r == []
  {
    match payload
    case None => []
    case Some(items) => seq(|items|, i requires 0 <= i < |items| => ApiBayMovie(items[i], ReplyFor(items[i], omdb)))
  }

  lemma ApiBayListIs(payload: Option<seq<ApiBayItem>>, omdb: String -> OmdbReply, movies: seq<Movie>)
    requires payload.None? ==> movies == []
    requires payload.Some? ==> |movies| == |payload.value|
    requires payload.Some? ==> forall i :: 0 <= i < |movies| ==>
               movies[i] == ApiBayMovie(payload.value[i], ReplyFor(payload.value[i], omdb))
    ensures movies == ApiBayList(payload, omdb)
  {
  }

  /** The list served: the cached one while it is live, otherwise the freshly built one. */
  function HeavyList(cached: Option<seq<Movie>>, yts: Option<seq<YtsMovie>>, apiBay: Option<seq<ApiBayItem>>,
                     omdb: String -> OmdbReply): seq<Movie>
    requires cached.Some? || yts.Some?
  {
    if cached.Some? then cached.value else YtsTrending(yts).value + ApiBayList(apiBay, omdb)
  }

  /** A fresh list puts every YTS record before every APIBay record. */
  lemma HeavyListOrder(yts: seq<YtsMovie>, apiBay: Option<seq<ApiBayItem>>, omdb: String -> OmdbReply)
    ensures var all := HeavyList(None, Some(yts), apiBay, omdb);
            && |all| == |yts| + |ApiBayList(apiBay, omdb)|
            && (forall i :: 0 <= i < |yts| ==> all[i].source == "YTS")
            && (forall i :: |yts| <= i < |all| ==> all[i].source == "APIBay")
  {
  }
}
