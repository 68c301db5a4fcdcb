# Hyperflix core, modelled in Dafny

Hyperflix is a movie-streaming web application. It has three parts:

- a NestJS API server with the movie catalogue, accounts, user settings, profiles and comments;
- a Django streaming service that downloads torrents, transcodes them to HLS and serves subtitles;
- a Next.js client.

This project models the deterministic logic at the core of each part. It covers four groups.

- **Movie catalogue.**
  - The trending list is built from YTS and APIBay records, with OMDb enrichment and a magnet URI per APIBay torrent.
  - The list is cached for a day under `all_movies`, paged by offset and searched by IMDb code.
  - Around it sit the controller's default filling, search guard and not-found mapping, the filter DTO bounds, the client's infinite-scroll rule and the filter bar's state updates and labels.
- **Streaming text logic.**
  - HLS master and media playlists are built from a directory listing (RFC 8216).
  - Segment file names round-trip with the pattern that lists them.
  - The `stream_ts` path guard, the status classification and the `start_stream` decision.
  - SRT to WebVTT conversion, subtitle selection and sorting, the local `.vtt` scan and the sniffing of downloaded subtitle content.
  - The `MovieFile` record and the 30-day clean-up.
- **Account rules.**
  - The client and server password and registration validators, and how they relate.
  - The password-update guard chain, the partial profile update with its uniqueness checks, and the email change.
  - The auth flows as a state machine over a user store.
  - The GitHub profile to user mapping.
- **Profile and comments.**
  - Profile visibility, page and limit clamping, media grouping and pagination metadata.
  - Comment creation with its upload filter.
  - The demo comment page's state updates.
  - The relative-time label and the pagination widget.

Network answers, database rows, the clock, password hashing, random tokens and subprocesses are inputs. They are given as parameters, `Option` values standing for failed requests, or functions left uninterpreted. State the source changes in place is kept in a class with `modifies` clauses:

- the cache;
- the user, token and email stores;
- the `MovieFile` table;
- the subtitle directory;
- the comment page's state cells.

Pure logic is kept in functions with lemmas about them.

Modules: `Wrappers` (Option, Result), `Text` (trimming, splitting, `parseInt`, number formatting), `Sorting`, `Http` (error replies), `Catalog`, `MoviesApi`, `Hls`, `StreamRecords`, `Subtitles`, `Accounts`, `GithubProfile`, `Passwords`, `Settings`, `Profile`, `CommentUpload`, `CommentPage`, `TimeLabels`.

## Model

| member | source | states |
|---|---|---|
| Catalog.YtsTrending | server/src/movies/movies.service.ts:113-141 | a failed YTS request gives no list; otherwise one record per YTS movie, in order, with source "YTS", the code, title, year, synopsis, runtime, MPA rating, genres, background and torrents passed through, the cover as thumbnail, and rating 0 exactly when YTS gives none or 0 |
| Catalog.Utf8 | server/src/movies/movies.service.ts:215 | encodeURIComponent's UTF-8 step: one to four bytes, each below 256, and an ASCII character is its own single byte |
| Catalog.PercentBytes | server/src/movies/movies.service.ts:215 | every byte escaped becomes three characters |
| Catalog.PercentBytesSafe | server/src/movies/movies.service.ts:215 | escaped bytes use only URI-safe characters |
| Catalog.EncodedIsSafe | server/src/movies/movies.service.ts:215 | encodeURIComponent(name) only produces URI-safe characters, so it never holds '&', '=', '#' or a space |
| Catalog.HexRoundTrip | server/src/movies/movies.service.ts:215 | every upper-case hex digit written by the escape reads back as its value |
| Catalog.DecodeEncodedChar | server/src/movies/movies.service.ts:215 | an ASCII character's encoding decodes back to that character in front of the rest |
| Catalog.EncodeDecodeAscii | server/src/movies/movies.service.ts:215 | for ASCII torrent names, percent-decoding the encoded name gives the name back |
| Catalog.HashPartLacksAmpersand | server/src/movies/movies.service.ts:215 | the "magnet:?xt=urn:btih:" + hash part holds no '&' when the hash holds none |
| Catalog.NamePartLacksAmpersand | server/src/movies/movies.service.ts:215 | the "dn=" part holds no '&', whatever the torrent name |
| Catalog.MagnetHasTwoParameters | server/src/movies/movies.service.ts:215 | the magnet URI splits on '&' into exactly the info-hash parameter and the encoded-name parameter |
| Catalog.NormaliseApiBay | server/src/movies/movies.service.ts:166-223 | the per-torrent record, built by reassigning the defaults field by field, is the APIBay record for that torrent and the OMDb answer to its tt code (or a failed answer when there is none) |
| Catalog.ApiBayRecord | server/src/movies/movies.service.ts:201-223 | every APIBay record has source "APIBay", the torrent's imdb code, one 1080p torrent with the info hash and the magnet URI, the poster as background, and never the poster "N/A" |
| Catalog.ApiBayFallback | server/src/movies/movies.service.ts:167-176 | without a usable OMDb answer the title is the raw torrent name, rating and runtime 0, plot and rating label empty, no genres, no poster |
| Catalog.ApiBayEnriched | server/src/movies/movies.service.ts:184-193 | with a usable answer the title is OMDb's, a runtime like "108 min" becomes 108, and the genre text is split on ", " |
| Catalog.ApiBayTrending | server/src/movies/movies.service.ts:155-233 | a failed list request gives []; otherwise one normalised record per torrent, in order |
| Catalog.JsSlice | server/src/movies/movies.service.ts:97 | Array.prototype.slice never returns more elements than the list has |
| Catalog.TrendingPageContents | server/src/movies/movies.service.ts:94-98 | page p of size n holds exactly the elements from (p-1)*n on, at most n of them, and fewer only at the end of the list |
| Catalog.PagePastEndEmpty | server/src/movies/movies.service.ts:94-98 | a page starting past the end of the list is empty |
| Catalog.FindByImdb | server/src/movies/movies.service.ts:145 | the record found is in the list and carries the code; none is found exactly when no record carries it |
| Catalog.FindByImdbFirst | server/src/movies/movies.service.ts:145 | the record found is the first one with that code |
| Catalog.MovieCache.constructor | server/src/app.module.ts:20-24 | the cache starts empty (24-hour TTL and 300-entry bound are constants) |
| Catalog.MovieCache.HeavyData | server/src/movies/movies.service.ts:100-110 | a live `all_movies` entry is returned and the cache is untouched; otherwise a failed YTS request fails and caches nothing, and a successful one caches the YTS list followed by the APIBay list for 24 hours and returns it |
| Catalog.MovieCache.TrendingMovies | server/src/movies/movies.service.ts:94-98 | succeeds exactly when the list was cached or YTS answered, and the reply is then the requested page of it; a live entry or a failed YTS request leaves the cache as it was, and a miss caches the fresh YTS-then-APIBay list under all_movies for 24 hours and changes no other key |
| Catalog.MovieCache.GetMovie | server/src/movies/movies.service.ts:143-153 | succeeds exactly when the list was cached or YTS answered; the reply is then the first record with the IMDb code, or none (null); the cache changes as in getAndCacheHeavyData: untouched on a hit or a YTS failure, all_movies filled for 24 hours on a miss |
| Catalog.ApiBayList | server/src/movies/movies.service.ts:229-232 | the APIBay part of the list is empty when the request failed |
| Catalog.ApiBayListIs | server/src/movies/movies.service.ts:155-233 | any list with one normalised record per torrent, in order, is the APIBay part of the catalogue |
| Catalog.HeavyListOrder | server/src/movies/movies.service.ts:107 | a freshly built list holds every YTS record, then every APIBay record |
| MoviesApi.DefaultsValid | server/src/movies/dto/movie-filter.dto.ts:4-47 | the DTO defaults (page 1, limit 20, date_added, desc) satisfy the DTO's own bounds |
| MoviesApi.GenresAscending0 | server/src/movies/dto/movie-filter.dto.ts:50-73 | genres 1 to 4 of MOVIE_GENRES are in strictly ascending order |
| MoviesApi.GenresAscending3 | server/src/movies/dto/movie-filter.dto.ts:50-73 | genres 4 to 7 are in strictly ascending order |
| MoviesApi.GenresAscending6 | server/src/movies/dto/movie-filter.dto.ts:50-73 | genres 7 to 10 are in strictly ascending order |
| MoviesApi.GenresAscending9 | server/src/movies/dto/movie-filter.dto.ts:50-73 | genres 10 to 13 are in strictly ascending order |
| MoviesApi.GenresAscending12 | server/src/movies/dto/movie-filter.dto.ts:50-73 | genres 13 to 16 are in strictly ascending order |
| MoviesApi.GenresAscending15 | server/src/movies/dto/movie-filter.dto.ts:50-73 | genres 16 to 19 are in strictly ascending order |
| MoviesApi.GenresAscending18 | server/src/movies/dto/movie-filter.dto.ts:50-73 | genres 19 to 22 are in strictly ascending order |
| MoviesApi.AscendingChain | server/src/movies/dto/movie-filter.dto.ts:50-73 | in a strictly ascending list every entry comes strictly before every later one |
| MoviesApi.GenresAgree | client/components/filter-bar.tsx:16-39 | the filter bar offers the server's 22 genres, in the same order, with no duplicates |
| MoviesApi.OrUndefined | server/src/movies/movies.controller.ts:28-29 | the fallback to undefined is absent exactly for a missing or empty string and otherwise is x |
| MoviesApi.FalsyQueryGivesDefaults | server/src/movies/movies.controller.ts:23-32 | with every parameter missing or empty the service receives the DTO defaults, which pass the DTO |
| MoviesApi.ParseNumOfNat | server/src/movies/movies.controller.ts:24-27 | parseInt reads a decimal numeral back as its number |
| MoviesApi.PageZeroNotValidated | server/src/movies/movies.controller.ts:23-32 | the filters are built, not validated: page "0" reaches the service as 0, outside the DTO bound |
| MoviesApi.LimitNaNNotValidated | server/src/movies/movies.controller.ts:25 | a limit that does not start like a number reaches the service as NaN, which the DTO would reject |
| MoviesApi.SearchMovies | server/src/movies/movies.controller.ts:39-52 | a missing or blank q is BadRequest; otherwise the reply echoes the raw q and count is the number of results |
| MoviesApi.SearchedTermIsTrimmed | server/src/movies/movies.controller.ts:46-51 | the service searches q trimmed: non-empty, already trimmed, and q with only blank margins removed |
| MoviesApi.MovieResponse | server/src/movies/movies.controller.ts:54-64 | null from the service is NotFound("Movie not found"); a record is returned unchanged |
| MoviesApi.GetMovieFirstMatch | server/src/movies/movies.controller.ts:54-64 | GET /movies/:id is NotFound exactly when no record carries the code, and otherwise the first record that does |
| MoviesApi.ListRoute | server/src/movies/movies.controller.ts:66-93 | exactly the routes watch-later and watched are served; POST adds and DELETE removes; watch-later routes reach the watch-later methods |
| MoviesApi.ListEndpoint | server/src/movies/movies.controller.ts:66-93 | without an authenticated user the request is refused; otherwise the service gets the request's user id first and the path's movie id second |
| MoviesApi.ListRoutesDistinct | server/src/movies/movies.controller.ts:66-93 | no two verb and route pairs reach the same service method |
| MoviesApi.SortChange | client/components/filter-bar.tsx:84-86 | sets sort_by and order_by and keeps every other filter |
| MoviesApi.GenreChange | client/components/filter-bar.tsx:88-90 | sets the genre and keeps every other filter |
| MoviesApi.RatingChange | client/components/filter-bar.tsx:92-94 | sets the minimum rating and keeps every other filter |
| MoviesApi.QualityChange | client/components/filter-bar.tsx:96-98 | 'all' or nothing clears the quality, any other value is stored; other filters are kept |
| MoviesApi.HideWatchedToggle | client/components/filter-bar.tsx:100-102 | the flag becomes defined and set exactly when it was not set; other filters are kept |
| MoviesApi.HideWatchedTwice | client/components/filter-bar.tsx:100-102 | two toggles restore whether the flag is set, and restore the whole record exactly when the flag had a value |
| MoviesApi.SearchSubmit | client/components/filter-bar.tsx:104-110 | a search submit changes only the search term |
| MoviesApi.SearchSubmitStoresTrimmed | client/components/filter-bar.tsx:104-110 | the stored term is absent exactly when the box was blank, and otherwise is the box's non-empty trimmed core |
| MoviesApi.ClearSearch | client/components/filter-bar.tsx:112-116 | clears the search term and keeps every other filter |
| MoviesApi.ClearFilters | client/components/filter-bar.tsx:297-301 | Clear Filters leaves no active filter and keeps only sort_by and order_by |
| MoviesApi.FindSort | client/components/filter-bar.tsx:125-127 | the option found is in the menu and matches both fields; none is found exactly when no option matches |
| MoviesApi.FindSortFirst | client/components/filter-bar.tsx:125-127 | the option found is the first that matches |
| MoviesApi.SortPairsDistinct | client/components/filter-bar.tsx:51-61 | no two sort options share a (sort_by, order_by) pair |
| MoviesApi.SortLabelRoundTrip | client/components/filter-bar.tsx:125-127 | picking option i from the sort menu makes option i the current label |
| MoviesApi.DefaultSortAgrees | client/components/filter-bar.tsx:125-127 | with no sort chosen the label is "Recently Added", whose pair is the controller's default |
| MoviesApi.SortOptionsAccepted | server/src/movies/dto/movie-filter.dto.ts:38-46 | every sort option the menu offers is accepted by the DTO |
| MoviesApi.FindRating | client/components/filter-bar.tsx:133-135 | the rating option found is in the menu and has the value; none is found exactly when no option has it |
| MoviesApi.FindRatingFirst | client/components/filter-bar.tsx:133-135 | the rating option found is the first with that value |
| MoviesApi.RatingLabel | client/components/filter-bar.tsx:133-135 | the rating button names a rating exactly when the minimum is 5 to 9, and then shows that digit and '+' |
| MoviesApi.ClearFiltersLabels | client/components/filter-bar.tsx:297-301 | Clear Filters keeps the sort label, resets the rating label to "Any Rating", and is idempotent |
| MoviesApi.NextPageParam | client/lib/hooks/useMovies.ts:37-40 | no next page exactly after a failed (null) or short page |
| MoviesApi.RequestsConsecutive | client/lib/hooks/useMovies.ts:36-40 | pages are requested consecutively; every page but the last fetched was full, and scrolling stops early only after a null or short page |
| MoviesApi.ScrollFromStart | client/lib/hooks/useMovies.ts:36 | from the initial page parameter the requests are 1, 2, 3, ... |
| MoviesApi.QueryOfRequest | client/lib/hooks/useMovies.ts:22-28 | the controller reads the page, limit 20, the rating as text, the search term, genre and sort from the request the hook sends |
| MoviesApi.ClientServerAgree | server/src/movies/movies.controller.ts:23-32 | the service sees the page asked for, limit 20, the chosen rating, genre and term (empty strings dropped) and the chosen sort or the defaults |
| MoviesApi.GetLibraryForClient | server/src/movies/movies.controller.ts:11-37 | getLibrary answers a client request with the service's movies for exactly those filters |
| MoviesApi.QualityAndHideWatchedIgnored | server/src/movies/movies.controller.ts:12-32 | the quality filter and the hide-watched toggle do not change what the server is asked |
| MoviesApi.MenuRequestsValid | server/src/movies/dto/movie-filter.dto.ts:4-47 | a filter state built from the menus, sent for a page from 1 on, passes the DTO |
| Hls.Rank | torrent/torrent_service/stream/views.py:326 | the position of a variant in the ladder 1080p, 720p, 480p, 360p, and past the end exactly for any other name |
| Hls.Bandwidth | torrent/torrent_service/stream/views.py:439-445 | any name outside the ladder gets the default 1000000 bits per second |
| Hls.ResolutionDim | torrent/torrent_service/stream/views.py:447-453 | any name outside the ladder gets the default 1280x720 |
| Hls.BandwidthDecreases | torrent/torrent_service/stream/views.py:439-445 | down the ladder the advertised bandwidth strictly decreases |
| Hls.HeightMatchesName | torrent/torrent_service/stream/views.py:447-453 | each variant's frame height is its name without the trailing 'p' |
| Hls.SegmentName | torrent/torrent_service/stream/services.py:48 | the transcoder writes segment i as "segment_" + i padded to 3 digits + ".ts" |
| Hls.ParseSegmentName | torrent/torrent_service/stream/views.py:383-387 | a name the pattern accepts starts with "segment_" |
| Hls.SegmentNameRoundTrip | torrent/torrent_service/stream/services.py:48 | the name written for segment i is read back by the playlist pattern as i, so writer and reader agree |
| Hls.SegmentNameInjective | torrent/torrent_service/stream/services.py:48 | distinct segments get distinct file names |
| Hls.ParsedIsSegmentLike | torrent/torrent_service/stream/views.py:337 | a name the media playlist lists also passes the master playlist's loose segment test, unless it ends in a newline |
| Hls.OfferedAmong | torrent/torrent_service/stream/views.py:329-341 | a variant is listed exactly when its directory exists and holds index.m3u8 or a segment file |
| Hls.OfferedAmongOrdered | torrent/torrent_service/stream/views.py:326-341 | the listed variants keep the ladder's order, so none is listed twice |
| Hls.OfferedVariantsOrdered | torrent/torrent_service/stream/views.py:326-341 | the master playlist lists the variants in ladder order, each once |
| Hls.ProbeAmong | torrent/torrent_service/stream/views.py:308-315 | the probe's scan hits exactly when some variant directory lists a segment file |
| Hls.HeadProbe | torrent/torrent_service/stream/views.py:302-316 | a HEAD probe is 410 exactly for an ERROR record, and 404 only when no variant directory lists a segment file |
| Hls.ProbeOkOffersVariant | torrent/torrent_service/stream/views.py:302-318 | a probe answered 200 means the master playlist offers a variant holding segments |
| Hls.MasterLinesShape | torrent/torrent_service/stream/views.py:346-354 | the master playlist is "#EXTM3U", "#EXT-X-VERSION:3", then an EXT-X-STREAM-INF line and a URI per variant, in the order found |
| Hls.HeaderInterleaveAt | torrent/torrent_service/stream/views.py:348-352 | after the two header lines, variant k's two lines sit at lines 2+2k and 3+2k |
| Hls.MasterPlaylist | torrent/torrent_service/stream/views.py:322-354 | 404 "pending" exactly when no variant is offered; otherwise the master lines of the offered variants in ladder order |
| Hls.StreamInfs | torrent/torrent_service/stream/views.py:348-351 | one EXT-X-STREAM-INF line per variant, with its bandwidth, resolution and name |
| Hls.VariantUris | torrent/torrent_service/stream/views.py:352 | one playlist URI per variant |
| Hls.Interleave | torrent/torrent_service/stream/views.py:348-352 | two lines per variant |
| Hls.InterleaveAt | torrent/torrent_service/stream/views.py:348-352 | each variant's tag line comes right before its URI |
| Hls.VariantEntries | torrent/torrent_service/stream/views.py:348-352 | the appending loop produces each variant's tag line followed by its URI, in order |
| Hls.FindOffered | torrent/torrent_service/stream/views.py:326-341 | the scanning loop finds exactly the offered variants, in ladder order |
| Hls.AnySegmentLike | torrent/torrent_service/stream/views.py:337 | true exactly when some listed name starts with "segment_" and ends with ".ts" |
| Hls.Matches | torrent/torrent_service/stream/views.py:382-387 | each pair collected is a listed name with the index it parses to |
| Hls.Names | torrent/torrent_service/stream/views.py:396 | the names of the sorted pairs, one per pair |
| Hls.SegmentsOrdered | torrent/torrent_service/stream/views.py:382-396 | the segments listed are ordered by index, come from the listing, and are all the names that parse |
| Hls.SortedMatches | torrent/torrent_service/stream/views.py:395-396 | after the sort each pair is still a listed name with its index, in index order |
| Hls.WrittenSegmentIsListed | torrent/torrent_service/stream/views.py:382-393 | a listing holding a name the transcoder wrote gives a non-empty media playlist |
| Hls.MatchesComplete | torrent/torrent_service/stream/views.py:382-387 | every listed name that parses is collected with its index |
| Hls.MediaPlaylist | torrent/torrent_service/stream/views.py:356-417 | 404 for a missing variant; a static index.m3u8 is served with every non-comment line turned into its stream_ts URI; otherwise the segments in index order (404 when none) after a header with TARGETDURATION 10, VOD and EXT-X-ENDLIST exactly for a READY record, EVENT otherwise |
| Hls.RewriteLines | torrent/torrent_service/stream/views.py:366-378 | comment and empty lines are kept, every other line becomes the stream_ts URI of its stripped text |
| Hls.CollectMatches | torrent/torrent_service/stream/views.py:382-387 | the collecting loop gathers exactly the matches, in listing order |
| Hls.SegmentPlaylist | torrent/torrent_service/stream/views.py:398-417 | the five header lines, "#EXTINF:10.0," and the URI per segment, and EXT-X-ENDLIST exactly when ready |
| Hls.SegmentCount | torrent/torrent_service/stream/views.py:481-492 | the status endpoint counts segments of a variant, positive exactly when its directory lists a segment file |
| Hls.CountSegmentLike | torrent/torrent_service/stream/views.py:487 | the count is at most the listing's length and positive exactly when some name is segment-like |
| Hls.NoPeersMeansStaticOnly | torrent/torrent_service/stream/views.py:494-498 | when the status endpoint reports 'no-peers', the master playlist can only offer variants that have a static playlist |
| Hls.StreamTs | torrent/torrent_service/stream/views.py:420-436 | stream_ts as written is 400 exactly when file is missing, empty or contains ".."; otherwise the redirect is the percent-quoted join under /media/movies |
| Hls.StreamTsEscapes | torrent/torrent_service/stream/views.py:428-434 | an absolute file name passes the guard and, since quoting keeps '/', the redirect header leaves /media/movies |
| Hls.StreamTsSafe | torrent/torrent_service/stream/views.py:420-436 | with file and res both required to be plain names, the redirect is granted exactly then; it is /media/movies/ followed by the quoted pk, res and file, and the quoted res and file hold no '/', so it stays in the movie's resolution directory |
| Hls.JoinSafe | torrent/torrent_service/stream/views.py:431 | joining plain names puts exactly one '/' between them |
| Hls.QuoteChar | torrent/torrent_service/stream/views.py:434 | a kept character stays itself; any other becomes an escape starting with '%' |
| Hls.Quote | torrent/torrent_service/stream/views.py:434 | urllib.parse.quote leaves a text of kept characters (letters, digits, "_.-~" and '/') unchanged and never shortens a text |
| Hls.QuoteConcat | torrent/torrent_service/stream/views.py:434 | quoting distributes over concatenation |
| Hls.QuoteAddsNoSlash | torrent/torrent_service/stream/views.py:434 | quoting a text without '/' produces no '/' |
| Hls.QuoteSep | torrent/torrent_service/stream/views.py:431-434 | quoting keeps the '/' between two names and quotes each name |
| Hls.QuotePath | torrent/torrent_service/stream/views.py:431-434 | quoting the joined path keeps the root and the separators and quotes each name |
| Hls.JoinStep | torrent/torrent_service/stream/views.py:431 | os.path.join of a relative component inserts one '/' |
| StreamRecords.MovieFile.constructor | torrent/torrent_service/stream/models.py:8-27 | a new row is PENDING with progress 0, no file, and both times set to now |
| StreamRecords.MovieFile.UpdateLastWatched | torrent/torrent_service/stream/models.py:29-32 | only last_watched changes, to now |
| StreamRecords.MovieFile.ClearContent | torrent/torrent_service/stream/clean_movies.py:44-49 | the soft delete: status PENDING, progress 0, file path cleared, every other column (the magnet link included) kept |
| StreamRecords.JoinPath | torrent/torrent_service/stream/clean_movies.py:36 | os.path.join: an absolute second part replaces the first, and the result ends with the second part |
| StreamRecords.AfterLastSlash | torrent/torrent_service/stream/clean_movies.py:38 | the position after the last '/', with no '/' past it |
| StreamRecords.StripTrailingSlashes | torrent/torrent_service/stream/clean_movies.py:38 | a prefix of the path not ending in '/' |
| StreamRecords.Dirname | torrent/torrent_service/stream/clean_movies.py:38 | os.path.dirname returns a prefix of the path |
| StreamRecords.DirnameOfChild | torrent/torrent_service/stream/clean_movies.py:36-38 | the directory of MEDIA_ROOT joined with a relative file name is the directory the file sits in |
| StreamRecords.AfterLastSlashOfChild | torrent/torrent_service/stream/clean_movies.py:38 | the last '/' of dir + "/" + name is the one before the name |
| StreamRecords.ResetRow | torrent/torrent_service/stream/clean_movies.py:44-49 | the soft delete sets PENDING, progress 0 and no file, and keeps the magnet link, id, IMDb id and both times |
| StreamRecords.ResetNotExpired | torrent/torrent_service/stream/clean_movies.py:18-21 | a reset row is never selected again, and resetting twice changes nothing |
| StreamRecords.Disk.constructor | torrent/torrent_service/stream/clean_movies.py:40-41 | the disk holds the given paths |
| StreamRecords.Disk.RemoveTree | torrent/torrent_service/stream/clean_movies.py:41 | shutil.rmtree removes the directory and everything under it, and nothing else |
| StreamRecords.DeleteMovieContent | torrent/torrent_service/stream/clean_movies.py:32-52 | the movie directory is removed when the record has a file and the directory exists, and the disk then holds exactly ContentLeft; the row is reset unless the removal raised, in which case neither row nor disk changes |
| StreamRecords.ContentLeft | torrent/torrent_service/stream/clean_movies.py:35-41 | only the movie directory and what lies under it can go, only for a record with a file, and the directory itself is gone afterwards |
| StreamRecords.Expired | torrent/torrent_service/stream/clean_movies.py:14-21 | exactly the READY rows last watched before the cutoff are selected |
| StreamRecords.ExpiredDistinct | torrent/torrent_service/stream/clean_movies.py:18-21 | the selection holds each row at most once |
| StreamRecords.CleanedLater | torrent/torrent_service/stream/clean_movies.py:29-30 | a row cleaned earlier in the loop stays cleaned while later rows are processed |
| StreamRecords.CleanEach | torrent/torrent_service/stream/clean_movies.py:29-30 | every selected row is cleaned in turn, a failure on one does not stop the loop, and every path that disappears lies in the movie directory of a selected record that has a file |
| StreamRecords.CleanNext | torrent/torrent_service/stream/clean_movies.py:29-30 | one turn of the loop: record k is cleaned, the later records are untouched, the earlier ones stay cleaned, and removals stay inside the selected records' directories |
| StreamRecords.RemovedStep | torrent/torrent_service/stream/clean_movies.py:29-41 | one more delete_movie_content keeps every removed path inside a selected record's directory |
| StreamRecords.DeletedIsCleaned | torrent/torrent_service/stream/clean_movies.py:32-52 | what delete_movie_content leaves of one record is a cleaned record |
| StreamRecords.CleanedStep | torrent/torrent_service/stream/clean_movies.py:29-30 | cleaning record k keeps the records before it cleaned |
| StreamRecords.CleanUp | torrent/torrent_service/stream/clean_movies.py:12-30 | every READY movie unwatched for more than 30 days is cleaned, every other row is left as it was, only the directories of expired movies with a file lose paths, and with nothing expired nothing changes |
| StreamRecords.Classify | torrent/torrent_service/stream/views.py:494-498 | 'error' exactly for an ERROR record; 'no-peers' exactly when otherwise the swarm is empty and no variant holds a segment |
| StreamRecords.RemovesTorrent | torrent/torrent_service/stream/views.py:501-508 | the handle is removed only for an 'error' problem on a record with a magnet link, and always in that case when cleanup=1 |
| StreamRecords.CleanupOnlyOnError | torrent/torrent_service/stream/views.py:495-508 | through the classification, the handle is removed exactly for an ERROR record with a magnet link and cleanup=1; a 'no-peers' record never loses its handle |
| StreamRecords.TorrentHandles.constructor | torrent/torrent_service/stream/views.py:37-45 | the manager holds the given handle ids |
| StreamRecords.TorrentHandles.RemoveTorrent | torrent/torrent_service/stream/views.py:78-86 | the id is forgotten when known, and an unknown id changes nothing |
| StreamRecords.TorrentHandles.StatusCleanup | torrent/torrent_service/stream/views.py:501-508 | the movie's handle, keyed by its magnet link's hash, is removed exactly when RemovesTorrent holds; every other handle is kept |
| StreamRecords.MovieTable.constructor | torrent/torrent_service/stream/models.py:8-10 | the table starts empty with ids from 1 |
| StreamRecords.MovieTable.WithImdb | torrent/torrent_service/stream/views.py:540-547 | exactly the rows carrying the IMDb id |
| StreamRecords.MovieTable.StartStream | torrent/torrent_service/stream/views.py:527-565 | a missing magnet link or IMDb id is 400 and changes nothing; only a created row advances the next id; get_or_create reuses the one row with the id or creates a PENDING one; a row already DOWNLOADING, CONVERTING or READY is reported, not relaunched; processing is launched exactly when the reply is the PENDING start |
| Subtitles.Prefix | torrent/torrent_service/stream/services.py:526-528 | content[:n] is the first n characters, or all of a shorter content |
| Subtitles.SrtToVtt | torrent/torrent_service/stream/services.py:226 | the timestamp substitution keeps the text's length |
| Subtitles.SrtToVttPointwise | torrent/torrent_service/stream/services.py:226 | every character is kept, except a comma that may become a dot |
| Subtitles.OnlyStampCommasChange | torrent/torrent_service/stream/services.py:226 | a character changes only when it is the comma of an HH:MM:SS,mmm timestamp matched at the position 8 before it |
| Subtitles.StampUnfold | torrent/torrent_service/stream/services.py:226 | a timestamp at the front is rewritten with a dot and the scan resumes after its milliseconds |
| Subtitles.SkipUnfold | torrent/torrent_service/stream/services.py:226 | without a timestamp at the front the first character is kept and the scan moves on by one |
| Subtitles.NoCommaUnchanged | torrent/torrent_service/stream/services.py:226 | text without commas comes through unchanged |
| Subtitles.ArrowKept | torrent/torrent_service/stream/services.py:226 | the cue arrow "-->" survives the conversion |
| Subtitles.ArrowChars | torrent/torrent_service/stream/services.py:226 | "-->" occurs at i exactly when the three characters from i are '-', '-' and '>' |
| Subtitles.StampStep | torrent/torrent_service/stream/services.py:226 | an SRT timestamp followed by anything becomes its WebVTT form followed by the converted rest |
| Subtitles.PlainStep | torrent/torrent_service/stream/services.py:226 | a non-digit in front is kept as is |
| Subtitles.NoDigitsStep | torrent/torrent_service/stream/services.py:226 | text without digits in front is kept as is |
| Subtitles.NoStampInDigitRun | torrent/torrent_service/stream/services.py:226 | a cue number followed by a newline holds no timestamp |
| Subtitles.DigitRunStep | torrent/torrent_service/stream/services.py:226 | a run of digits followed by neither a digit nor ':' is kept as is |
| Subtitles.ConsAppend | torrent/torrent_service/stream/services.py:226 | splitting off the first digit of a run does not change the text |
| Subtitles.FirstDigitKept | torrent/torrent_service/stream/services.py:226 | the first digit of a cue number is kept |
| Subtitles.CueConverted | torrent/torrent_service/stream/services.py:226 | an SRT cue becomes the WebVTT cue with the same number and text and both timestamps written with a dot (section 4.1 of the WebVTT specification) |
| Subtitles.TimingConverted | torrent/torrent_service/stream/services.py:226 | the timing line gets both stamps rewritten and keeps its arrow |
| Subtitles.CueShapes | torrent/torrent_service/stream/services.py:226 | an SRT cue and its WebVTT counterpart share the number, arrow and text lines |
| Subtitles.LacksConcat | torrent/torrent_service/stream/services.py:526 | text made of two parts without '<' holds none |
| Subtitles.StampLacksAngle | torrent/torrent_service/stream/services.py:526 | a timestamp holds no '<' |
| Subtitles.NoAngleNotHtml | torrent/torrent_service/stream/services.py:526-527 | content without '<' is never taken for an HTML page |
| Subtitles.CueAccepted | torrent/torrent_service/stream/services.py:523-530 | a one-cue SRT file with plain text passes the size, HTML and cue checks |
| Subtitles.VttPathDiffers | torrent/torrent_service/stream/services.py:216 | the .vtt path never equals the .srt path it comes from |
| Subtitles.SuffixOccurs | torrent/torrent_service/stream/services.py:216 | a path ending in ".srt" contains ".srt", so the replacement applies |
| Subtitles.Scan | torrent/torrent_service/stream/services.py:585-614 | the scan reports at most one entry per listed name |
| Subtitles.ScanMembership | torrent/torrent_service/stream/services.py:593-606 | an entry is reported exactly when some listed .vtt file (other than download.lock) gives it |
| Subtitles.ScanStep | torrent/torrent_service/stream/services.py:593-606 | scanning one more name adds at most that name's entry |
| Subtitles.ReportedStep | torrent/torrent_service/stream/services.py:593-606 | a name of the extended listing is a name of the listing or the new one |
| Subtitles.ScanFindsLanguage | torrent/torrent_service/stream/services.py:594-606 | the file a download writes for a language is scanned back as that language, with its upper-case code as label and its media URL |
| Subtitles.ScanLocal | torrent/torrent_service/stream/services.py:585-614 | the appending loop returns exactly the scan, in listing order |
| Subtitles.ScanExtend | torrent/torrent_service/stream/services.py:593-606 | each step of the loop appends the entry of the name it reads, if any |
| Subtitles.LastAttempt | torrent/torrent_service/stream/services.py:490-555 | the second and last attempt yields content exactly for a body that passes the checks |
| Subtitles.DownloadedContent | torrent/torrent_service/stream/services.py:441-555 | a download writes content only after a link was given, only content that passes the checks and was one of the two bodies received, and the first body when it passes |
| Subtitles.Find | torrent/torrent_service/stream/services.py:296 | a language is found exactly when it was recorded |
| Subtitles.FindAppend | torrent/torrent_service/stream/services.py:303-325 | recording a language makes it found with its entry and leaves other languages as they were |
| Subtitles.SelectFollowsFirstItem | torrent/torrent_service/stream/services.py:292-325 | each language is recorded with what the first eligible item for it says: None when already on disk, else a task for its first file |
| Subtitles.SelectDistinct | torrent/torrent_service/stream/services.py:296-297 | no language is selected twice |
| Subtitles.Select | torrent/torrent_service/stream/services.py:289-325 | the selection loop computes exactly the selection |
| Subtitles.CleanTasks | torrent/torrent_service/stream/services.py:327 | exactly the recorded tasks that are not None |
| Subtitles.Downloads | torrent/torrent_service/stream/services.py:329-338 | at most one entry per task |
| Subtitles.ByLabelTotal | torrent/torrent_service/stream/services.py:340 | ordering by label is a total preorder, so the sort is well defined |
| Subtitles.FetchAllSorted | torrent/torrent_service/stream/services.py:240-343 | after a search the list is ordered by label and is a permutation of the entries already on disk plus those downloaded |
| Subtitles.WriteThenRemove | torrent/torrent_service/stream/services.py:563-565 | writing the .vtt and then removing the .srt leaves only the .vtt write |
| Subtitles.SubtitleStore.constructor | torrent/torrent_service/stream/services.py:247 | the store holds the given files |
| Subtitles.SubtitleStore.ConvertSrtToVtt | torrent/torrent_service/stream/services.py:207-238 | a missing file gives None; a file under 10 characters is deleted and gives None; otherwise "WEBVTT\n\n" plus the converted text is written to the .vtt path, which is returned |
| Subtitles.SubtitleStore.DownloadSingle | torrent/torrent_service/stream/services.py:441-583 | a download that gets valid content leaves the .vtt written and the .srt removed and returns the language's entry; any other leaves the files and returns None |
| Subtitles.SubtitleStore.SaveAndConvert | torrent/torrent_service/stream/services.py:519-565 | saving, converting and removing the .srt leaves exactly the .vtt |
| Subtitles.SubtitleStore.DownloadAll | torrent/torrent_service/stream/services.py:329-338 | the downloads run one after the other and the entries that succeed are collected in task order |
| Subtitles.SubtitleStore.FetchAllSubtitles | torrent/torrent_service/stream/services.py:240-361 | local subtitles are returned without download; without credentials or with the lock held only the scan is returned; otherwise the lock is taken, the selection downloaded, the list sorted by label, and the lock released |
| Accounts.FirstIndex | server/src/auth/auth.service.ts:19 | a lookup returns the first row matching the key, and none exactly when no row matches |
| Accounts.FirstIndexAt | server/src/auth/auth.service.ts:19 | the first match is row i when row i matches and no earlier row does |
| Accounts.ReplaceKeepsValid | server/src/auth/auth.service.ts:53-56 | updating a row without touching its id, e-mail or username keeps ids, e-mails and usernames unique |
| Accounts.AppendKeepsValid | server/src/auth/auth.service.ts:105-114 | inserting a row with a fresh id, e-mail and username keeps them unique |
| Accounts.ValidateLocalUser | server/src/auth/auth.service.ts:18-30 | a user is returned exactly when the first row with the e-mail has a non-empty hash that the password matches, and it is that row without its hash |
| Accounts.ValidateOAuthUser | server/src/auth/auth.service.ts:32-65 | the row already holding the provider id is returned unchanged; otherwise the first row with the e-mail gets the provider pair written on it and is returned; otherwise the OAuth row with the next id is appended and returned and the next id advances; the user returned always carries the provider identity; the call fails exactly when neither the provider id nor the e-mail is found and the username is taken, and then changes nothing; uniqueness is kept |
| Accounts.OAuthIdempotent | server/src/auth/auth.service.ts:32-65 | signing in again with the same provider identity returns the same user and changes nothing |
| Accounts.Register | server/src/auth/auth.service.ts:85-124 | a taken e-mail is refused with "User already exists" and changes nothing; a free e-mail with a taken username fails at the insert and changes nothing; registration succeeds exactly when both are free, and then one 'local', unverified row with the next id, the given e-mail, username, first and last name, the hash and a token valid for 24 hours is appended and returned without hash and token, and the next id advances; uniqueness is kept |
| Accounts.RegisterThenSignIn | server/src/auth/auth.service.ts:18-30 | after registering, the e-mail and password sign in as the new user (bcrypt never produces an empty hash) |
| Accounts.VerifyEmail | server/src/auth/auth.service.ts:126-143 | an unknown token is "Invalid verification token", an expired one "expired", both changing nothing; otherwise exactly the token's row is marked verified |
| Accounts.RegisterThenVerify | server/src/auth/auth.service.ts:99-143 | a fresh registration token verifies the new account up to 24 hours later and is reported expired after that |
| Accounts.VerifyFound | server/src/auth/auth.service.ts:126-143 | once the token's row is found, verification succeeds exactly while its expiry has not passed, a refusal is "expired", and success marks that row verified |
| Accounts.RegisteredTokenFound | server/src/auth/auth.service.ts:99-114 | the new row is the first holding the fresh token, and its token expires a day after registering |
| Accounts.ResendVerification | server/src/auth/auth.service.ts:145-173 | an unknown e-mail is "User not found", a verified user "Email already verified"; otherwise only that row gets the new token and a fresh 24-hour expiry |
| Accounts.ForgotPassword | server/src/auth/auth.service.ts:177-204 | the same message whether or not the e-mail is known; only a known user's row gets the reset token with a one-hour expiry |
| Accounts.ResetPassword | server/src/auth/auth.service.ts:206-227 | an unknown token and an expired one are refused and change nothing (a missing expiry never expires); otherwise only that row gets the new hash and loses its reset token |
| Accounts.ForgotThenReset | server/src/auth/auth.service.ts:177-227 | a reset token used within the hour replaces the password, the new password then signs in, and the token cannot be used again |
| Accounts.UserStore.constructor | server/src/auth/auth.service.ts:11-16 | the user table starts empty with ids from 1 |
| Accounts.UserStore.SetUser | server/src/auth/auth.service.ts:140 | a row update replaces exactly that row |
| Accounts.UserStore.Insert | server/src/auth/auth.service.ts:105 | an insert appends the row and advances the id sequence |
| Accounts.UserStore.ValidateOAuth | server/src/auth/auth.service.ts:32-65 | the store's OAuth sign-in reply and new table are those of ValidateOAuthUser |
| Accounts.UserStore.RegisterUser | server/src/auth/auth.service.ts:85-124 | the store's registration reply and new table are those of Register |
| Accounts.UserStore.VerifyEmailToken | server/src/auth/auth.service.ts:126-143 | the store's verification reply and new table are those of VerifyEmail |
| Accounts.UserStore.Resend | server/src/auth/auth.service.ts:145-173 | the store's resend reply and new table are those of ResendVerification |
| Accounts.UserStore.Forgot | server/src/auth/auth.service.ts:177-204 | the store's forgot-password reply and new table are those of ForgotPassword |
| Accounts.UserStore.Reset | server/src/auth/auth.service.ts:206-227 | the store's reset reply and new table are those of ResetPassword |
| GithubProfile.Or | server/src/auth/strategies/github.strategy.ts:38-47 | JavaScript's `a or b` on strings: a when it is a non-empty string, else b |
| GithubProfile.CheckConfig | server/src/auth/strategies/github.strategy.ts:13-19 | the strategy is built exactly when client id, secret and callback URL are all non-empty, and otherwise fails with the configuration error |
| GithubProfile.EmailOf | server/src/auth/strategies/github.strategy.ts:38 | the first listed e-mail when there is one, else an address at users.noreply.github.com |
| GithubProfile.PayloadOf | server/src/auth/strategies/github.strategy.ts:40-48 | provider 'github' with the profile id; username the login, else the display name; the hidden e-mail becomes the login's no-reply address ("undefined" for a missing login); without a display name the first name is the login and the last name empty; the avatar is the first photo when there is one |
| GithubProfile.NameSplitAtFirstSpace | server/src/auth/strategies/github.strategy.ts:45-46 | a display name splits at its first space, and first name, space and last name give the display name back |
| GithubProfile.SingleWordName | server/src/auth/strategies/github.strategy.ts:45-46 | a one-word display name is the whole first name and the last name is empty |
| Passwords.ClientSpecialIsServerSpecial | server/src/userSetting/service/updatePassword.service.ts:33-35 | every special character the client form demands is one the password service accepts |
| Passwords.StrongByCases | server/src/userSetting/service/updatePassword.service.ts:14-35 | a password passing all five checks is strong |
| Passwords.FirstBroken | server/src/userSetting/service/updatePassword.service.ts:57-71 | the rule reported is the first one the new password breaks, in the service's order, and none exactly for a strong password |
| Passwords.SetPasswordHash | server/src/userSetting/repository/settings.repository.ts:30-37 | the update writes the new hash on the row with that id and changes no other row |
| Passwords.SetPasswordHashKeepsValid | server/src/userSetting/repository/settings.repository.ts:30-37 | changing a hash keeps ids, e-mails and usernames unique |
| Passwords.UpdatePasswordWith | server/src/userSetting/service/updatePassword.service.ts:46-89 | a missing field is BadRequest, a differing confirmation Unauthorized, a weak password BadRequest with the first broken rule's message; after those checks a missing row is Unauthorized "User not found", a missing or empty hash Unauthorized "You are not allowed to modify password here", and a wrong old password Unauthorized "Wrong old password"; the hash is written exactly when every field is given, the confirmation matches, the password is strong, the row exists with a non-empty hash, and the old password matches; otherwise nothing changes |
| Passwords.FindByIdAsWritten | server/src/userSetting/repository/settings.repository.ts:16-19 | the lookup as written never finds a row |
| Passwords.FindById | server/src/userSetting/repository/settings.repository.ts:16-19 | the lookup with the query awaited finds a row exactly when one has the id, and returns a row with that id |
| Passwords.AsWrittenNeverUpdates | server/src/userSetting/service/updatePassword.service.ts:74-76 | as written, a request passing every input check is refused with 'User not found' and no password ever changes |
| Passwords.UpdateThenSignIn | server/src/userSetting/service/updatePassword.service.ts:46-89 | with the lookup awaited, a user giving the right old password and a strong new one gets the new hash on their row alone, and then signs in with the new password |
| Passwords.CurrentPasswordIgnored | server/src/userSetting/service/updatePassword.service.ts:48-52 | a body that names the old password current_password, as the DTO declares it, is refused for a missing field |
| Passwords.ClientPasswordIsStrong | client/lib/validations/auth.ts:3-13 | a password the client form accepts passes all five of the server's change rules |
| Passwords.Check | client/lib/validations/auth.ts:5-12 | one check gives its message exactly when it fails |
| Passwords.LengthMessages | client/lib/validations/auth.ts:5-6 | no length message exactly when the length in UTF-16 units is within the bounds |
| Passwords.At | client/lib/validations/auth.ts:15-39 | every message of a field becomes an issue on that field's path, in order |
| Passwords.PasswordMessages | client/lib/validations/auth.ts:3-13 | no message exactly when the password is 8 to 128 units long and holds an upper-case letter, a lower-case letter, a digit and one of @$!%*?&# |
| Passwords.PasswordIssues | client/lib/validations/auth.ts:33 | the password field's issues are empty exactly for an accepted password, all on that field |
| Passwords.ProfileFieldIssues | client/lib/validations/auth.ts:17-32 | no issue exactly when e-mail, username, first and last name are within their bounds, and none is on confirmPassword |
| Passwords.Refinement | client/lib/validations/auth.ts:36-39 | the "Passwords do not match" issue on confirmPassword is raised exactly when the passwords differ |
| Passwords.ProfilePathsDiffer | client/lib/validations/auth.ts:15-39 | no field other than confirmPassword carries the mismatch path |
| Passwords.RegisterIssues | client/lib/validations/auth.ts:15-39 | the registration form passes exactly when every field is valid and the passwords match, and reports the mismatch exactly when they differ |
| Passwords.ResetIssues | client/lib/validations/auth.ts:41-49 | the reset form passes exactly when the password is accepted and confirmed, and reports the mismatch exactly when they differ |
| Passwords.ResetMatchesRegister | client/lib/validations/auth.ts:15-49 | with valid profile fields, the reset form accepts exactly the passwords the registration form accepts |
| Passwords.LookaheadOnOneLine | server/src/auth/dto/register.dto.ts:27 | on a line without terminators a `(?=.*[…])` lookahead finds exactly what a class test finds |
| Passwords.ServerPasswordMatchesClient | server/src/auth/dto/register.dto.ts:22-29 | on one-line passwords the server's length and pattern checks agree with the client's password schema |
| Passwords.ClientFormReachesServer | server/src/auth/dto/register.dto.ts:5-30 | a form the client accepts passes the server schema exactly when its password has no line terminator |
| Passwords.LineTerminatorRejected | server/src/auth/dto/register.dto.ts:27 | a password with a line terminator anywhere never passes the server pattern |
| Passwords.ServerMatchesClientForm | server/src/auth/dto/register.dto.ts:5-30 | on one-line, confirmed passwords, the server schema accepts exactly what the client form accepts |
| Settings.FirstHolderIsOnly | server/src/userSetting/service/settings.service.ts:18-23 | with unique usernames, "the row found by username belongs to someone else" means exactly "another user holds it" |
| Settings.ApplyProfile | server/src/userSetting/service/settings.service.ts:25-29 | each field given (empty strings included) is written and every other field, id, e-mail and hash kept |
| Settings.SetProfile | server/src/userSetting/service/settings.service.ts:32 | the update writes the fields on the user's row and changes no other row |
| Settings.UpdateProfileSettings | server/src/userSetting/service/settings.service.ts:16-39 | a non-empty username held by another user is refused with "This username already exists" and nothing written; the call succeeds exactly when no other row holds a given username; with no field given nothing is written and the message returned; otherwise exactly the given fields are written, and the fields are echoed when the write reports a result; usernames stay unique |
| Settings.SetProfileKeepsValid | server/src/userSetting/service/settings.service.ts:25-32 | writing profile fields with a username nobody else holds keeps ids, e-mails and usernames unique |
| Settings.OnlyEmptyUsernameReachesConstraint | server/src/userSetting/service/settings.service.ts:18-28 | the only username the check lets through to the table's unique constraint is the empty one |
| Settings.KeepingOwnUsername | server/src/userSetting/service/settings.service.ts:18-23 | a user may resubmit their own username |
| Settings.UpdateLanguage | server/src/userSetting/service/settings.service.ts:47-62 | without a language code nothing is returned; a failing write is NotFound("Language not found"); otherwise "Language updated successfully" |
| Settings.SetEmail | server/src/userSetting/repository/settings.repository.ts:21-28 | the update writes the e-mail on the user's row and changes no other row |
| Settings.SetEmailKeepsValid | server/src/userSetting/repository/settings.repository.ts:21-28 | writing an e-mail nobody else holds keeps e-mails unique |
| Settings.FirstEmailHolderIsOnly | server/src/userSetting/service/updateMail.service.ts:23-25 | with unique e-mails, "the row found by e-mail belongs to someone else" means exactly "another user holds it" |
| Settings.UpdateEmailSettings | server/src/userSetting/service/updateMail.service.ts:19-29 | a non-empty e-mail held by another user is refused with "Email already in use" and nothing written; otherwise it is written on the user's row (nothing is written without one) and echoed back |
| Settings.EmailCheckIsExact | server/src/userSetting/service/updateMail.service.ts:21-26 | the uniqueness check is exact, so the table's constraint never refuses an e-mail change |
| Settings.DeleteTokens | server/src/userSetting/repository/token.repository.ts:22-26 | the delete removes exactly the user's keys |
| Settings.VerifyUpdateMailAsWritten | server/src/userSetting/service/updateMail.service.ts:32-47 | as written, a key failing the JWT check is refused, and every key passing it is accepted |
| Settings.VerifyUpdateMail | server/src/userSetting/service/updateMail.service.ts:32-47 | with the lookup awaited and checked for a row, a key succeeds exactly when it passes the JWT check, is saved for that user, and the e-mail is free; the e-mail is then written and exactly that user's keys deleted, other users' keys kept; every failure is "Invalid or expired key" and changes nothing |
| Settings.UnsavedKeyAccepted | server/src/userSetting/service/updateMail.service.ts:37-43 | as written, a verified key that was never saved (or already used) still changes the e-mail; the corrected version refuses it |
| Settings.KeyUsedOnce | server/src/userSetting/service/updateMail.service.ts:42-43 | with the lookup awaited, a confirmation key works once |
| Settings.SettingsStore.constructor | server/src/userSetting/repository/settings.repository.ts:10-14 | the store holds the given rows and keys, and they are valid |
| Settings.SettingsStore.SaveProfileSettings | server/src/userSetting/service/settings.service.ts:16-39 | the store's reply and new rows are those of UpdateProfileSettings, and the rows stay valid |
| Settings.SettingsStore.SaveEmailSettings | server/src/userSetting/service/updateMail.service.ts:19-29 | the store's reply and new rows are those of UpdateEmailSettings, and the rows stay valid |
| Settings.SettingsStore.ConfirmMail | server/src/userSetting/service/updateMail.service.ts:32-47 | the store's reply, rows and keys are those of the corrected VerifyUpdateMail |
| Settings.SettingsStore.SavePassword | server/src/userSetting/service/updatePassword.service.ts:46-89 | the store's reply and new rows are those of the corrected UpdatePassword, and the rows stay valid |
| Profile.FindById | server/src/userprofile/repository/userComments.repository.ts:38-41 | null exactly when no row has the id, otherwise a row of the table with that id |
| Profile.AtLeastOne | server/src/userprofile/service/userProfile.service.ts:45-46 | the clamp gives at least 1 and leaves a value already at least 1 unchanged |
| Profile.GetUserList | server/src/userprofile/service/userProfile.service.ts:63-129 | a list is returned exactly when the user exists, the requester is the owner or the preference is not exactly false, and the fetch with clamped page and limit succeeds; it is then the fetched page; every failure, the 403 included, comes out as the list's own NotFound message |
| Profile.ListVisibility | server/src/userprofile/service/userProfile.service.ts:77-79 | the owner always sees their own list; anyone else is shut out only by an explicit false preference |
| Profile.GetProfilePublicInfo | server/src/userprofile/service/userProfile.service.ts:131-187 | a missing user or any failed count or average query is "Error fetching profile info"; otherwise the id is the one asked for, a missing preference reads as public, watched and watch-later stats are visible to the owner or when public, comment stats are always public and visible, the watch-later average is 0, and the username is the row's username, or "User" when it is missing or empty, and the avatar is the row's avatar, or null when it is missing or empty |
| Profile.GetUserProfileData | server/src/userprofile/service/userProfile.service.ts:29-31 | the method always throws |
| Profile.TopLevelOf | server/src/userprofile/repository/userComments.repository.ts:68-70 | the candidate rows are exactly the user's comments without a parent |
| Profile.NewerFirstIsPreorder | server/src/userprofile/repository/userComments.repository.ts:72 | the order newest first, then larger id, is total and transitive |
| Profile.Window | server/src/userprofile/repository/userComments.repository.ts:73-74 | the LIMIT/OFFSET window holds the rows from the offset on, at most count of them |
| Profile.MediaRowsFor | server/src/userprofile/repository/userComments.repository.ts:81-89 | every media row selected belongs to one of the page's comments |
| Profile.MediaPlaced | server/src/userprofile/repository/userComments.repository.ts:92-102 | each media row is pushed onto its own comment's list, at the place given by the earlier rows of that comment |
| Profile.NoRowsNoMedia | server/src/userprofile/repository/userComments.repository.ts:107 | a comment with no media rows gets the empty list |
| Profile.GroupMedia | server/src/userprofile/repository/userComments.repository.ts:92-102 | the map filled row by row has a key exactly for each comment with media, mapping to that comment's media in table order |
| Profile.CeilDiv | server/src/userprofile/repository/userComments.repository.ts:121 | the last page is the smallest number of pages of the given size that holds every comment |
| Profile.Ordered | server/src/userprofile/repository/userComments.repository.ts:52-72 | the ordered rows are a permutation of the user's top-level comments |
| Profile.Attach | server/src/userprofile/repository/userComments.repository.ts:104-108 | each shown comment is paired with its own group of media, in page order |
| Profile.GetUserCommentsByPage | server/src/userprofile/repository/userComments.repository.ts:43-124 | a negative offset is refused; otherwise the page holds the ordered comments from (page - 1) * limit on, at most max(1, limit) of them, all top-level comments of the user, and the metadata gives the total, the page, the clamped limit and the number of pages |
| Profile.PageIsNewestFirst | server/src/userprofile/repository/userComments.repository.ts:72 | the comments of a page are newest first, ties broken by the larger id |
| Profile.PageMedia | server/src/userprofile/repository/userComments.repository.ts:81-108 | the media of each comment on the page is exactly that comment's media rows in table order |
| Profile.MediaOfRestricted | server/src/userprofile/repository/userComments.repository.ts:81-89 | restricting the media table to the page's comments keeps each of their groups |
| Profile.MediaOfCons | server/src/userprofile/repository/userComments.repository.ts:93-101 | a media row only adds to its own comment's group |
| Profile.MediaOfPrefix | server/src/userprofile/repository/userComments.repository.ts:93-101 | the rows seen so far give a prefix of each comment's group |
| Profile.LastPageBound | server/src/userprofile/repository/userComments.repository.ts:48-121 | with page and limit at least 1, a page is at most the last page exactly when its offset is below the total |
| Profile.ServicePaging | server/src/userprofile/service/userProfile.service.ts:45-51 | through the service the repository never fails, the metadata's limit is the clamped one, and a page has comments exactly when it is at most the last page |
| Profile.GetUserComments | server/src/userprofile/service/userProfile.service.ts:38-59 | the service returns the repository's page for the clamped page and limit, and its only error is "Error fetching comments" |
| Profile.BuildCommentsPage | server/src/userprofile/repository/userComments.repository.ts:43-124 | the page assembled with the media map and the loops equals the page the specification describes |
| Profile.AttachGroups | server/src/userprofile/repository/userComments.repository.ts:104-108 | the loop pairing each comment with its map entry, or the empty list, gives the specified pairing |
| CommentUpload.AcceptUpload | server/src/comments/controller/create-comment.controller.ts:28-49 | a file passes exactly when its mimetype ends in one of the eight allowed subtypes and it is at most 10 MB; a wrong type is "Only image and video files are allowed!" and an oversized file a 413 |
| CommentUpload.CreateCommentRequest | server/src/comments/controller/create-comment.controller.ts:57-86 | no media with blank or missing text is "Content is required"; text longer than 2000 before trimming is refused; media with missing text throws; otherwise the service gets the movie, the user, the media and the trimmed text, or "_" for blank text with media |
| CommentUpload.PlaceholderTrimmed | server/src/comments/controller/create-comment.controller.ts:74-83 | the "_" placeholder survives the trim |
| CommentUpload.CreateComment | server/src/comments/controller/create-comment.controller.ts:26-86 | a file the interceptor refuses ends the request with its error before the handler; otherwise the handler's answer |
| CommentUpload.StoredContentNonBlank | server/src/comments/controller/create-comment.controller.ts:66-83 | an accepted comment always reaches the service with non-empty text that neither starts nor ends with whitespace and fits the limit |
| CommentUpload.LengthCountsPadding | server/src/comments/controller/create-comment.controller.ts:70-72 | the length limit counts the padding the trim later removes, so a short comment padded with 2000 spaces is refused |
| CommentPage.LikeComment | client/app/comment/page.tsx:471-485 | the comments with the id flip their like flag, gain or lose one like accordingly and keep everything else; other comments are untouched |
| CommentPage.LikeTwiceRestores | client/app/comment/page.tsx:471-485 | liking a comment twice restores the list |
| CommentPage.LikeKeepsConsistent | client/app/comment/page.tsx:471-485 | a like keeps each comment's count in agreement with its flag |
| CommentPage.LikeReply | client/app/comment/page.tsx:452-470 | inside the comments with the comment id, exactly the replies with the reply id flip their like; nothing else changes |
| CommentPage.FlipReplies | client/app/comment/page.tsx:456-466 | the replies with the reply id flip and the others are kept, in order |
| CommentPage.LikeReplyTwiceRestores | client/app/comment/page.tsx:452-470 | liking a reply twice restores the list, and a reply like keeps counts in agreement |
| CommentPage.AddReplyTo | client/app/comment/page.tsx:416-425 | the new reply goes in front of the matching comments' replies and their reply count grows by one; other fields and comments are kept |
| CommentPage.AddReplyKeepsConsistent | client/app/comment/page.tsx:416-425 | adding a consistent reply keeps every comment consistent |
| CommentPage.PostError | client/app/comment/page.tsx:324-338 | a post is refused exactly when its text is blank with no media or one of its files is not an image, and blank text without media gives "Please add text or an image" |
| CommentPage.Images | client/app/comment/page.tsx:493 | the kept files are exactly the image files of the selection |
| CommentPage.SelectImage | client/app/comment/page.tsx:489-511 | a selection is taken exactly when it holds one image, which is then the image kept; none is one error message and more than one the other |
| CommentPage.SelectionCounts | client/app/comment/page.tsx:495-503 | a selection without images is refused as such, and one with two images is refused |
| CommentPage.TwoImagesKept | client/app/comment/page.tsx:493-500 | two images in a selection both survive the filter |
| CommentPage.ToggleMember | client/app/comment/page.tsx:440-448 | the id enters the set if it was out and leaves it if it was in; other ids keep their membership |
| CommentPage.ToggleTwiceRestores | client/app/comment/page.tsx:440-448 | toggling twice restores the set |
| CommentPage.FormatDate | client/app/comment/page.tsx:523-540 | under a minute "Just now"; then whole minutes, hours and days with their suffixes, each in its range; past a week the calendar date, with the year only past 365 days |
| CommentPage.CommentSection.constructor | client/app/comment/page.tsx:244-260 | the section starts with the given comments and empty forms, no expanded replies, no error, more to load and nothing loading |
| CommentPage.CommentSection.Like | client/app/comment/page.tsx:450-487 | a reply like when it is a reply and a non-empty reply id is given, otherwise a comment like |
| CommentPage.CommentSection.ToggleReplies | client/app/comment/page.tsx:440-448 | the expanded set is toggled at the comment id |
| CommentPage.CommentSection.RemoveMedia | client/app/comment/page.tsx:514-521 | the chosen form's media is emptied, the other form's kept, and the error cleared |
| CommentPage.CommentSection.FileUpload | client/app/comment/page.tsx:489-512 | a refused selection only sets the error; an accepted one makes its image the chosen form's media and clears the error |
| CommentPage.CommentSection.AddComment | client/app/comment/page.tsx:323-374 | a refused post only sets the error; an accepted one puts the new comment first and clears the text, the media and the error |
| CommentPage.CommentSection.AddReply | client/app/comment/page.tsx:376-438 | a refused reply only sets the error; an accepted one goes first among the comment's replies, the reply form is cleared and the comment's replies are shown |
| CommentPage.CommentSection.LoadMore | client/app/comment/page.tsx:274-321 | nothing happens unless more are expected and none are loading; otherwise the batch is appended and no more are expected |
| CommentPage.NewCommentKeepsConsistent | client/app/comment/page.tsx:343-363 | a new comment starts unliked with no replies and keeps the list consistent |
| TimeLabels.FirstFit | client/components/profile/CommentCard.tsx:21-26 | a unit is reported only when it fits at least once |
| TimeLabels.TimeAgo | client/components/profile/CommentCard.tsx:9-29 | the label is "just now" exactly when the age is under a minute |
| TimeLabels.UnitIndex | client/components/profile/CommentCard.tsx:13-19 | the reference unit is the longest of the table not longer than the age |
| TimeLabels.FitsFromAMinute | client/components/profile/CommentCard.tsx:21-28 | some unit fits exactly when the age is a minute or more |
| TimeLabels.NothingFits | client/components/profile/CommentCard.tsx:21-28 | when every unit is longer than the age, the loop finds nothing |
| TimeLabels.TimeAgoUsesLongestUnit | client/components/profile/CommentCard.tsx:11-24 | from a minute on, the label names the longest unit that fits and the whole number of units, at least one, plural above one |
| TimeLabels.FirstFitFinds | client/components/profile/CommentCard.tsx:21-26 | the loop stops at the first unit that fits, with its count |
| TimeLabels.TwelveMonths | client/components/profile/CommentCard.tsx:13-24 | with 30-day months an age of 360 days reads "12 months ago" |
| TimeLabels.Pagination | client/components/profile/Pagination.tsx:3-35 | previous asks for max(1, current - 1) and is disabled on page 1; next asks for min(total, current + 1) and is disabled on the last page; one button per page, numbered from 1, the current one highlighted |
| TimeLabels.PaginationInRange | client/components/profile/Pagination.tsx:3-35 | on a page in range every enabled button leads to a page in range, previous and next move by one, and exactly the current page is highlighted |
| TimeLabels.NextThenPrevious | client/components/profile/Pagination.tsx:8-29 | next then previous returns to the page, below the last page |
| TimeLabels.EmptyListNext | client/components/profile/Pagination.tsx:14-30 | with no pages, next is still enabled on page 1 and asks for page 0 |
| Text.TrimEmptyIffBlank | server/src/comments/controller/create-comment.controller.ts:66 | JavaScript's trim gives the empty string exactly when the text is all whitespace, which is what the blank tests rely on |
| Text.TrimIdempotent | server/src/comments/controller/create-comment.controller.ts:83 | trimming an already trimmed text changes nothing |
| Text.TrimIsInnerSlice | server/src/comments/controller/create-comment.controller.ts:83 | trim keeps one contiguous piece of the text and removes only whitespace around it |
| Text.TrimEdges | server/src/movies/movies.controller.ts:41-46 | a non-blank text trims to a non-empty text with no whitespace at either end |
| Text.ParseIntJsPrefix | server/src/movies/movies.controller.ts:24-27 | parseInt reads a decimal numeral and stops at the first character that is not a digit |
| Text.ParseIntJsNonNumeric | server/src/movies/movies.controller.ts:24-27 | parseInt of a text that starts with neither a digit, a sign nor whitespace is NaN |
| Text.JoinSplit | server/src/auth/strategies/github.strategy.ts:46 | joining the pieces of a split with the same separator gives back the text |
| Text.SplitPartsAvoidSeparator | server/src/movies/movies.service.ts:211 | no piece of a split holds the separator |

## Left out

- Outbound HTTP to YTS, APIBay, OMDb and OpenSubtitles (`searchMoviesYTS`, `searchMoviesApiBay`, the login and user-info calls, retries, sleeps and rate limiting): each provider answer is an input, an `Option` standing for a failed request.
- The service methods the movies controller calls but the movies service does not define (`getLibraryMovies`, `searchMovies`, the four watched and watch-later methods): they are function parameters or, for the list methods, the call the controller makes.
- The second argument the movies controller passes to `getMovie`: the service ignores it, so the model does not carry it.
- The movies cache's 300-entry bound and its eviction: only the `all_movies` key is ever written, so the bound is kept as a constant and eviction is not modelled.
- Floating point: the rating `parseFloat`, the `getGlobalAverage` averages (given as `real` inputs), download progress, `down_kbps` and the readiness arithmetic of the processing thread.
- Concurrency and foreign processes: `TorrentSessionManager`, `process_video_thread`, `wait_for_header`, the thread-pool subtitle batch, `transcode_to_hls`, `get_video_duration` and every ffmpeg or ffprobe call. Directory listings and file contents are inputs.
- The playlist endpoint's own dispatch on `res` is modelled only through the two builders and the probe; the missing-record 404 comes from the database lookup, which is an input.
- `SubtitleViewSet.list` and the OpenSubtitles authentication: network calls with no local rule.
- Crypto and tokens: bcrypt hashing and comparison, `crypto.randomBytes`, JWT signing and verification, and `login`. Hashes and verdicts are uninterpreted function parameters; tokens are inputs.
- Time: `Date.now`, `new Date()` and `timezone.now()` are integer parameters. The calendar branch of `formatDate` (`toLocaleDateString`) is a function parameter that only receives whether the year is shown.
- E-mail sending (`email.service.ts`): the flows end with their reply message; the mail itself is not modelled.
- `users.service.ts` is not part of this model: its lookups are first-match searches over the user rows, and the effects of `verifyUserEmail` and `resetPassword` are read off their names (set the flag, set the hash and clear the token).
- The settings repository methods that `settings.repository.ts` does not define (`findByUsername`, `findByEmail`, `updateProfile`, `updateProfileAvatar`, `updateLanguage`): each is a first-match search or a write to the user's row, and `updateLanguage`'s failure is an input.
- `updateProfileAvatar`: a one-line delegation to a repository method that is not shown.
- The e-mail format check of the zod schemas is a predicate parameter: zod's own regular expression is library code.
- Database column limits, Drizzle SQL text, the `COALESCE(COUNT(...))` like counts and the joins with users and movies: rows are given already joined, with the fields the rules read.
- Byte encodings: strings are sequences of characters; JavaScript's `length` is counted in UTF-16 code units, and the byte-level size checks of the subtitle sniffing read a character as one byte.
- Rendering: JSX, the hls.js player, the comment page's menus, editing, spoilers, sorting selector and submission spinners, and the `async` delays of the demo page.
- `make_magnet_link` (the streaming service's utils module, which is not part of this model) is a function parameter of `start_stream`.
- Passwords.CurrentPasswordIgnored: the update service reads `old_password` while its DTO declares `current_password`. The model keeps the service's field name, and this lemma only shows what a body using the DTO's name receives. No corrected member is given, because which side is meant to change is not evident.
- Profile.GetProfilePublicInfo: the averages are passed through as given, because they are floating-point results of SQL aggregates.
- StreamRecords.DeleteMovieContent: `shutil.rmtree` is taken to be all-or-nothing; a removal that raises partway through, leaving part of the directory deleted, is modelled as changing nothing on disk.
- Profile.MediaRowsFor: a page past the end selects media with `inArray` over an empty id list, which the model takes to select nothing (an Ok empty page, as `Profile.ServicePaging` states); releases of drizzle-orm that throw on an empty list would answer NotFound "Error fetching comments" instead, and the drizzle version is not part of this model.
- Python regular expressions on `str`: `\d` matches every Unicode decimal digit, while `Hls.ParseSegmentName` and `Subtitles.SrtToVtt` read ASCII digits only; the subtitle labels use `str.upper`, modelled for ASCII letters only (`Text.ToUpperAscii`). Non-ASCII digits and letters are outside the model.
- The movies controller's class-level JWT guard also covers `getLibrary`, `searchMovies` and `getMovie`; only the list endpoints (`MoviesApi.ListEndpoint`) model the refusal of an unauthenticated request, and the other three are modelled for an authenticated one.

## Findings

| source | as written | input that shows it | evidently intended | confidence | as-written member | corrected member |
|---|---|---|---|---|---|---|
| torrent/torrent_service/stream/views.py:425-436 | `stream_ts` refuses only a missing `file` or one containing "..", then joins it under the movie directory and quotes the result; `os.path.join` restarts at an absolute component, `quote` keeps '/', and `res` is never checked | pk "7", file "/etc/passwd": the X-Accel-Redirect header is "/etc/passwd" | only plain segment names under the movie's resolution directory are served | high, not executed | Hls.StreamTsEscapes | Hls.StreamTsSafe |
| server/src/userSetting/repository/settings.repository.ts:16-19 | `findById` does not await the query, so `result[0]` is undefined and it always returns null | any valid password change request of an existing user: the answer is Unauthorized "User not found" | the user's row is found and the new hash stored | high, not executed | Passwords.AsWrittenNeverUpdates | Passwords.UpdateThenSignIn |
| server/src/userSetting/service/updateMail.service.ts:37-40 | the token lookup is not awaited, so the guard tests a Promise, which is always truthy; even awaited, an empty array is truthy | a key that passes the JWT check but was never saved, or was already used: the e-mail is still changed | a key is accepted only if it is stored for that user, and only once | high, not executed | Settings.UnsavedKeyAccepted | Settings.KeyUsedOnce |
