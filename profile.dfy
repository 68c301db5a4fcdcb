/**
 * The public profile: the service's clamps and visibility rules
 * (server/src/userprofile/service/userProfile.service.ts) and the comment
 * page with its media and paging metadata
 * (server/src/userprofile/repository/userComments.repository.ts). The
 * database is given as its rows, in the order the queries return them; the
 * watched and watch-later repositories are not part of this model and are
 * parameters.
 */
module Profile {
  import opened Wrappers
  import opened Text
  import opened Http
  import Sorting

  // ---------------------------------------------------------------- users

  /** The columns of a user row the profile reads. */
  datatype UserRow = UserRow(
    id: nat,
    username: Option<String>,
    avatarUrl: Option<String>,
    showWatchedPublic: Option<bool>,
    showWatchlistPublic: Option<bool>)

  /** findById: the first row with that id, or null. */
  function FindById(rows: seq<UserRow>, id: nat): (r: Option<UserRow>)
    ensures r.None? <==> forall k | 0 <= k < |rows| :: rows[k].id != id
    ensures r.Some? ==> r.value in rows && r.value.id == id
  {
    if rows == [] then None
    else if rows[0].id == id then Some(rows[0])
    else
      assert forall k | 1 <= k < |rows| :: rows[k] == rows[1..][k - 1];
      FindById(rows[1..], id)
  }

  // ---------------------------------------------------------------- the service

  /** `if (n < 1) n = 1` */
  function AtLeastOne(n: int): (r: int)
    ensures r >= 1
    ensures n >= 1 ==> r == n
  {
    if n < 1 then 1 else n
  }

  /** `Number(requesterId) === Number(userId)`: an absent requester is NaN and owns nothing. */
  predicate IsOwner(requesterId: Option<int>, userId: nat) {
    requesterId == Some(userId as int)
  }

  datatype ListKind = Watched | Watchlist

  function Preference(u: UserRow, k: ListKind): Option<bool> {
    match k
    case Watched => u.showWatchedPublic
    case Watchlist => u.showWatchlistPublic
  }

  function ListError(k: ListKind): String {
    match k
    case Watched => "Error fetching watched movies"
    case Watchlist => "Error fetching watch later movies"
  }

  /**
   * getUserWatchedMovies and getUserWatchLaterMovies: page and limit are
   * raised to 1; a missing user, and a list its owner keeps private (the
   * preference is exactly false) asked for by anyone else, are refused; every
   * failure, the fetch's included, is reported as the same NotFound. `fetch`
   * is the list repository, None when it throws.
   */
  function GetUserList<L>(users: seq<UserRow>, k: ListKind, userId: nat, page: int, limit: int,
                          requesterId: Option<int>, fetch: (nat, int, int) -> Option<L>): (r: Result<L, HttpError>)
    ensures r.Ok? <==> && FindById(users, userId).Some?
                       && (IsOwner(requesterId, userId) || Preference(FindById(users, userId).value, k) != Some(false))
                       && fetch(userId, AtLeastOne(page), AtLeastOne(limit)).Some?
    ensures r.Ok? ==> r.value == fetch(userId, AtLeastOne(page), AtLeastOne(limit)).value
    ensures r.Err? ==> r.error == NotFound(ListError(k))
  {
    var p := AtLeastOne(page);
    var l := AtLeastOne(limit);
    match FindById(users, userId)
    case None => Err(NotFound(ListError(k)))
    case Some(u) =>
      if !IsOwner(requesterId, userId) && Preference(u, k) == Some(false) then Err(NotFound(ListError(k)))
      else
        match fetch(userId, p, l)
        case None => Err(NotFound(ListError(k)))
        case Some(data) => Ok(data)
  }

  /** The owner sees their own lists whatever the preference; others are shut out only by an explicit false. */
  lemma ListVisibility<L>(users: seq<UserRow>, k: ListKind, userId: nat, page: int, limit: int,
                          requesterId: Option<int>, fetch: (nat, int, int) -> Option<L>)
    requires FindById(users, userId).Some? && fetch(userId, AtLeastOne(page), AtLeastOne(limit)).Some?
    ensures IsOwner(requesterId, userId) ==> GetUserList(users, k, userId, page, limit, requesterId, fetch).Ok?
    ensures !IsOwner(requesterId, userId) ==>
              (GetUserList(users, k, userId, page, limit, requesterId, fetch).Ok?
               <==> Preference(FindById(users, userId).value, k) != Some(false))
  {
  }

  datatype Stats = Stats(count: nat, platformAverage: real, isPublic: bool, visibleToViewer: bool)
  datatype Preferences = Preferences(showWatchedPublic: bool, showWatchlistPublic: bool)
  datatype UserResponse = UserResponse(
    id: nat,
    username: String,
    avatarUrl: Option<String>,
    watched: Stats,
    comments: Stats,
    watchlist: Stats,
    preferences: Preferences)

  /** `a || fallback` on a string column that may be null. */
  function OrString(s: Option<String>, fallback: String): String {
    if s.Some? && s.value != [] then s.value else fallback
  }

  /**
   * getProfilePublicInfo: the counts and averages as the repositories give
   * them, None standing for a query that failed; a missing preference counts
   * as public, and a list is visible to the owner or when public. Comment
   * stats are always public and visible, and the watch-later average is
   * always 0. A missing user and any failed query are reported alike as
   * 'Error fetching profile info'.
   */
  function GetProfilePublicInfo(users: seq<UserRow>, userId: nat, requesterId: Option<int>,
                                totalComments: Option<nat>, totalWatched: Option<nat>, totalWatchLater: Option<nat>,
                                avgComments: Option<real>, avgWatched: Option<real>): (r: Result<UserResponse, HttpError>)
    ensures r.Err? <==> || FindById(users, userId).None?
                        || totalComments.None? || totalWatched.None? || totalWatchLater.None?
                        || avgComments.None? || avgWatched.None?
    ensures r.Err? ==> r.error == NotFound("Error fetching profile info")
    ensures r.Ok? ==>
              var u := FindById(users, userId).value;
              var v := r.value;
              && v.id == userId
              && v.preferences.showWatchedPublic == (u.showWatchedPublic != Some(false))
              && v.preferences.showWatchlistPublic == (u.showWatchlistPublic != Some(false))
              && v.watched == Stats(totalWatched.value, avgWatched.value, v.preferences.showWatchedPublic,
                                    IsOwner(requesterId, userId) || v.preferences.showWatchedPublic)
              && v.watchlist == Stats(totalWatchLater.value, 0.0, v.preferences.showWatchlistPublic,
                                      IsOwner(requesterId, userId) || v.preferences.showWatchlistPublic)
              && v.comments == Stats(totalComments.value, avgComments.value, true, true)
              && (v.username == "User" <==> u.username.None? || u.username.value == [] || u.username.value == "User")
              && (v.avatarUrl.None? <==> u.avatarUrl.None? || u.avatarUrl.value == [])
              && v.username == (if u.username.Some? && u.username.value != [] then u.username.value else "User")
              && v.avatarUrl == (if u.avatarUrl.Some? && u.avatarUrl.value != [] then u.avatarUrl else None)
  {
    if || FindById(users, userId).None?
       || totalComments.None? || totalWatched.None? || totalWatchLater.None?
       || avgComments.None? || avgWatched.None?
    then Err(NotFound("Error fetching profile info"))
    else
      var u := FindById(users, userId).value;
      var owner := IsOwner(requesterId, userId);
      var watchedPublic := if u.showWatchedPublic.Some? then u.showWatchedPublic.value else true;
      var watchlistPublic := if u.showWatchlistPublic.Some? then u.showWatchlistPublic.value else true;
      Ok(UserResponse(
        userId,
        OrString(u.username, "User"),
        if u.avatarUrl.Some? && u.avatarUrl.value != [] then u.avatarUrl else None,
        Stats(totalWatched.value, avgWatched.value, watchedPublic, owner || watchedPublic),
        Stats(totalComments.value, avgComments.value, true, true),
        Stats(totalWatchLater.value, 0.0, watchlistPublic, owner || watchlistPublic),
        Preferences(watchedPublic, watchlistPublic)))
  }

  /** getUserProfileData is a stub that always throws. */
  function GetUserProfileData(userId: nat): (r: Result<UserResponse, HttpError>)
    ensures r.Err? && r.error.InternalServerError?
  {
    Err(InternalServerError("Method not implemented."))
  }

  // ---------------------------------------------------------------- the comment page

  /** A comment joined with its author's username, its like count and its movie. */
  datatype CommentRow = CommentRow(
    id: nat,
    userId: nat,
    parentId: Option<nat>,
    username: Option<String>,
    content: String,
    createdAt: int,
    likes: nat,
    movieId: nat,
    movieTitle: String)

  datatype MediaRow = MediaRow(commentId: nat, id: nat, kind: String, url: String)
  datatype MediaItem = MediaItem(id: nat, kind: String, url: String)

  function ItemOf(m: MediaRow): MediaItem {
    MediaItem(m.id, m.kind, m.url)
  }

  /** The user's top-level comments, in table order. */
  function TopLevelOf(rows: seq<CommentRow>, userId: nat): (r: seq<CommentRow>)
    ensures forall k | 0 <= k < |r| :: r[k] in rows && r[k].userId == userId && r[k].parentId.None?
    ensures forall k | 0 <= k < |rows| :: rows[k].userId == userId && rows[k].parentId.None? ==> rows[k] in r
  {
    if rows == [] then []
    else
      var rest := TopLevelOf(rows[1..], userId);
      assert forall k | 1 <= k < |rows| :: rows[k] == rows[1..][k - 1];
      if rows[0].userId == userId && rows[0].parentId.None? then [rows[0]] + rest else rest
  }

  /** `orderBy(desc(createdAt), desc(id))`: a comes no later than b. */
  predicate NewerFirst(a: CommentRow, b: CommentRow) {
    a.createdAt > b.createdAt || (a.createdAt == b.createdAt && a.id >= b.id)
  }

  lemma NewerFirstIsPreorder()
    ensures Sorting.TotalPreorder(NewerFirst)
  {
  }

  /** The window `LIMIT count OFFSET offset` of a result. */
  function Window<T>(s: seq<T>, offset: nat, count: nat): (r: seq<T>)
    ensures |r| == if offset >= |s| then 0 else if offset + count <= |s| then count else |s| - offset
    ensures forall k | 0 <= k < |r| :: r[k] == s[offset + k]
  {
    if offset >= |s| then [] else if offset + count <= |s| then s[offset..offset + count] else s[offset..]
  }

  /** The media rows whose comment is one of ids, in table order. */
  function MediaRowsFor(table: seq<MediaRow>, ids: set<nat>): (r: seq<MediaRow>)
    ensures forall k | 0 <= k < |r| :: r[k].commentId in ids
  {
    if table == [] then []
    else if table[0].commentId in ids then [table[0]] + MediaRowsFor(table[1..], ids)
    else MediaRowsFor(table[1..], ids)
  }

  /** The media of one comment, in the order of the rows: what the grouping puts under its id. */
  function MediaOf(rows: seq<MediaRow>, c: nat): seq<MediaItem>
    decreases |rows|
  {
    if rows == [] then []
    else
      var last := rows[|rows| - 1];
      MediaOf(rows[..|rows| - 1], c) + (if last.commentId == c then [ItemOf(last)] else [])
  }

  /** The comment ids that have at least one media row. */
  function CommentIdsOf(rows: seq<MediaRow>): set<nat> {
    set k | 0 <= k < |rows| :: rows[k].commentId
  }

  lemma {:induction false} MediaOfPrefix(rows: seq<MediaRow>, c: nat, n: nat)
    requires n <= |rows|
    ensures MediaOf(rows[..n], c) <= MediaOf(rows, c)
    decreases |rows| - n
  {
    if n < |rows| {
      MediaOfPrefix(rows, c, n + 1);
      assert rows[..n + 1][..n] == rows[..n];
    } else {
      assert rows[..n] == rows;
    }
  }

  /**
   * Every media row lands in its own comment's group exactly at the place
   * given by the rows before it with the same comment: groups keep the rows' order.
   */
  lemma MediaPlaced(rows: seq<MediaRow>, j: nat)
    requires j < |rows|
    ensures var c := rows[j].commentId;
            && |MediaOf(rows[..j], c)| < |MediaOf(rows, c)|
            && MediaOf(rows, c)[|MediaOf(rows[..j], c)|] == ItemOf(rows[j])
  {
    var c := rows[j].commentId;
    assert rows[..j + 1][..j] == rows[..j];
    assert MediaOf(rows[..j + 1], c) == MediaOf(rows[..j], c) + [ItemOf(rows[j])];
    MediaOfPrefix(rows, c, j + 1);
  }

  /** A comment without media rows has an empty group. */
  lemma {:induction false} NoRowsNoMedia(rows: seq<MediaRow>, c: nat)
    requires c !in CommentIdsOf(rows)
    ensures MediaOf(rows, c) == []
    decreases |rows|
  {
    if rows != [] {
      var init := rows[..|rows| - 1];
      assert CommentIdsOf(init) <= CommentIdsOf(rows) by {
        forall x | x in CommentIdsOf(init) ensures x in CommentIdsOf(rows) {
          var k :| 0 <= k < |init| && init[k].commentId == x;
          assert rows[k].commentId == x;
        }
      }
      NoRowsNoMedia(init, c);
    }
  }

  /**
   * The `mediaMap` of getUserCommentsByPage, filled row by row: a list is
   * created the first time a comment id is seen and each row is pushed onto
   * its comment's list.
   */
  method GroupMedia(rows: seq<MediaRow>) returns (groups: map<nat, seq<MediaItem>>)
    ensures forall c :: c in groups <==> c in CommentIdsOf(rows)
    ensures forall c | c in groups :: groups[c] == MediaOf(rows, c)
  {
    groups := map[];
    var i := 0;
    while i < |rows|
      invariant 0 <= i <= |rows|
      invariant forall c :: c in groups <==> c in CommentIdsOf(rows[..i])
      invariant forall c | c in groups :: groups[c] == MediaOf(rows[..i], c)
    {
      var m := rows[i];
      assert rows[..i + 1][..i] == rows[..i];
      assert CommentIdsOf(rows[..i + 1]) == CommentIdsOf(rows[..i]) + {m.commentId} by {
        forall x | x in CommentIdsOf(rows[..i + 1]) ensures x in CommentIdsOf(rows[..i]) + {m.commentId} {
          var k :| 0 <= k < i + 1 && rows[..i + 1][k].commentId == x;
          if k < i { assert rows[..i][k].commentId == x; }
        }
        forall x | x in CommentIdsOf(rows[..i]) ensures x in CommentIdsOf(rows[..i + 1]) {
          var k :| 0 <= k < i && rows[..i][k].commentId == x;
          assert rows[..i + 1][k].commentId == x;
        }
        assert rows[..i + 1][i].commentId == m.commentId;
      }
      if m.commentId !in groups {
        NoRowsNoMedia(rows[..i], m.commentId);
        groups := groups[m.commentId := []];
      }
      groups := groups[m.commentId := groups[m.commentId] + [ItemOf(m)]];
      i := i + 1;
    }
    assert rows[..i] == rows;
  }

  datatype CommentWithMedia = CommentWithMedia(comment: CommentRow, media: seq<MediaItem>)
  datatype Meta = Meta(total: nat, page: int, limit: int, lastPage: int)
  datatype CommentsPage = CommentsPage(data: seq<CommentWithMedia>, meta: Meta)

  /** `Math.ceil(count / limit)` for a positive limit. */
  function CeilDiv(count: nat, limit: nat): (r: nat)
    requires limit >= 1
    ensures (r - 1) * limit < count <= r * limit || (count == 0 && r == 0)
  {
    (count + limit - 1) / limit
  }

  function IdsOf(s: seq<CommentRow>): set<nat> {
    set k | 0 <= k < |s| :: s[k].id
  }

  /** The user's top-level comments in `orderBy(desc(createdAt), desc(id))` order. */
  function Ordered(comments: seq<CommentRow>, userId: nat): (r: seq<CommentRow>)
    ensures multiset(r) == multiset(TopLevelOf(comments, userId))
    ensures |r| == |TopLevelOf(comments, userId)|
    ensures forall k | 0 <= k < |r| :: r[k].userId == userId && r[k].parentId.None?
  {
    var all := TopLevelOf(comments, userId);
    var r := Sorting.SortBy(all, NewerFirst);
    assert forall k | 0 <= k < |r| :: r[k] in multiset(all);
    r
  }

  /** `(page - 1) * limit` */
  function Offset(page: int, limit: int): int {
    (page - 1) * limit
  }

  /** Each shown comment with the media grouped under its id, or []. */
  function Attach(shown: seq<CommentRow>, rows: seq<MediaRow>): (data: seq<CommentWithMedia>)
    ensures |data| == |shown|
    ensures forall k | 0 <= k < |data| :: data[k] == CommentWithMedia(shown[k], MediaOf(rows, shown[k].id))
  {
    seq(|shown|, k requires 0 <= k < |shown| => CommentWithMedia(shown[k], MediaOf(rows, shown[k].id)))
  }

  /**
   * getUserCommentsByPage: the user's top-level comments, newest first (ties
   * by the larger id), the window starting at (page - 1) * limit with the raw
   * limit and holding max(1, limit) rows, each with its media. PostgreSQL
   * refuses a negative OFFSET.
   */
  function GetUserCommentsByPage(comments: seq<CommentRow>, media: seq<MediaRow>, userId: nat, page: int, limit: int)
    : (r: Result<CommentsPage, String>)
    ensures r.Err? <==> Offset(page, limit) < 0
    ensures r.Ok? ==>
              var cleanLimit := if limit < 1 then 1 else limit;
              var ordered := Ordered(comments, userId);
              var data := r.value.data;
              && |data| == |Window(ordered, Offset(page, limit), cleanLimit)|
              && |data| <= cleanLimit
              && (forall k | 0 <= k < |data| :: data[k].comment == ordered[Offset(page, limit) + k])
              && (forall k | 0 <= k < |data| :: data[k].comment.userId == userId && data[k].comment.parentId.None?)
              && r.value.meta == Meta(|TopLevelOf(comments, userId)|, page, cleanLimit,
                                      CeilDiv(|TopLevelOf(comments, userId)|, cleanLimit))
  {
    var offset := Offset(page, limit);
    var cleanLimit := if limit < 1 then 1 else limit;
    if offset < 0 then Err("OFFSET must not be negative")
    else
      var all := TopLevelOf(comments, userId);
      var shown := Window(Ordered(comments, userId), offset, cleanLimit);
      var rows := MediaRowsFor(media, IdsOf(shown));
      Ok(CommentsPage(Attach(shown, rows), Meta(|all|, page, cleanLimit, CeilDiv(|all|, cleanLimit))))
  }

  /** The page's comments are newest first. */
  lemma PageIsNewestFirst(comments: seq<CommentRow>, media: seq<MediaRow>, userId: nat, page: int, limit: int)
    requires GetUserCommentsByPage(comments, media, userId, page, limit).Ok?
    ensures var data := GetUserCommentsByPage(comments, media, userId, page, limit).value.data;
            forall i, j | 0 <= i < j < |data| :: NewerFirst(data[i].comment, data[j].comment)
  {
    NewerFirstIsPreorder();
    Sorting.SortBySorted(TopLevelOf(comments, userId), NewerFirst);
    var data := GetUserCommentsByPage(comments, media, userId, page, limit).value.data;
    var ordered := Ordered(comments, userId);
    forall i, j | 0 <= i < j < |data| ensures NewerFirst(data[i].comment, data[j].comment) {
      assert data[i].comment == ordered[Offset(page, limit) + i];
      assert data[j].comment == ordered[Offset(page, limit) + j];
    }
  }

  /**
   * The media of each comment on the page is its group: the media rows of
   * that comment, in table order, or [] when it has none.
   */
  lemma PageMedia(comments: seq<CommentRow>, media: seq<MediaRow>, userId: nat, page: int, limit: int, k: nat)
    requires GetUserCommentsByPage(comments, media, userId, page, limit).Ok?
    requires k < |GetUserCommentsByPage(comments, media, userId, page, limit).value.data|
    ensures var d := GetUserCommentsByPage(comments, media, userId, page, limit).value.data[k];
            d.media == MediaOf(MediaRowsFor(media, {d.comment.id}), d.comment.id)
  {
    var d := GetUserCommentsByPage(comments, media, userId, page, limit).value.data[k];
    var cleanLimit := if limit < 1 then 1 else limit;
    var shown := Window(Ordered(comments, userId), Offset(page, limit), cleanLimit);
    assert d.comment == shown[k];
    MediaOfRestricted(media, IdsOf(shown), d.comment.id);
  }

  /** Restricting the table to a set of comments keeps the group of any comment in the set. */
  lemma {:induction false} MediaOfRestricted(table: seq<MediaRow>, ids: set<nat>, c: nat)
    requires c in ids
    ensures MediaOf(MediaRowsFor(table, ids), c) == MediaOf(MediaRowsFor(table, {c}), c)
    decreases |table|
  {
    if table != [] {
      MediaOfRestricted(table[1..], ids, c);
      var a := MediaRowsFor(table[1..], ids);
      var b := MediaRowsFor(table[1..], {c});
      MediaOfCons(table[0], a, c);
      MediaOfCons(table[0], b, c);
    }
  }

  /** Putting a row in front adds its item in front of its own comment's group only. */
  lemma {:induction false} MediaOfCons(m: MediaRow, rows: seq<MediaRow>, c: nat)
    ensures MediaOf([m] + rows, c) == (if m.commentId == c then [ItemOf(m)] else []) + MediaOf(rows, c)
    decreases |rows|
  {
    if rows != [] {
      var s := [m] + rows;
      assert s[..|s| - 1] == [m] + rows[..|rows| - 1];
      MediaOfCons(m, rows[..|rows| - 1], c);
    } else {
      assert ([m] + rows)[..0] == [];
    }
  }

  lemma MulMono(a: int, b: int, l: nat)
    requires a <= b
    ensures a * l <= b * l
  {
  }

  /** With page and limit at least 1, page is at most the last page exactly when its offset is below the total. */
  lemma LastPageBound(total: nat, page: int, limit: int)
    requires page >= 1 && limit >= 1
    ensures page <= CeilDiv(total, limit) <==> Offset(page, limit) < total
  {
    var last := CeilDiv(total, limit);
    if page <= last {
      MulMono(page - 1, last - 1, limit);
    } else {
      MulMono(last, page - 1, limit);
    }
  }

  /**
   * Through the service, page and limit are at least 1: the repository never
   * fails, the limit in the metadata is the one asked for, and the pages
   * 1..lastPage are exactly the non-empty ones.
   */
  lemma ServicePaging(comments: seq<CommentRow>, media: seq<MediaRow>, userId: nat, page: int, limit: int)
    ensures var r := GetUserCommentsByPage(comments, media, userId, AtLeastOne(page), AtLeastOne(limit));
            && r.Ok?
            && r.value.meta.limit == AtLeastOne(limit)
            && (|r.value.data| > 0 <==> AtLeastOne(page) <= r.value.meta.lastPage)
  {
    var p := AtLeastOne(page);
    var l := AtLeastOne(limit);
    MulMono(0, p - 1, l);
    LastPageBound(|TopLevelOf(comments, userId)|, p, l);
  }

  /** getUserComments: clamps, then the repository; a repository failure becomes NotFound. */
  function GetUserComments(comments: seq<CommentRow>, media: seq<MediaRow>, userId: nat, page: int, limit: int)
    : (r: Result<CommentsPage, HttpError>)
    ensures r.Err? ==> r.error == NotFound("Error fetching comments")
    ensures GetUserCommentsByPage(comments, media, userId, AtLeastOne(page), AtLeastOne(limit)).Ok? ==>
              r == Ok(GetUserCommentsByPage(comments, media, userId, AtLeastOne(page), AtLeastOne(limit)).value)
  {
    match GetUserCommentsByPage(comments, media, userId, AtLeastOne(page), AtLeastOne(limit))
    case Ok(data) => Ok(data)
    case Err(_) => Err(NotFound("Error fetching comments"))
  }

  /**
   * The page assembly as the repository writes it: the media map filled
   * row by row, then each comment given its list, or [] when it has none.
   */
  method BuildCommentsPage(comments: seq<CommentRow>, media: seq<MediaRow>, userId: nat, page: int, limit: int)
    returns (r: Result<CommentsPage, String>)
    ensures r == GetUserCommentsByPage(comments, media, userId, page, limit)
  {
    var offset := Offset(page, limit);
    var cleanLimit := if limit < 1 then 1 else limit;
    if offset < 0 {
      return Err("OFFSET must not be negative");
    }
    var all := TopLevelOf(comments, userId);
    var shown := Window(Ordered(comments, userId), offset, cleanLimit);
    var rows := MediaRowsFor(media, IdsOf(shown));
    var groups := GroupMedia(rows);
    var data := AttachGroups(shown, rows, groups);
    r := Ok(CommentsPage(data, Meta(|all|, page, cleanLimit, CeilDiv(|all|, cleanLimit))));
  }

  /** The loop that pairs each shown comment with its group of media, or none. */
  method AttachGroups(shown: seq<CommentRow>, rows: seq<MediaRow>, groups: map<nat, seq<MediaItem>>)
    returns (data: seq<CommentWithMedia>)
    requires forall c :: c in groups <==> c in CommentIdsOf(rows)
    requires forall c | c in groups :: groups[c] == MediaOf(rows, c)
    ensures data == Attach(shown, rows)
  {
    data := [];
    var i := 0;
    while i < |shown|
      invariant 0 <= i <= |shown|
      invariant |data| == i
      invariant forall k | 0 <= k < i :: data[k] == CommentWithMedia(shown[k], MediaOf(rows, shown[k].id))
    {
      var c := shown[i];
      var items: seq<MediaItem> := [];
      if c.id in groups {
        items := groups[c.id];
      } else {
        NoRowsNoMedia(rows, c.id);
      }
      assert items == MediaOf(rows, c.id);
      ghost var before := data;
      data := data + [CommentWithMedia(c, items)];
      assert forall k | 0 <= k < i :: data[k] == before[k];
      i := i + 1;
    }
  }
}
