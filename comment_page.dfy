/**
 * The demo comment section (client/app/comment/page.tsx). The list updates
 * passed to setComments are pure maps over the comment list; the component's
 * state cells are the fields of CommentSection, which the handlers update.
 * Ids, timestamps and object URLs, which the page makes from the clock, are
 * parameters; the simulated network delays are left out, so a handler runs
 * to completion before the next one starts.
 */
module CommentPage {
  import opened Wrappers
  import opened Text

  datatype Media = Media(id: String, url: String)

  datatype Reply = Reply(
    id: String,
    userId: String,
    username: String,
    content: String,
    likes: int,
    isLiked: bool,
    media: seq<Media>,
    createdAt: String)

  datatype Comment = Comment(
    id: String,
    userId: String,
    username: String,
    content: String,
    likes: int,
    isLiked: bool,
    replies: seq<Reply>,
    replyCount: int,
    media: seq<Media>,
    createdAt: String)

  /** A selected file, by its MIME type. */
  datatype File = File(name: String, mimetype: String)

  /** The signed-in user of the demo. */
  const CurrentUserId: String := "user-1"
  const CurrentUsername: String := "JohnDoe"

  const TextOrImage: String := "Please add text or an image"
  const OnlyImagesForComments: String := "Only image files are allowed"
  const OnlyImagesForReplies: String := "Only image files are allowed for replies"
  const NoImageSelected: String := "Only image files (JPEG, PNG, GIF, WebP) are allowed"
  const OneImageOnly: String := "Only one image allowed per comment/reply"

  // ---------------------------------------------------------------- likes

  /** A like count that agrees with its flag: never negative, and at least 1 when liked by the viewer. */
  predicate LikesAgree(likes: int, isLiked: bool) {
    likes >= 0 && (isLiked ==> likes >= 1)
  }

  predicate ConsistentReply(r: Reply) { LikesAgree(r.likes, r.isLiked) }

  predicate Consistent(c: Comment) {
    && LikesAgree(c.likes, c.isLiked)
    && c.replyCount >= |c.replies|
    && forall k | 0 <= k < |c.replies| :: ConsistentReply(c.replies[k])
  }

  predicate AllConsistent(cs: seq<Comment>) {
    forall k | 0 <= k < |cs| :: Consistent(cs[k])
  }

  function FlipComment(c: Comment): Comment {
    c.(likes := if c.isLiked then c.likes - 1 else c.likes + 1, isLiked := !c.isLiked)
  }

  function FlipReply(r: Reply): Reply {
    r.(likes := if r.isLiked then r.likes - 1 else r.likes + 1, isLiked := !r.isLiked)
  }

  /** handleLike on a comment: the comments with that id flip their like; every other comment is kept. */
  function LikeComment(cs: seq<Comment>, id: String): (r: seq<Comment>)
    ensures |r| == |cs|
    ensures forall k | 0 <= k < |cs| && cs[k].id != id :: r[k] == cs[k]
    ensures forall k | 0 <= k < |cs| && cs[k].id == id ::
              && r[k].isLiked == !cs[k].isLiked
              && r[k].likes == (if cs[k].isLiked then cs[k].likes - 1 else cs[k].likes + 1)
              && r[k].(likes := cs[k].likes, isLiked := cs[k].isLiked) == cs[k]
  {
    seq(|cs|, k requires 0 <= k < |cs| => if cs[k].id == id then FlipComment(cs[k]) else cs[k])
  }

  /** Liking twice gives back the list as it was. */
  lemma LikeTwiceRestores(cs: seq<Comment>, id: String)
    ensures LikeComment(LikeComment(cs, id), id) == cs
  {
    var once := LikeComment(cs, id);
    var twice := LikeComment(once, id);
    forall k | 0 <= k < |cs| ensures twice[k] == cs[k] {
      assert once[k].id == cs[k].id;
    }
  }

  /** A like keeps every count in agreement with its flag. */
  lemma LikeKeepsConsistent(cs: seq<Comment>, id: String)
    requires AllConsistent(cs)
    ensures AllConsistent(LikeComment(cs, id))
  {
    var r := LikeComment(cs, id);
    forall k | 0 <= k < |r| ensures Consistent(r[k]) {
      assert r[k].replies == cs[k].replies && r[k].replyCount == cs[k].replyCount;
    }
  }

  /** handleLike on a reply: within the comments with commentId, the replies with replyId flip their like. */
  function LikeReply(cs: seq<Comment>, commentId: String, replyId: String): (r: seq<Comment>)
    ensures |r| == |cs|
    ensures forall k | 0 <= k < |cs| && cs[k].id != commentId :: r[k] == cs[k]
    ensures forall k | 0 <= k < |cs| && cs[k].id == commentId ::
              && r[k] == cs[k].(replies := r[k].replies)
              && |r[k].replies| == |cs[k].replies|
              && forall j | 0 <= j < |cs[k].replies| ::
                   r[k].replies[j] == if cs[k].replies[j].id == replyId then FlipReply(cs[k].replies[j])
                                      else cs[k].replies[j]
  {
    seq(|cs|, k requires 0 <= k < |cs| =>
      if cs[k].id == commentId then cs[k].(replies := FlipReplies(cs[k].replies, replyId)) else cs[k])
  }

  function FlipReplies(rs: seq<Reply>, replyId: String): (r: seq<Reply>)
    ensures |r| == |rs|
    ensures forall j | 0 <= j < |rs| :: r[j] == if rs[j].id == replyId then FlipReply(rs[j]) else rs[j]
  {
    seq(|rs|, j requires 0 <= j < |rs| => if rs[j].id == replyId then FlipReply(rs[j]) else rs[j])
  }

  /** Liking a reply twice gives back the list as it was, and keeps counts in agreement. */
  lemma LikeReplyTwiceRestores(cs: seq<Comment>, commentId: String, replyId: String)
    ensures LikeReply(LikeReply(cs, commentId, replyId), commentId, replyId) == cs
    ensures AllConsistent(cs) ==> AllConsistent(LikeReply(cs, commentId, replyId))
  {
    var once := LikeReply(cs, commentId, replyId);
    var twice := LikeReply(once, commentId, replyId);
    forall k | 0 <= k < |cs| ensures twice[k] == cs[k] {
      if cs[k].id == commentId {
        var a := cs[k].replies;
        var b := once[k].replies;
        assert forall j | 0 <= j < |a| :: b[j].id == a[j].id;
        assert twice[k].replies == a;
      }
    }
  }

  // ---------------------------------------------------------------- replies and comments

  /** handleAddReply's update: the reply goes in front of the matching comments' replies, and their count grows by one. */
  function AddReplyTo(cs: seq<Comment>, commentId: String, reply: Reply): (r: seq<Comment>)
    ensures |r| == |cs|
    ensures forall k | 0 <= k < |cs| && cs[k].id != commentId :: r[k] == cs[k]
    ensures forall k | 0 <= k < |cs| && cs[k].id == commentId ::
              && r[k].replies == [reply] + cs[k].replies
              && r[k].replyCount == cs[k].replyCount + 1
              && r[k].(replies := cs[k].replies, replyCount := cs[k].replyCount) == cs[k]
  {
    seq(|cs|, k requires 0 <= k < |cs| =>
      if cs[k].id == commentId
      then cs[k].(replies := [reply] + cs[k].replies, replyCount := cs[k].replyCount + 1)
      else cs[k])
  }

  /** A reply with agreeing likes keeps every comment consistent: the count still covers the loaded replies. */
  lemma AddReplyKeepsConsistent(cs: seq<Comment>, commentId: String, reply: Reply)
    requires AllConsistent(cs) && ConsistentReply(reply)
    ensures AllConsistent(AddReplyTo(cs, commentId, reply))
  {
    var r := AddReplyTo(cs, commentId, reply);
    forall k | 0 <= k < |r| ensures Consistent(r[k]) {
      if cs[k].id == commentId {
        assert forall j | 1 <= j < |r[k].replies| :: r[k].replies[j] == cs[k].replies[j - 1];
      }
    }
  }

  function NewComment(id: String, text: String, media: seq<File>, mediaId: String, url: String, now: String): Comment {
    Comment(id, CurrentUserId, CurrentUsername, text, 0, false, [], 0,
            if |media| > 0 then [Media(mediaId, url)] else [], now)
  }

  function NewReply(id: String, text: String, media: seq<File>, mediaId: String, url: String, now: String): Reply {
    Reply(id, CurrentUserId, CurrentUsername, text, 0, false,
          if |media| > 0 then [Media(mediaId, url)] else [], now)
  }

  predicate IsImage(f: File) { StartsWith(f.mimetype, "image/") }

  /**
   * Why a post is refused: blank text without media, then any file that is
   * not an image. The messages of the reply form differ only in the second one.
   */
  function PostError(text: String, media: seq<File>, isReply: bool): (r: Option<String>)
    ensures r.None? <==> (!IsBlank(text, JsWhitespace) || |media| > 0) && forall k | 0 <= k < |media| :: IsImage(media[k])
    ensures IsBlank(text, JsWhitespace) && |media| == 0 ==> r == Some(TextOrImage)
  {
    if IsBlank(text, JsWhitespace) && |media| == 0 then Some(TextOrImage)
    else if exists k | 0 <= k < |media| :: !IsImage(media[k]) then
      Some(if isReply then OnlyImagesForReplies else OnlyImagesForComments)
    else None
  }

  /** The kept images of a selection, in order. */
  function Images(files: seq<File>): (r: seq<File>)
    ensures forall k | 0 <= k < |r| :: IsImage(r[k]) && r[k] in files
    ensures forall k | 0 <= k < |files| && IsImage(files[k]) :: files[k] in r
    ensures |r| <= |files|
  {
    if files == [] then []
    else
      assert forall k | 1 <= k < |files| :: files[k] == files[1..][k - 1];
      (if IsImage(files[0]) then [files[0]] else []) + Images(files[1..])
  }

  /** handleFileUpload's choice: exactly one image among the files is kept, otherwise an error. */
  function SelectImage(files: seq<File>): (r: Result<File, String>)
    ensures r.Ok? <==> |Images(files)| == 1
    ensures r.Ok? ==> IsImage(r.value) && r.value in files
    ensures |Images(files)| == 0 <==> r == Err(NoImageSelected)
    ensures |Images(files)| > 1 <==> r == Err(OneImageOnly)
  {
    var valid := Images(files);
    if |valid| == 0 then Err(NoImageSelected)
    else if |valid| > 1 then Err(OneImageOnly)
    else Ok(valid[0])
  }

  /** A selection with no image is refused, so is one with two. */
  lemma SelectionCounts(files: seq<File>)
    ensures (forall k | 0 <= k < |files| :: !IsImage(files[k])) ==> SelectImage(files) == Err(NoImageSelected)
    ensures (exists i, j | 0 <= i < j < |files| :: IsImage(files[i]) && IsImage(files[j]))
              ==> SelectImage(files).Err?
  {
    if Images(files) != [] {
      var x := Images(files)[0];
      assert IsImage(x) && x in files;
    }
    if exists i, j | 0 <= i < j < |files| :: IsImage(files[i]) && IsImage(files[j]) {
      var i, j :| 0 <= i < j < |files| && IsImage(files[i]) && IsImage(files[j]);
      TwoImagesKept(files, i, j);
    }
  }

  lemma {:induction false} TwoImagesKept(files: seq<File>, i: nat, j: nat)
    requires i < j < |files| && IsImage(files[i]) && IsImage(files[j])
    ensures |Images(files)| >= 2
    decreases |files|
  {
    assert files[j] == files[1..][j - 1];
    if i == 0 {
      assert files[j] in Images(files[1..]);
    } else {
      assert files[i] == files[1..][i - 1];
      TwoImagesKept(files[1..], i - 1, j - 1);
    }
  }

  // ---------------------------------------------------------------- the expanded set

  /** handleToggleReplies: the id enters the set if it was out and leaves it if it was in. */
  function ToggleMember(s: set<String>, id: String): (r: set<String>)
    ensures id in r <==> id !in s
    ensures forall x | x != id :: x in r <==> x in s
  {
    if id in s then s - {id} else s + {id}
  }

  lemma ToggleTwiceRestores(s: set<String>, id: String)
    ensures ToggleMember(ToggleMember(s, id), id) == s
  {
    var t := ToggleMember(ToggleMember(s, id), id);
    assert forall x :: x in t <==> x in s;
  }

  // ---------------------------------------------------------------- dates

  const MinuteMs: int := 60000
  const HourMs: int := 3600000
  const DayMs: int := 86400000

  /**
   * formatDate from the milliseconds elapsed: whole minutes, hours and days
   * rounded down, the first bucket that fits, and past a week the locale
   * date (with the year only past 365 days), which `calendar` formats.
   */
  function FormatDate(elapsedMs: int, calendar: bool -> String): (r: String)
    ensures elapsedMs < MinuteMs ==> r == "Just now"
    ensures MinuteMs <= elapsedMs < HourMs ==>
              1 <= elapsedMs / MinuteMs < 60 && r == NatToString(elapsedMs / MinuteMs) + "m ago"
    ensures HourMs <= elapsedMs < DayMs ==>
              1 <= elapsedMs / HourMs < 24 && r == NatToString(elapsedMs / HourMs) + "h ago"
    ensures DayMs <= elapsedMs < 7 * DayMs ==>
              1 <= elapsedMs / DayMs < 7 && r == NatToString(elapsedMs / DayMs) + "d ago"
    ensures 7 * DayMs <= elapsedMs ==> r == calendar(elapsedMs / DayMs > 365)
  {
    var mins := elapsedMs / MinuteMs;
    var hours := elapsedMs / HourMs;
    var days := elapsedMs / DayMs;
    if mins < 1 then "Just now"
    else if mins < 60 then NatToString(mins) + "m ago"
    else if hours < 24 then NatToString(hours) + "h ago"
    else if days < 7 then NatToString(days) + "d ago"
    else calendar(days > 365)
  }

  // ---------------------------------------------------------------- the component state

  class CommentSection {
    var comments: seq<Comment>
    var expandedReplies: set<String>
    var newComment: String
    var replyContent: String
    var commentMedia: seq<File>
    var replyMedia: seq<File>
    var replyingTo: Option<String>
    var uploadError: String
    var hasMore: bool
    var isLoading: bool

    constructor(initial: seq<Comment>)
      ensures comments == initial && expandedReplies == {}
      ensures newComment == [] && replyContent == [] && commentMedia == [] && replyMedia == []
      ensures replyingTo.None? && uploadError == [] && hasMore && !isLoading
    {
      comments := initial;
      expandedReplies := {};
      newComment := [];
      replyContent := [];
      commentMedia := [];
      replyMedia := [];
      replyingTo := None;
      uploadError := [];
      hasMore := true;
      isLoading := false;
    }

    /** handleLike: a reply's like when it is a reply and a reply id is given, else the comment's. */
    method Like(commentId: String, isReply: bool, replyId: Option<String>)
      modifies this`comments
      ensures isReply && replyId.Some? && replyId.value != [] ==>
                comments == LikeReply(old(comments), commentId, replyId.value)
      ensures !(isReply && replyId.Some? && replyId.value != []) ==> comments == LikeComment(old(comments), commentId)
    {
      if isReply && replyId.Some? && replyId.value != [] {
        comments := LikeReply(comments, commentId, replyId.value);
      } else {
        comments := LikeComment(comments, commentId);
      }
    }

    method ToggleReplies(commentId: String)
      modifies this`expandedReplies
      ensures expandedReplies == ToggleMember(old(expandedReplies), commentId)
    {
      var expanded := expandedReplies;
      if commentId in expanded {
        expanded := expanded - {commentId};
      } else {
        expanded := expanded + {commentId};
      }
      expandedReplies := expanded;
    }

    /** removeMedia: empties the media of the chosen form and clears the error; the other form keeps its media. */
    method RemoveMedia(isReply: bool)
      modifies this`commentMedia, this`replyMedia, this`uploadError
      ensures isReply ==> replyMedia == [] && commentMedia == old(commentMedia)
      ensures !isReply ==> commentMedia == [] && replyMedia == old(replyMedia)
      ensures uploadError == []
    {
      if isReply {
        replyMedia := [];
      } else {
        commentMedia := [];
      }
      uploadError := [];
    }

    /** handleFileUpload: one image replaces the form's media and clears the error; anything else only sets the error. */
    method FileUpload(files: seq<File>, isReply: bool)
      modifies this`uploadError, this`commentMedia, this`replyMedia
      ensures SelectImage(files).Err? ==>
                && uploadError == SelectImage(files).error
                && commentMedia == old(commentMedia) && replyMedia == old(replyMedia)
      ensures SelectImage(files).Ok? ==>
                && uploadError == []
                && (isReply ==> replyMedia == [SelectImage(files).value] && commentMedia == old(commentMedia))
                && (!isReply ==> commentMedia == [SelectImage(files).value] && replyMedia == old(replyMedia))
    {
      var valid := Images(files);
      if |valid| == 0 {
        uploadError := NoImageSelected;
        return;
      }
      if |valid| > 1 {
        uploadError := OneImageOnly;
        return;
      }
      uploadError := [];
      if isReply {
        replyMedia := valid[..1];
      } else {
        commentMedia := valid[..1];
      }
    }

    /**
     * handleAddComment: a refused post only sets the error; an accepted one
     * puts the new comment first and clears the form.
     */
    method AddComment(id: String, mediaId: String, url: String, now: String)
      modifies this`comments, this`newComment, this`commentMedia, this`uploadError
      ensures PostError(old(newComment), old(commentMedia), false).Some? ==>
                && uploadError == PostError(old(newComment), old(commentMedia), false).value
                && comments == old(comments) && newComment == old(newComment) && commentMedia == old(commentMedia)
      ensures PostError(old(newComment), old(commentMedia), false).None? ==>
                && comments == [NewComment(id, old(newComment), old(commentMedia), mediaId, url, now)] + old(comments)
                && newComment == [] && commentMedia == [] && uploadError == []
    {
      if IsBlank(newComment, JsWhitespace) && |commentMedia| == 0 {
        uploadError := TextOrImage;
        return;
      }
      uploadError := [];
      var i := 0;
      while i < |commentMedia|
        invariant 0 <= i <= |commentMedia|
        invariant forall k | 0 <= k < i :: IsImage(commentMedia[k])
      {
        if !IsImage(commentMedia[i]) {
          uploadError := OnlyImagesForComments;
          return;
        }
        i := i + 1;
      }
      comments := [NewComment(id, newComment, commentMedia, mediaId, url, now)] + comments;
      newComment := [];
      commentMedia := [];
    }

    /**
     * handleAddReply: a refused reply only sets the error; an accepted one is
     * put first among the comment's replies, the form is cleared and the
     * comment's replies are shown.
     */
    method AddReply(commentId: String, id: String, mediaId: String, url: String, now: String)
      modifies this`comments, this`replyContent, this`replyMedia, this`replyingTo, this`expandedReplies, this`uploadError
      ensures PostError(old(replyContent), old(replyMedia), true).Some? ==>
                && uploadError == PostError(old(replyContent), old(replyMedia), true).value
                && comments == old(comments) && replyContent == old(replyContent) && replyMedia == old(replyMedia)
                && replyingTo == old(replyingTo) && expandedReplies == old(expandedReplies)
      ensures PostError(old(replyContent), old(replyMedia), true).None? ==>
                && comments == AddReplyTo(old(comments), commentId,
                                          NewReply(id, old(replyContent), old(replyMedia), mediaId, url, now))
                && replyContent == [] && replyMedia == [] && replyingTo.None? && uploadError == []
                && expandedReplies == old(expandedReplies) + {commentId}
    {
      if IsBlank(replyContent, JsWhitespace) && |replyMedia| == 0 {
        uploadError := TextOrImage;
        return;
      }
      uploadError := [];
      var i := 0;
      while i < |replyMedia|
        invariant 0 <= i <= |replyMedia|
        invariant forall k | 0 <= k < i :: IsImage(replyMedia[k])
      {
        if !IsImage(replyMedia[i]) {
          uploadError := OnlyImagesForReplies;
          return;
        }
        i := i + 1;
      }
      comments := AddReplyTo(comments, commentId, NewReply(id, replyContent, replyMedia, mediaId, url, now));
      replyContent := [];
      replyMedia := [];
      replyingTo := None;
      expandedReplies := expandedReplies + {commentId};
    }

    /** loadMoreComments: does nothing unless more are expected and none are loading; the demo loads once. */
    method LoadMore(more: seq<Comment>)
      modifies this`comments, this`hasMore, this`isLoading
      ensures !old(hasMore) || old(isLoading) ==>
                comments == old(comments) && hasMore == old(hasMore) && isLoading == old(isLoading)
      ensures old(hasMore) && !old(isLoading) ==> comments == old(comments) + more && !hasMore && !isLoading
    {
      if !hasMore || isLoading {
        return;
      }
      isLoading := true;
      comments := comments + more;
      hasMore := false;
      isLoading := false;
    }
  }

  /** A new comment keeps the list consistent: it starts with no likes, no replies and a zero count. */
  lemma NewCommentKeepsConsistent(cs: seq<Comment>, id: String, text: String, media: seq<File>,
                                  mediaId: String, url: String, now: String)
    requires AllConsistent(cs)
    ensures AllConsistent([NewComment(id, text, media, mediaId, url, now)] + cs)
    ensures !NewComment(id, text, media, mediaId, url, now).isLiked
  {
    var r := [NewComment(id, text, media, mediaId, url, now)] + cs;
    assert forall k | 1 <= k < |r| :: r[k] == cs[k - 1];
  }
}
