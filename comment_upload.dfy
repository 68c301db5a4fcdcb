/**
 * Creating a comment (server/src/comments/controller/create-comment.controller.ts):
 * the upload filter and size limit applied to the `media` file, then the
 * controller's guards on the `content` field, and the request handed to the
 * service. A body without `content` leaves it undefined.
 */
module CommentUpload {
  import opened Wrappers
  import opened Text
  import opened Http

  const MaxContentLength: nat := 2000
  const MaxFileSize: nat := 10 * 1024 * 1024
  const AllowedTypes: seq<String> := ["jpg", "jpeg", "png", "gif", "webp", "mp4", "webm", "mov"]

  const OnlyImageOrVideo: String := "Only image and video files are allowed!"
  const FileTooLarge: String := "File too large"
  const ContentRequired: String := "Content is required"
  const ContentTooLong: String := "Content must be 2000 characters or less"
  const ContentUndefined: String := "Cannot read properties of undefined (reading 'length')"
  /** What a comment made of media alone is stored with. */
  const Placeholder: String := "_"

  /** The uploaded file as multer describes it. */
  datatype Upload = Upload(mimetype: String, size: nat)

  /** `/\/(jpg|jpeg|png|gif|webp|mp4|webm|mov)$/`: the type ends with a slash and one of the extensions. */
  predicate AllowedMimetype(mimetype: String) {
    exists k | 0 <= k < |AllowedTypes| :: EndsWith(mimetype, "/" + AllowedTypes[k])
  }

  /** The fileFilter, then the size limit: a file above 10 MB is refused. */
  function AcceptUpload(f: Upload): (r: Result<Upload, HttpError>)
    ensures r.Ok? <==> AllowedMimetype(f.mimetype) && f.size <= MaxFileSize
    ensures r.Ok? ==> r.value == f
    ensures !AllowedMimetype(f.mimetype) ==> r == Err(BadRequest(OnlyImageOrVideo))
    ensures AllowedMimetype(f.mimetype) && f.size > MaxFileSize ==> r == Err(PayloadTooLarge(FileTooLarge))
  {
    if !AllowedMimetype(f.mimetype) then Err(BadRequest(OnlyImageOrVideo))
    else if f.size > MaxFileSize then Err(PayloadTooLarge(FileTooLarge))
    else Ok(f)
  }

  /** `!content || content.trim().length === 0` */
  predicate Blank(content: Option<String>) {
    content.None? || IsBlank(content.value, JsWhitespace)
  }

  /** What the service receives. */
  datatype NewComment = NewComment(movieId: String, userId: nat, content: String, mediaFile: Option<Upload>)

  /**
   * createComment after the upload has been accepted: no media and no text is
   * refused; the length is checked on the untrimmed text (and throws on an
   * undefined one); blank text with media becomes '_'; the service gets the
   * trimmed text.
   */
  function CreateCommentRequest(movieId: String, userId: nat, content: Option<String>, media: Option<Upload>)
    : (r: Result<NewComment, HttpError>)
    ensures r.Ok? <==> (media.Some? || !Blank(content)) && content.Some? && JsLength(content.value) <= MaxContentLength
    ensures media.None? && Blank(content) ==> r == Err(BadRequest(ContentRequired))
    ensures ((media.Some? || !Blank(content)) && content.Some? && JsLength(content.value) > MaxContentLength)
            ==> r == Err(BadRequest(ContentTooLong))
    ensures media.Some? && content.None? ==> r.Err? && r.error.InternalServerError?
    ensures r.Ok? ==> r.value.movieId == movieId && r.value.userId == userId && r.value.mediaFile == media
    ensures r.Ok? && Blank(content) ==> r.value.content == Placeholder
    ensures r.Ok? && !Blank(content) ==> r.value.content == TrimJs(content.value)
  {
    if media.None? && Blank(content) then Err(BadRequest(ContentRequired))
    else if content.None? then Err(InternalServerError(ContentUndefined))
    else if JsLength(content.value) > MaxContentLength then Err(BadRequest(ContentTooLong))
    else if Blank(content) then
      PlaceholderTrimmed();
      Ok(NewComment(movieId, userId, TrimJs(Placeholder), media))
    else Ok(NewComment(movieId, userId, TrimJs(content.value), media))
  }

  lemma PlaceholderTrimmed()
    ensures TrimJs(Placeholder) == Placeholder
  {
    assert !IsSpace(JsWhitespace, Placeholder[0]);
    TrimStartKeeps(Placeholder, JsWhitespace);
    TrimEndKeeps(Placeholder, JsWhitespace);
  }

  /** The whole request: the upload interceptor runs before the handler. */
  function CreateComment(movieId: String, userId: nat, content: Option<String>, media: Option<Upload>)
    : (r: Result<NewComment, HttpError>)
    ensures media.Some? && AcceptUpload(media.value).Err? ==> r == Err(AcceptUpload(media.value).error)
    ensures media.None? || AcceptUpload(media.value).Ok? ==> r == CreateCommentRequest(movieId, userId, content, media)
  {
    if media.Some? && AcceptUpload(media.value).Err? then Err(AcceptUpload(media.value).error)
    else CreateCommentRequest(movieId, userId, content, media)
  }

  /**
   * A stored comment always has visible text: the content the service gets is
   * never empty and neither starts nor ends with whitespace, and it fits the limit.
   */
  lemma StoredContentNonBlank(movieId: String, userId: nat, content: Option<String>, media: Option<Upload>)
    requires CreateComment(movieId, userId, content, media).Ok?
    ensures var c := CreateComment(movieId, userId, content, media).value.content;
            && c != []
            && !IsJsSpace(c[0]) && !IsJsSpace(c[|c| - 1])
            && |c| <= MaxContentLength
  {
    var r := CreateCommentRequest(movieId, userId, content, media);
    assert CreateComment(movieId, userId, content, media) == r;
    if !Blank(content) {
      TrimEdges(content.value, JsWhitespace);
    }
  }

  /** The limit applies to the text as sent: padding alone can push a short comment over it. */
  lemma LengthCountsPadding(movieId: String, userId: nat, body: String, media: Option<Upload>)
    requires body != [] && !IsJsSpace(body[0]) && |body| <= MaxContentLength
    requires media.None? || AcceptUpload(media.value).Ok?
    ensures var padded := Spaces(MaxContentLength) + body;
            CreateComment(movieId, userId, Some(padded), media) == Err(BadRequest(ContentTooLong))
  {
    var padded := Spaces(MaxContentLength) + body;
    assert padded[MaxContentLength] == body[0];
    assert !IsBlank(padded, JsWhitespace);
  }

  function Spaces(n: nat): (s: String)
    ensures |s| == n && forall i | 0 <= i < n :: s[i] == ' '
  {
    seq(n, _ => ' ')
  }
}
