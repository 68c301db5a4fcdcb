/**
 * The subtitle service of the streaming back end: validation of a
 * downloaded subtitle, SRT to WebVTT conversion, the scan of a movie's
 * subtitle directory and the selection of one subtitle per language from
 * an OpenSubtitles search.
 *
 * File contents are strings whose characters are the file's bytes.  The
 * subtitle directory is a map from paths to contents held by a
 * SubtitleStore; the search answer and each download exchange are inputs.
 */
module Subtitles {
  import opened Wrappers
  import opened Text
  import opened Sorting
  import StreamRecords

  // ---------------------------------------------------------------- validation

  const MinSubtitleSize: nat := 10

  /** content[:n] */
  function Prefix(c: String, n: nat): (r: String)
    ensures |r| <= n && |r| <= |c| && r == c[..|r|]
    ensures |c| >= n ==> |r| == n
  {
    if |c| <= n then c else c[..n]
  }

  /** The eight characters match \d{2}:\d{2}:\d{2}. */
  predicate ClockShape(w: String) {
    && |w| == 8
    && IsDigit(w[0]) && IsDigit(w[1]) && w[2] == ':'
    && IsDigit(w[3]) && IsDigit(w[4]) && w[5] == ':'
    && IsDigit(w[6]) && IsDigit(w[7])
  }

  /** The regular expression \d{2}:\d{2}:\d{2} matches at i. */
  predicate ClockAt(c: String, i: nat) { i + 8 <= |c| && ClockShape(c[i..i + 8]) }

  predicate HasClock(c: String) { exists i: nat | i <= |c| :: ClockAt(c, i) }

  predicate LooksLikeHtml(c: String) {
    Contains(Prefix(c, 200), "<!DOCTYPE html>") || Contains(Prefix(c, 200), "<html")
  }

  /** The three checks a downloaded body must pass before it is written as an .srt file. */
  predicate ValidSubtitle(c: String) {
    && |c| >= MinSubtitleSize
    && !LooksLikeHtml(c)
    && (Contains(c, "-->") || HasClock(Prefix(c, 1000)))
  }

  // ---------------------------------------------------------------- SRT to WebVTT

  /** The form of an SRT timestamp HH:MM:SS,mmm: twelve characters matching (\d{2}:\d{2}:\d{2}),(\d{3}). */
  predicate SrtStamp(w: String) {
    |w| == 12 && ClockShape(w[..8]) && w[8] == ',' && IsDigit(w[9]) && IsDigit(w[10]) && IsDigit(w[11])
  }

  /** The regular expression (\d{2}:\d{2}:\d{2}),(\d{3}) matches at i. */
  predicate CommaStampAt(s: String, i: nat) { i + 12 <= |s| && SrtStamp(s[i..i + 12]) }

  /**
   * re.sub of every leftmost, non-overlapping SRT timestamp by the same
   * timestamp with a '.' before the milliseconds.
   */
  function SrtToVtt(s: String): (r: String)
    ensures |r| == |s|
    decreases |s|
  {
    if s == [] then []
    else if CommaStampAt(s, 0) then s[..8] + "." + s[9..12] + SrtToVtt(s[12..])
    else [s[0]] + SrtToVtt(s[1..])
  }

  /** Every character is kept, except a comma that may become a dot. */
  lemma {:induction false} SrtToVttPointwise(s: String)
    ensures forall i :: 0 <= i < |s| ==> SrtToVtt(s)[i] == s[i] || (s[i] == ',' && SrtToVtt(s)[i] == '.')
    decreases |s|
  {
    if s == [] {
    } else if CommaStampAt(s, 0) {
      var t := s[12..];
      SrtToVttPointwise(t);
      assert s[0..12][8] == s[8];
      forall i | 0 <= i < |s| ensures SrtToVtt(s)[i] == s[i] || (s[i] == ',' && SrtToVtt(s)[i] == '.') {
        if i >= 12 {
          assert SrtToVtt(s)[i] == SrtToVtt(t)[i - 12] && s[i] == t[i - 12];
        }
      }
    } else {
      var t := s[1..];
      SrtToVttPointwise(t);
      forall i | 0 <= i < |s| ensures SrtToVtt(s)[i] == s[i] || (s[i] == ',' && SrtToVtt(s)[i] == '.') {
        if i >= 1 {
          assert SrtToVtt(s)[i] == SrtToVtt(t)[i - 1] && s[i] == t[i - 1];
        }
      }
    }
  }

  /** The body of the .vtt file written for an .srt file's content. */
  function VttContent(srt: String): String { "WEBVTT\n\n" + SrtToVtt(srt) }

  /** The conversion only rewrites the comma of a timestamp that matched. */
  lemma {:induction false} OnlyStampCommasChange(s: String, i: nat)
    requires i < |s| && SrtToVtt(s)[i] != s[i]
    ensures 8 <= i && CommaStampAt(s, i - 8)
    decreases |s|
  {
    if CommaStampAt(s, 0) {
      var t := s[12..];
      StampUnfold(s);
      if i >= 12 {
        assert SrtToVtt(s)[i] == SrtToVtt(t)[i - 12];
        OnlyStampCommasChange(t, i - 12);
        assert s[i - 8..i + 4] == t[i - 20..i - 8];
      } else {
        assert i == 8;
        assert s[0..12] == s[i - 8..i + 4];
      }
    } else {
      var t := s[1..];
      SkipUnfold(s);
      assert i > 0;
      assert SrtToVtt(s)[i] == SrtToVtt(t)[i - 1];
      OnlyStampCommasChange(t, i - 1);
      assert s[i - 8..i + 4] == t[i - 9..i + 3];
    }
  }

  lemma StampUnfold(s: String)
    requires CommaStampAt(s, 0)
    ensures SrtToVtt(s) == s[..8] + "." + s[9..12] + SrtToVtt(s[12..])
  {
  }

  lemma SkipUnfold(s: String)
    requires s != [] && !CommaStampAt(s, 0)
    ensures SrtToVtt(s) == [s[0]] + SrtToVtt(s[1..])
  {
  }

  /** Text without commas comes through unchanged. */
  lemma NoCommaUnchanged(s: String)
    requires forall i :: 0 <= i < |s| ==> s[i] != ','
    ensures SrtToVtt(s) == s
  {
    SrtToVttPointwise(s);
  }

  /** The cue arrow survives the conversion. */
  lemma ArrowKept(s: String)
    requires Contains(s, "-->")
    ensures Contains(SrtToVtt(s), "-->")
  {
    var i: nat :| i <= |s| && OccursAt(s, "-->", i);
    var r := SrtToVtt(s);
    ArrowChars(s, i);
    SrtToVttPointwise(s);
    assert r[i] == s[i] && r[i + 1] == s[i + 1] && r[i + 2] == s[i + 2];
    ArrowChars(r, i);
  }

  /** "-->" occurs at i exactly when the three characters from i are '-', '-' and '>'. */
  lemma ArrowChars(s: String, i: nat)
    requires i + 3 <= |s|
    ensures OccursAt(s, "-->", i) <==> s[i] == '-' && s[i + 1] == '-' && s[i + 2] == '>'
  {
    if s[i] == '-' && s[i + 1] == '-' && s[i + 2] == '>' {
      assert s[i..i + 3] == "-->";
    }
  }

  /** The WebVTT form of an SRT timestamp: the comma becomes a dot. */
  function VttStamp(t: String): String
    requires SrtStamp(t)
  {
    t[..8] + "." + t[9..]
  }

  lemma StampStep(t: String, rest: String)
    requires SrtStamp(t)
    ensures SrtToVtt(t + rest) == VttStamp(t) + SrtToVtt(rest)
  {
    var s := t + rest;
    assert s[0..12] == t;
    StampUnfold(s);
    assert s[..8] == t[..8] && s[9..12] == t[9..] && s[12..] == rest;
  }

  lemma PlainStep(c: char, rest: String)
    requires !IsDigit(c)
    ensures SrtToVtt([c] + rest) == [c] + SrtToVtt(rest)
  {
    var s := [c] + rest;
    assert !CommaStampAt(s, 0) by {
      if |s| >= 12 { assert s[0..12][0] == c; }
    }
    SkipUnfold(s);
    assert s[1..] == rest;
  }

  /** Text without digits holds no timestamp. */
  lemma {:induction false} NoDigitsStep(p: String, rest: String)
    requires forall i :: 0 <= i < |p| ==> !IsDigit(p[i])
    ensures SrtToVtt(p + rest) == p + SrtToVtt(rest)
    decreases |p|
  {
    if p != [] {
      calc {
        SrtToVtt(p + rest);
        { assert p + rest == [p[0]] + (p[1..] + rest); }
        SrtToVtt([p[0]] + (p[1..] + rest));
        { PlainStep(p[0], p[1..] + rest); }
        [p[0]] + SrtToVtt(p[1..] + rest);
        { NoDigitsStep(p[1..], rest); }
        [p[0]] + (p[1..] + SrtToVtt(rest));
        { assert [p[0]] + p[1..] == p; }
        p + SrtToVtt(rest);
      }
    } else {
      assert p + rest == rest;
    }
  }

  lemma NoStampInDigitRun(d: String, rest: String)
    requires d != [] && AllDigits(d)
    requires rest != [] && !IsDigit(rest[0]) && rest[0] != ':'
    ensures !CommaStampAt(d + rest, 0)
  {
    var s := d + rest;
    if |s| >= 12 {
      var w := s[0..12];
      if |d| == 1 { assert w[1] == rest[0]; }
      else if |d| == 2 { assert w[2] == rest[0]; }
      else { assert w[2] == d[2]; }
    }
  }

  /** A run of digits followed by a character that is neither a digit nor ':' holds no timestamp. */
  lemma {:induction false} DigitRunStep(d: String, rest: String)
    requires AllDigits(d)
    requires rest != [] && !IsDigit(rest[0]) && rest[0] != ':'
    ensures SrtToVtt(d + rest) == d + SrtToVtt(rest)
    decreases |d|
  {
    if d != [] {
      FirstDigitKept(d, rest);
      DigitRunStep(d[1..], rest);
      ConsAppend(d, SrtToVtt(rest));
    } else {
      assert d + rest == rest;
    }
  }

  lemma ConsAppend(d: String, x: String)
    requires d != []
    ensures [d[0]] + (d[1..] + x) == d + x
  {
    assert [d[0]] + d[1..] == d;
  }

  lemma FirstDigitKept(d: String, rest: String)
    requires d != [] && AllDigits(d)
    requires rest != [] && !IsDigit(rest[0]) && rest[0] != ':'
    ensures SrtToVtt(d + rest) == [d[0]] + SrtToVtt(d[1..] + rest)
  {
    NoStampInDigitRun(d, rest);
    SkipUnfold(d + rest);
    assert (d + rest)[1..] == d[1..] + rest;
  }

  /** An SRT cue: its number, its timing line and one line of text. */
  function SrtCue(number: String, start: String, end: String, text: String): String {
    number + "\n" + start + " --> " + end + "\n" + text + "\n"
  }

  /** The same cue in WebVTT form. */
  function VttCue(number: String, start: String, end: String, text: String): String
    requires SrtStamp(start) && SrtStamp(end)
  {
    number + "\n" + VttStamp(start) + " --> " + VttStamp(end) + "\n" + text + "\n"
  }

  /** A cue's timing line is rewritten to WebVTT form and nothing else in the cue changes. */
  lemma CueConverted(number: String, start: String, end: String, text: String)
    requires AllDigits(number)
    requires SrtStamp(start) && SrtStamp(end)
    requires forall i :: 0 <= i < |text| ==> text[i] != ','
    ensures SrtToVtt(SrtCue(number, start, end, text)) == VttCue(number, start, end, text)
  {
    var tail := "\n" + text + "\n";
    NoCommaUnchanged(tail);
    var timing := start + (" --> " + (end + tail));
    TimingConverted(start, end, tail);
    PlainStep('\n', timing);
    DigitRunStep(number, ['\n'] + timing);
    CueShapes(number, start, end, text);
  }

  /** The timing line: both stamps rewritten, the arrow kept. */
  lemma TimingConverted(start: String, end: String, rest: String)
    requires SrtStamp(start) && SrtStamp(end)
    ensures SrtToVtt(start + (" --> " + (end + rest))) == VttStamp(start) + (" --> " + (VttStamp(end) + SrtToVtt(rest)))
  {
    StampStep(end, rest);
    NoDigitsStep(" --> ", end + rest);
    StampStep(start, " --> " + (end + rest));
  }

  lemma CueShapes(number: String, start: String, end: String, text: String)
    requires SrtStamp(start) && SrtStamp(end)
    ensures SrtCue(number, start, end, text) == number + (['\n'] + (start + (" --> " + (end + ("\n" + text + "\n")))))
    ensures VttCue(number, start, end, text)
            == number + (['\n'] + (VttStamp(start) + (" --> " + (VttStamp(end) + ("\n" + text + "\n")))))
  {
  }

  predicate Lacks(s: String, ch: char) { forall i :: 0 <= i < |s| ==> s[i] != ch }

  lemma LacksConcat(a: String, b: String, ch: char)
    requires Lacks(a, ch) && Lacks(b, ch)
    ensures Lacks(a + b, ch)
  {
    assert forall i :: |a| <= i < |a + b| ==> (a + b)[i] == b[i - |a|];
  }

  lemma StampLacksAngle(t: String)
    requires SrtStamp(t)
    ensures Lacks(t, '<')
  {
    assert t[..8][0] == t[0] && t[..8][1] == t[1] && t[..8][2] == t[2] && t[..8][3] == t[3];
    assert t[..8][4] == t[4] && t[..8][5] == t[5] && t[..8][6] == t[6] && t[..8][7] == t[7];
  }

  /** Content without '<' never looks like an HTML page. */
  lemma NoAngleNotHtml(c: String)
    requires Lacks(c, '<')
    ensures !LooksLikeHtml(c)
  {
    var p := Prefix(c, 200);
    forall j: nat | j <= |p| ensures !OccursAt(p, "<!DOCTYPE html>", j) && !OccursAt(p, "<html", j) {
      if j < |p| {
        assert p[j] == c[j];
        if j + 5 <= |p| { assert p[j..j + 5][0] == p[j]; }
        if j + 15 <= |p| { assert p[j..j + 15][0] == p[j]; }
      }
    }
  }

  /** A one-cue SRT file with plain text passes the download checks. */
  lemma CueAccepted(number: String, start: String, end: String, text: String)
    requires SrtStamp(start) && SrtStamp(end)
    requires Lacks(number, '<') && Lacks(text, '<')
    ensures ValidSubtitle(SrtCue(number, start, end, text))
  {
    var c := SrtCue(number, start, end, text);
    var head := number + "\n" + start + " ";
    var tail := "--> " + end + "\n" + text + "\n";
    assert c == head + tail;
    assert c[|head|..|head| + 3] == "-->";
    assert OccursAt(c, "-->", |head|);
    StampLacksAngle(start);
    StampLacksAngle(end);
    LacksConcat(number, "\n", '<');
    LacksConcat(number + "\n", start, '<');
    LacksConcat(number + "\n" + start, " ", '<');
    LacksConcat("--> ", end, '<');
    LacksConcat("--> " + end, "\n", '<');
    LacksConcat("--> " + end + "\n", text, '<');
    LacksConcat("--> " + end + "\n" + text, "\n", '<');
    LacksConcat(head, tail, '<');
    NoAngleNotHtml(c);
  }

  // ---------------------------------------------------------------- places

  /** Where a movie's subtitles live and the URL prefix they are served under. */
  datatype Place = Place(mediaRoot: String, mediaUrl: String, movieId: nat)

  function SubtitlesDir(place: Place): String {
    StreamRecords.JoinAll([place.mediaRoot, "downloads", "subtitles", NatToString(place.movieId)])
  }

  function SubtitleSrc(place: Place, fileName: String): String {
    StreamRecords.JoinAll([place.mediaUrl, "downloads", "subtitles", NatToString(place.movieId), fileName])
  }

  function LockPath(place: Place): String { StreamRecords.JoinPath(SubtitlesDir(place), "download.lock") }

  function SrtPath(place: Place, language: String): String {
    StreamRecords.JoinPath(SubtitlesDir(place), language + ".srt")
  }

  function VttPathLocal(place: Place, language: String): String {
    StreamRecords.JoinPath(SubtitlesDir(place), language + ".vtt")
  }

  /** srt_path.replace('.srt', '.vtt'): every occurrence in the whole path. */
  function VttPathOf(srtPath: String): String { ReplaceAll(srtPath, ".srt", ".vtt") }

  /** The converted file never lands on the .srt file it came from. */
  lemma VttPathDiffers(place: Place, language: String)
    ensures VttPathOf(SrtPath(place, language)) != SrtPath(place, language)
  {
    var p := SrtPath(place, language);
    assert EndsWith(p, language + ".srt");
    SuffixOccurs(p, language, ".srt");
    ReplaceChanges(p, ".srt", ".vtt");
  }

  lemma SuffixOccurs(p: String, stem: String, ext: String)
    requires EndsWith(p, stem + ext)
    ensures Contains(p, ext)
  {
    var i := |p| - |ext|;
    assert p[i..] == (stem + ext)[|stem|..];
    assert OccursAt(p, ext, i);
  }

  // ---------------------------------------------------------------- entries

  datatype Subtitle = Subtitle(language: String, caption: String, src: String)

  /** A file the directory scan reports: a .vtt file other than the lock. */
  predicate IsVttName(name: String) { EndsWith(name, ".vtt") && name != "download.lock" }

  function LocalEntry(place: Place, name: String): Subtitle {
    var language := ReplaceAll(name, ".vtt", "");
    Subtitle(language, ToUpperAscii(language), SubtitleSrc(place, name))
  }

  /** The scan of the subtitle directory, in listing order. */
  function Scan(place: Place, listing: seq<String>): (subs: seq<Subtitle>)
    ensures |subs| <= |listing|
    decreases |listing|
  {
    if listing == [] then []
    else
      var last := listing[|listing| - 1];
      Scan(place, listing[..|listing| - 1]) + (if IsVttName(last) then [LocalEntry(place, last)] else [])
  }

  /** The scan reports sub for the file name. */
  predicate Reports(place: Place, name: String, sub: Subtitle) {
    IsVttName(name) && sub == LocalEntry(place, name)
  }

  /** Scan reports one entry for each .vtt file and nothing else. */
  lemma {:induction false} ScanMembership(place: Place, listing: seq<String>, sub: Subtitle)
    ensures sub in Scan(place, listing) <==> exists name | name in listing :: Reports(place, name, sub)
    decreases |listing|
  {
    if listing != [] {
      ScanMembership(place, listing[..|listing| - 1], sub);
      ScanStep(place, listing, sub);
      ReportedStep(place, listing, sub);
    }
  }

  lemma ScanStep(place: Place, listing: seq<String>, sub: Subtitle)
    requires listing != []
    ensures sub in Scan(place, listing)
            <==> sub in Scan(place, listing[..|listing| - 1]) || Reports(place, listing[|listing| - 1], sub)
  {
    var last := listing[|listing| - 1];
    var added := if IsVttName(last) then [LocalEntry(place, last)] else [];
    assert Scan(place, listing) == Scan(place, listing[..|listing| - 1]) + added;
  }

  lemma ReportedStep(place: Place, listing: seq<String>, sub: Subtitle)
    requires listing != []
    ensures (exists name | name in listing :: Reports(place, name, sub))
            <==> (exists name | name in listing[..|listing| - 1] :: Reports(place, name, sub))
                 || Reports(place, listing[|listing| - 1], sub)
  {
    var init := listing[..|listing| - 1];
    var last := listing[|listing| - 1];
    assert listing == init + [last];
    if exists name | name in listing :: Reports(place, name, sub) {
      var n :| n in listing && Reports(place, n, sub);
      assert n in init || n == last;
    }
    if exists name | name in init :: Reports(place, name, sub) {
      var n :| n in init && Reports(place, n, sub);
      assert n in listing;
    }
  }

  /** A file written for a language without dots is scanned back as that language, upper-cased as its label. */
  lemma ScanFindsLanguage(place: Place, language: String)
    requires forall i :: 0 <= i < |language| ==> language[i] != '.'
    ensures LocalEntry(place, language + ".vtt") == Subtitle(language, ToUpperAscii(language), SubtitleSrc(place, language + ".vtt"))
  {
    ReplaceAfterDotless(language, ".vtt", "");
    assert language + "" == language;
  }

  method ScanLocal(place: Place, listing: seq<String>) returns (results: seq<Subtitle>)
    ensures results == Scan(place, listing)
  {
    results := [];
    for k := 0 to |listing|
      invariant results == Scan(place, listing[..k])
    {
      ScanExtend(place, listing, k);
      if IsVttName(listing[k]) {
        results := results + [LocalEntry(place, listing[k])];
      }
    }
    assert listing[..|listing|] == listing;
  }

  lemma ScanExtend(place: Place, listing: seq<String>, k: nat)
    requires k < |listing|
    ensures Scan(place, listing[..k + 1])
            == Scan(place, listing[..k]) + (if IsVttName(listing[k]) then [LocalEntry(place, listing[k])] else [])
  {
    assert listing[..k + 1][..k] == listing[..k];
  }

  // ---------------------------------------------------------------- downloads

  datatype Task = Task(fileId: nat, language: String, caption: String)

  /** The answer to a request for a download link. */
  datatype LinkReply = RateLimited | LinkFailed | NoLink | Link(url: String)

  /** The answer to a request for the file itself. */
  datatype FileReply = Forbidden | FileFailed | Body(content: String)

  /** The network's answers during one download: the link, the first file request, a renewed link after a 403, the second file request. */
  datatype Exchange = Exchange(link: LinkReply, first: FileReply, relink: LinkReply, second: FileReply)

  /** The second and last attempt: anything but a valid body ends the download. */
  function LastAttempt(f: FileReply): (r: Option<String>)
    ensures r.Some? <==> f.Body? && ValidSubtitle(f.content)
    ensures r.Some? ==> r.value == f.content
  {
    match f
    case Body(c) => if ValidSubtitle(c) then Some(c) else None
    case _ => None
  }

  /** The content a download writes as its .srt file, or None when the download gives up. */
  function DownloadedContent(e: Exchange): (r: Option<String>)
    ensures r.Some? ==> ValidSubtitle(r.value)
    ensures r.Some? ==> e.link.Link? && (e.first == Body(r.value) || e.second == Body(r.value))
    ensures e.link.Link? && e.first.Body? && ValidSubtitle(e.first.content) ==> r == Some(e.first.content)
    ensures !e.link.Link? ==> r == None
  {
    match e.link
    case Link(_) =>
      (match e.first
       case Body(c) => if ValidSubtitle(c) then Some(c) else LastAttempt(e.second)
       case FileFailed => LastAttempt(e.second)
       case Forbidden =>
         (match e.relink
          case RateLimited => None
          case NoLink => None
          case _ => LastAttempt(e.second)))
    case _ => None
  }

  function SubtitleFor(place: Place, t: Task): Subtitle {
    Subtitle(t.language, t.caption, SubtitleSrc(place, t.language + ".vtt"))
  }

  /** The directory after a successful download: the .vtt written, the .srt removed. */
  function DownloadEffect(files: map<String, String>, place: Place, t: Task, content: String): map<String, String> {
    var srt := SrtPath(place, t.language);
    files[VttPathOf(srt) := VttContent(content)] - {srt}
  }

  // ---------------------------------------------------------------- selection

  datatype SubtitleItem = SubtitleItem(language: Option<String>, languageName: Option<String>, files: seq<nat>)

  /** attributes.get('language_name', lang_code.upper()) */
  function LabelOf(item: SubtitleItem, language: String): String {
    item.languageName.GetOr(ToUpperAscii(language))
  }

  /** The languages chosen so far in insertion order, each with its download task or None when already on disk. */
  datatype Selection = Selection(tasks: seq<(String, Option<Task>)>, available: seq<Subtitle>)

  predicate Listed(tasks: seq<(String, Option<Task>)>, language: String) {
    exists k | 0 <= k < |tasks| :: tasks[k].0 == language
  }

  function Step(sel: Selection, item: SubtitleItem, existing: set<String>, place: Place): Selection {
    if item.language.None? || item.language.value == [] || Listed(sel.tasks, item.language.value) then sel
    else
      var language := item.language.value;
      if VttPathLocal(place, language) in existing then
        Selection(sel.tasks + [(language, None)],
                  sel.available + [Subtitle(language, LabelOf(item, language), SubtitleSrc(place, language + ".vtt"))])
      else if item.files != [] then
        Selection(sel.tasks + [(language, Some(Task(item.files[0], language, LabelOf(item, language))))], sel.available)
      else sel
  }

  function SelectAll(items: seq<SubtitleItem>, existing: set<String>, place: Place): Selection
    decreases |items|
  {
    if items == [] then Selection([], [])
    else Step(SelectAll(items[..|items| - 1], existing, place), items[|items| - 1], existing, place)
  }

  /** An item that settles its language: named, and either on disk already or with a file to download. */
  predicate Eligible(item: SubtitleItem, language: String, existing: set<String>, place: Place) {
    && item.language == Some(language) && language != []
    && (VttPathLocal(place, language) in existing || item.files != [])
  }

  function EntryOf(item: SubtitleItem, language: String, existing: set<String>, place: Place): Option<Task>
    requires item.files != [] || VttPathLocal(place, language) in existing
  {
    if VttPathLocal(place, language) in existing then None
    else Some(Task(item.files[0], language, LabelOf(item, language)))
  }

  /** What the first eligible item for a language decides for it, if there is one. */
  function FirstEntry(items: seq<SubtitleItem>, language: String, existing: set<String>, place: Place): Option<Option<Task>>
    decreases |items|
  {
    if items == [] then None
    else
      var earlier := FirstEntry(items[..|items| - 1], language, existing, place);
      var last := items[|items| - 1];
      if earlier.Some? then earlier
      else if Eligible(last, language, existing, place) then Some(EntryOf(last, language, existing, place))
      else None
  }

  /** The entry recorded for a language. */
  function Find(tasks: seq<(String, Option<Task>)>, language: String): (r: Option<Option<Task>>)
    ensures r.Some? <==> Listed(tasks, language)
    decreases |tasks|
  {
    if tasks == [] then None
    else if tasks[|tasks| - 1].0 == language then Some(tasks[|tasks| - 1].1)
    else
      var r := Find(tasks[..|tasks| - 1], language);
      assert Listed(tasks, language) ==> Listed(tasks[..|tasks| - 1], language) by {
        if Listed(tasks, language) {
          var k :| 0 <= k < |tasks| && tasks[k].0 == language;
          assert tasks[..|tasks| - 1][k].0 == language;
        }
      }
      r
  }

  lemma FindAppend(tasks: seq<(String, Option<Task>)>, entry: (String, Option<Task>), language: String)
    ensures Find(tasks + [entry], language) == if entry.0 == language then Some(entry.1) else Find(tasks, language)
  {
    assert (tasks + [entry])[..|tasks|] == tasks;
  }

  /** Each language is recorded once, with what the first eligible item for it says. */
  lemma {:induction false} SelectFollowsFirstItem(items: seq<SubtitleItem>, existing: set<String>, place: Place, language: String)
    ensures Find(SelectAll(items, existing, place).tasks, language) == FirstEntry(items, language, existing, place)
    decreases |items|
  {
    if items != [] {
      var init := items[..|items| - 1];
      var last := items[|items| - 1];
      var sel := SelectAll(init, existing, place);
      SelectFollowsFirstItem(init, existing, place, language);
      var next := Step(sel, last, existing, place);
      if next != sel {
        var l := last.language.value;
        FindAppend(sel.tasks, next.tasks[|next.tasks| - 1], language);
        assert next.tasks == sel.tasks + [next.tasks[|next.tasks| - 1]];
        if l == language {
          assert Eligible(last, language, existing, place);
        }
      } else if Eligible(last, language, existing, place) {
        assert Listed(sel.tasks, language);
      }
    }
  }

  predicate DistinctLanguages(tasks: seq<(String, Option<Task>)>) {
    forall i, j :: 0 <= i < j < |tasks| ==> tasks[i].0 != tasks[j].0
  }

  /** No language is selected twice. */
  lemma {:induction false} SelectDistinct(items: seq<SubtitleItem>, existing: set<String>, place: Place)
    ensures DistinctLanguages(SelectAll(items, existing, place).tasks)
    decreases |items|
  {
    if items != [] {
      var init := items[..|items| - 1];
      SelectDistinct(init, existing, place);
      var sel := SelectAll(init, existing, place);
      var next := SelectAll(items, existing, place);
      if next != sel {
        var n := |sel.tasks|;
        forall i, j | 0 <= i < j < |next.tasks| ensures next.tasks[i].0 != next.tasks[j].0 {
          if j == n {
            assert next.tasks[i] == sel.tasks[i];
          } else {
            assert next.tasks[i] == sel.tasks[i] && next.tasks[j] == sel.tasks[j];
          }
        }
      }
    }
  }

  method Select(items: seq<SubtitleItem>, existing: set<String>, place: Place) returns (sel: Selection)
    ensures sel == SelectAll(items, existing, place)
  {
    var tasks: seq<(String, Option<Task>)> := [];
    var available: seq<Subtitle> := [];
    for k := 0 to |items|
      invariant Selection(tasks, available) == SelectAll(items[..k], existing, place)
    {
      assert items[..k + 1][..k] == items[..k];
      var item := items[k];
      if item.language.None? || item.language.value == [] {
        continue;
      }
      var language := item.language.value;
      var seen := false;
      for j := 0 to |tasks|
        invariant seen <==> exists i | 0 <= i < j :: tasks[i].0 == language
      {
        if tasks[j].0 == language {
          seen := true;
        }
      }
      if seen {
        continue;
      }
      if VttPathLocal(place, language) in existing {
        tasks := tasks + [(language, None)];
        available := available + [Subtitle(language, LabelOf(item, language), SubtitleSrc(place, language + ".vtt"))];
        continue;
      }
      if item.files != [] {
        tasks := tasks + [(language, Some(Task(item.files[0], language, LabelOf(item, language))))];
      }
    }
    assert items[..|items|] == items;
    sel := Selection(tasks, available);
  }

  /** [t for t in tasks_to_download.values() if t is not None] */
  function CleanTasks(tasks: seq<(String, Option<Task>)>): (r: seq<Task>)
    ensures forall t :: t in r <==> exists k | 0 <= k < |tasks| :: tasks[k].1 == Some(t)
    decreases |tasks|
  {
    if tasks == [] then []
    else
      var init := tasks[..|tasks| - 1];
      var last := tasks[|tasks| - 1];
      var r := CleanTasks(init) + (if last.1.Some? then [last.1.value] else []);
      assert forall k | 0 <= k < |init| :: init[k] == tasks[k];
      r
  }

  /** The entries the downloads add, in task order. */
  function Downloads(place: Place, tasks: seq<Task>, replies: Task -> Exchange): (subs: seq<Subtitle>)
    ensures |subs| <= |tasks|
    decreases |tasks|
  {
    if tasks == [] then []
    else
      var last := tasks[|tasks| - 1];
      Downloads(place, tasks[..|tasks| - 1], replies)
        + (if DownloadedContent(replies(last)).Some? then [SubtitleFor(place, last)] else [])
  }

  /** The directory after the downloads of tasks. */
  function AfterDownloads(files: map<String, String>, place: Place, tasks: seq<Task>, replies: Task -> Exchange): map<String, String>
    decreases |tasks|
  {
    if tasks == [] then files
    else
      var last := tasks[|tasks| - 1];
      var before := AfterDownloads(files, place, tasks[..|tasks| - 1], replies);
      var c := DownloadedContent(replies(last));
      if c.Some? then DownloadEffect(before, place, last, c.value) else before
  }

  function ByLabel(a: Subtitle, b: Subtitle): bool { LexLe(a.caption, b.caption) }

  lemma ByLabelTotal()
    ensures TotalPreorder(ByLabel)
  {
    forall a: Subtitle, b: Subtitle ensures ByLabel(a, b) || ByLabel(b, a) {
      LexLeTotal(a.caption, b.caption);
    }
    forall a: Subtitle, b: Subtitle, c: Subtitle | ByLabel(a, b) && ByLabel(b, c) ensures ByLabel(a, c) {
      LexLeTransitive(a.caption, b.caption, c.caption);
    }
  }

  /** The list fetch_all_subtitles returns; relisting is the directory listing a later re-scan sees. */
  function FetchAll(place: Place, listing: seq<String>, relisting: seq<String>, credentials: bool,
                    files: map<String, String>, search: Option<seq<SubtitleItem>>, replies: Task -> Exchange): seq<Subtitle>
  {
    var local := Scan(place, listing);
    if local != [] || !credentials then local
    else if LockPath(place) in files || search.None? then Scan(place, relisting)
    else
      var sel := SelectAll(search.value, files[LockPath(place) := "locked"].Keys, place);
      SortBy(sel.available + Downloads(place, CleanTasks(sel.tasks), replies), ByLabel)
  }

  /** The directory after fetch_all_subtitles: downloads written, the lock it took released. */
  function FetchAllFiles(place: Place, listing: seq<String>, credentials: bool,
                         files: map<String, String>, search: Option<seq<SubtitleItem>>, replies: Task -> Exchange): map<String, String>
  {
    var lock := LockPath(place);
    if Scan(place, listing) != [] || !credentials || lock in files then files
    else if search.None? then files[lock := "locked"] - {lock}
    else
      var locked := files[lock := "locked"];
      var sel := SelectAll(search.value, locked.Keys, place);
      AfterDownloads(locked, place, CleanTasks(sel.tasks), replies) - {lock}
  }

  /** After a successful search the list is ordered by label and holds exactly the local and downloaded entries. */
  lemma FetchAllSorted(place: Place, listing: seq<String>, relisting: seq<String>, credentials: bool,
                       files: map<String, String>, items: seq<SubtitleItem>, replies: Task -> Exchange)
    requires Scan(place, listing) == [] && credentials && LockPath(place) !in files
    ensures var subs := FetchAll(place, listing, relisting, credentials, files, Some(items), replies);
            var sel := SelectAll(items, files[LockPath(place) := "locked"].Keys, place);
            && Sorted(subs, ByLabel)
            && multiset(subs) == multiset(sel.available) + multiset(Downloads(place, CleanTasks(sel.tasks), replies))
  {
    ByLabelTotal();
    var sel := SelectAll(items, files[LockPath(place) := "locked"].Keys, place);
    SortBySorted(sel.available + Downloads(place, CleanTasks(sel.tasks), replies), ByLabel);
  }

  // ---------------------------------------------------------------- the directory

  /** Writing a file and removing it again leaves only the other write. */
  lemma WriteThenRemove(m: map<String, String>, a: String, x: String, b: String, y: String)
    requires a != b
    ensures m[a := x][b := y] - {a} == m[b := y] - {a}
  {
  }

  /** The files under the media root that the subtitle service reads and writes. */
  class SubtitleStore {
    var files: map<String, String>

    constructor (files0: map<String, String>)
      ensures files == files0
    {
      files := files0;
    }

    /** convert_srt_to_vtt: a missing file gives None, a tiny one is deleted, otherwise the .vtt is written beside it. */
    method ConvertSrtToVtt(srtPath: String) returns (vttPath: Option<String>)
      modifies this
      ensures srtPath !in old(files) ==> vttPath == None && files == old(files)
      ensures srtPath in old(files) && |old(files)[srtPath]| < MinSubtitleSize ==>
                vttPath == None && files == old(files) - {srtPath}
      ensures srtPath in old(files) && |old(files)[srtPath]| >= MinSubtitleSize ==>
                && vttPath == Some(VttPathOf(srtPath))
                && files == old(files)[VttPathOf(srtPath) := VttContent(old(files)[srtPath])]
    {
      if srtPath !in files {
        return None;
      }
      if |files[srtPath]| < MinSubtitleSize {
        files := files - {srtPath};
        return None;
      }
      var target := ReplaceAll(srtPath, ".srt", ".vtt");
      var content := files[srtPath];
      files := files[target := "WEBVTT\n\n" + SrtToVtt(content)];
      vttPath := Some(target);
    }

    /** _download_single_subtitle: fetch, validate and save one language, then convert it. */
    method DownloadSingle(place: Place, t: Task, e: Exchange) returns (result: Option<Subtitle>)
      modifies this
      ensures result == if DownloadedContent(e).Some? then Some(SubtitleFor(place, t)) else None
      ensures files == if DownloadedContent(e).Some? then DownloadEffect(old(files), place, t, DownloadedContent(e).value)
                       else old(files)
    {
      var content := DownloadedContent(e);
      if content.None? {
        return None;
      }
      var srt := SrtPath(place, t.language);
      VttPathDiffers(place, t.language);
      var vtt := SaveAndConvert(srt, content.value);
      if vtt.Some? && vtt.value in files {
        result := Some(SubtitleFor(place, t));
      } else {
        result := None;
      }
    }

    /** Writes the .srt file, converts it beside itself and removes it. */
    method SaveAndConvert(srt: String, c: String) returns (vtt: Option<String>)
      requires |c| >= MinSubtitleSize && VttPathOf(srt) != srt
      modifies this
      ensures vtt == Some(VttPathOf(srt)) && vtt.value in files
      ensures files == old(files)[VttPathOf(srt) := VttContent(c)] - {srt}
    {
      files := files[srt := c];
      vtt := ConvertSrtToVtt(srt);
      files := files - {srt};
      WriteThenRemove(old(files), srt, c, VttPathOf(srt), VttContent(c));
    }

    /** Runs the downloads one after the other and collects the entries that succeed. */
    method DownloadAll(place: Place, tasks: seq<Task>, replies: Task -> Exchange) returns (subs: seq<Subtitle>)
      modifies this
      ensures subs == Downloads(place, tasks, replies)
      ensures files == AfterDownloads(old(files), place, tasks, replies)
    {
      subs := [];
      for k := 0 to |tasks|
        invariant subs == Downloads(place, tasks[..k], replies)
        invariant files == AfterDownloads(old(files), place, tasks[..k], replies)
      {
        assert tasks[..k + 1][..k] == tasks[..k];
        var r := DownloadSingle(place, tasks[k], replies(tasks[k]));
        if r.Some? {
          subs := subs + [r.value];
        }
      }
      assert tasks[..|tasks|] == tasks;
    }

    /** fetch_all_subtitles for one movie. */
    method FetchAllSubtitles(place: Place, listing: seq<String>, relisting: seq<String>, credentials: bool,
                             search: Option<seq<SubtitleItem>>, replies: Task -> Exchange)
      returns (subs: seq<Subtitle>)
      modifies this
      ensures subs == FetchAll(place, listing, relisting, credentials, old(files), search, replies)
      ensures files == FetchAllFiles(place, listing, credentials, old(files), search, replies)
    {
      var existing := ScanLocal(place, listing);
      if existing != [] || !credentials {
        return existing;
      }
      var lock := LockPath(place);
      if lock in files {
        subs := ScanLocal(place, relisting);
        return;
      }
      files := files[lock := "locked"];
      if search.None? {
        subs := ScanLocal(place, relisting);
      } else {
        var sel := Select(search.value, files.Keys, place);
        var downloaded := DownloadAll(place, CleanTasks(sel.tasks), replies);
        subs := SortBy(sel.available + downloaded, ByLabel);
      }
      files := files - {lock};
    }
  }
}
