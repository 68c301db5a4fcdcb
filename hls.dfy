/**
 * The HLS side of the streaming service: the transcoder's segment naming,
 * the master and media playlists built from a directory listing (RFC 8216),
 * the per-variant bandwidth and resolution tables, and the segment route's
 * path guard.
 */
module Hls {
  import opened Wrappers
  import opened Text
  import opened Sorting
  import StreamRecords
  import Catalog

  // ---------------------------------------------------------------- variants

  /** The variant ladder, in the order the master playlist lists it. */
  const Resolutions: seq<String> := ["1080p", "720p", "480p", "360p"]

  /** The length of one transcoded segment, in seconds. */
  const SegmentDuration: nat := 10

  /** Position of a resolution in the ladder; 4 for any other name. */
  function Rank(res: String): (k: nat)
    ensures k <= |Resolutions|
    ensures k < |Resolutions| <==> res in Resolutions
    ensures k < |Resolutions| ==> Resolutions[k] == res
  {
    if res == "1080p" then 0 else if res == "720p" then 1 else if res == "480p" then 2
    else if res == "360p" then 3 else 4
  }

  /** _get_bandwidth, in bits per second. */
  function Bandwidth(res: String): (bw: nat)
    ensures res !in Resolutions ==> bw == 1000000
  {
    if res == "1080p" then 5000000
    else if res == "720p" then 2800000
    else if res == "480p" then 1400000
    else if res == "360p" then 800000
    else 1000000
  }

  /** _get_res_dim. */
  function ResolutionDim(res: String): (dim: String)
    ensures res !in Resolutions ==> dim == "1280x720"
  {
    if res == "1080p" then "1920x1080"
    else if res == "720p" then "1280x720"
    else if res == "480p" then "854x480"
    else if res == "360p" then "640x360"
    else "1280x720"
  }

  /** Down the ladder the bandwidth strictly decreases. */
  lemma BandwidthDecreases()
    ensures forall i, j :: 0 <= i < j < |Resolutions| ==> Bandwidth(Resolutions[i]) > Bandwidth(Resolutions[j])
  {
    assert Bandwidth(Resolutions[0]) == 5000000 && Bandwidth(Resolutions[1]) == 2800000;
    assert Bandwidth(Resolutions[2]) == 1400000 && Bandwidth(Resolutions[3]) == 800000;
  }

  /** Each variant's frame height is its name without the trailing 'p'. */
  lemma HeightMatchesName(i: nat)
    requires i < |Resolutions|
    ensures var r := Resolutions[i]; EndsWith(ResolutionDim(r), "x" + r[..|r| - 1])
  {
    if i == 0 {
      assert "1920x1080"[4..] == "x" + "1080p"[..4];
    } else if i == 1 {
      assert "1280x720"[4..] == "x" + "720p"[..3];
    } else if i == 2 {
      assert "854x480"[3..] == "x" + "480p"[..3];
    } else {
      assert "640x360"[3..] == "x" + "360p"[..3];
    }
  }

  // ---------------------------------------------------------------- segment names

  /** The file convert_all_segments writes for segment i: segment_ + i zero-padded to 3 digits + .ts. */
  function SegmentName(i: nat): (name: String)
    ensures StartsWith(name, "segment_") && EndsWith(name, ".ts")
  {
    "segment_" + ZeroPad(i, 3) + ".ts"
  }

  /** The second of the source at which segment i starts. */
  function SegmentStart(i: nat): nat { i * SegmentDuration }

  /**
   * The playlist builder's match of ^segment_(\d+)\.ts$ followed by int() of
   * the group. Python's '$' also matches just before a final newline, so a
   * name ending in "\n" is read without it.
   */
  function ParseSegmentName(f: String): (r: Option<nat>)
    ensures r.Some? ==> StartsWith(f, "segment_")
  {
    var body := if f != [] && f[|f| - 1] == '\n' then f[..|f| - 1] else f;
    if |body| >= 12 && body[..8] == "segment_" && body[|body| - 3..] == ".ts" && AllDigits(body[8..|body| - 3])
    then
      assert f[..8] == body[..8];
      Some(DigitsValue(body[8..|body| - 3]))
    else None
  }

  /** The name the transcoder writes for segment i is read back as i. */
  lemma SegmentNameRoundTrip(i: nat)
    ensures ParseSegmentName(SegmentName(i)) == Some(i)
  {
    var d := ZeroPad(i, 3);
    var f := SegmentName(i);
    assert f[|f| - 1] == 's';
    assert f[..8] == "segment_";
    assert f[|f| - 3..] == ".ts";
    assert f[8..|f| - 3] == d;
    ZeroPadValue(i, 3);
  }

  /** Distinct segments get distinct file names. */
  lemma SegmentNameInjective(i: nat, j: nat)
    requires SegmentName(i) == SegmentName(j)
    ensures i == j
  {
    SegmentNameRoundTrip(i);
    SegmentNameRoundTrip(j);
  }

  /** The master playlist's and the status endpoint's loose test for a segment file. */
  predicate IsSegmentLike(name: String) {
    StartsWith(name, "segment_") && EndsWith(name, ".ts")
  }

  /** A name the playlist builder accepts passes the loose test too, unless it ends in a newline. */
  lemma ParsedIsSegmentLike(f: String)
    requires ParseSegmentName(f).Some?
    requires f == [] || f[|f| - 1] != '\n'
    ensures IsSegmentLike(f)
  {
  }

  // ---------------------------------------------------------------- directories

  /** index.m3u8 in a variant directory: absent, present but unreadable, or its lines. */
  datatype StaticPlaylist = NoStatic | Unreadable | StaticLines(lines: seq<String>)

  /**
   * What the builders observe of one variant directory: whether the path
   * exists, whether it is a directory, its listing (None when os.listdir
   * raises) and its static playlist.
   */
  datatype VariantDir = VariantDir(present: bool, isDir: bool, listing: Option<seq<String>>, playlist: StaticPlaylist)

  /** A movie's media directory, by variant name; a missing key is a path that does not exist. */
  type MovieDirs = map<String, VariantDir>

  function Lookup(dirs: MovieDirs, res: String): VariantDir {
    if res in dirs then dirs[res] else VariantDir(false, false, None, NoStatic)
  }

  /** Some listed name passes the loose segment test; a failed listing counts as none. */
  predicate HasSegments(v: VariantDir) {
    v.listing.Some? && exists i :: 0 <= i < |v.listing.value| && IsSegmentLike(v.listing.value[i])
  }

  /** The master playlist offers a variant whose directory holds index.m3u8 or a segment file. */
  predicate Offered(v: VariantDir) {
    v.isDir && (v.playlist != NoStatic || HasSegments(v))
  }

  /** The offered variants among rs, in the order of rs. */
  function OfferedAmong(rs: seq<String>, dirs: MovieDirs): (found: seq<String>)
    ensures |found| <= |rs|
    ensures forall r :: r in found <==> r in rs && Offered(Lookup(dirs, r))
  {
    if rs == [] then []
    else
      var last := rs[|rs| - 1];
      assert forall r :: r in rs <==> r in rs[..|rs| - 1] || r == last;
      OfferedAmong(rs[..|rs| - 1], dirs) + (if Offered(Lookup(dirs, last)) then [last] else [])
  }

  /** The variants the master playlist lists. */
  function OfferedVariants(dirs: MovieDirs): seq<String> {
    OfferedAmong(Resolutions, dirs)
  }

  /** The listed variants keep the ladder's order, so none is listed twice. */
  lemma {:induction false} OfferedAmongOrdered(rs: seq<String>, dirs: MovieDirs)
    requires |rs| <= |Resolutions| && rs == Resolutions[..|rs|]
    ensures forall a, b :: 0 <= a < b < |OfferedAmong(rs, dirs)| ==>
              Rank(OfferedAmong(rs, dirs)[a]) < Rank(OfferedAmong(rs, dirs)[b])
    decreases |rs|
  {
    if rs != [] {
      var init := rs[..|rs| - 1];
      assert init == Resolutions[..|init|];
      OfferedAmongOrdered(init, dirs);
      var last := rs[|rs| - 1];
      assert Rank(last) == |rs| - 1;
      var prev := OfferedAmong(init, dirs);
      forall a | 0 <= a < |prev| ensures Rank(prev[a]) < |rs| - 1 {
        assert prev[a] in init;
        var k :| 0 <= k < |init| && init[k] == prev[a];
        assert Resolutions[k] == prev[a];
      }
    }
  }

  lemma OfferedVariantsOrdered(dirs: MovieDirs)
    ensures forall a, b :: 0 <= a < b < |OfferedVariants(dirs)| ==>
              Rank(OfferedVariants(dirs)[a]) < Rank(OfferedVariants(dirs)[b])
  {
    OfferedAmongOrdered(Resolutions, dirs);
  }

  // ---------------------------------------------------------------- readiness probe

  datatype ProbeReply = Gone | ProbeOk | ProbeNotFound

  /** The probe's scan: some directory among rs is a directory whose listing holds a segment file. */
  function ProbeAmong(rs: seq<String>, dirs: MovieDirs): (hit: bool)
    ensures hit <==> exists k :: 0 <= k < |rs| && Lookup(dirs, rs[k]).isDir && HasSegments(Lookup(dirs, rs[k]))
  {
    if rs == [] then false
    else
      assert forall k :: 1 <= k < |rs| ==> rs[k] == rs[1..][k - 1];
      (Lookup(dirs, rs[0]).isDir && HasSegments(Lookup(dirs, rs[0]))) || ProbeAmong(rs[1..], dirs)
  }

  /** The HEAD request on the playlist endpoint without res: 410 for an ERROR record, then 200 or 404 by the scan. */
  function HeadProbe(status: StreamRecords.Status, dirs: MovieDirs): (r: ProbeReply)
    ensures r == Gone <==> status == StreamRecords.Error
    ensures r == ProbeNotFound ==> forall res | res in Resolutions :: !(Lookup(dirs, res).isDir && HasSegments(Lookup(dirs, res)))
  {
    if status == StreamRecords.Error then Gone
    else if ProbeAmong(Resolutions, dirs) then ProbeOk
    else ProbeNotFound
  }

  /** A probe answered 200 means the master playlist offers at least one variant that holds segments. */
  lemma ProbeOkOffersVariant(status: StreamRecords.Status, dirs: MovieDirs)
    requires HeadProbe(status, dirs) == ProbeOk
    ensures exists r :: r in OfferedVariants(dirs) && HasSegments(Lookup(dirs, r))
  {
    var k :| 0 <= k < |Resolutions| && Lookup(dirs, Resolutions[k]).isDir && HasSegments(Lookup(dirs, Resolutions[k]));
    assert Resolutions[k] in OfferedVariants(dirs);
  }

  // ---------------------------------------------------------------- master playlist

  datatype PlaylistReply = NotFound(pending: bool) | M3u8(lines: seq<String>)

  /** The response body: the lines joined by "\n". */
  function Body(lines: seq<String>): String { Join(lines, "\n") }

  /** EXT-X-STREAM-INF for one variant (section 4.3.4.2 of RFC 8216). */
  function StreamInf(res: String): String {
    "#EXT-X-STREAM-INF:BANDWIDTH=" + NatToString(Bandwidth(res)) + ",RESOLUTION=" + ResolutionDim(res)
    + ",NAME=\"" + res + "\""
  }

  function VariantUri(pk: String, res: String): String {
    "/api/video/" + pk + "/playlist/?res=" + res
  }

  /** The master playlist listing the variants found: the header, then each variant's EXT-X-STREAM-INF line and URI. */
  function MasterLines(pk: String, found: seq<String>): seq<String> {
    ["#EXTM3U", "#EXT-X-VERSION:3"] + Interleave(StreamInfs(found), VariantUris(pk, found))
  }

  /** The playlist is the two header lines followed by two lines per variant, in the order found. */
  lemma MasterLinesShape(pk: String, found: seq<String>)
    ensures var lines := MasterLines(pk, found);
            && |lines| == 2 + 2 * |found|
            && lines[0] == "#EXTM3U" && lines[1] == "#EXT-X-VERSION:3"
            && (forall k :: 0 <= k < |found| ==>
                  lines[2 + 2 * k] == StreamInf(found[k]) && lines[3 + 2 * k] == VariantUri(pk, found[k]))
  {
    var lines := MasterLines(pk, found);
    forall k | 0 <= k < |found|
      ensures lines[2 + 2 * k] == StreamInf(found[k]) && lines[3 + 2 * k] == VariantUri(pk, found[k])
    {
      HeaderInterleaveAt(["#EXTM3U", "#EXT-X-VERSION:3"], StreamInfs(found), VariantUris(pk, found), k);
    }
  }

  /** After a two-line header, pair k of an interleaving sits at lines 2 + 2k and 3 + 2k. */
  lemma HeaderInterleaveAt(header: seq<String>, xs: seq<String>, ys: seq<String>, k: nat)
    requires |header| == 2 && |xs| == |ys| && k < |xs|
    ensures (header + Interleave(xs, ys))[2 + 2 * k] == xs[k]
    ensures (header + Interleave(xs, ys))[3 + 2 * k] == ys[k]
  {
    InterleaveAt(xs, ys, k);
  }

  /**
   * _generate_master_playlist: 404 (pending) when no variant is offered;
   * otherwise the master lines of the offered variants, in ladder order.
   */
  method MasterPlaylist(pk: String, dirs: MovieDirs) returns (reply: PlaylistReply)
    ensures reply.NotFound? <==> forall r :: r in Resolutions ==> !Offered(Lookup(dirs, r))
    ensures reply.NotFound? ==> reply.pending
    ensures reply.M3u8? ==> reply.lines == MasterLines(pk, OfferedVariants(dirs))
  {
    var found := FindOffered(dirs);
    if found == [] {
      forall r | r in Resolutions ensures !Offered(Lookup(dirs, r)) {
        assert r !in found;
      }
      return NotFound(true);
    }
    assert found[0] in found;
    var entries := VariantEntries(pk, found);
    reply := M3u8(["#EXTM3U", "#EXT-X-VERSION:3"] + entries);
  }

  /** The EXT-X-STREAM-INF line of each variant. */
  function StreamInfs(found: seq<String>): (infs: seq<String>)
    ensures |infs| == |found| && forall k :: 0 <= k < |found| ==> infs[k] == StreamInf(found[k])
  {
    seq(|found|, k requires 0 <= k < |found| => StreamInf(found[k]))
  }

  /** The URI of each variant. */
  function VariantUris(pk: String, found: seq<String>): (uris: seq<String>)
    ensures |uris| == |found| && forall k :: 0 <= k < |found| ==> uris[k] == VariantUri(pk, found[k])
  {
    seq(|found|, k requires 0 <= k < |found| => VariantUri(pk, found[k]))
  }

  /** xs[0], ys[0], xs[1], ys[1], ... */
  function Interleave(xs: seq<String>, ys: seq<String>): (zs: seq<String>)
    requires |xs| == |ys|
    ensures |zs| == 2 * |xs|
  {
    if xs == [] then []
    else Interleave(xs[..|xs| - 1], ys[..|ys| - 1]) + [xs[|xs| - 1], ys[|ys| - 1]]
  }

  lemma {:induction false} InterleaveAt(xs: seq<String>, ys: seq<String>, k: nat)
    requires |xs| == |ys| && k < |xs|
    ensures Interleave(xs, ys)[2 * k] == xs[k] && Interleave(xs, ys)[2 * k + 1] == ys[k]
    decreases |xs|
  {
    var n := |xs| - 1;
    var e := Interleave(xs[..n], ys[..n]);
    assert Interleave(xs, ys) == e + [xs[n], ys[n]];
    if k < n {
      InterleaveAt(xs[..n], ys[..n], k);
    }
  }

  /** The EXT-X-STREAM-INF line and the URI of each variant, in order. */
  method VariantEntries(pk: String, found: seq<String>) returns (lines: seq<String>)
    ensures lines == Interleave(StreamInfs(found), VariantUris(pk, found))
  {
    ghost var infs := StreamInfs(found);
    ghost var uris := VariantUris(pk, found);
    lines := [];
    for k := 0 to |found|
      invariant lines == Interleave(infs[..k], uris[..k])
    {
      assert infs[..k + 1][..k] == infs[..k] && uris[..k + 1][..k] == uris[..k];
      lines := lines + [StreamInf(found[k]), VariantUri(pk, found[k])];
    }
    assert infs[..|found|] == infs && uris[..|found|] == uris;
  }

  /** The scan of _generate_master_playlist over the ladder. */
  method FindOffered(dirs: MovieDirs) returns (found: seq<String>)
    ensures found == OfferedVariants(dirs)
  {
    found := [];
    for i := 0 to |Resolutions|
      invariant found == OfferedAmong(Resolutions[..i], dirs)
    {
      var r := Resolutions[i];
      var v := Lookup(dirs, r);
      if v.isDir {
        var hasStatic := v.playlist != NoStatic;
        var hasSegments := false;
        if v.listing.Some? {
          hasSegments := AnySegmentLike(v.listing.value);
        }
        if hasStatic || hasSegments {
          found := found + [r];
        }
      }
      assert Resolutions[..i + 1][..i] == Resolutions[..i];
    }
    assert Resolutions[..|Resolutions|] == Resolutions;
  }

  /** any(name.startswith('segment_') and name.endswith('.ts') for name in names). */
  method AnySegmentLike(names: seq<String>) returns (b: bool)
    ensures b <==> exists k :: 0 <= k < |names| && IsSegmentLike(names[k])
  {
    b := false;
    for j := 0 to |names|
      invariant b <==> exists k :: 0 <= k < j && IsSegmentLike(names[k])
    {
      if IsSegmentLike(names[j]) {
        return true;
      }
    }
  }

  // ---------------------------------------------------------------- media playlist

  function StreamTsUri(pk: String, file: String, res: String): String {
    "/api/video/" + pk + "/stream_ts/?file=" + file + "&res=" + res
  }

  /** The (index, name) pairs of the names that parse, in listing order. */
  function Matches(names: seq<String>): (found: seq<(nat, String)>)
    ensures forall k :: 0 <= k < |found| ==> ParseSegmentName(found[k].1) == Some(found[k].0)
    ensures forall k :: 0 <= k < |found| ==> found[k].1 in names
  {
    if names == [] then []
    else
      var last := names[|names| - 1];
      var prev := Matches(names[..|names| - 1]);
      assert forall k :: 0 <= k < |prev| ==> prev[k].1 in names by {
        forall k | 0 <= k < |prev| ensures prev[k].1 in names {
          var j :| 0 <= j < |names| - 1 && names[..|names| - 1][j] == prev[k].1;
          assert names[j] == prev[k].1;
        }
      }
      match ParseSegmentName(last)
      case Some(n) => prev + [(n, last)]
      case None => prev
  }

  /** The sort key of found.sort(key=lambda x: x[0]). */
  function ByIndex(a: (nat, String), b: (nat, String)): bool { a.0 <= b.0 }

  lemma ByIndexTotal()
    ensures TotalPreorder(ByIndex)
  {
  }

  function Names(pairs: seq<(nat, String)>): (names: seq<String>)
    ensures |names| == |pairs|
    ensures forall k :: 0 <= k < |pairs| ==> names[k] == pairs[k].1
  {
    seq(|pairs|, k requires 0 <= k < |pairs| => pairs[k].1)
  }

  /** The segment files of a listing, in the order the media playlist lists them. */
  function Segments(names: seq<String>): seq<String> {
    Names(SortBy(Matches(names), ByIndex))
  }

  /** The listed segments are ordered by index and are exactly the names that parse. */
  lemma SegmentsOrdered(names: seq<String>)
    ensures forall a, b :: 0 <= a < b < |Segments(names)| ==>
              && ParseSegmentName(Segments(names)[a]).Some? && ParseSegmentName(Segments(names)[b]).Some?
              && ParseSegmentName(Segments(names)[a]).value <= ParseSegmentName(Segments(names)[b]).value
    ensures forall k :: 0 <= k < |Segments(names)| ==> Segments(names)[k] in names
    ensures |Segments(names)| == |Matches(names)|
  {
    var sorted := SortBy(Matches(names), ByIndex);
    SortedMatches(names, sorted);
    assert Segments(names) == Names(sorted);
    forall a, b | 0 <= a < b < |sorted|
      ensures && ParseSegmentName(Segments(names)[a]) == Some(sorted[a].0)
              && ParseSegmentName(Segments(names)[b]) == Some(sorted[b].0)
    {
    }
  }

  /** The sorted matches: each pair is a name of the listing with the index it parses to, in index order. */
  lemma SortedMatches(names: seq<String>, sorted: seq<(nat, String)>)
    requires sorted == SortBy(Matches(names), ByIndex)
    ensures forall k :: 0 <= k < |sorted| ==>
              ParseSegmentName(sorted[k].1) == Some(sorted[k].0) && sorted[k].1 in names
    ensures forall a, b :: 0 <= a < b < |sorted| ==> sorted[a].0 <= sorted[b].0
  {
    var found := Matches(names);
    forall k | 0 <= k < |sorted|
      ensures ParseSegmentName(sorted[k].1) == Some(sorted[k].0) && sorted[k].1 in names
    {
      assert sorted[k] in multiset(found);
      var j :| 0 <= j < |found| && found[j] == sorted[k];
    }
    ByIndexTotal();
    SortBySorted(found, ByIndex);
    forall a, b | 0 <= a < b < |sorted| ensures sorted[a].0 <= sorted[b].0 {
      assert ByIndex(sorted[a], sorted[b]);
    }
  }

  /** A listing that holds the name written for some segment yields a non-empty media playlist. */
  lemma WrittenSegmentIsListed(names: seq<String>, i: nat)
    requires SegmentName(i) in names
    ensures Matches(names) != []
    ensures Segments(names) != []
  {
    SegmentNameRoundTrip(i);
    MatchesComplete(names, SegmentName(i));
  }

  lemma {:induction false} MatchesComplete(names: seq<String>, f: String)
    requires f in names && ParseSegmentName(f).Some?
    ensures (ParseSegmentName(f).value, f) in Matches(names)
    decreases |names|
  {
    if names[|names| - 1] != f {
      var init := names[..|names| - 1];
      var j :| 0 <= j < |names| && names[j] == f;
      assert init[j] == f;
      MatchesComplete(init, f);
    }
  }

  /**
   * _generate_media_playlist for variant res of movie pk. A missing target is
   * 404. A readable index.m3u8 is served with every line that is neither
   * empty nor a comment replaced by the stream_ts URI of its stripped text.
   * Otherwise the segment files are listed in index order (404 when the
   * listing fails or holds none), after a header fixing TARGETDURATION 10,
   * MEDIA-SEQUENCE 0 and PLAYLIST-TYPE VOD for a READY movie, EVENT for any
   * other; a READY movie's playlist ends with EXT-X-ENDLIST.
   */
  method MediaPlaylist(pk: String, dirs: MovieDirs, res: String, status: StreamRecords.Status)
    returns (reply: PlaylistReply)
    ensures !Lookup(dirs, res).present ==> reply == NotFound(false)
    ensures Lookup(dirs, res).present && Lookup(dirs, res).playlist.StaticLines? ==>
              var ls := Lookup(dirs, res).playlist.lines;
              && reply.M3u8? && |reply.lines| == |ls|
              && (forall i :: 0 <= i < |ls| && (ls[i] == [] || ls[i][0] == '#') ==> reply.lines[i] == ls[i])
              && (forall i :: 0 <= i < |ls| && ls[i] != [] && ls[i][0] != '#' ==>
                    reply.lines[i] == StreamTsUri(pk, StripPy(ls[i]), res))
    ensures Lookup(dirs, res).present && !Lookup(dirs, res).playlist.StaticLines? ==>
              var v := Lookup(dirs, res);
              if v.listing.None? || Matches(v.listing.value) == [] then reply == NotFound(false)
              else
                var segs := Segments(v.listing.value);
                var ready := status == StreamRecords.Ready;
                && reply.M3u8?
                && |reply.lines| == 5 + 2 * |segs| + (if ready then 1 else 0)
                && reply.lines[..5] == ["#EXTM3U", "#EXT-X-VERSION:3", "#EXT-X-TARGETDURATION:10",
                                        "#EXT-X-MEDIA-SEQUENCE:0",
                                        if ready then "#EXT-X-PLAYLIST-TYPE:VOD" else "#EXT-X-PLAYLIST-TYPE:EVENT"]
                && (forall k :: 0 <= k < |segs| ==>
                      reply.lines[5 + 2 * k] == "#EXTINF:10.0," && reply.lines[6 + 2 * k] == StreamTsUri(pk, segs[k], res))
                && (ready ==> reply.lines[|reply.lines| - 1] == "#EXT-X-ENDLIST")
  {
    var v := Lookup(dirs, res);
    if !v.present {
      return NotFound(false);
    }
    if v.playlist.StaticLines? {
      var out := RewriteLines(pk, v.playlist.lines, res);
      return M3u8(out);
    }
    if v.listing.None? {
      return NotFound(false);
    }
    var found := CollectMatches(v.listing.value);
    if found == [] {
      return NotFound(false);
    }
    var content := SegmentPlaylist(pk, Names(SortBy(found, ByIndex)), res, status == StreamRecords.Ready);
    reply := M3u8(content);
  }

  /** The static playlist with every line that is neither empty nor a comment turned into its stream_ts URI. */
  method RewriteLines(pk: String, ls: seq<String>, res: String) returns (out: seq<String>)
    ensures |out| == |ls|
    ensures forall i :: 0 <= i < |ls| && (ls[i] == [] || ls[i][0] == '#') ==> out[i] == ls[i]
    ensures forall i :: 0 <= i < |ls| && ls[i] != [] && ls[i][0] != '#' ==> out[i] == StreamTsUri(pk, StripPy(ls[i]), res)
  {
    out := [];
    for i := 0 to |ls|
      invariant |out| == i
      invariant forall q :: 0 <= q < i && (ls[q] == [] || ls[q][0] == '#') ==> out[q] == ls[q]
      invariant forall q :: 0 <= q < i && ls[q] != [] && ls[q][0] != '#' ==> out[q] == StreamTsUri(pk, StripPy(ls[q]), res)
    {
      var line := ls[i];
      if line == [] || line[0] == '#' {
        out := out + [line];
      } else {
        out := out + [StreamTsUri(pk, StripPy(line), res)];
      }
    }
  }

  /** The listing's segment files with their indices, in listing order. */
  method CollectMatches(names: seq<String>) returns (found: seq<(nat, String)>)
    ensures found == Matches(names)
  {
    found := [];
    for i := 0 to |names|
      invariant found == Matches(names[..i])
    {
      var m := ParseSegmentName(names[i]);
      if m.Some? {
        found := found + [(m.value, names[i])];
      }
      assert names[..i + 1][..i] == names[..i];
    }
    assert names[..|names|] == names;
  }

  /** The generated playlist: the header, two lines per segment, and EXT-X-ENDLIST when ready. */
  method SegmentPlaylist(pk: String, segments: seq<String>, res: String, ready: bool) returns (content: seq<String>)
    ensures |content| == 5 + 2 * |segments| + (if ready then 1 else 0)
    ensures content[..5] == ["#EXTM3U", "#EXT-X-VERSION:3", "#EXT-X-TARGETDURATION:10", "#EXT-X-MEDIA-SEQUENCE:0",
                             if ready then "#EXT-X-PLAYLIST-TYPE:VOD" else "#EXT-X-PLAYLIST-TYPE:EVENT"]
    ensures forall k :: 0 <= k < |segments| ==>
              content[5 + 2 * k] == "#EXTINF:10.0," && content[6 + 2 * k] == StreamTsUri(pk, segments[k], res)
    ensures ready ==> content[|content| - 1] == "#EXT-X-ENDLIST"
  {
    var header := ["#EXTM3U", "#EXT-X-VERSION:3", "#EXT-X-TARGETDURATION:10", "#EXT-X-MEDIA-SEQUENCE:0",
                   if ready then "#EXT-X-PLAYLIST-TYPE:VOD" else "#EXT-X-PLAYLIST-TYPE:EVENT"];
    content := header;
    for k := 0 to |segments|
      invariant |content| == 5 + 2 * k
      invariant content[..5] == header
      invariant forall q :: 0 <= q < k ==>
                  content[5 + 2 * q] == "#EXTINF:10.0," && content[6 + 2 * q] == StreamTsUri(pk, segments[q], res)
    {
      content := content + ["#EXTINF:10.0,", StreamTsUri(pk, segments[k], res)];
    }
    if ready {
      content := content + ["#EXT-X-ENDLIST"];
    }
  }

  /** The readiness the status endpoint reports per variant: loose segment names in a listable directory. */
  function SegmentCount(v: VariantDir): (n: nat)
    ensures n > 0 <==> v.isDir && HasSegments(v)
  {
    if v.isDir && v.listing.Some? then CountSegmentLike(v.listing.value) else 0
  }

  function CountSegmentLike(names: seq<String>): (n: nat)
    ensures n <= |names|
    ensures n > 0 <==> exists i :: 0 <= i < |names| && IsSegmentLike(names[i])
  {
    if names == [] then 0
    else
      assert forall i :: 1 <= i < |names| ==> names[i] == names[1..][i - 1];
      (if IsSegmentLike(names[0]) then 1 else 0) + CountSegmentLike(names[1..])
  }

  /**
   * When the status endpoint reports 'no-peers', no variant directory holds a
   * segment file, so the master playlist can only offer variants that have a
   * static playlist.
   */
  lemma NoPeersMeansStaticOnly(dirs: MovieDirs, status: StreamRecords.Status, seeds: nat, peers: nat)
    requires StreamRecords.Classify(status, seeds, peers,
                                    seq(|Resolutions|, i requires 0 <= i < |Resolutions| => SegmentCount(Lookup(dirs, Resolutions[i]))))
             == StreamRecords.NoPeers
    ensures forall r :: r in OfferedVariants(dirs) ==> Lookup(dirs, r).playlist != NoStatic
  {
    var counts := seq(|Resolutions|, i requires 0 <= i < |Resolutions| => SegmentCount(Lookup(dirs, Resolutions[i])));
    forall r | r in OfferedVariants(dirs) ensures Lookup(dirs, r).playlist != NoStatic {
      var i := Rank(r);
      assert counts[i] == 0;
    }
  }

  // ---------------------------------------------------------------- segment route

  datatype SegmentReply = SegmentBadRequest | AccelRedirect(path: String)

  /** The characters urllib.parse.quote keeps with its default safe set "/". */
  predicate QuoteKeeps(c: char) {
    IsUpper(c) || IsLower(c) || IsDigit(c) || c in "_.-~/"
  }

  function QuoteChar(c: char): (q: String)
    ensures QuoteKeeps(c) ==> q == [c]
    ensures !QuoteKeeps(c) ==> |q| >= 3 && q[0] == '%'
  {
    if QuoteKeeps(c) then [c] else Catalog.PercentBytes(Catalog.Utf8(c))
  }

  /**
   * Python's urllib.parse.quote(s): kept characters stay, every other
   * character becomes the upper-case %XX escapes of its UTF-8 bytes.
   */
  function Quote(s: String): (q: String)
    ensures (forall i :: 0 <= i < |s| ==> QuoteKeeps(s[i])) ==> q == s
    ensures |q| >= |s|
    decreases |s|
  {
    if s == [] then [] else QuoteChar(s[0]) + Quote(s[1..])
  }

  /** Quoting works character by character, so it distributes over concatenation. */
  lemma {:induction false} QuoteConcat(a: String, b: String)
    ensures Quote(a + b) == Quote(a) + Quote(b)
    decreases |a|
  {
    if a == [] {
      assert a + b == b;
    } else {
      assert (a + b)[0] == a[0] && (a + b)[1..] == a[1..] + b;
      QuoteConcat(a[1..], b);
    }
  }

  /** An escape never produces '/': a text without '/' quotes to a text without '/'. */
  lemma {:induction false} QuoteAddsNoSlash(s: String)
    requires forall i :: 0 <= i < |s| ==> s[i] != '/'
    ensures forall i :: 0 <= i < |Quote(s)| ==> Quote(s)[i] != '/'
    decreases |s|
  {
    if s != [] {
      QuoteAddsNoSlash(s[1..]);
      var head := QuoteChar(s[0]);
      if !QuoteKeeps(s[0]) {
        Catalog.PercentBytesSafe(Catalog.Utf8(s[0]));
      }
      var tail := Quote(s[1..]);
      forall i | 0 <= i < |head + tail| ensures (head + tail)[i] != '/' {
        if i >= |head| { assert (head + tail)[i] == tail[i - |head|]; }
      }
    }
  }

  /**
   * stream_ts as written: 400 when file is missing, empty or contains "..";
   * res defaults to 720p and is not checked; the redirect target is
   * quote(os.path.join('/media', 'movies', pk, res, file)).
   */
  function StreamTs(pk: String, file: Option<String>, res: Option<String>): (r: SegmentReply)
    ensures r == SegmentBadRequest <==> file.None? || file.value == [] || Contains(file.value, "..")
  {
    if file.None? || file.value == [] || Contains(file.value, "..") then SegmentBadRequest
    else AccelRedirect(Quote(StreamRecords.JoinAll(["/media", "movies", pk, res.GetOr("720p"), file.value])))
  }

  /** An absolute file name passes the guard and escapes /media/movies. */
  lemma StreamTsEscapes()
    ensures StreamTs("7", Some("/etc/passwd"), None) == AccelRedirect("/etc/passwd")
  {
    var f := "/etc/passwd";
    assert !Contains(f, "..") by {
      assert forall k :: 0 <= k < |f| ==> f[k] != '.';
      forall i: nat | i <= |f| ensures !OccursAt(f, "..", i) {
        if i + 2 <= |f| {
          assert f[i..i + 2][0] == f[i];
        }
      }
    }
    assert StartsWith(f, "/");
    assert forall i :: 0 <= i < |f| ==> QuoteKeeps(f[i]);
  }

  /** A path component the route accepts: non-empty, no '/', no "..". */
  predicate SafeComponent(c: String) {
    c != [] && (forall i :: 0 <= i < |c| ==> c[i] != '/') && !Contains(c, "..")
  }

  const MoviesRoot: String := "/media/movies"

  /**
   * stream_ts with the guard it evidently intends: both file and res must be
   * plain names. The quoted redirect then stays in the movie's resolution
   * directory: the prefix is kept and each quoted name holds no '/'.
   */
  function StreamTsSafe(pk: String, file: Option<String>, res: Option<String>): (r: SegmentReply)
    requires SafeComponent(pk)
    ensures r.AccelRedirect? <==> file.Some? && SafeComponent(file.value) && SafeComponent(res.GetOr("720p"))
    ensures r.AccelRedirect? ==>
              && r.path == "/media/movies/" + Quote(pk) + "/" + Quote(res.GetOr("720p")) + "/" + Quote(file.value)
              && (forall i :: 0 <= i < |Quote(file.value)| ==> Quote(file.value)[i] != '/')
              && (forall i :: 0 <= i < |Quote(res.GetOr("720p"))| ==> Quote(res.GetOr("720p"))[i] != '/')
  {
    var rr := res.GetOr("720p");
    if file.None? || !SafeComponent(file.value) || !SafeComponent(rr) then SegmentBadRequest
    else
      JoinSafe(pk, rr, file.value);
      QuotePath(MoviesRoot, pk, rr, file.value);
      assert MoviesRoot + "/" == "/media/movies/";
      QuoteAddsNoSlash(file.value);
      QuoteAddsNoSlash(rr);
      AccelRedirect(Quote(StreamRecords.JoinAll(["/media", "movies", pk, rr, file.value])))
  }

  /** Quoting a path under a kept prefix quotes each name and keeps the separators and the prefix. */
  lemma QuotePath(root: String, pk: String, res: String, file: String)
    requires forall i :: 0 <= i < |root| ==> QuoteKeeps(root[i])
    ensures Quote(root + "/" + pk + "/" + res + "/" + file)
            == root + "/" + Quote(pk) + "/" + Quote(res) + "/" + Quote(file)
  {
    var b := root + "/" + pk;
    QuoteSep(root, pk);
    var c := b + "/" + res;
    QuoteSep(b, res);
    QuoteSep(c, file);
  }

  lemma QuoteSep(x: String, y: String)
    ensures Quote(x + "/" + y) == Quote(x) + "/" + Quote(y)
  {
    QuoteConcat(x + "/", y);
    QuoteConcat(x, "/");
    assert QuoteKeeps("/"[0]);
  }

  lemma JoinSafe(pk: String, res: String, file: String)
    requires SafeComponent(pk) && SafeComponent(res) && SafeComponent(file)
    ensures StreamRecords.JoinAll(["/media", "movies", pk, res, file]) == "/media/movies/" + pk + "/" + res + "/" + file
  {
    var parts := ["/media", "movies", pk, res, file];
    assert parts[..1] == ["/media"];
    assert parts[..2] == ["/media", "movies"] && parts[..2][..1] == parts[..1];
    assert parts[..3] == ["/media", "movies", pk] && parts[..3][..2] == parts[..2];
    assert parts[..4] == ["/media", "movies", pk, res] && parts[..4][..3] == parts[..3];
    assert parts[..5] == parts && parts[..5][..4] == parts[..4];
    var p1 := "/media";
    assert StreamRecords.JoinAll(parts[..1]) == p1;
    var p2 := p1 + "/" + "movies";
    JoinStep(p1, "movies");
    assert StreamRecords.JoinAll(parts[..2]) == p2;
    var p3 := p2 + "/" + pk;
    JoinStep(p2, pk);
    assert StreamRecords.JoinAll(parts[..3]) == p3;
    var p4 := p3 + "/" + res;
    JoinStep(p3, res);
    assert StreamRecords.JoinAll(parts[..4]) == p4;
    JoinStep(p4, file);
  }

  /** Joining a relative component onto a path that does not end in '/' inserts one '/'. */
  lemma JoinStep(a: String, b: String)
    requires a != [] && a[|a| - 1] != '/'
    requires b != [] && b[0] != '/' && b[|b| - 1] != '/'
    ensures StreamRecords.JoinPath(a, b) == a + "/" + b
    ensures (a + "/" + b)[|a + "/" + b| - 1] != '/'
  {
  }
}
