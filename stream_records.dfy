/**
 * The streaming service's MovieFile record, the 30-day clean-up command that
 * resets stale downloads, the status endpoint's problem classification and
 * the start endpoint's decision whether to launch processing.
 */
module StreamRecords {
  import opened Wrappers
  import opened Text

  /**
   * download_status. The first five are the field's declared choices; the
   * processing thread also stores DL_AND_CONVERT and PLAYABLE, which the
   * database accepts because choices are not enforced on save.
   */
  datatype Status = Pending | Downloading | Ready | Error | Converting | DlAndConvert | Playable

  /** The declared choices of download_status. */
  predicate IsDeclaredChoice(s: Status) {
    s in {Pending, Downloading, Ready, Error, Converting}
  }

  /** A snapshot of one MovieFile row; times are seconds on one clock. */
  datatype MovieRow = MovieRow(
    id: nat,
    imdbId: Option<String>,
    magnetLink: String,
    filePath: Option<String>,
    status: Status,
    progress: real,
    lastWatched: int,
    createdAt: int)

  class MovieFile {
    var id: nat
    var imdbId: Option<String>
    var magnetLink: String
    var filePath: Option<String>
    var status: Status
    var progress: real
    var lastWatched: int
    var createdAt: int

    function Row(): MovieRow
      reads this
    {
      MovieRow(id, imdbId, magnetLink, filePath, status, progress, lastWatched, createdAt)
    }

    /** A new row: magnet_link given, status PENDING, progress 0, no file, both times now. */
    constructor (id: nat, imdbId: Option<String>, magnetLink: String, now: int)
      ensures Row() == MovieRow(id, imdbId, magnetLink, None, Pending, 0.0, now, now)
      ensures IsDeclaredChoice(status)
    {
      this.id := id;
      this.imdbId := imdbId;
      this.magnetLink := magnetLink;
      this.filePath := None;
      this.status := Pending;
      this.progress := 0.0;
      this.lastWatched := now;
      this.createdAt := now;
    }

    /** update_last_watched: only last_watched changes, to now. */
    method UpdateLastWatched(now: int)
      modifies this
      ensures Row() == old(Row()).(lastWatched := now)
    {
      lastWatched := now;
    }

    /** The field updates of delete_movie_content: status PENDING, progress 0, file_path cleared. */
    method ClearContent()
      modifies this
      ensures Row() == ResetRow(old(Row()))
    {
      status := Pending;
      progress := 0.0;
      filePath := None;
    }
  }

  // ---------------------------------------------------------------- paths

  /** Python's posixpath.join of two components. */
  function JoinPath(a: String, b: String): (r: String)
    ensures StartsWith(b, "/") ==> r == b
    ensures EndsWith(r, b)
  {
    if StartsWith(b, "/") then b
    else if a == [] || EndsWith(a, "/") then a + b
    else a + "/" + b
  }

  /** Python's os.path.join over several components: an absolute component discards everything before it. */
  function JoinAll(parts: seq<String>): String
    decreases |parts|
  {
    if parts == [] then []
    else if |parts| == 1 then parts[0]
    else JoinPath(JoinAll(parts[..|parts| - 1]), parts[|parts| - 1])
  }

  /** One past the last '/' of p, or 0 when there is none. */
  function AfterLastSlash(p: String): (i: nat)
    ensures i <= |p|
    ensures i > 0 ==> p[i - 1] == '/'
    ensures forall k :: i <= k < |p| ==> p[k] != '/'
  {
    if p == [] then 0
    else if p[|p| - 1] == '/' then |p|
    else AfterLastSlash(p[..|p| - 1])
  }

  function StripTrailingSlashes(p: String): (r: String)
    ensures |r| <= |p| && r == p[..|r|]
    ensures r != [] ==> r[|r| - 1] != '/'
  {
    if p != [] && p[|p| - 1] == '/' then StripTrailingSlashes(p[..|p| - 1]) else p
  }

  predicate AllSlashes(p: String) { forall k :: 0 <= k < |p| ==> p[k] == '/' }

  /** Python's posixpath.dirname. */
  function Dirname(p: String): (r: String)
    ensures |r| <= |p| && r == p[..|r|]
  {
    var head := p[..AfterLastSlash(p)];
    if head != [] && !AllSlashes(head) then StripTrailingSlashes(head) else head
  }

  /** The parent of dir/name, for a name without '/', is dir itself. */
  lemma DirnameOfChild(dir: String, name: String)
    requires dir != [] && dir[|dir| - 1] != '/' && !AllSlashes(dir)
    requires forall k :: 0 <= k < |name| ==> name[k] != '/'
    ensures Dirname(JoinPath(dir, name)) == dir
  {
    var p := JoinPath(dir, name);
    assert p == dir + "/" + name by {
      assert name == [] || name[0] != '/';
      assert !EndsWith(dir, "/");
    }
    AfterLastSlashOfChild(dir, name);
    var head := p[..|dir| + 1];
    assert head == dir + "/";
    assert !AllSlashes(head) by {
      var k :| 0 <= k < |dir| && dir[k] != '/';
      assert head[k] == dir[k];
    }
    assert StripTrailingSlashes(head) == dir by {
      assert head[..|dir|] == dir;
      assert StripTrailingSlashes(dir) == dir;
    }
  }

  lemma {:induction false} AfterLastSlashOfChild(dir: String, name: String)
    requires forall k :: 0 <= k < |name| ==> name[k] != '/'
    ensures AfterLastSlash(dir + "/" + name) == |dir| + 1
    decreases |name|
  {
    var p := dir + "/" + name;
    if name == [] {
      assert p[|p| - 1] == '/';
    } else {
      assert p[|p| - 1] == name[|name| - 1];
      assert p[..|p| - 1] == dir + "/" + name[..|name| - 1];
      AfterLastSlashOfChild(dir, name[..|name| - 1]);
    }
  }

  /** The directory holding a movie's file: the parent of MEDIA_ROOT/file_path. */
  function MovieDir(mediaRoot: String, filePath: String): String {
    Dirname(JoinPath(mediaRoot, filePath))
  }

  /** p is d or lies inside d. */
  predicate Under(p: String, d: String) { p == d || StartsWith(p, d + "/") }

  // ---------------------------------------------------------------- clean-up

  const Day: nat := 86400
  const UnwatchedDays: nat := 30

  function Cutoff(now: int): int { now - UnwatchedDays * Day }

  /** The clean-up query: last watched before the cutoff and fully downloaded. */
  predicate IsExpired(r: MovieRow, cutoff: int) {
    r.lastWatched < cutoff && r.status == Ready
  }

  /** `if movie.file_path:` — set and not the empty string. */
  predicate HasFile(r: MovieRow) { r.filePath.Some? && r.filePath.value != [] }

  /** The soft delete: PENDING, progress 0, no file; the magnet link and the rest are kept. */
  function ResetRow(r: MovieRow): (s: MovieRow)
    ensures s.status == Pending && s.progress == 0.0 && s.filePath == None
    ensures s.id == r.id && s.imdbId == r.imdbId && s.magnetLink == r.magnetLink
    ensures s.lastWatched == r.lastWatched && s.createdAt == r.createdAt
  {
    r.(status := Pending, progress := 0.0, filePath := None)
  }

  /** A reset row is never selected again, whatever the cutoff: clean-up is idempotent. */
  lemma ResetNotExpired(r: MovieRow, cutoff: int)
    ensures !IsExpired(ResetRow(r), cutoff)
    ensures ResetRow(ResetRow(r)) == ResetRow(r)
  {
  }

  /** The record has a file whose directory's removal raises. */
  predicate RemovalFails(r: MovieRow, mediaRoot: String, failing: set<String>) {
    HasFile(r) && MovieDir(mediaRoot, r.filePath.value) in failing
  }

  /** The files on disk, as the set of existing paths. */
  class Disk {
    var paths: set<String>

    constructor (paths: set<String>)
      ensures this.paths == paths
    {
      this.paths := paths;
    }

    /** shutil.rmtree: d and everything under it disappear. */
    method RemoveTree(d: String)
      modifies this
      ensures paths == set p | p in old(paths) && !Under(p, d)
    {
      paths := set p | p in paths && !Under(p, d);
    }
  }

  /**
   * The paths delete_movie_content leaves: the movie directory and everything
   * under it go when the record has a file and the directory exists; nothing
   * else is touched.
   */
  function ContentLeft(r: MovieRow, mediaRoot: String, paths: set<String>): (left: set<String>)
    ensures left <= paths
    ensures HasFile(r) ==> MovieDir(mediaRoot, r.filePath.value) !in left
    ensures forall p | p in paths && p !in left :: HasFile(r) && Under(p, MovieDir(mediaRoot, r.filePath.value))
    ensures !HasFile(r) ==> left == paths
  {
    if HasFile(r) && MovieDir(mediaRoot, r.filePath.value) in paths then
      var d := MovieDir(mediaRoot, r.filePath.value);
      assert Under(d, d);
      set p | p in paths && !Under(p, d)
    else paths
  }

  /** The movie directories of the records that have a file. */
  ghost function FileDirs(rows: seq<MovieRow>, mediaRoot: String): set<String> {
    set i | 0 <= i < |rows| && HasFile(rows[i]) :: MovieDir(mediaRoot, rows[i].filePath.value)
  }

  /** p lies in one of dirs. */
  ghost predicate InSome(p: String, dirs: set<String>) {
    exists d | d in dirs :: Under(p, d)
  }

  /** Every path that disappeared lies in one of dirs. */
  ghost predicate RemovedOnlyUnder(before: set<String>, after: set<String>, dirs: set<String>) {
    && after <= before
    && forall p {:trigger InSome(p, dirs)} | p in before && p !in after :: InSome(p, dirs)
  }

  /**
   * delete_movie_content. When the movie has a file and its directory exists
   * the directory is removed; a removal that raises (the directory is in
   * failing) is reported and leaves the record untouched. Otherwise the
   * record is reset.
   */
  method DeleteMovieContent(m: MovieFile, mediaRoot: String, disk: Disk, failing: set<String>)
    returns (ok: bool)
    modifies m, disk
    ensures disk.paths <= old(disk.paths)
    ensures ok ==> m.Row() == ResetRow(old(m.Row())) && disk.paths == ContentLeft(old(m.Row()), mediaRoot, old(disk.paths))
    ensures !ok ==> m.Row() == old(m.Row()) && unchanged(disk)
    ensures !ok <==> HasFile(old(m.Row())) && var d := MovieDir(mediaRoot, old(m.filePath.value));
                       d in old(disk.paths) && d in failing
    ensures ok && HasFile(old(m.Row())) ==> MovieDir(mediaRoot, old(m.filePath.value)) !in disk.paths
  {
    ghost var row, paths := m.Row(), disk.paths;
    if m.filePath.Some? && m.filePath.value != [] {
      var dir := MovieDir(mediaRoot, m.filePath.value);
      if dir in disk.paths {
        if dir in failing {
          return false;
        }
        disk.RemoveTree(dir);
      }
    }
    assert disk.paths == ContentLeft(row, mediaRoot, paths);
    m.ClearContent();
    ok := true;
  }

  ghost predicate Distinct(table: seq<MovieFile>) {
    forall i, j :: 0 <= i < j < |table| ==> table[i] != table[j]
  }

  /** The rows the clean-up query selects, in table order. */
  function Expired(table: seq<MovieFile>, cutoff: int): (r: seq<MovieFile>)
    reads set m | m in table
    ensures forall m | m in r :: m in table && IsExpired(m.Row(), cutoff)
    ensures forall m | m in table && IsExpired(m.Row(), cutoff) :: m in r
  {
    if table == [] then []
    else (if IsExpired(table[0].Row(), cutoff) then [table[0]] else []) + Expired(table[1..], cutoff)
  }

  lemma {:induction false} ExpiredDistinct(table: seq<MovieFile>, cutoff: int)
    requires Distinct(table)
    ensures Distinct(Expired(table, cutoff))
    decreases |table|
  {
    if table != [] {
      ExpiredDistinct(table[1..], cutoff);
      var rest := Expired(table[1..], cutoff);
      assert table[0] !in rest;
    }
  }

  /**
   * What clean-up leaves of one selected record (before -> after): reset, and
   * its directory gone; or, when removing the directory raises, reset or
   * untouched with its id reported.
   */
  ghost predicate Cleaned(after: MovieRow, before: MovieRow, failed: seq<nat>, mediaRoot: String,
                          failing: set<String>, paths: set<String>)
  {
    if RemovalFails(before, mediaRoot, failing) then
      after == ResetRow(before) || (after == before && before.id in failed)
    else
      after == ResetRow(before) && (HasFile(before) ==> MovieDir(mediaRoot, before.filePath.value) !in paths)
  }

  lemma CleanedLater(after: MovieRow, before: MovieRow, failed: seq<nat>, failed': seq<nat>, mediaRoot: String,
                     failing: set<String>, paths: set<String>, paths': set<String>)
    requires Cleaned(after, before, failed, mediaRoot, failing, paths)
    requires paths' <= paths && failed <= failed'
    ensures Cleaned(after, before, failed', mediaRoot, failing, paths')
  {
    if RemovalFails(before, mediaRoot, failing) && after != ResetRow(before) {
      var i :| 0 <= i < |failed| && failed[i] == before.id;
      assert failed'[i] == before.id;
    }
  }

  /** The rows of the records, in order. */
  function Rows(ms: seq<MovieFile>): (rows: seq<MovieRow>)
    reads set m | m in ms
    ensures |rows| == |ms| && forall i | 0 <= i < |ms| :: rows[i] == ms[i].Row()
  {
    seq(|ms|, i requires 0 <= i < |ms| reads set m | m in ms => ms[i].Row())
  }

  /** The loop of Command.handle: delete_movie_content on each selected record in turn. */
  method CleanEach(selected: seq<MovieFile>, mediaRoot: String, disk: Disk, failing: set<String>)
    returns (failed: seq<nat>)
    requires Distinct(selected)
    modifies (set m | m in selected), disk
    ensures RemovedOnlyUnder(old(disk.paths), disk.paths, FileDirs(old(Rows(selected)), mediaRoot))
    ensures forall i | 0 <= i < |selected| ::
              Cleaned(selected[i].Row(), old(selected[i].Row()), failed, mediaRoot, failing, disk.paths)
  {
    ghost var rows := Rows(selected);
    ghost var start := disk.paths;
    failed := [];
    for k := 0 to |selected|
      invariant RemovedOnlyUnder(start, disk.paths, FileDirs(rows, mediaRoot))
      invariant forall i | k <= i < |selected| :: selected[i].Row() == rows[i]
      invariant forall i | 0 <= i < k :: Cleaned(selected[i].Row(), rows[i], failed, mediaRoot, failing, disk.paths)
    {
      failed := CleanNext(selected, k, mediaRoot, disk, failing, failed, rows, start);
    }
  }

  /** One turn of the clean-up loop: record k is cleaned, and what the earlier turns did stays done. */
  method CleanNext(selected: seq<MovieFile>, k: nat, mediaRoot: String, disk: Disk, failing: set<String>,
                   failed: seq<nat>, ghost rows: seq<MovieRow>, ghost start: set<String>)
    returns (failed': seq<nat>)
    requires Distinct(selected) && k < |selected| == |rows|
    requires RemovedOnlyUnder(start, disk.paths, FileDirs(rows, mediaRoot))
    requires forall i | k <= i < |selected| :: selected[i].Row() == rows[i]
    requires forall i | 0 <= i < k :: Cleaned(selected[i].Row(), rows[i], failed, mediaRoot, failing, disk.paths)
    modifies selected[k], disk
    ensures RemovedOnlyUnder(start, disk.paths, FileDirs(rows, mediaRoot))
    ensures forall i | k + 1 <= i < |selected| :: selected[i].Row() == rows[i]
    ensures forall i | 0 <= i < k + 1 :: Cleaned(selected[i].Row(), rows[i], failed', mediaRoot, failing, disk.paths)
  {
    var m := selected[k];
    ghost var before, paths0 := Rows(selected), disk.paths;
    var ok := DeleteMovieContent(m, mediaRoot, disk, failing);
    RemovedStep(start, paths0, disk.paths, rows, k, mediaRoot);
    failed' := if ok then failed else failed + [m.id];
    ghost var after := Rows(selected);
    forall i | 0 <= i < |selected| && i != k ensures after[i] == before[i] {
      assert selected[i] != m;
    }
    DeletedIsCleaned(after[k], rows[k], ok, failed', mediaRoot, failing, paths0, disk.paths);
    CleanedStep(before, after, rows, k, failed, failed', mediaRoot, failing, paths0, disk.paths);
  }

  /** The outcome of delete_movie_content on one record meets Cleaned. */
  lemma DeletedIsCleaned(after: MovieRow, before: MovieRow, ok: bool, failed: seq<nat>, mediaRoot: String,
                         failing: set<String>, paths0: set<String>, paths: set<String>)
    requires ok ==> after == ResetRow(before) && paths == ContentLeft(before, mediaRoot, paths0)
    requires !ok ==> after == before && failed != [] && failed[|failed| - 1] == before.id
    requires !ok ==> RemovalFails(before, mediaRoot, failing)
    ensures Cleaned(after, before, failed, mediaRoot, failing, paths)
  {
  }

  /** Cleaned rows stay cleaned when one more row, k, is cleaned and nothing else changes. */
  lemma CleanedStep(before: seq<MovieRow>, after: seq<MovieRow>, rows: seq<MovieRow>, k: nat,
                    failed: seq<nat>, failed': seq<nat>, mediaRoot: String, failing: set<String>,
                    paths0: set<String>, paths: set<String>)
    requires k < |before| == |after| == |rows|
    requires forall i | 0 <= i < k :: Cleaned(before[i], rows[i], failed, mediaRoot, failing, paths0)
    requires forall i | 0 <= i < |after| && i != k :: after[i] == before[i]
    requires Cleaned(after[k], rows[k], failed', mediaRoot, failing, paths)
    requires failed <= failed' && paths <= paths0
    ensures forall i | 0 <= i < k + 1 :: Cleaned(after[i], rows[i], failed', mediaRoot, failing, paths)
  {
    forall i | 0 <= i < k ensures Cleaned(after[i], rows[i], failed', mediaRoot, failing, paths) {
      CleanedLater(after[i], rows[i], failed, failed', mediaRoot, failing, paths0, paths);
    }
  }

  /** One more removal confined to the directory of row k keeps every removal confined to FileDirs. */
  lemma RemovedStep(start: set<String>, before: set<String>, after: set<String>, rows: seq<MovieRow>, k: nat,
                    mediaRoot: String)
    requires k < |rows|
    requires RemovedOnlyUnder(start, before, FileDirs(rows, mediaRoot))
    requires after == before || after == ContentLeft(rows[k], mediaRoot, before)
    ensures RemovedOnlyUnder(start, after, FileDirs(rows, mediaRoot))
  {
    if after != before {
      forall p | p in start && p !in after ensures InSome(p, FileDirs(rows, mediaRoot)) {
        if p in before {
          var d := MovieDir(mediaRoot, rows[k].filePath.value);
          assert d in FileDirs(rows, mediaRoot);
          assert Under(p, d);
        }
      }
    }
  }

  /**
   * Command.handle: every movie last watched more than 30 days before now and
   * READY is cleaned (a failure on one is reported in failed and the loop goes
   * on); every other record is left as it was.
   */
  method CleanUp(table: seq<MovieFile>, now: int, mediaRoot: String, disk: Disk, failing: set<String>)
    returns (failed: seq<nat>)
    requires Distinct(table)
    modifies (set m | m in table), disk
    ensures RemovedOnlyUnder(old(disk.paths), disk.paths, FileDirs(old(Rows(Expired(table, Cutoff(now)))), mediaRoot))
    ensures forall m | m in table ::
              if IsExpired(old(m.Row()), Cutoff(now)) then Cleaned(m.Row(), old(m.Row()), failed, mediaRoot, failing, disk.paths)
              else m.Row() == old(m.Row())
    ensures (forall m | m in table :: !IsExpired(old(m.Row()), Cutoff(now))) ==> failed == [] && disk.paths == old(disk.paths)
  {
    var selected := Expired(table, Cutoff(now));
    ExpiredDistinct(table, Cutoff(now));
    if selected == [] {
      return [];
    }
    assert selected[0] in table && IsExpired(old(selected[0].Row()), Cutoff(now));
    failed := CleanEach(selected, mediaRoot, disk, failing);
    forall m | m in table && IsExpired(old(m.Row()), Cutoff(now))
      ensures Cleaned(m.Row(), old(m.Row()), failed, mediaRoot, failing, disk.paths)
    {
      var i :| 0 <= i < |selected| && selected[i] == m;
    }
  }

  // ---------------------------------------------------------------- status and start

  datatype Problem = NoProblem | ErrorProblem | NoPeers

  /**
   * The status endpoint's problem field: 'error' for an ERROR record,
   * 'no-peers' when the swarm is empty and no variant holds a segment,
   * otherwise none. segmentCounts has one entry per variant.
   */
  function Classify(status: Status, seeds: nat, peers: nat, segmentCounts: seq<nat>): (p: Problem)
    ensures p == ErrorProblem <==> status == Error
    ensures p == NoPeers <==> status != Error && seeds + peers == 0 && forall i :: 0 <= i < |segmentCounts| ==> segmentCounts[i] == 0
  {
    if status == Error then ErrorProblem
    else if seeds + peers == 0 && !(exists i :: 0 <= i < |segmentCounts| && segmentCounts[i] > 0) then NoPeers
    else NoProblem
  }

  /**
   * Whether the status endpoint removes the torrent handle: only for an
   * 'error' problem with cleanup=1, and only when the record has a magnet
   * link to derive the handle id from.
   */
  function RemovesTorrent(p: Problem, cleanup: Option<String>, magnet: String): (r: bool)
    ensures r ==> p == ErrorProblem && magnet != []
    ensures p == ErrorProblem && cleanup == Some("1") && magnet != [] ==> r
  {
    p == ErrorProblem && cleanup == Some("1") && magnet != []
  }

  /**
   * Through the classification: the handle is removed exactly for an ERROR
   * record with a magnet link when cleanup=1 is asked for; a 'no-peers'
   * record never loses its handle, whatever the request says.
   */
  lemma CleanupOnlyOnError(status: Status, seeds: nat, peers: nat, counts: seq<nat>, cleanup: Option<String>, magnet: String)
    ensures RemovesTorrent(Classify(status, seeds, peers, counts), cleanup, magnet)
            <==> status == Error && cleanup == Some("1") && magnet != []
    ensures Classify(status, seeds, peers, counts) == NoPeers ==> !RemovesTorrent(Classify(status, seeds, peers, counts), cleanup, magnet)
  {
  }

  /** The torrent manager's handles, keyed by str(hash(magnet_link)). */
  class TorrentHandles {
    var handles: set<String>

    constructor(initial: set<String>)
      ensures handles == initial
    {
      handles := initial;
    }

    /** remove_torrent: forgets the handle when it is known; an unknown id changes nothing. */
    method RemoveTorrent(id: String)
      modifies this
      ensures handles == old(handles) - {id}
    {
      if id in handles {
        handles := handles - {id};
      }
    }

    /**
     * The cleanup step of the status endpoint: the movie's handle is removed
     * exactly when RemovesTorrent holds, and every other handle is kept.
     */
    method StatusCleanup(p: Problem, cleanup: Option<String>, magnet: String, handleId: String -> String)
      modifies this
      ensures RemovesTorrent(p, cleanup, magnet) ==> handles == old(handles) - {handleId(magnet)}
      ensures !RemovesTorrent(p, cleanup, magnet) ==> handles == old(handles)
    {
      if p == ErrorProblem && cleanup == Some("1") {
        if magnet != [] {
          RemoveTorrent(handleId(magnet));
        }
      }
    }
  }

  /** The statuses for which start_stream does not launch processing. */
  predicate InProgressOrDone(s: Status) {
    s in {Downloading, Converting, Ready}
  }

  datatype StartReply =
    | MissingFields
    | AlreadyRunning(status: Status, progress: real, id: nat)
    | Started(id: nat, imdbId: Option<String>)
    | MultipleRows

  /** The MovieFile table of the streaming service. */
  class MovieTable {
    var files: seq<MovieFile>
    var nextId: nat

    ghost predicate Valid()
      reads this, set m | m in files
    {
      forall m :: m in files ==> m.id < nextId
    }

    constructor ()
      ensures files == [] && nextId == 1 && Valid()
    {
      files := [];
      nextId := 1;
    }

    /** The rows whose imdb_id equals the given one. */
    function WithImdb(imdbId: String): (r: seq<MovieFile>)
      reads this, set m | m in files
      ensures forall m | m in r :: m in files && m.imdbId == Some(imdbId)
      ensures forall m | m in files && m.imdbId == Some(imdbId) :: m in r
    {
      Filter(files, imdbId)
    }

    static function Filter(fs: seq<MovieFile>, imdbId: String): (r: seq<MovieFile>)
      reads set m | m in fs
      ensures forall m | m in r :: m in fs && m.imdbId == Some(imdbId)
      ensures forall m | m in fs && m.imdbId == Some(imdbId) :: m in r
    {
      if fs == [] then []
      else (if fs[0].imdbId == Some(imdbId) then [fs[0]] else []) + Filter(fs[1..], imdbId)
    }

    /**
     * start_stream. Both magnet_link and imdb_id must be non-empty; the magnet
     * link is normalised by normalise (make_magnet_link, whose code is not
     * part of this model). get_or_create by imdb_id: several matches raise,
     * one match is reused, none creates a PENDING row. A row that is
     * DOWNLOADING, CONVERTING or READY is reported as is; for any other status
     * the processing thread is launched (launched is true) and PENDING is
     * answered.
     */
    method StartStream(magnetLink: Option<String>, imdbId: Option<String>, normalise: String -> String, now: int)
      returns (reply: StartReply, launched: bool)
      requires Valid()
      modifies this
      ensures Valid()
      ensures magnetLink.None? || magnetLink.value == [] || imdbId.None? || imdbId.value == [] ==>
                reply == MissingFields && !launched && files == old(files) && nextId == old(nextId)
      ensures reply.AlreadyRunning? ==> InProgressOrDone(reply.status) && !launched && files == old(files)
      ensures reply.Started? ==> launched && reply.imdbId == imdbId
      ensures launched <==> reply.Started?
      ensures reply.MultipleRows? ==> files == old(files) && nextId == old(nextId) && |old(WithImdb(imdbId.value))| > 1
      ensures magnetLink.Some? && magnetLink.value != [] && imdbId.Some? && imdbId.value != []
              && old(WithImdb(imdbId.value)) == [] ==>
                reply == Started(old(nextId), imdbId) && nextId == old(nextId) + 1
                && |files| == |old(files)| + 1 && files[..|old(files)|] == old(files)
                && fresh(files[|old(files)|])
                && files[|old(files)|].Row() == MovieRow(old(nextId), imdbId, normalise(magnetLink.value), None, Pending, 0.0, now, now)
      ensures magnetLink.Some? && magnetLink.value != [] && imdbId.Some? && imdbId.value != []
              && |old(WithImdb(imdbId.value))| == 1 ==>
                var m := old(WithImdb(imdbId.value))[0];
                files == old(files) && nextId == old(nextId)
                && (if InProgressOrDone(m.status) then reply == AlreadyRunning(m.status, m.progress, m.id)
                    else reply == Started(m.id, imdbId))
    {
      launched := false;
      if magnetLink.None? || magnetLink.value == [] || imdbId.None? || imdbId.value == [] {
        return MissingFields, false;
      }
      var link := normalise(magnetLink.value);
      var matches := WithImdb(imdbId.value);
      var m: MovieFile;
      if |matches| > 1 {
        return MultipleRows, false;
      } else if |matches| == 1 {
        m := matches[0];
      } else {
        m := new MovieFile(nextId, imdbId, link, now);
        files := files + [m];
        nextId := nextId + 1;
      }
      if InProgressOrDone(m.status) {
        return AlreadyRunning(m.status, m.progress, m.id), false;
      }
      reply := Started(m.id, m.imdbId);
      launched := true;
    }
  }

}
