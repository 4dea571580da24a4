/**
 The batch driver of the OSM download tool: it walks the scene catalog
 (categories in order, each a list of named locations), derives one output
 path per location from the sanitized category and location names and the
 coordinates, skips a location whose file already exists, downloads the
 others, and pauses after every download except one made for the very last
 location.

 The outside world enters as parameters: the set of files that exist before
 the run, the running location numbers whose download fails, and the
 `{:.4f}` rendering of a coordinate. The run's observable effects (skips,
 downloads and pauses) are recorded as a log of events.
 */
module Batch {
  import opened Sanitizer

  /** The base directory under which every category folder is created. */
  const OutputBaseDir := "appdata/map/osm"

  datatype Location = Location(lat: real, lon: real, name: string)

  /** One entry of the catalog: a category name and its locations, in order. */
  datatype Category = Category(name: string, locations: seq<Location>)

  // ---------------------------------------------------------------------
  // Output paths
  // ---------------------------------------------------------------------

  /** `os.path.join(a, b)` on POSIX: an absolute `b` replaces `a`; otherwise
      a `/` is inserted unless `a` is empty or already ends with one. */
  function Join(a: string, b: string): string {
    if b != [] && b[0] == '/' then b
    else if a == [] || a[|a| - 1] == '/' then a + b
    else a + "/" + b
  }

  /** The joined path always ends with its last component. */
  lemma JoinEndsWith(a: string, b: string)
    ensures |b| <= |Join(a, b)| && Join(a, b)[|Join(a, b)| - |b|..] == b
  {
    var r := Join(a, b);
    if !(b != [] && b[0] == '/') {
      assert r == (if a == [] || a[|a| - 1] == '/' then a else a + "/") + b;
    }
  }

  /** The tool's sanitizer as a function value. The path layer below takes
      the sanitizer as a parameter, so that reasoning about the run does not
      unfold the rewrite pipeline; the run itself uses this one. */
  function Sanitizing(u: Unicode): string -> string {
    (name: string) => Sanitize(u, name)
  }

  /** The folder of a category. */
  function CategoryDir(sanitize: string -> string, category: string): string {
    Join(OutputBaseDir, sanitize(category))
  }

  /** `{category}_{name}_{lat:.4f}_{lon:.4f}.osm`, with both names sanitized;
      `fmt` renders a coordinate with four decimals. */
  function FileName(sanitize: string -> string, fmt: real -> string, category: string, loc: Location): string {
    sanitize(category) + "_" + sanitize(loc.name) + "_" + fmt(loc.lat) + "_" + fmt(loc.lon) + ".osm"
  }

  function OutputPath(sanitize: string -> string, fmt: real -> string, category: string, loc: Location): string {
    Join(CategoryDir(sanitize, category), FileName(sanitize, fmt, category, loc))
  }

  /** As a string, every output path is the base directory, `/`, the
      sanitized category (a single segment, with no `/`), `/` and the file
      name. A category named `..` still leads out of the base directory
      (`SanitizeKeepsDots`). */
  lemma PathLayout(u: Unicode, fmt: real -> string, category: string, loc: Location)
    requires u.Valid()
    ensures OutputPath(Sanitizing(u), fmt, category, loc)
         == OutputBaseDir + "/" + Sanitize(u, category) + "/" + FileName(Sanitizing(u), fmt, category, loc)
    ensures forall i :: 0 <= i < |Sanitize(u, category)| ==> Sanitize(u, category)[i] != '/'
  {
    var sc := Sanitize(u, category);
    SanitizeAlphabet(u, category);
    assert !InClass(u, PathSeparator, sc[0]) && !InClass(u, PathSeparator, sc[|sc| - 1]);
    var dir := OutputBaseDir + "/" + sc;
    assert CategoryDir(Sanitizing(u), category) == dir;
    assert dir[|dir| - 1] == sc[|sc| - 1];
    var f := FileName(Sanitizing(u), fmt, category, loc);
    assert f[0] == sc[0];
  }

  /** The output paths of one category, in order. */
  function CategoryPaths(sanitize: string -> string, fmt: real -> string, c: Category): (paths: seq<string>)
    ensures |paths| == |c.locations|
    decreases |c.locations|
  {
    if c.locations == [] then []
    else
      var n := |c.locations| - 1;
      CategoryPaths(sanitize, fmt, Category(c.name, c.locations[..n])) + [OutputPath(sanitize, fmt, c.name, c.locations[n])]
  }

  /** The `i`-th path of a category is the path of its `i`-th location. */
  lemma {:induction false} CategoryPathAt(sanitize: string -> string, fmt: real -> string, c: Category, i: nat)
    requires i < |c.locations|
    ensures CategoryPaths(sanitize, fmt, c)[i] == OutputPath(sanitize, fmt, c.name, c.locations[i])
    decreases |c.locations|
  {
    var n := |c.locations| - 1;
    var front := Category(c.name, c.locations[..n]);
    if i < n {
      CategoryPathAt(sanitize, fmt, front, i);
      assert front.locations[i] == c.locations[i];
    }
  }

  /** `sum(len(coords) for coords in scenes.values())`. */
  function TotalLocations(scenes: seq<Category>): nat
    decreases |scenes|
  {
    if scenes == [] then 0
    else TotalLocations(scenes[..|scenes| - 1]) + |scenes[|scenes| - 1].locations|
  }

  /** The output paths of the whole catalog in visiting order: one per
      location. */
  function Flatten(sanitize: string -> string, fmt: real -> string, scenes: seq<Category>): (paths: seq<string>)
    ensures |paths| == TotalLocations(scenes)
    decreases |scenes|
  {
    if scenes == [] then []
    else Flatten(sanitize, fmt, scenes[..|scenes| - 1]) + CategoryPaths(sanitize, fmt, scenes[|scenes| - 1])
  }

  // ---------------------------------------------------------------------
  // The run, one location at a time
  // ---------------------------------------------------------------------

  /** What the run does for a location: skip it, download it (with the
      outcome), or pause before the next request. */
  datatype Event = Skipped(path: string) | Attempted(path: string, ok: bool) | Delay

  /** The driver's state: the three counters, the files on disk and the
      events so far. */
  datatype Tally = Tally(processed: nat, succeeded: nat, failed: nat, files: set<string>, log: seq<Event>)

  function Start(existing: set<string>): Tally {
    Tally(0, 0, 0, existing, [])
  }

  /** One iteration of the inner loop for `path`. An existing file counts as
      a success, with no download and no pause; otherwise the download for
      the running number `n` fails exactly when `n` is in `failing`, a successful one
      creates the file, and a pause follows unless `n` is the last number. */
  function Step(t: Tally, path: string, total: nat, failing: set<nat>): (r: Tally)
    ensures r.processed == t.processed + 1
    ensures r.succeeded + r.failed == t.succeeded + t.failed + 1
    ensures t.files <= r.files <= t.files + {path}
  {
    if path in t.files then Skip(t, path) else Attempt(t, path, t.processed + 1 !in failing, total)
  }

  function Skip(t: Tally, path: string): Tally {
    Tally(t.processed + 1, t.succeeded + 1, t.failed, t.files, t.log + [Skipped(path)])
  }

  /** A download of `path` with outcome `ok`, and the pause after it. */
  function Attempt(t: Tally, path: string, ok: bool, total: nat): Tally {
    var n := t.processed + 1;
    var attempted := t.log + [Attempted(path, ok)];
    var log := if n < total then attempted + [Delay] else attempted;
    if ok then Tally(n, t.succeeded + 1, t.failed, t.files + {path}, log)
    else Tally(n, t.succeeded, t.failed + 1, t.files, log)
  }

  /** The state after visiting `paths` in order. */
  function Replay(existing: set<string>, paths: seq<string>, total: nat, failing: set<nat>): (r: Tally)
    ensures r.processed == |paths|
    decreases |paths|
  {
    if paths == [] then Start(existing)
    else Step(Replay(existing, paths[..|paths| - 1], total, failing), paths[|paths| - 1], total, failing)
  }

  lemma ReplaySnoc(existing: set<string>, paths: seq<string>, p: string, total: nat, failing: set<nat>)
    ensures Replay(existing, paths + [p], total, failing)
         == Step(Replay(existing, paths, total, failing), p, total, failing)
  {
    assert (paths + [p])[..|paths|] == paths;
  }

  lemma LastSplit<T>(s: seq<T>)
    requires s != []
    ensures s[..|s| - 1] + [s[|s| - 1]] == s
  {
  }

  // ---------------------------------------------------------------------
  // Reading the log
  // ---------------------------------------------------------------------

  datatype Kind = SkipKind | SuccessKind | FailureKind | DelayKind

  function KindOf(e: Event): Kind {
    match e
    case Skipped(_) => SkipKind
    case Attempted(_, ok) => if ok then SuccessKind else FailureKind
    case Delay => DelayKind
  }

  /** The number of events of kind `k`. */
  function Count(log: seq<Event>, k: Kind): (n: nat)
    ensures n <= |log|
    decreases |log|
  {
    if log == [] then 0
    else Count(log[..|log| - 1], k) + (if KindOf(log[|log| - 1]) == k then 1 else 0)
  }

  lemma CountSnoc(log: seq<Event>, e: Event, k: Kind)
    ensures Count(log + [e], k) == Count(log, k) + (if KindOf(e) == k then 1 else 0)
  {
    assert (log + [e])[..|log|] == log;
  }

  /** No event of kind `k` exactly when the count is zero. */
  lemma {:induction false} CountZero(log: seq<Event>, k: Kind)
    ensures Count(log, k) == 0 <==> forall i :: 0 <= i < |log| ==> KindOf(log[i]) != k
    decreases |log|
  {
    if log != [] {
      var front := log[..|log| - 1];
      CountZero(front, k);
      assert forall i :: 0 <= i < |front| ==> front[i] == log[i];
    }
  }

  /** The paths of the skip and download events, in order. */
  function EventPaths(log: seq<Event>): (paths: seq<string>)
    ensures |paths| <= |log|
    decreases |log|
  {
    if log == [] then []
    else
      var last := log[|log| - 1];
      EventPaths(log[..|log| - 1]) + (if last.Delay? then [] else [last.path])
  }

  /** The paths of the successful downloads. */
  function Written(log: seq<Event>): set<string>
    decreases |log|
  {
    if log == [] then {}
    else
      var last := log[|log| - 1];
      Written(log[..|log| - 1]) + (if last.Attempted? && last.ok then {last.path} else {})
  }

  /** The log of a run that skips every path. */
  function SkipAll(paths: seq<string>): (log: seq<Event>)
    ensures |log| == |paths|
    decreases |paths|
  {
    if paths == [] then [] else SkipAll(paths[..|paths| - 1]) + [Skipped(paths[|paths| - 1])]
  }

  predicate EndsWithDownload(log: seq<Event>) {
    log != [] && log[|log| - 1].Attempted?
  }

  /** A pause only ever comes right after a download. */
  ghost predicate PausesFollowDownloads(log: seq<Event>) {
    && (log != [] ==> !log[0].Delay?)
    && forall i, j :: 0 <= i < j < |log| && j == i + 1 && log[j].Delay? ==> log[i].Attempted?
  }

  /** A download not at the very end is followed by a pause. */
  ghost predicate DownloadsThenPause(log: seq<Event>) {
    forall i, j :: 0 <= i < j < |log| && j == i + 1 && log[i].Attempted? ==> log[j].Delay?
  }

  lemma EventPathsSnoc(log: seq<Event>, e: Event)
    ensures EventPaths(log + [e]) == EventPaths(log) + (if e.Delay? then [] else [e.path])
  {
    assert (log + [e])[..|log|] == log;
  }

  lemma WrittenSnoc(log: seq<Event>, e: Event)
    ensures Written(log + [e]) == Written(log) + (if e.Attempted? && e.ok then {e.path} else {})
  {
    assert (log + [e])[..|log|] == log;
  }

  /** The path of every skip or download event is among the event paths. */
  lemma {:induction false} EventPathsMember(log: seq<Event>, i: nat)
    requires i < |log| && !log[i].Delay?
    ensures log[i].path in EventPaths(log)
    decreases |log|
  {
    if i < |log| - 1 {
      var front := log[..|log| - 1];
      assert front[i] == log[i];
      EventPathsMember(front, i);
    }
  }

  /** No download was made for a file in `existing`. */
  predicate AvoidsExisting(existing: set<string>, log: seq<Event>) {
    forall i :: 0 <= i < |log| && log[i].Attempted? ==> log[i].path !in existing
  }

  lemma AvoidsExistingSnoc(existing: set<string>, log: seq<Event>, e: Event)
    requires AvoidsExisting(existing, log)
    requires e.Attempted? ==> e.path !in existing
    ensures AvoidsExisting(existing, log + [e])
  {
    var l := log + [e];
    assert forall i :: 0 <= i < |log| ==> l[i] == log[i];
  }

  /** Appending `e` keeps the pacing shape exactly when `e` is a pause if and
      only if the log ends with a download. */
  lemma PacingSnoc(log: seq<Event>, e: Event)
    requires PausesFollowDownloads(log) && DownloadsThenPause(log)
    requires e.Delay? <==> EndsWithDownload(log)
    ensures PausesFollowDownloads(log + [e]) && DownloadsThenPause(log + [e])
  {
    var l := log + [e];
    assert forall i :: 0 <= i < |log| ==> l[i] == log[i];
    assert l[|log|] == e;
  }

  // ---------------------------------------------------------------------
  // One step keeps the bookkeeping
  // ---------------------------------------------------------------------

  /** The summary counters agree with the log: a skip counts as a success. */
  predicate CountersMatch(t: Tally) {
    && t.succeeded == Count(t.log, SkipKind) + Count(t.log, SuccessKind)
    && t.failed == Count(t.log, FailureKind)
  }

  lemma StepCounters(t: Tally, p: string, total: nat, failing: set<nat>)
    requires CountersMatch(t)
    ensures CountersMatch(Step(t, p, total, failing))
  {
    var r := Step(t, p, total, failing);
    if p in t.files {
      assert r == Skip(t, p);
      SkipCounters(t, p);
    } else {
      assert r == Attempt(t, p, t.processed + 1 !in failing, total);
      AttemptCounters(t, p, t.processed + 1 !in failing, total);
    }
  }

  lemma SkipCounters(t: Tally, p: string)
    requires CountersMatch(t)
    ensures CountersMatch(Skip(t, p))
  {
    CountSnoc(t.log, Skipped(p), SkipKind);
    CountSnoc(t.log, Skipped(p), SuccessKind);
    CountSnoc(t.log, Skipped(p), FailureKind);
  }

  lemma AttemptCounters(t: Tally, p: string, ok: bool, total: nat)
    requires CountersMatch(t)
    ensures CountersMatch(Attempt(t, p, ok, total))
  {
    var e := Attempted(p, ok);
    var r := Attempt(t, p, ok, total);
    CountSnoc(t.log, e, SkipKind);
    CountSnoc(t.log, e, SuccessKind);
    CountSnoc(t.log, e, FailureKind);
    if t.processed + 1 < total {
      assert r.log == (t.log + [e]) + [Delay];
      CountSnoc(t.log + [e], Delay, SkipKind);
      CountSnoc(t.log + [e], Delay, SuccessKind);
      CountSnoc(t.log + [e], Delay, FailureKind);
    } else {
      assert r.log == t.log + [e];
    }
  }

  /** A step adds exactly one skip or download event, for its path. */
  lemma StepPaths(t: Tally, p: string, total: nat, failing: set<nat>)
    ensures EventPaths(Step(t, p, total, failing).log) == EventPaths(t.log) + [p]
  {
    var r := Step(t, p, total, failing);
    if p in t.files {
      assert r == Skip(t, p);
      EventPathsSnoc(t.log, Skipped(p));
    } else {
      assert r == Attempt(t, p, t.processed + 1 !in failing, total);
      AttemptPaths(t, p, t.processed + 1 !in failing, total);
    }
  }

  lemma AttemptPaths(t: Tally, p: string, ok: bool, total: nat)
    ensures EventPaths(Attempt(t, p, ok, total).log) == EventPaths(t.log) + [p]
  {
    var e := Attempted(p, ok);
    EventPathsSnoc(t.log, e);
    if t.processed + 1 < total {
      EventPathsSnoc(t.log + [e], Delay);
    }
  }

  /** A step keeps the files equal to the existing ones plus those written,
      and never downloads an existing file. */
  lemma StepFiles(existing: set<string>, t: Tally, p: string, total: nat, failing: set<nat>)
    requires t.files == existing + Written(t.log) && AvoidsExisting(existing, t.log)
    ensures var r := Step(t, p, total, failing);
      r.files == existing + Written(r.log) && AvoidsExisting(existing, r.log)
  {
    var r := Step(t, p, total, failing);
    if p in t.files {
      assert r == Skip(t, p);
      WrittenSnoc(t.log, Skipped(p));
      AvoidsExistingSnoc(existing, t.log, Skipped(p));
    } else {
      assert r == Attempt(t, p, t.processed + 1 !in failing, total);
      AttemptFiles(existing, t, p, t.processed + 1 !in failing, total);
    }
  }

  lemma AttemptFiles(existing: set<string>, t: Tally, p: string, ok: bool, total: nat)
    requires t.files == existing + Written(t.log) && AvoidsExisting(existing, t.log)
    requires p !in t.files
    ensures var r := Attempt(t, p, ok, total);
      r.files == existing + Written(r.log) && AvoidsExisting(existing, r.log)
  {
    var e := Attempted(p, ok);
    WrittenSnoc(t.log, e);
    AvoidsExistingSnoc(existing, t.log, e);
    if t.processed + 1 < total {
      WrittenSnoc(t.log + [e], Delay);
      AvoidsExistingSnoc(existing, t.log + [e], Delay);
    }
  }

  /** The pause count: one per download, except a download for the last
      location. */
  predicate PausesMatch(t: Tally, total: nat) {
    && Count(t.log, DelayKind) + (if EndsWithDownload(t.log) then 1 else 0)
       == Count(t.log, SuccessKind) + Count(t.log, FailureKind)
    && (EndsWithDownload(t.log) ==> t.processed == total)
  }

  lemma StepPauses(t: Tally, p: string, total: nat, failing: set<nat>)
    requires t.processed < total && PausesMatch(t, total)
    ensures PausesMatch(Step(t, p, total, failing), total)
    ensures var r := Step(t, p, total, failing);
      r.processed == total ==> r.log != [] && !r.log[|r.log| - 1].Delay?
  {
    var r := Step(t, p, total, failing);
    if p in t.files {
      assert r == Skip(t, p);
      CountSnoc(t.log, Skipped(p), DelayKind);
      CountSnoc(t.log, Skipped(p), SuccessKind);
      CountSnoc(t.log, Skipped(p), FailureKind);
    } else {
      assert r == Attempt(t, p, t.processed + 1 !in failing, total);
      AttemptPauses(t, p, t.processed + 1 !in failing, total);
    }
  }

  lemma AttemptPauses(t: Tally, p: string, ok: bool, total: nat)
    requires t.processed < total && PausesMatch(t, total)
    ensures PausesMatch(Attempt(t, p, ok, total), total)
    ensures var r := Attempt(t, p, ok, total);
      r.processed == total ==> r.log != [] && !r.log[|r.log| - 1].Delay?
  {
    var e := Attempted(p, ok);
    CountSnoc(t.log, e, DelayKind);
    CountSnoc(t.log, e, SuccessKind);
    CountSnoc(t.log, e, FailureKind);
    if t.processed + 1 < total {
      CountSnoc(t.log + [e], Delay, DelayKind);
      CountSnoc(t.log + [e], Delay, SuccessKind);
      CountSnoc(t.log + [e], Delay, FailureKind);
    }
  }

  lemma StepPacing(t: Tally, p: string, total: nat, failing: set<nat>)
    requires !EndsWithDownload(t.log)
    requires PausesFollowDownloads(t.log) && DownloadsThenPause(t.log)
    ensures var r := Step(t, p, total, failing);
      PausesFollowDownloads(r.log) && DownloadsThenPause(r.log)
  {
    var r := Step(t, p, total, failing);
    if p in t.files {
      assert r == Skip(t, p);
      PacingSnoc(t.log, Skipped(p));
    } else {
      assert r == Attempt(t, p, t.processed + 1 !in failing, total);
      var e := Attempted(p, t.processed + 1 !in failing);
      PacingSnoc(t.log, e);
      if t.processed + 1 < total {
        PacingSnoc(t.log + [e], Delay);
      }
    }
  }

  /** A step only appends to the log. */
  lemma StepExtends(t: Tally, p: string, total: nat, failing: set<nat>)
    ensures forall e :: e in t.log ==> e in Step(t, p, total, failing).log
  {
    var r := Step(t, p, total, failing);
    if p in t.files {
      assert r == Skip(t, p);
    } else {
      assert r == Attempt(t, p, t.processed + 1 !in failing, total);
    }
  }

  // ---------------------------------------------------------------------
  // Properties of a run
  // ---------------------------------------------------------------------

  /** A skip counts as a success, and the two summary counters add up to
      the number of locations processed, whatever the downloads do. */
  lemma {:induction false} ReplayCounts(existing: set<string>, paths: seq<string>, total: nat, failing: set<nat>)
    ensures var r := Replay(existing, paths, total, failing);
      CountersMatch(r) && r.succeeded + r.failed == |paths|
    decreases |paths|
  {
    if paths != [] {
      var front := paths[..|paths| - 1];
      var t := Replay(existing, front, total, failing);
      ReplayCounts(existing, front, total, failing);
      StepCounters(t, paths[|paths| - 1], total, failing);
    }
  }

  /** Every location is visited exactly once, in order: the skip and
      download events name the paths one for one. */
  lemma {:induction false} ReplayPaths(existing: set<string>, paths: seq<string>, total: nat, failing: set<nat>)
    ensures EventPaths(Replay(existing, paths, total, failing).log) == paths
    decreases |paths|
  {
    if paths != [] {
      var front := paths[..|paths| - 1];
      var t := Replay(existing, front, total, failing);
      ReplayPaths(existing, front, total, failing);
      StepPaths(t, paths[|paths| - 1], total, failing);
      LastSplit(paths);
    }
  }

  /** The files after the run are the existing ones plus those downloaded
      successfully, and no download is ever made for a file that existed. */
  lemma {:induction false} ReplayFiles(existing: set<string>, paths: seq<string>, total: nat, failing: set<nat>)
    ensures var r := Replay(existing, paths, total, failing);
      r.files == existing + Written(r.log) && AvoidsExisting(existing, r.log)
    decreases |paths|
  {
    if paths != [] {
      var front := paths[..|paths| - 1];
      var t := Replay(existing, front, total, failing);
      assert Replay(existing, paths, total, failing) == Step(t, paths[|paths| - 1], total, failing);
      ReplayFiles(existing, front, total, failing);
      StepFiles(existing, t, paths[|paths| - 1], total, failing);
    }
  }

  /** With no more paths than `total`: one pause per download except a
      download for the `total`-th path, a pause only right after a download,
      and a download not at the end always followed by a pause; a run over
      exactly `total` paths does not end with a pause. */
  lemma {:induction false} ReplayPauses(existing: set<string>, paths: seq<string>, total: nat, failing: set<nat>)
    requires |paths| <= total
    ensures var r := Replay(existing, paths, total, failing);
      && PausesMatch(r, total)
      && PausesFollowDownloads(r.log) && DownloadsThenPause(r.log)
      && (paths != [] && |paths| == total ==> r.log != [] && !r.log[|r.log| - 1].Delay?)
    decreases |paths|
  {
    if paths != [] {
      var front := paths[..|paths| - 1];
      var t := Replay(existing, front, total, failing);
      assert Replay(existing, paths, total, failing) == Step(t, paths[|paths| - 1], total, failing);
      ReplayPauses(existing, front, total, failing);
      StepPauses(t, paths[|paths| - 1], total, failing);
      StepPacing(t, paths[|paths| - 1], total, failing);
    }
  }

  /** After the run every location's file exists, unless a download for
      it failed. */
  lemma {:induction false} ReplayCovers(existing: set<string>, paths: seq<string>, total: nat, failing: set<nat>)
    ensures var r := Replay(existing, paths, total, failing);
      forall i :: 0 <= i < |paths| ==> paths[i] in r.files || Attempted(paths[i], false) in r.log
    decreases |paths|
  {
    if paths != [] {
      var front := paths[..|paths| - 1];
      var p := paths[|paths| - 1];
      var t := Replay(existing, front, total, failing);
      var r := Replay(existing, paths, total, failing);
      assert r == Step(t, p, total, failing);
      ReplayCovers(existing, front, total, failing);
      StepExtends(t, p, total, failing);
      if p !in t.files {
        assert r == Attempt(t, p, |paths| !in failing, total);
        assert Attempted(p, |paths| !in failing) in r.log;
      }
      forall i | 0 <= i < |paths|
        ensures paths[i] in r.files || Attempted(paths[i], false) in r.log
      {
        if i < |front| {
          assert paths[i] == front[i];
        }
      }
    }
  }

  /** When every path already exists, nothing is downloaded and nothing is
      written, there is no pause, and every location counts as a success. */
  lemma {:induction false} ReplayAllExisting(existing: set<string>, paths: seq<string>, total: nat, failing: set<nat>)
    requires forall i :: 0 <= i < |paths| ==> paths[i] in existing
    ensures var r := Replay(existing, paths, total, failing);
      r.files == existing && r.succeeded == |paths| && r.failed == 0 && r.log == SkipAll(paths)
    decreases |paths|
  {
    if paths != [] {
      var front := paths[..|paths| - 1];
      var p := paths[|paths| - 1];
      var t := Replay(existing, front, total, failing);
      assert forall i :: 0 <= i < |front| ==> front[i] == paths[i];
      ReplayAllExisting(existing, front, total, failing);
      assert Replay(existing, paths, total, failing) == Step(t, p, total, failing) == Skip(t, p);
    }
  }

  /** A second run over the files the first run left behind attempts only
      paths whose download failed in the first run. */
  lemma RerunOnlyFailed(existing: set<string>, paths: seq<string>, total: nat, failing: set<nat>, failingAgain: set<nat>)
    ensures var first := Replay(existing, paths, total, failing);
      var second := Replay(first.files, paths, total, failingAgain);
      forall i :: 0 <= i < |second.log| && second.log[i].Attempted? ==>
        Attempted(second.log[i].path, false) in first.log
  {
    var first := Replay(existing, paths, total, failing);
    var second := Replay(first.files, paths, total, failingAgain);
    ReplayFiles(first.files, paths, total, failingAgain);
    ReplayPaths(first.files, paths, total, failingAgain);
    ReplayCovers(existing, paths, total, failing);
    forall i | 0 <= i < |second.log| && second.log[i].Attempted?
      ensures Attempted(second.log[i].path, false) in first.log
    {
      var e := second.log[i];
      EventPathsMember(second.log, i);
      var j :| 0 <= j < |paths| && paths[j] == e.path;
      assert e.path !in first.files;
    }
  }

  /** After a run with no failure, a second run only skips. */
  lemma RerunClean(existing: set<string>, paths: seq<string>, total: nat, failing: set<nat>, failingAgain: set<nat>)
    ensures var first := Replay(existing, paths, total, failing);
      var second := Replay(first.files, paths, total, failingAgain);
      first.failed == 0 ==>
        second.files == first.files && second.succeeded == |paths| && second.failed == 0
        && second.log == SkipAll(paths)
  {
    var first := Replay(existing, paths, total, failing);
    if first.failed == 0 {
      ReplayCovers(existing, paths, total, failing);
      ReplayCounts(existing, paths, total, failing);
      CountZero(first.log, FailureKind);
      ReplayAllExisting(first.files, paths, total, failingAgain);
    }
  }

  /** Running again over the files the first run left behind downloads only
      locations whose download failed in the first run, and after a run with
      no failure a second run downloads nothing, pauses never and leaves the
      files as they were. */
  lemma Rerun(existing: set<string>, paths: seq<string>, total: nat, failing: set<nat>, failingAgain: set<nat>)
    ensures var first := Replay(existing, paths, total, failing);
      var second := Replay(first.files, paths, total, failingAgain);
      && (forall i :: 0 <= i < |second.log| && second.log[i].Attempted? ==>
            Attempted(second.log[i].path, false) in first.log)
      && (first.failed == 0 ==>
            second.files == first.files && second.succeeded == |paths| && second.failed == 0
            && second.log == SkipAll(paths))
  {
    RerunOnlyFailed(existing, paths, total, failing, failingAgain);
    RerunClean(existing, paths, total, failing, failingAgain);
  }

  /** Over a whole catalog (`total` is the number of locations): no pause
      without a location, at most `total - 1` pauses, and exactly
      `total - 1` when nothing was skipped. */
  lemma PauseBound(existing: set<string>, paths: seq<string>, failing: set<nat>)
    ensures var r := Replay(existing, paths, |paths|, failing);
      && (paths == [] ==> r.log == [])
      && (paths != [] ==> Count(r.log, DelayKind) <= |paths| - 1)
      && (paths != [] && Count(r.log, SkipKind) == 0 ==> Count(r.log, DelayKind) == |paths| - 1)
  {
    var r := Replay(existing, paths, |paths|, failing);
    ReplayCounts(existing, paths, |paths|, failing);
    ReplayPauses(existing, paths, |paths|, failing);
    if paths != [] && !EndsWithDownload(r.log) {
      var front := r.log[..|r.log| - 1];
      assert r.log[|r.log| - 1].Skipped?;
      assert Count(r.log, SkipKind) == Count(front, SkipKind) + 1;
    }
  }

  /** The pause rule looks at the running number, not at what follows. For
      example, a download whose only following location is skipped still
      pauses. The general rule is `DownloadsThenPause` in `ReplayPauses`. */
  lemma PauseBeforeSkip(p: string, q: string)
    requires p != q
    ensures Replay({q}, [p, q], 2, {}).log == [Attempted(p, true), Delay, Skipped(q)]
  {
    ReplaySnoc({q}, [p], q, 2, {});
    assert [p, q] == [p] + [q];
    ReplaySnoc({q}, [], p, 2, {});
    assert [p] == [] + [p];
  }

  lemma FlattenTake(sanitize: string -> string, fmt: real -> string, scenes: seq<Category>, c: nat)
    requires c < |scenes|
    ensures Flatten(sanitize, fmt, scenes[..c + 1]) == Flatten(sanitize, fmt, scenes[..c]) + CategoryPaths(sanitize, fmt, scenes[c])
  {
    assert scenes[..c + 1][..c] == scenes[..c];
  }

  lemma TakeSnoc<T>(a: seq<T>, s: seq<T>, i: nat)
    requires i < |s|
    ensures a + s[..i + 1] == (a + s[..i]) + [s[i]]
  {
    assert s[..i + 1] == s[..i] + [s[i]];
  }

  /** One more location of a category: the run over the paths so far,
      extended by that location's path. */
  lemma Advance(sanitize: string -> string, fmt: real -> string, category: Category, i: nat, existing: set<string>,
                done: seq<string>, total: nat, failing: set<nat>, p: string, t: Tally, r: Tally)
    requires i < |category.locations| && p == OutputPath(sanitize, fmt, category.name, category.locations[i])
    requires t == Replay(existing, done + CategoryPaths(sanitize, fmt, category)[..i], total, failing)
    requires r == Step(t, p, total, failing)
    ensures r == Replay(existing, done + CategoryPaths(sanitize, fmt, category)[..i + 1], total, failing)
  {
    var here := CategoryPaths(sanitize, fmt, category);
    CategoryPathAt(sanitize, fmt, category, i);
    TakeSnoc(done, here, i);
    ReplaySnoc(existing, done + here[..i], here[i], total, failing);
  }

  /** What the inner loop does with one output path, after counting its
      location: skip it when the file exists, otherwise download it, count
      the outcome and pause unless this is the last location of the run. */
  method VisitPath(outputPath: string, totalLocations: nat, failing: set<nat>, processedCount: nat,
                   successCount: nat, failedCount: nat, files: set<string>, log: seq<Event>)
    returns (succeeded: nat, failed: nat, files': set<string>, log': seq<Event>)
    requires processedCount > 0
    ensures Tally(processedCount, succeeded, failed, files', log')
         == Step(Tally(processedCount - 1, successCount, failedCount, files, log), outputPath, totalLocations, failing)
  {
    succeeded, failed, files', log' := successCount, failedCount, files, log;
    if outputPath in files {
      succeeded := succeeded + 1;
      log' := log' + [Skipped(outputPath)];
      return;
    }
    var success := processedCount !in failing;
    if success {
      succeeded := succeeded + 1;
      files' := files' + {outputPath};
    } else {
      failed := failed + 1;
    }
    log' := log' + [Attempted(outputPath, success)];
    if processedCount < totalLocations {
      log' := log' + [Delay];
    }
  }

  /** One iteration of the inner loop: the `i`-th location of `category`,
      with the category's sanitized name and folder computed once outside
      the loop. */
  method VisitLocation(sanitize: string -> string, fmt: real -> string, category: Category, i: nat,
                       sanitizedCategory: string, categoryDir: string, totalLocations: nat, failing: set<nat>,
                       ghost existing: set<string>, ghost done: seq<string>, before: Tally)
    returns (after: Tally)
    requires i < |category.locations|
    requires sanitizedCategory == sanitize(category.name) && categoryDir == Join(OutputBaseDir, sanitizedCategory)
    requires before == Replay(existing, done + CategoryPaths(sanitize, fmt, category)[..i], totalLocations, failing)
    ensures after == Replay(existing, done + CategoryPaths(sanitize, fmt, category)[..i + 1], totalLocations, failing)
  {
    var processedCount := before.processed + 1;
    var loc := category.locations[i];
    var sanitizedName := sanitize(loc.name);
    var filename := sanitizedCategory + "_" + sanitizedName + "_" + fmt(loc.lat) + "_" + fmt(loc.lon) + ".osm";
    var outputPath := Join(categoryDir, filename);
    var successCount, failedCount, files, log :=
      VisitPath(outputPath, totalLocations, failing, processedCount, before.succeeded, before.failed, before.files, before.log);
    after := Tally(processedCount, successCount, failedCount, files, log);
    Advance(sanitize, fmt, category, i, existing, done, totalLocations, failing, outputPath, before, after);
  }

  /** The inner loop over the locations of one category; the state it
      carries (the counters, the files on disk and the event log) is a
      `Tally`. */
  method VisitCategory(sanitize: string -> string, fmt: real -> string, category: Category, totalLocations: nat, failing: set<nat>,
                       ghost existing: set<string>, ghost done: seq<string>, before: Tally)
    returns (after: Tally)
    requires before == Replay(existing, done, totalLocations, failing)
    ensures after == Replay(existing, done + CategoryPaths(sanitize, fmt, category), totalLocations, failing)
  {
    var sanitizedCategory := sanitize(category.name);
    var categoryDir := Join(OutputBaseDir, sanitizedCategory);
    assert done + CategoryPaths(sanitize, fmt, category)[..0] == done;
    after := before;
    for i := 0 to |category.locations|
      invariant after == Replay(existing, done + CategoryPaths(sanitize, fmt, category)[..i], totalLocations, failing)
    {
      after := VisitLocation(sanitize, fmt, category, i, sanitizedCategory, categoryDir, totalLocations, failing,
                             existing, done, after);
    }
    assert CategoryPaths(sanitize, fmt, category)[..|category.locations|] == CategoryPaths(sanitize, fmt, category);
  }

  /** The whole run: every category in order. */
  method DownloadAll(u: Unicode, fmt: real -> string, scenes: seq<Category>, existing: set<string>, failing: set<nat>)
    returns (summary: Tally)
    ensures summary == Replay(existing, Flatten(Sanitizing(u), fmt, scenes), TotalLocations(scenes), failing)
    ensures summary.processed == TotalLocations(scenes)
    ensures summary.succeeded + summary.failed == TotalLocations(scenes)
  {
    var totalLocations := TotalLocations(scenes);
    summary := Start(existing);
    for c := 0 to |scenes|
      invariant summary == Replay(existing, Flatten(Sanitizing(u), fmt, scenes[..c]), totalLocations, failing)
    {
      FlattenTake(Sanitizing(u), fmt, scenes, c);
      summary := VisitCategory(Sanitizing(u), fmt, scenes[c], totalLocations, failing, existing, Flatten(Sanitizing(u), fmt, scenes[..c]), summary);
    }
    assert scenes[..|scenes|] == scenes;
    ReplayCounts(existing, Flatten(Sanitizing(u), fmt, scenes), totalLocations, failing);
  }
}
