# OSM scene downloader: filename sanitizer and batch driver

A verified Dafny model of the two pieces of logic in `tools/download_osm.py`:

* **`sanitize_filename`** (module `Sanitizer`, `sanitize.dfy`): the pipeline
  that turns a category or location name into a path segment. Each rewrite
  is its own function over `seq<char>`:
  1. `str.strip()` becomes `Trim(Whitespace)`;
  2. `re.sub(r"[\s/\\:]+", "_")` becomes `CollapseRuns(PathSeparator, '_')`;
  3. `re.sub(r"[^\w\-\.]", "")` becomes `Filter(Allowed)`;
  4. the `[_]{2,}` and `[-]{2,}` rewrites become `CollapseRuns(Exactly(c), c)`;
  5. `str.strip("_-")` becomes `Trim(Edge)`;
  6. the `"unnamed"` fallback is applied last.

  Python 3 matches `\w` and `\s` against the Unicode tables. The model fixes
  both classes on ASCII, to CPython's tables. Beyond ASCII they are a
  parameter, `Unicode`: the sets of extra word and extra space characters,
  which must be disjoint (`Unicode.Valid`).
* **The `__main__` batch driver** (module `Batch`, `batch.dfy`): the walk over
  the catalog, category by category and location by location. It keeps the
  counters `processed_count`, `success_count` and `failed_count`. It skips a
  location whose output file exists and counts it as a success. Otherwise it
  downloads and counts the outcome. After each attempted download it pauses,
  unless the running number has reached `total_locations`.

  The driver is imperative Dafny:
  * `DownloadAll` holds the outer loop over categories.
  * `VisitCategory` holds the inner loop over locations.
  * `VisitLocation` is one pass of the inner loop body; it computes the file name and output path.
  * `VisitPath` holds the skip-or-download decision, the counter updates and the conditional pause.

  Each method is proved against `Replay`, a fold of one step function
  (`Step`) over the run's output paths in visiting order. The properties of
  the run are then lemmas about `Replay`.

The outside world is passed in as parameters:
* the set of files that exist before the run (`existing`);
* the running numbers (`processed_count` values) whose download fails (`failing`);
* the `{:.4f}` rendering of a coordinate (`fmt`).

The run's effects are recorded as a log of events: `Skipped(path)`,
`Attempted(path, ok)` and `Delay` (one `time.sleep(API_DELAY)`).

The path functions take the sanitizer as a function parameter. The driver
passes the real sanitizer, `Sanitizing(u)`, which is `Sanitize` itself.

The comment at tools/download_osm.py:563 describes the kept characters as
"alphanumeric, underscore, hyphen, period". The pattern's `\w` is
Unicode-aware, and the model follows the pattern: non-ASCII word characters
survive the pipeline.

To verify, run from this directory:

    dafny verify --resource-limit 2000000 --verification-time-limit 0 --warn-contradictory-assumptions sanitize.dfy batch.dfy

## Model

| member | source | states |
|---|---|---|
| Sanitizer.IsWordChar | tools/download_osm.py:564 | definition of `\w`: `[A-Za-z0-9_]` on ASCII, the table's extra word characters beyond it; see `ValidClasses` |
| Sanitizer.IsSpace | tools/download_osm.py:559-561 | definition of `\s` and of what `str.strip()` removes: tab to carriage return, U+001C..U+001F and space on ASCII, the table's extra space characters beyond it; see `ValidClasses` |
| Sanitizer.InClass | tools/download_osm.py:559-569 | definition of the pipeline's character classes `\s`, `[\s/\\:]`, `[\w\-\.]`, `[_]`, `[-]` and the `_-` of `strip`; see `ValidClasses` |
| Sanitizer.ValidClasses | tools/download_osm.py:559-569 | when no whitespace is a word character, the classes that steps 1, 2, 4 and 5 remove or rewrite hold no solid character, no allowed character is a separator, and `_` is allowed but is no separator |
| Sanitizer.TrimLeft | tools/download_osm.py:559 | the removed prefix consists only of members of the class, and what is left does not start with one |
| Sanitizer.TrimRight | tools/download_osm.py:569 | the removed suffix consists only of members of the class, and what is left does not end with one |
| Sanitizer.Trim | tools/download_osm.py:559 | after `strip` with a character class, the string neither starts nor ends with a member |
| Sanitizer.CollapseRuns | tools/download_osm.py:561 | replacing each run by one character never lengthens the string, is empty only on empty input, and rewrites the first character exactly when it is in the class |
| Sanitizer.CollapseRun | tools/download_osm.py:561 | a maximal run of class members at the front becomes exactly one replacement (on this line: separators become one `_`), and the rewrite continues after it |
| Sanitizer.CollapseBetween | tools/download_osm.py:561 | a maximal run of class members between two pieces becomes exactly one replacement, and each piece is rewritten on its own: separators are replaced by `_`, never dropped |
| Sanitizer.CollapseClears | tools/download_osm.py:561 | when the replacement is outside the class, no member is left: on this line no whitespace, `/`, `\` or `:` survives, since `_` is not a separator |
| Sanitizer.Filter | tools/download_osm.py:564 | only characters of the class remain, and the string never grows |
| Sanitizer.Cleaned | tools/download_osm.py:559-569 | after steps 1-6 there is no `__` and no `--`, and a non-empty result neither starts nor ends with `_` or `-` |
| Sanitizer.Sanitize | tools/download_osm.py:556-573 | the result is never empty, neither starts nor ends with `_` or `-`, and holds no `__` or `--` |
| Sanitizer.FilterKeepsAll | tools/download_osm.py:564 | removing disallowed characters leaves an all-allowed string unchanged |
| Sanitizer.CollapseLeavesNoRepeat | tools/download_osm.py:566-567 | after each run of a class that contains `c` becomes one `c`, no two adjacent `c` remain |
| Sanitizer.CollapseKeepsNoRepeat | tools/download_osm.py:565-567 | collapsing runs of a class without `d` into a character other than `d` cannot create two adjacent `d` (so the `-` pass keeps the `_` pass's work) |
| Sanitizer.TrimKeepsNoRepeat | tools/download_osm.py:569 | stripping the ends cannot create a doubled character |
| Sanitizer.CollapseKeepsSolid | tools/download_osm.py:561 | replacing runs of a class with no solid character by a non-solid character keeps the solid characters (allowed ones other than `_` and `-`), in order |
| Sanitizer.CleanedAllowed | tools/download_osm.py:559-569 | every character left by steps 1-6 is a word character, `-` or `.` |
| Sanitizer.CleanedKeepsSolid | tools/download_osm.py:559-569 | steps 1-6 keep exactly the name's solid characters (allowed ones other than `_` and `-`), in order, and give the empty string exactly when there are none |
| Sanitizer.SanitizeAlphabet | tools/download_osm.py:561-564 | every character of the result is a word character, `-` or `.`; no whitespace, `/`, `\` or `:` survives |
| Sanitizer.SanitizeKeepsSolid | tools/download_osm.py:570-572 | the result is exactly `"unnamed"` when the name has no solid character (empty, or only whitespace, disallowed characters, `_` and `-`); otherwise it holds the name's solid characters in order |
| Sanitizer.SanitizeFixesSanitized | tools/download_osm.py:556-573 | a string already of the promised shape passes through every step unchanged |
| Sanitizer.SanitizeIdempotent | tools/download_osm.py:556-573 | sanitizing a sanitized name returns it unchanged |
| Sanitizer.CentralHongKong | tools/download_osm.py:559-564 | `"  Central Hong Kong! "` becomes `"Central_Hong_Kong"` |
| Sanitizer.SanitizeKeepsDots | tools/download_osm.py:564-572 | `.` and `..` pass through unchanged, so they are possible folder names |
| Batch.Join | tools/download_osm.py:703 | definition of POSIX `os.path.join` with two arguments; see `JoinEndsWith` and `PathLayout` |
| Batch.JoinEndsWith | tools/download_osm.py:703 | `os.path.join(a, b)` always ends with `b` |
| Batch.CategoryDir | tools/download_osm.py:702-703 | definition of `category_dir`: the base directory joined with the sanitized category; see `PathLayout` |
| Batch.FileName | tools/download_osm.py:718 | definition of `{sanitized_category}_{sanitized_name}_{lat:.4f}_{lon:.4f}.osm`; see `PathLayout` |
| Batch.OutputPath | tools/download_osm.py:719 | definition of `output_path`: the category folder joined with the file name; see `PathLayout` |
| Batch.PathLayout | tools/download_osm.py:702-719 | every output path is the base directory, `/`, the sanitized category, `/` and the file name, and the category segment holds no `/` |
| Batch.CategoryPaths | tools/download_osm.py:707-719 | one output path per location of the category; see `CategoryPathAt` for which path is at each position |
| Batch.CategoryPathAt | tools/download_osm.py:707-719 | the `i`-th path of a category is the path built from its `i`-th location |
| Batch.TotalLocations | tools/download_osm.py:696 | definition of `total_locations`, the sum of the category sizes; `Flatten` proves it is the number of output paths |
| Batch.Flatten | tools/download_osm.py:696-719 | the catalog yields one output path per location: as many paths as `total_locations` |
| Batch.Start | tools/download_osm.py:697-699 | definition of the starting state: all three counters zero, the files that already exist, an empty log; see `ReplayCounts` |
| Batch.Skip | tools/download_osm.py:722-725 | definition of the `continue` branch: `processed_count` and `success_count` go up by one, with no download and no pause; see `SkipCounters` |
| Batch.Attempt | tools/download_osm.py:727-744 | definition of a download with outcome `ok` and the pause after it when `processed_count < total_locations`; see `AttemptCounters`, `AttemptFiles`, `AttemptPauses` |
| Batch.Step | tools/download_osm.py:708-744 | one location raises `processed_count` by one and `success_count + failed_count` by one, and adds at most its own file |
| Batch.Replay | tools/download_osm.py:697-744 | after visiting a list of paths, `processed_count` is the number of paths |
| Batch.SkipCounters | tools/download_osm.py:722-725 | a skip keeps `success_count` equal to skips plus successful downloads, and `failed_count` equal to failed downloads |
| Batch.AttemptCounters | tools/download_osm.py:727-736 | a download keeps `success_count` equal to skips plus successful downloads, and `failed_count` equal to failed downloads, whatever its outcome |
| Batch.StepCounters | tools/download_osm.py:722-736 | one location, skipped or downloaded, keeps the counters in agreement with the events so far |
| Batch.AttemptFiles | tools/download_osm.py:727-731 | a download of a missing file keeps the files equal to the existing ones plus the successful downloads, and never downloads an existing file |
| Batch.AttemptPauses | tools/download_osm.py:739-744 | after a download, the pauses still number the downloads less one when the log ends with a download, which only the last location's download can; after the last location the log does not end with a pause |
| Batch.ReplayCounts | tools/download_osm.py:697-736 | `success_count` is the number of skips plus successful downloads, `failed_count` is the number of failed downloads, and the two add up to `processed_count`, whatever the downloads do |
| Batch.ReplayPaths | tools/download_osm.py:701-731 | each location is skipped or downloaded exactly once, in visiting order, with no stop after a failure |
| Batch.ReplayFiles | tools/download_osm.py:722-736 | the files after the run are the existing ones plus those downloaded successfully, and no download is ever made for an existing file |
| Batch.ReplayPauses | tools/download_osm.py:739-744 | a pause comes only right after a download, every download is followed by a pause unless it is for the last location, and a complete run does not end with a pause |
| Batch.PauseBound | tools/download_osm.py:739-744 | over the whole catalog there are at most `total_locations - 1` pauses, exactly `total_locations - 1` when nothing is skipped, and none for an empty catalog |
| Batch.PauseBeforeSkip | tools/download_osm.py:722-744 | for example, in a two-location run where the second file exists, the download of the first is still followed by a pause; the general rule is `DownloadsThenPause` in `ReplayPauses` |
| Batch.ReplayCovers | tools/download_osm.py:722-736 | after the run every location's file exists unless its download failed |
| Batch.ReplayAllExisting | tools/download_osm.py:722-725 | when every file already exists, nothing is downloaded or written, there is no pause, and every location counts as a success |
| Batch.Rerun | tools/download_osm.py:722-736 | a second run over the files the first run left downloads only locations that failed the first time; after a run with no failure, a second run downloads nothing, never pauses and changes no file |
| Batch.VisitPath | tools/download_osm.py:722-744 | skip-or-download for one path: the new counters, files and log are one `Step` of the old ones |
| Batch.VisitLocation | tools/download_osm.py:708-744 | one pass of the inner loop body extends the run by the path of the next location |
| Batch.VisitCategory | tools/download_osm.py:701-744 | the inner loop extends the run by the category's paths in order |
| Batch.DownloadAll | tools/download_osm.py:694-744 | the whole run equals `Replay` over the catalog's paths; at the end `processed_count == total_locations == success_count + failed_count` |

## Left out

- `calculate_bounding_box` (tools/download_osm.py:576-619) is left out: it is floating-point trigonometry, and its result only feeds the HTTP query.
- `download_osm_data` (tools/download_osm.py:622-686) is left out. The HTTP request, the query text, the exception handling and the file write are I/O. Its boolean result is the oracle `failing`: the download for running number `n` fails exactly when `n` is in `failing`.
- VisitPath: a successful download creates exactly its output file, and a failed one creates nothing. A write that raises part-way and leaves a partial file behind is not modelled.
- `os.path.join` is modelled as on POSIX (`posixpath.join`); Windows path joining, with drive letters and `\` separators, is not modelled.
- `os.makedirs` is left out, and directories are not modelled. `os.path.exists` is membership in the set of files, so a directory that has an output path's name is not modelled.
- `print` and `os.path.abspath` are left out; they only produce console output.
- `time.sleep(API_DELAY)` is a `Delay` event. The length of the pause (`API_DELAY = 15`) is not modelled.
- The `{:.4f}` formatting of the coordinates is the parameter `fmt`, since it is float-to-decimal conversion.
- The `scenes` literal (tools/download_osm.py:17-552) is pure data and is left out. The driver takes any sequence of categories in dictionary order. A catalog can repeat a category name, which a Python dict literal cannot.
- The Unicode tables behind `\w` and `\s` are a parameter beyond ASCII. `str.strip()` and `\s` are assumed to match the same characters, as they do in CPython.
