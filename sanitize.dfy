/**
 The filename sanitizer of the OSM download tool: a fixed pipeline of
 regular-expression rewrites that turns a display name (of a category or of
 a location) into a path segment.

   1. trim whitespace from both ends              `str.strip()`
   2. each run of `[\s/\\:]` becomes one `_`       `re.sub(r"[\s/\\:]+", "_", ...)`
   3. drop every character outside `[\w\-\.]`      `re.sub(r"[^\w\-\.]", "", ...)`
   4. each run of `_` becomes one `_`              `re.sub(r"[_]{2,}", "_", ...)`
   5. each run of `-` becomes one `-`              `re.sub(r"[-]{2,}", "-", ...)`
   6. strip `_` and `-` from both ends             `str.strip("_-")`
   7. an empty result becomes "unnamed"

 Python 3 matches `\w` and `\s` against Unicode tables, so the two character
 predicates are a parameter of the model (`Unicode`), pinned down only on
 ASCII.
 */
module Sanitizer {

  /** The non-ASCII characters that Python's `\w` (word character) and
      `\s` (whitespace, also what `str.strip()` removes) match; on ASCII the
      two classes are fixed. */
  datatype Unicode = Unicode(extraWord: set<char>, extraSpace: set<char>)
  {
    /** No whitespace character is a word character. */
    predicate Valid() {
      extraWord !! extraSpace
    }
  }

  /** `[A-Za-z0-9_]`: the ASCII characters that `\w` matches. */
  predicate AsciiWord(c: char) {
    'a' <= c <= 'z' || 'A' <= c <= 'Z' || '0' <= c <= '9' || c == '_'
  }

  /** The ASCII characters that `\s` matches: tab, line feed, vertical tab,
      form feed, carriage return, the four information separators
      U+001C..U+001F, and space. */
  predicate AsciiSpace(c: char) {
    '\t' <= c <= '\r' || '\U{1C}' <= c <= '\U{1F}' || c == ' '
  }

  predicate IsWordChar(u: Unicode, c: char) {
    if c < '\U{80}' then AsciiWord(c) else c in u.extraWord
  }

  predicate IsSpace(u: Unicode, c: char) {
    if c < '\U{80}' then AsciiSpace(c) else c in u.extraSpace
  }

  /** The character classes of the pipeline. */
  datatype CharClass =
    | Whitespace          // `\s`, and what `str.strip()` removes
    | PathSeparator       // `[\s/\\:]`
    | Allowed             // `[\w\-\.]`, what survives step 3
    | Exactly(ch: char)   // `[_]` and `[-]`
    | Edge                // the characters of `str.strip("_-")`
    | Solid               // the allowed characters other than `_` and `-`: no step removes them

  predicate InClass(u: Unicode, k: CharClass, c: char) {
    match k
    case Whitespace => IsSpace(u, c)
    case PathSeparator => IsSpace(u, c) || c == '/' || c == '\\' || c == ':'
    case Allowed => IsWordChar(u, c) || c == '-' || c == '.'
    case Exactly(ch) => c == ch
    case Edge => c == '_' || c == '-'
    case Solid => (IsWordChar(u, c) || c == '-' || c == '.') && c != '_' && c != '-'
  }

  /** Every character of `s` is in class `k`. */
  predicate AllIn(u: Unicode, k: CharClass, s: seq<char>) {
    forall i :: 0 <= i < |s| ==> InClass(u, k, s[i])
  }

  /** No two adjacent characters of `s` are both `ch`. */
  ghost predicate NoRepeat(s: seq<char>, ch: char) {
    forall i, j :: 0 <= i < j < |s| && j == i + 1 ==> !(s[i] == ch && s[j] == ch)
  }

  /** No member of class `k` is solid. */
  ghost predicate Unsolid(u: Unicode, k: CharClass) {
    forall c: char :: InClass(u, k, c) ==> !InClass(u, Solid, c)
  }

  // ---------------------------------------------------------------------
  // The passes
  // ---------------------------------------------------------------------

  /** Removes the longest prefix of members of `k`. */
  function TrimLeft(u: Unicode, k: CharClass, s: seq<char>): (r: seq<char>)
    ensures |r| <= |s|
    ensures forall i :: 0 <= i < |s| - |r| ==> InClass(u, k, s[i])
    ensures r != [] ==> !InClass(u, k, r[0])
    decreases |s|
  {
    if s != [] && InClass(u, k, s[0]) then TrimLeft(u, k, s[1..]) else s
  }

  /** Removes the longest suffix of members of `k`. */
  function TrimRight(u: Unicode, k: CharClass, s: seq<char>): (r: seq<char>)
    ensures |r| <= |s|
    ensures forall i :: |r| <= i < |s| ==> InClass(u, k, s[i])
    ensures r != [] ==> !InClass(u, k, r[|r| - 1])
    decreases |s|
  {
    if s != [] && InClass(u, k, s[|s| - 1]) then TrimRight(u, k, s[..|s| - 1]) else s
  }

  /** `str.strip` with the members of `k` as the characters to remove. */
  function Trim(u: Unicode, k: CharClass, s: seq<char>): (r: seq<char>)
    ensures r != [] ==> !InClass(u, k, r[0]) && !InClass(u, k, r[|r| - 1])
  {
    TrimRightIsPrefix(u, k, TrimLeft(u, k, s));
    TrimRight(u, k, TrimLeft(u, k, s))
  }

  /** `re.sub` of a pattern `[k]+` (equivalently `[k]{2,}` when `rep` is the
      one member of `k`) by the single character `rep`: every maximal run of
      members of `k` becomes one `rep`. */
  function CollapseRuns(u: Unicode, k: CharClass, s: seq<char>, rep: char): (r: seq<char>)
    ensures |r| <= |s|
    ensures (r == []) == (s == [])
    ensures s != [] ==> r[0] == if InClass(u, k, s[0]) then rep else s[0]
    decreases |s|
  {
    if s == [] then []
    else if InClass(u, k, s[0]) then [rep] + CollapseRuns(u, k, TrimLeft(u, k, s[1..]), rep)
    else [s[0]] + CollapseRuns(u, k, s[1..], rep)
  }

  /** The characters of `s` that are in class `k`, in order. */
  function Filter(u: Unicode, k: CharClass, s: seq<char>): (r: seq<char>)
    ensures |r| <= |s|
    ensures AllIn(u, k, r)
  {
    if s == [] then [] else (if InClass(u, k, s[0]) then [s[0]] else []) + Filter(u, k, s[1..])
  }

  /** Steps 1 to 6: the result holds no `__` and no `--`, and does not begin
      or end with `_` or `-`. */
  function Cleaned(u: Unicode, name: string): (r: string)
    ensures NoRepeat(r, '_') && NoRepeat(r, '-')
    ensures r != [] ==> !InClass(u, Edge, r[0]) && !InClass(u, Edge, r[|r| - 1])
  {
    var trimmed := Trim(u, Whitespace, name);
    var separated := CollapseRuns(u, PathSeparator, trimmed, '_');
    var allowed := Filter(u, Allowed, separated);
    var underscores := CollapseRuns(u, Exactly('_'), allowed, '_');
    var hyphens := CollapseRuns(u, Exactly('-'), underscores, '-');
    CollapseLeavesNoRepeat(u, Exactly('_'), allowed, '_');
    CollapseLeavesNoRepeat(u, Exactly('-'), underscores, '-');
    CollapseKeepsNoRepeat(u, Exactly('-'), underscores, '-', '_');
    TrimKeepsNoRepeat(u, Edge, hyphens, '_');
    TrimKeepsNoRepeat(u, Edge, hyphens, '-');
    Trim(u, Edge, hyphens)
  }

  /** `sanitize_filename`: never empty, never begins or ends with `_` or `-`,
      never holds `__` or `--`. */
  function Sanitize(u: Unicode, name: string): (r: string)
    ensures r != []
    ensures !InClass(u, Edge, r[0]) && !InClass(u, Edge, r[|r| - 1])
    ensures NoRepeat(r, '_') && NoRepeat(r, '-')
  {
    var c := Cleaned(u, name);
    if c == [] then "unnamed" else c
  }

  // ---------------------------------------------------------------------
  // Facts about the character classes
  // ---------------------------------------------------------------------

  lemma ValidClasses(u: Unicode)
    requires u.Valid()
    ensures Unsolid(u, Whitespace) && Unsolid(u, PathSeparator) && Unsolid(u, Edge)
    ensures Unsolid(u, Exactly('_')) && Unsolid(u, Exactly('-'))
    ensures forall c: char :: InClass(u, Allowed, c) ==> !InClass(u, PathSeparator, c)
    ensures InClass(u, Allowed, '_') && !InClass(u, PathSeparator, '_')
  {
  }

  // ---------------------------------------------------------------------
  // Lemmas about the passes
  // ---------------------------------------------------------------------

  lemma {:induction false} FilterConcat(u: Unicode, k: CharClass, a: seq<char>, b: seq<char>)
    ensures Filter(u, k, a + b) == Filter(u, k, a) + Filter(u, k, b)
  {
    if a == [] {
      assert a + b == b;
    } else {
      var ab := a + b;
      assert ab[0] == a[0] && ab[1..] == a[1..] + b;
      FilterConcat(u, k, a[1..], b);
      var head := if InClass(u, k, a[0]) then [a[0]] else [];
      assert Filter(u, k, ab) == head + Filter(u, k, a[1..] + b);
      assert Filter(u, k, a) == head + Filter(u, k, a[1..]);
    }
  }

  /** A filter keeps a string whose characters are all in the class. */
  lemma {:induction false} FilterKeepsAll(u: Unicode, k: CharClass, s: seq<char>)
    requires AllIn(u, k, s)
    ensures Filter(u, k, s) == s
  {
    if s != [] {
      FilterKeepsAll(u, k, s[1..]);
    }
  }

  /** Filtering the solid characters out of the allowed ones is filtering
      them out of the whole. */
  lemma {:induction false} FilterSolidOfAllowed(u: Unicode, s: seq<char>)
    ensures Filter(u, Solid, Filter(u, Allowed, s)) == Filter(u, Solid, s)
  {
    if s != [] {
      var head := if InClass(u, Allowed, s[0]) then [s[0]] else [];
      FilterConcat(u, Solid, head, Filter(u, Allowed, s[1..]));
      FilterSolidOfAllowed(u, s[1..]);
    }
  }

  lemma {:induction false} FilterNone(u: Unicode, k: CharClass, s: seq<char>)
    requires forall i :: 0 <= i < |s| ==> !InClass(u, k, s[i])
    ensures Filter(u, k, s) == []
  {
    if s != [] {
      FilterNone(u, k, s[1..]);
    }
  }

  /** `TrimLeft` removes a prefix. */
  lemma {:induction false} TrimLeftIsSuffix(u: Unicode, k: CharClass, s: seq<char>)
    ensures TrimLeft(u, k, s) == s[|s| - |TrimLeft(u, k, s)|..]
    decreases |s|
  {
    if s != [] && InClass(u, k, s[0]) {
      TrimLeftIsSuffix(u, k, s[1..]);
    }
  }

  /** `TrimRight` removes a suffix. */
  lemma {:induction false} TrimRightIsPrefix(u: Unicode, k: CharClass, s: seq<char>)
    ensures TrimRight(u, k, s) == s[..|TrimRight(u, k, s)|]
    decreases |s|
  {
    if s != [] && InClass(u, k, s[|s| - 1]) {
      TrimRightIsPrefix(u, k, s[..|s| - 1]);
    }
  }

  /** Trimming keeps the absence of `ch ch`. */
  lemma TrimKeepsNoRepeat(u: Unicode, k: CharClass, s: seq<char>, ch: char)
    requires NoRepeat(s, ch)
    ensures NoRepeat(Trim(u, k, s), ch)
  {
    TrimLeftIsSuffix(u, k, s);
    TrimRightIsPrefix(u, k, TrimLeft(u, k, s));
  }

  /** Trimming keeps a string inside class `k2`. */
  lemma TrimKeepsAllIn(u: Unicode, k: CharClass, s: seq<char>, k2: CharClass)
    requires AllIn(u, k2, s)
    ensures AllIn(u, k2, Trim(u, k, s))
  {
    TrimLeftIsSuffix(u, k, s);
    TrimRightIsPrefix(u, k, TrimLeft(u, k, s));
  }

  /** Trimming members of a class with no solid members keeps the solid
      characters. */
  lemma TrimLeftKeepsSolid(u: Unicode, k: CharClass, s: seq<char>)
    requires Unsolid(u, k)
    ensures Filter(u, Solid, TrimLeft(u, k, s)) == Filter(u, Solid, s)
  {
    var l := TrimLeft(u, k, s);
    var m := |s| - |l|;
    TrimLeftIsSuffix(u, k, s);
    assert s == s[..m] + l;
    FilterConcat(u, Solid, s[..m], l);
    FilterNone(u, Solid, s[..m]);
  }

  lemma TrimRightKeepsSolid(u: Unicode, k: CharClass, s: seq<char>)
    requires Unsolid(u, k)
    ensures Filter(u, Solid, TrimRight(u, k, s)) == Filter(u, Solid, s)
  {
    var r := TrimRight(u, k, s);
    TrimRightIsPrefix(u, k, s);
    assert s == r + s[|r|..];
    FilterConcat(u, Solid, r, s[|r|..]);
    FilterNone(u, Solid, s[|r|..]);
  }

  lemma TrimKeepsSolid(u: Unicode, k: CharClass, s: seq<char>)
    requires Unsolid(u, k)
    ensures Filter(u, Solid, Trim(u, k, s)) == Filter(u, Solid, s)
  {
    TrimLeftKeepsSolid(u, k, s);
    TrimRightKeepsSolid(u, k, TrimLeft(u, k, s));
  }

  lemma {:induction false} CollapseKeepsSolid(u: Unicode, k: CharClass, s: seq<char>, rep: char)
    requires Unsolid(u, k) && !InClass(u, Solid, rep)
    ensures Filter(u, Solid, CollapseRuns(u, k, s, rep)) == Filter(u, Solid, s)
    decreases |s|
  {
    if s != [] {
      if InClass(u, k, s[0]) {
        var t := TrimLeft(u, k, s[1..]);
        CollapseKeepsSolid(u, k, t, rep);
        TrimLeftKeepsSolid(u, k, s[1..]);
        FilterConcat(u, Solid, [rep], CollapseRuns(u, k, t, rep));
      } else {
        CollapseKeepsSolid(u, k, s[1..], rep);
        FilterConcat(u, Solid, [s[0]], CollapseRuns(u, k, s[1..], rep));
      }
      assert s == [s[0]] + s[1..];
    }
  }

  /** A collapse into a member of `k2` keeps a string inside `k2`. */
  lemma {:induction false} CollapseKeepsAllIn(u: Unicode, k: CharClass, s: seq<char>, rep: char, k2: CharClass)
    requires AllIn(u, k2, s) && InClass(u, k2, rep)
    ensures AllIn(u, k2, CollapseRuns(u, k, s, rep))
    decreases |s|
  {
    if s != [] {
      var rest := if InClass(u, k, s[0]) then TrimLeft(u, k, s[1..]) else s[1..];
      TrimLeftIsSuffix(u, k, s[1..]);
      CollapseKeepsAllIn(u, k, rest, rep, k2);
      var tail := CollapseRuns(u, k, rest, rep);
      var r := CollapseRuns(u, k, s, rep);
      assert r == [r[0]] + tail;
      forall i | 0 <= i < |r| ensures InClass(u, k2, r[i]) {
        if i > 0 {
          assert r[i] == tail[i - 1];
        }
      }
    }
  }

  /** A maximal run of members of `k` at the front becomes exactly one
      `rep`, and the collapse goes on after the run. */
  lemma {:induction false} CollapseRun(u: Unicode, k: CharClass, p: seq<char>, x: seq<char>, rep: char)
    requires p != [] && AllIn(u, k, p) && (x == [] || !InClass(u, k, x[0]))
    ensures CollapseRuns(u, k, p + x, rep) == [rep] + CollapseRuns(u, k, x, rep)
  {
    assert (p + x)[0] == p[0] && (p + x)[1..] == p[1..] + x;
    TrimLeftSkip(u, k, p[1..], x);
  }

  /** A maximal run of members of `k` between two pieces becomes exactly one
      `rep`: the separator is replaced, never dropped. */
  lemma {:induction false} CollapseBetween(u: Unicode, k: CharClass, a: seq<char>, p: seq<char>, b: seq<char>, rep: char)
    requires a == [] || !InClass(u, k, a[|a| - 1])
    requires p != [] && AllIn(u, k, p) && (b == [] || !InClass(u, k, b[0]))
    ensures CollapseRuns(u, k, a + p + b, rep) == CollapseRuns(u, k, a, rep) + [rep] + CollapseRuns(u, k, b, rep)
  {
    assert a + p + b == a + (p + b);
    CollapseConcat(u, k, a, p + b, rep);
    CollapseRun(u, k, p, b, rep);
  }

  /** A replacement outside `k` leaves no member of `k` behind. */
  lemma {:induction false} CollapseClears(u: Unicode, k: CharClass, s: seq<char>, rep: char)
    requires !InClass(u, k, rep)
    ensures forall i :: 0 <= i < |CollapseRuns(u, k, s, rep)| ==> !InClass(u, k, CollapseRuns(u, k, s, rep)[i])
    decreases |s|
  {
    if s != [] {
      var rest := if InClass(u, k, s[0]) then TrimLeft(u, k, s[1..]) else s[1..];
      CollapseClears(u, k, rest, rep);
      var r := CollapseRuns(u, k, s, rep);
      assert r == [r[0]] + CollapseRuns(u, k, rest, rep);
    }
  }

  /** A collapse leaves a string with no member of the class unchanged. */
  lemma {:induction false} CollapseNoMember(u: Unicode, k: CharClass, s: seq<char>, rep: char)
    requires forall i :: 0 <= i < |s| ==> !InClass(u, k, s[i])
    ensures CollapseRuns(u, k, s, rep) == s
  {
    if s != [] {
      CollapseNoMember(u, k, s[1..], rep);
    }
  }

  /** Collapsing runs of `ch` leaves a string without `ch ch` unchanged. */
  lemma {:induction false} CollapseNoRepeat(u: Unicode, s: seq<char>, ch: char)
    requires NoRepeat(s, ch)
    ensures CollapseRuns(u, Exactly(ch), s, ch) == s
  {
    if s != [] {
      if s[0] == ch && |s| > 1 {
        assert s[1] != ch;
      }
      CollapseNoRepeat(u, s[1..], ch);
    }
  }

  /** After collapsing runs of a class, no two adjacent characters are the
      replacement, when the replacement is itself a member. */
  lemma {:induction false} CollapseLeavesNoRepeat(u: Unicode, k: CharClass, s: seq<char>, rep: char)
    requires InClass(u, k, rep)
    ensures NoRepeat(CollapseRuns(u, k, s, rep), rep)
    decreases |s|
  {
    if s != [] {
      var rest := if InClass(u, k, s[0]) then TrimLeft(u, k, s[1..]) else s[1..];
      CollapseLeavesNoRepeat(u, k, rest, rep);
      var tail := CollapseRuns(u, k, rest, rep);
      var r := CollapseRuns(u, k, s, rep);
      assert r == [r[0]] + tail;
      assert tail != [] && r[0] == rep ==> tail[0] != rep;
    }
  }

  /** A collapse of a class not containing `d`, into a replacement other than
      `d`, creates no `d d`. */
  lemma {:induction false} CollapseKeepsNoRepeat(u: Unicode, k: CharClass, s: seq<char>, rep: char, d: char)
    requires NoRepeat(s, d) && !InClass(u, k, d) && rep != d
    ensures NoRepeat(CollapseRuns(u, k, s, rep), d)
    decreases |s|
  {
    if s != [] {
      var rest := if InClass(u, k, s[0]) then TrimLeft(u, k, s[1..]) else s[1..];
      TrimLeftIsSuffix(u, k, s[1..]);
      assert NoRepeat(rest, d);
      CollapseKeepsNoRepeat(u, k, rest, rep, d);
      var tail := CollapseRuns(u, k, rest, rep);
      var r := CollapseRuns(u, k, s, rep);
      assert r == [r[0]] + tail;
      forall i, j | 0 <= i < j < |r| && j == i + 1 ensures !(r[i] == d && r[j] == d) {
        if i > 0 {
          assert r[i] == tail[i - 1] && r[j] == tail[j - 1];
        } else if !InClass(u, k, s[0]) && s[0] == d {
          assert tail[0] == s[1] || tail[0] == rep;
        }
      }
    }
  }

  // ---------------------------------------------------------------------
  // Steps 1 to 6 together
  // ---------------------------------------------------------------------

  /** Steps 1-6 produce only allowed characters. */
  lemma CleanedAllowed(u: Unicode, name: string)
    requires u.Valid()
    ensures AllIn(u, Allowed, Cleaned(u, name))
  {
    ValidClasses(u);
    var trimmed := Trim(u, Whitespace, name);
    var separated := CollapseRuns(u, PathSeparator, trimmed, '_');
    var allowed := Filter(u, Allowed, separated);
    var underscores := CollapseRuns(u, Exactly('_'), allowed, '_');
    var hyphens := CollapseRuns(u, Exactly('-'), underscores, '-');
    CollapseKeepsAllIn(u, Exactly('_'), allowed, '_', Allowed);
    CollapseKeepsAllIn(u, Exactly('-'), underscores, '-', Allowed);
    TrimKeepsAllIn(u, Edge, hyphens, Allowed);
  }

  /** Steps 1-6 keep exactly the solid characters of the name, in order, and
      so are empty exactly when the name has none. */
  lemma CleanedKeepsSolid(u: Unicode, name: string)
    requires u.Valid()
    ensures Filter(u, Solid, Cleaned(u, name)) == Filter(u, Solid, name)
    ensures Cleaned(u, name) == [] <==> Filter(u, Solid, name) == []
  {
    ValidClasses(u);
    var trimmed := Trim(u, Whitespace, name);
    var separated := CollapseRuns(u, PathSeparator, trimmed, '_');
    var allowed := Filter(u, Allowed, separated);
    var underscores := CollapseRuns(u, Exactly('_'), allowed, '_');
    var hyphens := CollapseRuns(u, Exactly('-'), underscores, '-');
    TrimKeepsSolid(u, Whitespace, name);
    CollapseKeepsSolid(u, PathSeparator, trimmed, '_');
    FilterSolidOfAllowed(u, separated);
    CollapseKeepsSolid(u, Exactly('_'), allowed, '_');
    CollapseKeepsSolid(u, Exactly('-'), underscores, '-');
    TrimKeepsSolid(u, Edge, hyphens);
    var c := Cleaned(u, name);
    if c != [] {
      CleanedAllowed(u, name);
      assert InClass(u, Solid, c[0]);
      assert Filter(u, Solid, c) == [c[0]] + Filter(u, Solid, c[1..]);
    }
  }

  // ---------------------------------------------------------------------
  // Properties of sanitize_filename
  // ---------------------------------------------------------------------

  /** Every character of the result is a word character, `-` or `.`; in
      particular no whitespace, `/`, `\` or `:` survives. */
  lemma SanitizeAlphabet(u: Unicode, name: string)
    requires u.Valid()
    ensures AllIn(u, Allowed, Sanitize(u, name))
    ensures forall i :: 0 <= i < |Sanitize(u, name)| ==> !InClass(u, PathSeparator, Sanitize(u, name)[i])
  {
    ValidClasses(u);
    CleanedAllowed(u, name);
    assert AllIn(u, Allowed, "unnamed");
  }

  /** The result holds exactly the solid characters of the name, in order;
      when the name has none (it is empty, or made only of whitespace,
      disallowed characters, `_` and `-`), the result is "unnamed". */
  lemma SanitizeKeepsSolid(u: Unicode, name: string)
    requires u.Valid()
    ensures Filter(u, Solid, name) == [] ==> Sanitize(u, name) == "unnamed"
    ensures Filter(u, Solid, name) != [] ==> Filter(u, Solid, Sanitize(u, name)) == Filter(u, Solid, name)
  {
    CleanedKeepsSolid(u, name);
  }

  /** A string sanitization cannot change: the shape `Sanitize` promises. */
  ghost predicate IsSanitized(u: Unicode, s: string) {
    && s != []
    && AllIn(u, Allowed, s)
    && !InClass(u, Edge, s[0]) && !InClass(u, Edge, s[|s| - 1])
    && NoRepeat(s, '_') && NoRepeat(s, '-')
  }

  /** Every pass leaves a sanitized string unchanged. */
  lemma SanitizeFixesSanitized(u: Unicode, s: string)
    requires u.Valid() && IsSanitized(u, s)
    ensures Sanitize(u, s) == s
  {
    ValidClasses(u);
    assert TrimLeft(u, Whitespace, s) == s;
    assert TrimRight(u, Whitespace, s) == s;
    CollapseNoMember(u, PathSeparator, s, '_');
    FilterKeepsAll(u, Allowed, s);
    CollapseNoRepeat(u, s, '_');
    CollapseNoRepeat(u, s, '-');
    assert TrimLeft(u, Edge, s) == s;
    assert TrimRight(u, Edge, s) == s;
  }

  /** `sanitize_filename(sanitize_filename(x)) == sanitize_filename(x)`. */
  lemma SanitizeIdempotent(u: Unicode, name: string)
    requires u.Valid()
    ensures Sanitize(u, Sanitize(u, name)) == Sanitize(u, name)
  {
    SanitizeAlphabet(u, name);
    SanitizeFixesSanitized(u, Sanitize(u, name));
  }

  /** Trimming the left of `a + b` stays inside `a` when `a` ends with a
      non-member. */
  lemma {:induction false} TrimLeftConcat(u: Unicode, k: CharClass, a: seq<char>, b: seq<char>)
    requires a != [] && !InClass(u, k, a[|a| - 1])
    ensures TrimLeft(u, k, a + b) == TrimLeft(u, k, a) + b
    ensures TrimLeft(u, k, a) != [] && TrimLeft(u, k, a)[|TrimLeft(u, k, a)| - 1] == a[|a| - 1]
    decreases |a|
  {
    assert (a + b)[0] == a[0];
    if InClass(u, k, a[0]) {
      assert (a + b)[1..] == a[1..] + b;
      TrimLeftConcat(u, k, a[1..], b);
    }
  }

  /** A collapse works separately on two pieces when the first does not end
      inside a run. */
  lemma {:induction false} CollapseConcat(u: Unicode, k: CharClass, a: seq<char>, b: seq<char>, rep: char)
    requires a != [] ==> !InClass(u, k, a[|a| - 1])
    ensures CollapseRuns(u, k, a + b, rep) == CollapseRuns(u, k, a, rep) + CollapseRuns(u, k, b, rep)
    decreases |a|, 1
  {
    if a == [] {
      assert a + b == b;
    } else if InClass(u, k, a[0]) {
      CollapseConcatRun(u, k, a, b, rep);
    } else {
      CollapseConcatOther(u, k, a, b, rep);
    }
  }

  /** `CollapseConcat` when `a` begins with a run. */
  lemma {:induction false} CollapseConcatRun(u: Unicode, k: CharClass, a: seq<char>, b: seq<char>, rep: char)
    requires a != [] && InClass(u, k, a[0]) && !InClass(u, k, a[|a| - 1])
    ensures CollapseRuns(u, k, a + b, rep) == CollapseRuns(u, k, a, rep) + CollapseRuns(u, k, b, rep)
    decreases |a|, 0
  {
    var ab := a + b;
    assert ab[0] == a[0] && ab[1..] == a[1..] + b;
    var t := TrimLeft(u, k, a[1..]);
    TrimLeftConcat(u, k, a[1..], b);
    CollapseConcat(u, k, t, b, rep);
  }

  /** `CollapseConcat` when `a` begins outside a run. */
  lemma {:induction false} CollapseConcatOther(u: Unicode, k: CharClass, a: seq<char>, b: seq<char>, rep: char)
    requires a != [] && !InClass(u, k, a[0]) && !InClass(u, k, a[|a| - 1])
    ensures CollapseRuns(u, k, a + b, rep) == CollapseRuns(u, k, a, rep) + CollapseRuns(u, k, b, rep)
    decreases |a|, 0
  {
    var ab := a + b;
    assert ab[0] == a[0] && ab[1..] == a[1..] + b;
    CollapseConcat(u, k, a[1..], b, rep);
  }

  /** Trimming first skips a prefix of members. */
  lemma {:induction false} TrimLeftSkip(u: Unicode, k: CharClass, p: seq<char>, x: seq<char>)
    requires AllIn(u, k, p)
    ensures TrimLeft(u, k, p + x) == TrimLeft(u, k, x)
    decreases |p|
  {
    if p == [] {
      assert p + x == x;
    } else {
      assert (p + x)[0] == p[0] && (p + x)[1..] == p[1..] + x;
      TrimLeftSkip(u, k, p[1..], x);
    }
  }

  /** Trimming from the right first skips a suffix of members. */
  lemma {:induction false} TrimRightSkip(u: Unicode, k: CharClass, x: seq<char>, q: seq<char>)
    requires AllIn(u, k, q)
    ensures TrimRight(u, k, x + q) == TrimRight(u, k, x)
    decreases |q|
  {
    if q == [] {
      assert x + q == x;
    } else {
      var xq := x + q;
      assert xq[|xq| - 1] == q[|q| - 1] && xq[..|xq| - 1] == x + q[..|q| - 1];
      TrimRightSkip(u, k, x, q[..|q| - 1]);
    }
  }

  /** Whitespace around a string that begins and ends with non-whitespace
      is trimmed off. */
  lemma TrimPadding(u: Unicode, x: string, left: string, right: string)
    requires x != [] && !InClass(u, Whitespace, x[0]) && !InClass(u, Whitespace, x[|x| - 1])
    requires AllIn(u, Whitespace, left) && AllIn(u, Whitespace, right)
    ensures Trim(u, Whitespace, left + x + right) == x
  {
    TrimLeftSkip(u, Whitespace, left, x + right);
    assert left + x + right == left + (x + right);
    assert (x + right)[0] == x[0];
    assert TrimLeft(u, Whitespace, left + x + right) == x + right;
    TrimRightSkip(u, Whitespace, x, right);
  }

  /** Solid words joined by `_` form a sanitized string. */
  lemma JoinedIsSanitized(u: Unicode, a: string, b: string, c: string)
    requires u.Valid()
    requires a != [] && b != [] && c != []
    requires AllIn(u, Solid, a) && AllIn(u, Solid, b) && AllIn(u, Solid, c)
    ensures IsSanitized(u, a + "_" + b + "_" + c)
  {
    var y := a + "_" + b + "_" + c;
    assert y[0] == a[0] && y[|y| - 1] == c[|c| - 1];
    forall i, j | 0 <= i < j < |y| && j == i + 1
      ensures !(y[i] == '_' && y[j] == '_') && !(y[i] == '-' && y[j] == '-')
    {
      if i < |a| {
      } else if i == |a| {
        assert y[j] == b[0];
      } else if i < |a| + 1 + |b| {
        assert y[i] == b[i - |a| - 1];
      } else if i == |a| + 1 + |b| {
        assert y[j] == c[0];
      } else {
        assert y[i] == c[i - |a| - |b| - 2];
      }
    }
  }

  /** Step 2 turns one space between a word and the rest into `_`. */
  lemma SpaceAfterWord(u: Unicode, a: string, r: string)
    requires a != [] && forall i :: 0 <= i < |a| ==> !InClass(u, PathSeparator, a[i])
    requires r != [] && !InClass(u, PathSeparator, r[0])
    ensures CollapseRuns(u, PathSeparator, a + (" " + r), '_') == a + ("_" + CollapseRuns(u, PathSeparator, r, '_'))
  {
    CollapseConcat(u, PathSeparator, a, " " + r, '_');
    CollapseNoMember(u, PathSeparator, a, '_');
    var p := " " + r;
    assert p[0] == ' ' && p[1..] == r;
  }

  /** Solid characters are not separators, and neither is `!`. */
  lemma SolidNotSeparator(u: Unicode, s: string, t: string)
    requires u.Valid() && AllIn(u, Solid, s) && (t == [] || t == "!")
    ensures forall i :: 0 <= i < |s + t| ==> !InClass(u, PathSeparator, (s + t)[i])
  {
    ValidClasses(u);
  }

  /** Step 2 on three words without separators, joined by single spaces. */
  lemma {:induction false} SpacesToUnderscores(u: Unicode, a: string, b: string, r: string)
    requires a != [] && forall i :: 0 <= i < |a| ==> !InClass(u, PathSeparator, a[i])
    requires b != [] && forall i :: 0 <= i < |b| ==> !InClass(u, PathSeparator, b[i])
    requires r != [] && forall i :: 0 <= i < |r| ==> !InClass(u, PathSeparator, r[i])
    ensures CollapseRuns(u, PathSeparator, a + " " + b + " " + r, '_') == a + "_" + b + "_" + r
  {
    CollapseNoMember(u, PathSeparator, r, '_');
    SpaceAfterWord(u, b, r);
    SpaceAfterWord(u, a, b + (" " + r));
    assert a + " " + b + " " + r == a + (" " + (b + (" " + r)));
    assert a + ("_" + (b + ("_" + r))) == a + "_" + b + "_" + r;
  }

  /** Step 3 drops a final `!` from an allowed string. */
  lemma DropBang(u: Unicode, y: string)
    requires AllIn(u, Allowed, y)
    ensures Filter(u, Allowed, y + "!") == y
  {
    FilterConcat(u, Allowed, y, "!");
    FilterKeepsAll(u, Allowed, y);
    assert Filter(u, Allowed, "!") == [];
  }

  /** Three words of solid characters, separated by single spaces, padded
      with spaces and followed by `!`, become the words joined by `_`. */
  lemma SpacedWords(u: Unicode, a: string, b: string, c: string)
    requires u.Valid()
    requires a != [] && b != [] && c != []
    requires AllIn(u, Solid, a) && AllIn(u, Solid, b) && AllIn(u, Solid, c)
    ensures Sanitize(u, "  " + (a + " " + b + " " + c + "!") + " ") == a + "_" + b + "_" + c
  {
    ValidClasses(u);
    var x := a + " " + b + " " + c + "!";
    var name := "  " + x + " ";
    assert x[0] == a[0] && x[|x| - 1] == '!';
    TrimPadding(u, x, "  ", " ");
    SolidNotSeparator(u, a, []);
    SolidNotSeparator(u, b, []);
    SolidNotSeparator(u, c, "!");
    assert a + [] == a && b + [] == b;
    SpacesToUnderscores(u, a, b, c + "!");
    assert a + " " + b + " " + (c + "!") == x;
    assert a + "_" + b + "_" + (c + "!") == a + "_" + b + "_" + c + "!";
    var y := a + "_" + b + "_" + c;
    JoinedIsSanitized(u, a, b, c);
    DropBang(u, y);
    CollapseNoRepeat(u, y, '_');
    CollapseNoRepeat(u, y, '-');
    assert TrimLeft(u, Edge, y) == y;
    assert TrimRight(u, Edge, y) == y;
    assert Cleaned(u, name) == y;
  }

  lemma ExampleSpelling()
    ensures "  " + ("Central" + " " + "Hong" + " " + "Kong" + "!") + " " == "  Central Hong Kong! "
    ensures "Central" + "_" + "Hong" + "_" + "Kong" == "Central_Hong_Kong"
  {
  }

  /** An example: trim, spaces to `_`, `!` dropped. */
  lemma CentralHongKong(u: Unicode)
    requires u.Valid()
    ensures Sanitize(u, "  Central Hong Kong! ") == "Central_Hong_Kong"
  {
    assert AllIn(u, Solid, "Central") && AllIn(u, Solid, "Hong") && AllIn(u, Solid, "Kong");
    SpacedWords(u, "Central", "Hong", "Kong");
    ExampleSpelling();
  }

  /** `.` and `..` are already sanitized, so a category of that name gives
      the folder of the base directory itself or of its parent. */
  lemma SanitizeKeepsDots(u: Unicode)
    requires u.Valid()
    ensures Sanitize(u, ".") == "." && Sanitize(u, "..") == ".."
  {
    SanitizeFixesSanitized(u, ".");
    SanitizeFixesSanitized(u, "..");
  }
}
