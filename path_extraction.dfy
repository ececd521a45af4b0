/**
 * The folder-name extraction of the scan-result loader: the pattern
 * `^\\\\.*?\\RPA\\(.*?)\\.*$` searched for in a scanned path. Read literally,
 * the pattern is: two backslashes at the start, a lazy run of any characters,
 * the segment `\RPA\`, a lazy captured run, a backslash, and any characters up
 * to the end. As in Python's `re` without flags, `.` matches anything but a
 * newline and `$` matches at the end or just before a final newline.
 */
module PathExtraction {
  import opened Wrappers

  /** The literal `\RPA\` segment. */
  const Marker: string := "\\RPA\\"

  /** The path starts with the two backslashes of a network path. */
  predicate StartsUnc(s: string)
  {
    |s| >= 2 && s[0] == '\\' && s[1] == '\\'
  }

  /** `.*$` matches s[from..]: no newline before the last character. */
  predicate TailMatches(s: string, from: nat)
  {
    forall k :: from <= k < |s| - 1 ==> s[k] != '\n'
  }

  /**
   * The pattern matches s with its lazy prefix ending at p (where `\RPA\`
   * starts) and the captured group ending at j (the backslash after it).
   */
  ghost predicate RegexMatch(s: string, p: int, j: int)
  {
    && StartsUnc(s)
    && 2 <= p && p + 5 <= j < |s|
    && s[p..p + 5] == Marker
    && (forall k :: 2 <= k < p ==> s[k] != '\n')
    && (forall k :: p + 5 <= k < j ==> s[k] != '\n')
    && s[j] == '\\'
    && TailMatches(s, j + 1)
  }

  /**
   * The match a backtracking engine reports: both quantifiers are lazy, so it
   * takes the smallest p and, for that p, the smallest j.
   */
  ghost predicate Leftmost(s: string, p: int, j: int)
  {
    RegexMatch(s, p, j) && forall p', j' :: RegexMatch(s, p', j') ==> p < p' || (p == p' && j <= j')
  }

  /** The end of the lazy group started at k: the first backslash after which `.*$` matches. */
  function GroupEnd(s: string, k: nat): (r: Option<nat>)
    decreases |s| - k
    ensures r.Some? ==> k <= r.value < |s| && s[r.value] == '\\' && TailMatches(s, r.value + 1)
    ensures r.Some? ==> forall i :: k <= i < r.value ==> s[i] != '\n' && !(s[i] == '\\' && TailMatches(s, i + 1))
    ensures r.None? ==> forall j :: (k <= j < |s| && forall i :: k <= i < j ==> s[i] != '\n') ==>
                                      !(s[j] == '\\' && TailMatches(s, j + 1))
  {
    if k >= |s| then None
    else if s[k] == '\\' && TailMatches(s, k + 1) then Some(k)
    else if s[k] == '\n' then None
    else GroupEnd(s, k + 1)
  }

  /** The backtracking search: try `\RPA\` at p, p + 1, ... while the lazy prefix can grow. */
  function FindMatch(s: string, p: nat): (r: Option<(nat, nat)>)
    requires StartsUnc(s) && 2 <= p <= |s|
    requires forall k :: 2 <= k < p ==> s[k] != '\n'
    decreases |s| - p
    ensures r.Some? ==> p <= r.value.0 && RegexMatch(s, r.value.0, r.value.1)
    ensures r.Some? ==> forall p', j' :: p <= p' && RegexMatch(s, p', j') ==>
                          r.value.0 < p' || (r.value.0 == p' && r.value.1 <= j')
    ensures r.None? ==> forall p', j' :: p <= p' ==> !RegexMatch(s, p', j')
  {
    if p + 5 > |s| then None
    else if s[p..p + 5] == Marker && GroupEnd(s, p + 5).Some? then Some((p, GroupEnd(s, p + 5).value))
    else if s[p] == '\n' then None
    else FindMatch(s, p + 1)
  }

  /**
   * `re.search(pattern, path).group(1)`: None exactly when the pattern matches
   * nowhere in the path, otherwise the group of the leftmost (lazy) match.
   */
  function ExtractTaskName(path: string): (r: Option<string>)
    ensures r.None? <==> forall p, j :: !RegexMatch(path, p, j)
    ensures r.Some? ==> exists p, j :: Leftmost(path, p, j) && r.value == path[p + 5..j]
  {
    if !StartsUnc(path) then None
    else match FindMatch(path, 2)
      case Some((p, j)) =>
        assert Leftmost(path, p, j);
        Some(path[p + 5..j])
      case None => None
  }

  /** Any backslash inside a matched group could have ended the group instead. */
  lemma EarlierGroupEnd(s: string, p: int, j: int, k: int)
    requires RegexMatch(s, p, j) && p + 5 <= k < j && s[k] == '\\'
    ensures RegexMatch(s, p, k)
  {
    assert TailMatches(s, j + 1);
    forall t | k + 1 <= t < |s| - 1 ensures s[t] != '\n' {
      if t < j {
      } else if t == j {
      } else {
      }
    }
  }

  /** The extracted name is one path segment: it holds no backslash and no newline. */
  lemma ExtractedNameIsOneSegment(path: string)
    requires ExtractTaskName(path).Some?
    ensures '\\' !in ExtractTaskName(path).value
    ensures '\n' !in ExtractTaskName(path).value
  {
    var r := FindMatch(path, 2);
    var p, j := r.value.0, r.value.1;
    assert RegexMatch(path, p, j);
    var name := path[p + 5..j];
    forall i | 0 <= i < |name| ensures name[i] != '\\' && name[i] != '\n' {
      var k := p + 5 + i;
      assert name[i] == path[k];
      if path[k] == '\\' {
        EarlierGroupEnd(path, p, j, k);
        assert false;
      }
    }
  }

  /** `\RPA\` occurs at position p, after the leading two backslashes. */
  predicate MarkerAt(s: string, p: int)
  {
    2 <= p && p + 5 <= |s| && s[p..p + 5] == Marker
  }

  /** Without newlines, a `\RPA\` and any backslash after it already form a match. */
  lemma MatchWithoutNewlines(path: string, p: int, j: int)
    requires '\n' !in path && StartsUnc(path)
    requires MarkerAt(path, p) && p + 5 <= j < |path| && path[j] == '\\'
    ensures RegexMatch(path, p, j)
  {
  }

  /**
   * For a path without newlines: a name is extracted exactly when the path
   * starts with `\\` and has a `\RPA\` (at index 2 or later) with some
   * backslash after it; the name is the text between the FIRST such `\RPA\` and
   * the next backslash.
   */
  lemma ExtractWithoutNewlines(path: string)
    requires '\n' !in path
    ensures ExtractTaskName(path).Some? <==>
              StartsUnc(path) && exists p, j :: MarkerAt(path, p) && p + 5 <= j < |path| && path[j] == '\\'
    ensures ExtractTaskName(path).Some? ==>
              exists p, j :: && MarkerAt(path, p) && (forall q :: 2 <= q < p ==> !MarkerAt(path, q))
                             && p + 5 <= j < |path| && path[j] == '\\'
                             && (forall k :: p + 5 <= k < j ==> path[k] != '\\')
                             && ExtractTaskName(path).value == path[p + 5..j]
  {
    if StartsUnc(path) {
      var r := FindMatch(path, 2);
      if p, j :| MarkerAt(path, p) && p + 5 <= j < |path| && path[j] == '\\' {
        MatchWithoutNewlines(path, p, j);
        assert r.Some?;
      }
      if r.Some? {
        var p, j := r.value.0, r.value.1;
        forall q | 2 <= q < p ensures !MarkerAt(path, q) {
          if MarkerAt(path, q) {
            MatchWithoutNewlines(path, q, j);
            assert false;
          }
        }
        forall k | p + 5 <= k < j ensures path[k] != '\\' {
          if path[k] == '\\' {
            MatchWithoutNewlines(path, p, k);
            assert false;
          }
        }
        assert MarkerAt(path, p);
      }
    }
  }

  /**
   * Conversely, for a path without newlines, the text between its first
   * `\RPA\` and the next backslash is the name extracted.
   */
  lemma FirstMarkerName(path: string, p: int, j: int)
    requires '\n' !in path && StartsUnc(path)
    requires MarkerAt(path, p) && forall q :: 2 <= q < p ==> !MarkerAt(path, q)
    requires p + 5 <= j < |path| && path[j] == '\\' && forall k :: p + 5 <= k < j ==> path[k] != '\\'
    ensures ExtractTaskName(path) == Some(path[p + 5..j])
  {
    MatchWithoutNewlines(path, p, j);
    var r := FindMatch(path, 2);
    var p0, j0 := r.value.0, r.value.1;
    assert RegexMatch(path, p0, j0);
    assert MarkerAt(path, p0);
    assert p0 == p;
    assert path[j0] == '\\';
    assert j0 == j;
  }

  /** A `\RPA\` has its `R` right after its first backslash. */
  lemma MarkerSecondChar(s: string, q: int)
    ensures MarkerAt(s, q) ==> s[q + 1] == 'R'
  {
    if MarkerAt(s, q) {
      assert s[q + 1] == s[q..q + 5][1];
    }
  }

  /** The network path `\\host\RPA\name\file`. */
  function RpaPath(host: string, name: string, file: string): string
  {
    "\\\\" + host + Marker + name + "\\" + file
  }

  /**
   * A path `\\host\RPA\name\file` yields `name` when the host has no `R`
   * (so no earlier `\RPA\` starts in it), the name is one segment, and there
   * is no newline.
   */
  lemma RpaPathName(host: string, name: string, file: string)
    requires 'R' !in host && '\\' !in name
    requires '\n' !in host && '\n' !in name && '\n' !in file
    ensures ExtractTaskName(RpaPath(host, name, file)) == Some(name)
  {
    var path := RpaPath(host, name, file);
    var p := 2 + |host|;
    var j := p + 5 + |name|;
    assert forall i :: 0 <= i < |host| ==> path[2 + i] == host[i];
    assert path[p..p + 5] == Marker;
    assert forall i :: 0 <= i < |name| ==> path[p + 5 + i] == name[i];
    assert forall i :: 0 <= i < |file| ==> path[j + 1 + i] == file[i];
    assert path[j] == '\\';
    assert '\n' !in path by {
      forall k | 0 <= k < |path| ensures path[k] != '\n' {
        if 2 <= k < p { assert path[k] == host[k - 2]; }
        else if p + 5 <= k < j { assert path[k] == name[k - p - 5]; }
        else if j + 1 <= k { assert path[k] == file[k - j - 1]; }
      }
    }
    forall q | 2 <= q < p ensures !MarkerAt(path, q) {
      if q + 1 < p { assert path[q + 1] == host[q - 1]; }
      MarkerSecondChar(path, q);
    }
    forall k | p + 5 <= k < j ensures path[k] != '\\' {
      assert path[k] == name[k - p - 5];
    }
    FirstMarkerName(path, p, j);
    assert path[p + 5..j] == name;
  }
}
