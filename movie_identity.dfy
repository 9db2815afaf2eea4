/** The string and list helpers of the Flask backend's app module: title
    normalisation, the "title::year" identity key, the CSV column fallback
    and the watched-list lines sent to Gemini as context. */
module MovieIdentity {
  import opened PyStrings
  import opened Optional
  import opened Sequences

  /** A Python dict read as `str(d.get(k, ""))`: every value is already the
      string Python's `str()` makes of it. */
  type Row = map<string, string>

  function Get(row: Row, k: string): string {
    if k in row then row[k] else ""
  }

  /** An element of a decoded JSON list: a dict, or anything else (which
      every sanitising loop skips). */
  datatype Item = Record(fields: Row) | NotRecord

  predicate NoAsciiUpper(s: string) {
    forall i :: 0 <= i < |s| ==> !('A' <= s[i] <= 'Z')
  }

  /** `normalize_movie_title`: the trimmed, lower-cased title, used for
      every case-insensitive title comparison. */
  function NormalizeMovieTitle(title: string): string {
    Lower(Trim(title))
  }

  /** The normalised title has no surrounding whitespace and no upper-case
      ASCII letter, and is empty exactly when the title is all
      whitespace. */
  lemma NormalizeShape(title: string)
    ensures var r := NormalizeMovieTitle(title);
      && |r| <= |title| && IsTrimmed(r) && NoAsciiUpper(r)
      && (r == [] <==> forall i :: 0 <= i < |title| ==> IsSpace(title[i]))
  {
    TrimIsTrimmed(title);
    LowerKeepsTrimmed(Trim(title));
    LowerSpec(Trim(title));
    TrimEmptyIff(title);
  }

  /** Normalising twice is normalising once. */
  lemma NormalizeIdempotent(title: string)
    ensures NormalizeMovieTitle(NormalizeMovieTitle(title)) == NormalizeMovieTitle(title)
  {
    var n := NormalizeMovieTitle(title);
    NormalizeShape(title);
    TrimOfTrimmed(n);
    LowerSpec(n);
    assert Lower(n) == n;
  }

  /** `_movie_key`: the identity of a movie, "normalised title::trimmed year". */
  function MovieKey(title: string, year: string): string {
    NormalizeMovieTitle(title) + "::" + Trim(year)
  }

  /** A normalised title that the first "::" of its key cannot overlap. */
  predicate SplitsCleanly(normalized: string) {
    !Contains(normalized, "::") && (normalized == [] || normalized[|normalized| - 1] != ':')
  }

  /** `raw_key.partition("::")`, as the watchlist-removal route does it,
      recovers the normalised title and the trimmed year from a key. */
  lemma {:induction false} MovieKeyPartition(title: string, year: string)
    requires SplitsCleanly(NormalizeMovieTitle(title))
    ensures Partition(MovieKey(title, year), "::") == (NormalizeMovieTitle(title), Trim(year))
  {
    var nt := NormalizeMovieTitle(title);
    var k := MovieKey(title, year);
    assert OccursAt(k, "::", |nt|) by {
      assert k[|nt|..|nt| + 2] == "::";
    }
    forall j | 0 <= j < |nt| ensures !OccursAt(k, "::", j) {
      if j + 1 < |nt| {
        assert k[j..j + 2] == nt[j..j + 2];
        assert !OccursAt(nt, "::", j);
      } else {
        assert k[j..j + 2][0] == nt[j];
      }
    }
    var i := IndexOf(k, "::");
    assert i == |nt|;
    assert k[..i] == nt;
    assert k[i + 2..] == Trim(year);
  }

  /** Two movies whose normalised titles split cleanly have the same key
      exactly when their normalised titles and trimmed years agree. */
  lemma MovieKeyInjective(t1: string, y1: string, t2: string, y2: string)
    requires SplitsCleanly(NormalizeMovieTitle(t1)) && SplitsCleanly(NormalizeMovieTitle(t2))
    ensures MovieKey(t1, y1) == MovieKey(t2, y2) <==>
      NormalizeMovieTitle(t1) == NormalizeMovieTitle(t2) && Trim(y1) == Trim(y2)
  {
    MovieKeyPartition(t1, y1);
    MovieKeyPartition(t2, y2);
  }

  /** The row lacks column `k` or holds only whitespace there. */
  predicate Blank(row: Row, k: string) {
    k !in row || Trim(row[k]) == []
  }

  /** Column `candidateKeys[i]` is the first one that is not blank. */
  predicate FirstFilled(row: Row, candidateKeys: seq<string>, i: int) {
    && 0 <= i < |candidateKeys|
    && !Blank(row, candidateKeys[i])
    && forall j :: 0 <= j < i ==> Blank(row, candidateKeys[j])
  }

  /** `get_first_non_empty_value`: the trimmed value of the first listed
      column that the row has and that is not blank, else "". */
  function GetFirstNonEmptyValue(row: Row, candidateKeys: seq<string>): (r: string)
    ensures r == [] <==> forall i :: 0 <= i < |candidateKeys| ==> Blank(row, candidateKeys[i])
    ensures r != [] ==>
      exists i :: FirstFilled(row, candidateKeys, i) && r == Trim(row[candidateKeys[i]])
  {
    if candidateKeys == [] then ""
    else if !Blank(row, candidateKeys[0]) then
      assert FirstFilled(row, candidateKeys, 0);
      Trim(row[candidateKeys[0]])
    else
      var rest := candidateKeys[1..];
      var r := GetFirstNonEmptyValue(row, rest);
      assert forall i :: 1 <= i < |candidateKeys| ==> candidateKeys[i] == rest[i - 1];
      if r != [] then
        ghost var i :| FirstFilled(row, rest, i) && r == Trim(row[rest[i]]);
        assert FirstFilled(row, candidateKeys, i + 1);
        r
      else r
  }

  /** One line of Gemini's watched-movie context: "Title (Year)", or just
      "Title" without a year; rows without a name give no line. */
  function WatchedLine(movie: Row): (line: Option<string>)
    ensures line.Some? <==> Trim(Get(movie, "name")) != []
    ensures line.Some? ==> StartsWith(line.value, Trim(Get(movie, "name")))
    ensures line.Some? ==> line.value != [] && IsTrimmed(line.value)
  {
    var name := Trim(Get(movie, "name"));
    var year := Trim(Get(movie, "year"));
    TrimIsTrimmed(Get(movie, "name"));
    if name == [] then None
    else if year != [] then
      assert (name + " (" + year + ")")[..|name|] == name;
      Some(name + " (" + year + ")")
    else Some(name)
  }

  /** Every watched line is a non-blank trimmed string, and there are none
      exactly when no row has a name (the upload route's "no movie titles"
      error). */
  lemma WatchedLinesShape(movies: seq<Row>)
    ensures forall i :: 0 <= i < |FilterMap(movies, WatchedLine)| ==>
      FilterMap(movies, WatchedLine)[i] != [] && IsTrimmed(FilterMap(movies, WatchedLine)[i])
    ensures FilterMap(movies, WatchedLine) == [] <==>
      forall i :: 0 <= i < |movies| ==> Trim(Get(movies[i], "name")) == []
  {
    FilterMapKeeps(movies, WatchedLine, (l: string) => l != [] && IsTrimmed(l));
    FilterMapEmptyIff(movies, WatchedLine);
  }

  /** `build_watched_lines_for_gemini`. */
  method BuildWatchedLinesForGemini(parsedMovies: seq<Row>) returns (watchedLines: seq<string>)
    ensures watchedLines == FilterMap(parsedMovies, WatchedLine)
    ensures |watchedLines| <= |parsedMovies|
    ensures forall i :: 0 <= i < |watchedLines| ==> watchedLines[i] != [] && IsTrimmed(watchedLines[i])
    ensures watchedLines == [] <==> forall i :: 0 <= i < |parsedMovies| ==> Trim(Get(parsedMovies[i], "name")) == []
  {
    WatchedLinesShape(parsedMovies);
    watchedLines := [];
    var k := 0;
    while k < |parsedMovies|
      invariant 0 <= k <= |parsedMovies|
      invariant watchedLines == FilterMap(parsedMovies[..k], WatchedLine)
    {
      var movie := parsedMovies[k];
      var nameValue := Trim(Get(movie, "name"));
      var yearValue := Trim(Get(movie, "year"));
      if nameValue != [] {
        var line := if yearValue != [] then nameValue + " (" + yearValue + ")" else nameValue;
        FilterMapStepSome(parsedMovies, k, WatchedLine, line);
        watchedLines := watchedLines + [line];
      } else {
        FilterMapStepNone(parsedMovies, k, WatchedLine);
      }
      k := k + 1;
    }
    assert parsedMovies[..k] == parsedMovies;
  }
}
