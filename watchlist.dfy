/** The clicked-movie watchlist kept in memory by the app (`watchlist_movies`):
    append with de-duplication by normalised title, and removal by a
    "title::year" key scanning from the newest entry backwards. */
module Watchlist {
  import opened PyStrings
  import opened Sequences
  import opened MovieIdentity

  /** A stored movie: every field already stripped. The same shape is used
      for the movies currently shown as recommendations. */
  datatype Entry = Entry(title: string, director: string, year: string, image: string)

  /** The dictionary `add_movie_to_watchlist` appends for `movie`. */
  function NewEntry(movie: Row): Entry {
    Entry(Trim(Get(movie, "title")), Trim(Get(movie, "director")),
          Trim(Get(movie, "year")), Trim(Get(movie, "image")))
  }

  /** The normalised title an entry is compared by. */
  function TitleKey(e: Entry): string {
    NormalizeMovieTitle(e.title)
  }

  /** No two entries share a normalised title. */
  predicate DistinctTitles(ws: seq<Entry>) {
    DistinctBy(ws, TitleKey)
  }

  predicate HasTitle(ws: seq<Entry>, normalized: string) {
    exists i :: 0 <= i < |ws| && TitleKey(ws[i]) == normalized
  }

  /** The watchlist after `add_movie_to_watchlist(movie)`: unchanged for a
      blank title or a title already present, else the new entry appended. */
  function WithMovie(ws: seq<Entry>, movie: Row): seq<Entry> {
    var movieTitle := Trim(Get(movie, "title"));
    if movieTitle == [] then ws
    else if HasTitle(ws, NormalizeMovieTitle(movieTitle)) then ws
    else ws + [NewEntry(movie)]
  }

  lemma NormalizeTrimmed(title: string)
    ensures NormalizeMovieTitle(Trim(title)) == NormalizeMovieTitle(title)
  {
    TrimIdempotent(title);
  }

  /** Adding keeps earlier entries in place and appends at most one entry,
      which then carries the movie's title. */
  lemma WithMovieAppends(ws: seq<Entry>, movie: Row)
    ensures var r := WithMovie(ws, movie);
      && (|r| == |ws| || |r| == |ws| + 1)
      && r[..|ws|] == ws
      && (|r| == |ws| + 1 ==> r[|ws|] == NewEntry(movie))
      && (|r| == |ws| + 1 <==> Trim(Get(movie, "title")) != [] && !HasTitle(ws, NormalizeMovieTitle(Get(movie, "title"))))
  {
    NormalizeTrimmed(Get(movie, "title"));
  }

  /** After adding a movie with a non-blank title, its normalised title is
      on the list. */
  lemma WithMovieHasTitle(ws: seq<Entry>, movie: Row)
    requires Trim(Get(movie, "title")) != []
    ensures HasTitle(WithMovie(ws, movie), NormalizeMovieTitle(Get(movie, "title")))
  {
    var t := Trim(Get(movie, "title"));
    NormalizeTrimmed(Get(movie, "title"));
    var r := WithMovie(ws, movie);
    if !HasTitle(ws, NormalizeMovieTitle(t)) {
      assert TitleKey(r[|ws|]) == NormalizeMovieTitle(t);
    }
  }

  /** De-duplication: no two entries ever share a normalised title. */
  lemma WithMovieKeepsDistinct(ws: seq<Entry>, movie: Row)
    requires DistinctTitles(ws)
    ensures DistinctTitles(WithMovie(ws, movie))
  {
    var t := Trim(Get(movie, "title"));
    if t != [] && !HasTitle(ws, NormalizeMovieTitle(t)) {
      NormalizeTrimmed(Get(movie, "title"));
      assert TitleKey(NewEntry(movie)) == NormalizeMovieTitle(t);
      DistinctByAppend(ws, NewEntry(movie), TitleKey);
    }
  }

  /** Adding the same movie twice is adding it once. */
  lemma WithMovieIdempotent(ws: seq<Entry>, movie: Row)
    ensures WithMovie(WithMovie(ws, movie), movie) == WithMovie(ws, movie)
  {
    if Trim(Get(movie, "title")) != [] {
      WithMovieHasTitle(ws, movie);
      NormalizeTrimmed(Get(movie, "title"));
    }
  }

  /** The entry matches the normalised title and, when the key names a
      year, that year as well. */
  predicate Matches(e: Entry, normalizedTitle: string, yearPart: string) {
    TitleKey(e) == normalizedTitle && (yearPart == [] || Trim(e.year) == yearPart)
  }

  /** Index of the last matching entry, or -1. */
  function LastMatch(ws: seq<Entry>, normalizedTitle: string, yearPart: string): (r: int)
    ensures -1 <= r < |ws|
    ensures r != -1 ==> Matches(ws[r], normalizedTitle, yearPart)
    ensures forall j :: r < j < |ws| ==> !Matches(ws[j], normalizedTitle, yearPart)
  {
    LastIndex(ws, e => Matches(e, normalizedTitle, yearPart))
  }

  /** The list with its last matching entry removed (unchanged if none). */
  function WithoutLastMatch(ws: seq<Entry>, normalizedTitle: string, yearPart: string): seq<Entry> {
    var i := LastMatch(ws, normalizedTitle, yearPart);
    if i == -1 then ws else RemoveAt(ws, i)
  }

  /** The answers of the remove route. */
  datatype RemoveOutcome = MissingKey | InvalidKey | Done(removed: bool, watchlistSize: nat)

  /** What the remove route reads from a key: `raw_key.partition("::")`,
      the title part stripped and lower-cased, the year part stripped. */
  function KeyParts(rawKey: string): (string, string) {
    var parts := Partition(rawKey, "::");
    (Lower(Trim(parts.0)), Trim(parts.1))
  }

  /** The route's answer and the new list for the value sent as "key". */
  function RemoveByKeySpec(ws: seq<Entry>, keyValue: string): (RemoveOutcome, seq<Entry>) {
    var rawKey := Trim(keyValue);
    if rawKey == [] then (MissingKey, ws)
    else
      var (normalizedTitle, yearPart) := KeyParts(rawKey);
      if normalizedTitle == [] then (InvalidKey, ws)
      else
        var r := WithoutLastMatch(ws, normalizedTitle, yearPart);
        (Done(r != ws, |r|), r)
  }

  /** At most one entry goes, and `removed` says whether one did. */
  lemma RemoveOutcomeFaithful(ws: seq<Entry>, keyValue: string)
    ensures var (outcome, r) := RemoveByKeySpec(ws, keyValue);
      && (outcome.Done? ==> outcome.watchlistSize == |r|)
      && (outcome.Done? ==> (outcome.removed <==> |r| == |ws| - 1))
      && (outcome.Done? && !outcome.removed ==> r == ws)
      && (!outcome.Done? ==> r == ws)
      && (|r| == |ws| || |r| == |ws| - 1)
  {
  }

  /** The entry removed is the last one that matches, and the others keep
      their order. */
  lemma RemovesLastMatch(ws: seq<Entry>, nt: string, yp: string)
    requires LastMatch(ws, nt, yp) != -1
    ensures var i := LastMatch(ws, nt, yp);
      && Matches(ws[i], nt, yp)
      && (forall j :: i < j < |ws| ==> !Matches(ws[j], nt, yp))
      && WithoutLastMatch(ws, nt, yp) == ws[..i] + ws[i + 1..]
      && IsSubsequence(WithoutLastMatch(ws, nt, yp), ws)
  {
    RemoveAtIsSubsequence(ws, LastMatch(ws, nt, yp));
  }

  /** Removing keeps the titles distinct and, because they are distinct,
      leaves no entry with the key's title and year. */
  lemma RemoveKeepsDistinct(ws: seq<Entry>, nt: string, yp: string)
    requires DistinctTitles(ws)
    ensures DistinctTitles(WithoutLastMatch(ws, nt, yp))
    ensures forall j :: 0 <= j < |WithoutLastMatch(ws, nt, yp)| ==> !Matches(WithoutLastMatch(ws, nt, yp)[j], nt, yp)
  {
    var i := LastMatch(ws, nt, yp);
    if i != -1 {
      DistinctByRemoveAt(ws, i, TitleKey);
      var r := RemoveAt(ws, i);
      forall j | 0 <= j < |r| ensures !Matches(r[j], nt, yp) {
        assert TitleKey(r[j]) != TitleKey(ws[i]);
      }
    }
  }

  /** The key `_movie_key` builds for an entry removes that entry, provided
      its normalised title is non-empty, holds no "::" and does not end in
      ':' (so the first "::" of the key is the separator). */
  lemma OwnKeyRemovesEntry(ws: seq<Entry>, k: nat)
    requires DistinctTitles(ws) && k < |ws|
    requires NormalizeMovieTitle(ws[k].title) != [] && SplitsCleanly(NormalizeMovieTitle(ws[k].title))
    ensures RemoveByKeySpec(ws, MovieKey(ws[k].title, ws[k].year)) == (Done(true, |ws| - 1), RemoveAt(ws, k))
  {
    var e := ws[k];
    var nt := NormalizeMovieTitle(e.title);
    var y := Trim(e.year);
    var key := MovieKey(e.title, e.year);
    NormalizeShape(e.title);
    TrimIsTrimmed(e.year);
    KeyIsTrimmed(nt, y);
    TrimOfTrimmed(key);
    MovieKeyPartition(e.title, e.year);
    TrimOfTrimmed(nt);
    LowerIdempotent(Trim(e.title));
    TrimIdempotent(e.year);
    assert KeyParts(key) == (nt, y);
    KeyMatchesOnlyItsEntry(ws, k);
  }

  /** "title::year" is trimmed when the title is non-empty and trimmed and
      the year is trimmed. */
  lemma KeyIsTrimmed(nt: string, y: string)
    requires nt != [] && IsTrimmed(nt) && IsTrimmed(y)
    ensures IsTrimmed(nt + "::" + y)
  {
    var key := nt + "::" + y;
    assert key[0] == nt[0];
    if y != [] {
      assert key[|key| - 1] == y[|y| - 1];
    }
  }

  /** With distinct titles, an entry's own title and year single it out. */
  lemma KeyMatchesOnlyItsEntry(ws: seq<Entry>, k: nat)
    requires DistinctTitles(ws) && k < |ws|
    ensures LastMatch(ws, TitleKey(ws[k]), Trim(ws[k].year)) == k
    ensures RemoveAt(ws, k) != ws
  {
    var nt, y := TitleKey(ws[k]), Trim(ws[k].year);
    assert Matches(ws[k], nt, y);
    assert |RemoveAt(ws, k)| != |ws|;
  }

  /** `watchlist_movies`. */
  class WatchlistStore {
    var entries: seq<Entry>

    /** The invariant add and remove keep. */
    predicate Valid()
      reads this
    {
      DistinctTitles(entries)
    }

    constructor()
      ensures entries == [] && Valid()
    {
      entries := [];
    }

    /** `add_movie_to_watchlist`. */
    method AddMovie(movie: Row)
      modifies this
      ensures entries == WithMovie(old(entries), movie)
      ensures old(Valid()) ==> Valid()
    {
      if Valid() {
        WithMovieKeepsDistinct(entries, movie);
      }
      var movieTitle := Trim(Get(movie, "title"));
      if movieTitle == [] {
        return;
      }
      var present := ContainsTitle(NormalizeMovieTitle(movieTitle));
      if present {
        return;
      }
      entries := entries + [Entry(movieTitle, Trim(Get(movie, "director")),
                                  Trim(Get(movie, "year")), Trim(Get(movie, "image")))];
    }

    /** The duplicate check of `add_movie_to_watchlist`: some entry's
        normalised title equals `normalizedTitle`. */
    method ContainsTitle(normalizedTitle: string) returns (present: bool)
      ensures present <==> HasTitle(entries, normalizedTitle)
    {
      var k := 0;
      while k < |entries|
        invariant 0 <= k <= |entries|
        invariant forall j :: 0 <= j < k ==> TitleKey(entries[j]) != normalizedTitle
      {
        if NormalizeMovieTitle(entries[k].title) == normalizedTitle {
          return true;
        }
        k := k + 1;
      }
      return false;
    }

    /** The remove route: reads the key, rejects a blank key or a blank
        title part, and otherwise removes the newest matching entry. */
    method RemoveByKey(keyValue: string) returns (outcome: RemoveOutcome)
      modifies this
      ensures (outcome, entries) == RemoveByKeySpec(old(entries), keyValue)
      ensures old(Valid()) ==> Valid()
    {
      var rawKey := Trim(keyValue);
      if rawKey == [] {
        return MissingKey;
      }
      var parts := Partition(rawKey, "::");
      var normalizedTitle := Lower(Trim(parts.0));
      var yearPart := Trim(parts.1);
      if normalizedTitle == [] {
        return InvalidKey;
      }
      var removed := RemoveLastMatch(normalizedTitle, yearPart);
      outcome := Done(removed, |entries|);
    }

    /** The loop of the remove route: scans from the newest entry
        backwards and pops the first match it meets. */
    method RemoveLastMatch(normalizedTitle: string, yearPart: string) returns (removed: bool)
      modifies this
      ensures entries == WithoutLastMatch(old(entries), normalizedTitle, yearPart)
      ensures removed <==> entries != old(entries)
      ensures old(Valid()) ==> Valid()
    {
      if Valid() {
        RemoveKeepsDistinct(entries, normalizedTitle, yearPart);
      }
      removed := false;
      var i := |entries| - 1;
      while i >= 0
        invariant -1 <= i < |entries| && entries == old(entries)
        invariant LastMatch(entries, normalizedTitle, yearPart) <= i
        decreases i
      {
        var m := entries[i];
        var t := NormalizeMovieTitle(m.title);
        var y := Trim(m.year);
        if t != normalizedTitle || (yearPart != [] && y != yearPart) {
          assert !Matches(m, normalizedTitle, yearPart);
          i := i - 1;
        } else {
          assert LastMatch(entries, normalizedTitle, yearPart) == i;
          entries := entries[..i] + entries[i + 1..];
          assert |entries| == |old(entries)| - 1;
          removed := true;
          return;
        }
      }
    }
  }
}
