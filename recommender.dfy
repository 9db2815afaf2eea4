/** The local Top-250 catalogue of `recommender.py`: the movie record, its
    identity key, the ASCII-title filter, the key index and the pool that
    `load_top250` keeps after decoding the dataset. */
module Recommender {
  import opened PyStrings
  import opened Optional
  import opened Sequences
  import MovieIdentity

  /** A catalogue movie. Ratings are the IMDb rating in tenths (8.5 is 85). */
  datatype Movie = Movie(
    title: string,
    year: string,
    genres: seq<string>,
    actors: seq<string>,
    directors: seq<string>,
    imdbUrl: string,
    posterUrl: string,
    rating: Option<int>)

  /** `Movie.key`: `_movie_key(title, year)`, the same "normalised
      title::trimmed year" key the app uses. */
  function Key(m: Movie): string {
    MovieIdentity.MovieKey(m.title, m.year)
  }

  /** The key splits back at its first "::" into the stripped, lower-cased
      title and the stripped year, when the normalised title cannot overlap
      the separator. */
  lemma KeySplits(m: Movie)
    requires MovieIdentity.SplitsCleanly(Lower(Trim(m.title)))
    ensures Partition(Key(m), "::") == (Lower(Trim(m.title)), Trim(m.year))
  {
    MovieIdentity.MovieKeyPartition(m.title, m.year);
  }

  /** `_is_englishish_title`: the stripped title is non-empty and encodes
      as ASCII. */
  predicate IsEnglishishTitle(title: string) {
    var t := Trim(title);
    t != [] && IsAscii(t)
  }

  /** An englishish title has a non-whitespace character and every
      non-whitespace character in it is ASCII; conversely every ASCII title
      with a non-whitespace character is englishish. (Non-ASCII whitespace
      at either end is stripped before the ASCII test.) */
  lemma EnglishishShape(title: string)
    ensures IsEnglishishTitle(title) ==> exists i :: 0 <= i < |title| && !IsSpace(title[i])
    ensures IsEnglishishTitle(title) ==>
      forall i :: 0 <= i < |title| && !IsSpace(title[i]) ==> title[i] as int < 128
    ensures IsAscii(title) && (exists i :: 0 <= i < |title| && !IsSpace(title[i])) ==>
      IsEnglishishTitle(title)
  {
    var t := Trim(title);
    var a := StripStart(title, Whitespace);
    StripWhereSpec(title, Whitespace);
    TrimEmptyIff(title);
    assert Stripped(title, Whitespace, a, t);
    forall i | 0 <= i < |title| && !IsSpace(title[i])
      ensures a <= i < a + |t| && t[i - a] == title[i]
    {
    }
  }

  /** The movies of `index_by_key(movies)`, keyed by `Key`. */
  function IndexByKey(movies: seq<Movie>): map<string, Movie> {
    IndexBy(movies, (m: Movie) => m.title != [], Key)
  }

  /** A key is in the index exactly when a movie with a non-empty title has
      it, and it maps to the last such movie. */
  lemma IndexByKeyAt(movies: seq<Movie>, k: string)
    ensures k in IndexByKey(movies) <==>
      exists i :: 0 <= i < |movies| && movies[i].title != [] && Key(movies[i]) == k
    ensures k in IndexByKey(movies) ==>
      exists i :: 0 <= i < |movies| && movies[i].title != [] && Key(movies[i]) == k
        && IndexByKey(movies)[k] == movies[i]
        && forall j :: i < j < |movies| ==> !(movies[j].title != [] && Key(movies[j]) == k)
  {
    IndexByAt(movies, (m: Movie) => m.title != [], Key, k);
  }

  /** The names kept from a decoded list (genres, actors, directors):
      each one stripped, blank ones dropped. */
  function CleanName(name: string): Option<string> {
    var n := Trim(name);
    if n != [] then Some(n) else None
  }

  function CleanNames(names: seq<string>): seq<string> {
    FilterMap(names, CleanName)
  }

  /** One decoded dataset entry as `load_top250` keeps it: `None` when its
      stripped title is not englishish or its stripped poster URL does not
      start with "http". */
  function Top250Entry(raw: Movie): Option<Movie> {
    var title := Trim(raw.title);
    var posterUrl := Trim(raw.posterUrl);
    if !IsEnglishishTitle(title) then None
    else if !StartsWith(posterUrl, "http") then None
    else Some(Movie(title, Trim(raw.year), CleanNames(raw.genres), CleanNames(raw.actors),
                    CleanNames(raw.directors), Trim(raw.imdbUrl), posterUrl, raw.rating))
  }

  /** The sort key `imdb_rating or 0.0`. */
  function RatingKey(m: Movie): int {
    if m.rating.Some? then m.rating.value else 0
  }

  const Top250PoolSize := 100

  /** What `load_top250` returns for the decoded entries: the kept ones,
      stably sorted by rating from highest to lowest, first 100. */
  function Top250Pool(raw: seq<Movie>): seq<Movie> {
    Take(SortDesc(FilterMap(raw, Top250Entry), RatingKey), Top250PoolSize)
  }

  /** A kept entry has an englishish trimmed title and an "http" poster. */
  predicate Listed(m: Movie) {
    IsEnglishishTitle(m.title) && IsTrimmed(m.title) && StartsWith(m.posterUrl, "http")
  }

  lemma Top250EntryListed(raw: seq<Movie>)
    ensures forall j :: 0 <= j < |raw| && Top250Entry(raw[j]).Some? ==> Listed(Top250Entry(raw[j]).value)
  {
    forall j | 0 <= j < |raw| && Top250Entry(raw[j]).Some?
      ensures Listed(Top250Entry(raw[j]).value)
    {
      TrimIsTrimmed(raw[j].title);
      TrimIdempotent(raw[j].title);
    }
  }

  /** The pool holds at most 100 listed movies, in non-increasing rating
      order; it has 100 of them unless fewer entries were kept, and every
      kept entry left out rates no higher than any movie in the pool. */
  lemma Top250PoolSpec(raw: seq<Movie>)
    ensures var kept := FilterMap(raw, Top250Entry);
      var sorted := SortDesc(kept, RatingKey);
      var pool := Top250Pool(raw);
      && |pool| == Min(Top250PoolSize, |kept|)
      && NonIncreasing(pool, RatingKey)
      && (forall i :: 0 <= i < |pool| ==> Listed(pool[i]))
      && (forall i, j :: 0 <= i < |pool| <= j < |sorted| ==> RatingKey(pool[i]) >= RatingKey(sorted[j]))
  {
    var kept := FilterMap(raw, Top250Entry);
    var sorted := SortDesc(kept, RatingKey);
    Top250EntryListed(raw);
    FilterMapKeeps(raw, Top250Entry, Listed);
    MultisetKeeps(sorted, kept, Listed);
    NonIncreasingPrefix(sorted, |Top250Pool(raw)|, RatingKey);
  }

  /** The pool holds no movie more often than the kept entries do, and each
      of its movies is the kept form of some decoded entry. */
  lemma Top250PoolFromEntries(raw: seq<Movie>, i: nat)
    requires i < |Top250Pool(raw)|
    ensures multiset(Top250Pool(raw)) <= multiset(FilterMap(raw, Top250Entry))
    ensures exists j :: 0 <= j < |raw| && Top250Entry(raw[j]) == Some(Top250Pool(raw)[i])
  {
    var kept := FilterMap(raw, Top250Entry);
    var pool := Top250Pool(raw);
    TakeSubMultiset(SortDesc(kept, RatingKey), Top250PoolSize);
    assert pool[i] in multiset(pool);
    assert pool[i] in kept;
    FilterMapMember(raw, Top250Entry, pool[i]);
  }

  /** The post-decoding part of `load_top250`: the loop that strips and
      filters each entry, then the sort by rating and the cut at 100. */
  method LoadTop250(raw: seq<Movie>) returns (pool: seq<Movie>)
    ensures pool == Top250Pool(raw)
  {
    var out: seq<Movie> := [];
    var k := 0;
    while k < |raw|
      invariant k <= |raw|
      invariant out == FilterMap(raw[..k], Top250Entry)
    {
      var m := raw[k];
      var title := Trim(m.title);
      var posterUrl := Trim(m.posterUrl);
      if !IsEnglishishTitle(title) {
        FilterMapStepNone(raw, k, Top250Entry);
        k := k + 1;
        continue;
      }
      if !StartsWith(posterUrl, "http") {
        FilterMapStepNone(raw, k, Top250Entry);
        k := k + 1;
        continue;
      }
      var movie := Movie(title, Trim(m.year), CleanNames(m.genres), CleanNames(m.actors),
                         CleanNames(m.directors), Trim(m.imdbUrl), posterUrl, m.rating);
      FilterMapStepSome(raw, k, Top250Entry, movie);
      out := out + [movie];
      k := k + 1;
    }
    assert raw[..k] == raw;
    out := SortDesc(out, RatingKey);
    pool := Take(out, Top250PoolSize);
  }
}
