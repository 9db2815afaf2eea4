/** The click-to-replace step of the app: one new Gemini movie, neither
    shown nor on the watchlist, takes the slot of the clicked
    recommendation in `current_recommendations`. */
module Replacement {
  import opened PyStrings
  import opened Optional
  import opened Sequences
  import opened MovieIdentity
  import opened Watchlist

  /** A Gemini movie `choose_one_new_movie_candidate` accepts: a title that
      is not blank and whose normalised form is not excluded. */
  predicate Usable(movie: Row, excludedTitles: set<string>) {
    var titleValue := Trim(Get(movie, "title"));
    titleValue != [] && NormalizeMovieTitle(titleValue) !in excludedTitles
  }

  function UsableFor(excludedTitles: set<string>): Row -> bool {
    movie => Usable(movie, excludedTitles)
  }

  /** What `choose_one_new_movie_candidate` returns. */
  function ChosenCandidate(geminiMovies: seq<Row>, excludedTitles: set<string>): Option<Row> {
    var i := FirstIndex(geminiMovies, UsableFor(excludedTitles));
    if i == -1 then None else Some(geminiMovies[i])
  }

  /** The choice is the first usable movie, and there is none exactly when
      no movie is usable. */
  lemma ChosenCandidateSpec(geminiMovies: seq<Row>, excludedTitles: set<string>)
    ensures var r := ChosenCandidate(geminiMovies, excludedTitles);
      && (r.None? <==> forall i :: 0 <= i < |geminiMovies| ==> !Usable(geminiMovies[i], excludedTitles))
      && (r.Some? ==> exists i :: (0 <= i < |geminiMovies| && geminiMovies[i] == r.value
           && Usable(r.value, excludedTitles)
           && forall j :: 0 <= j < i ==> !Usable(geminiMovies[j], excludedTitles)))
  {
    var p := UsableFor(excludedTitles);
    var i := FirstIndex(geminiMovies, p);
    if i != -1 {
      assert p(geminiMovies[i]);
    }
  }

  /** `choose_one_new_movie_candidate`. */
  method ChooseOneNewMovieCandidate(geminiMovies: seq<Row>, excludedTitles: set<string>)
    returns (chosen: Option<Row>)
    ensures chosen == ChosenCandidate(geminiMovies, excludedTitles)
  {
    var k := 0;
    while k < |geminiMovies|
      invariant 0 <= k <= |geminiMovies|
      invariant forall j :: 0 <= j < k ==> !Usable(geminiMovies[j], excludedTitles)
    {
      var movie := geminiMovies[k];
      var titleValue := Trim(Get(movie, "title"));
      if titleValue == [] {
        k := k + 1;
        continue;
      }
      if NormalizeMovieTitle(titleValue) in excludedTitles {
        k := k + 1;
        continue;
      }
      assert Usable(movie, excludedTitles);
      return Some(movie);
    }
    return None;
  }

  /** The normalised title of a shown recommendation. */
  function RowTitleKey(movie: Row): string {
    NormalizeMovieTitle(Get(movie, "title"))
  }

  function TitleIs(normalizedTitle: string): Row -> bool {
    movie => RowTitleKey(movie) == normalizedTitle
  }

  /** The titles no replacement may bring back: those shown and those on
      the watchlist, normalised. */
  function ExcludedTitles(current: seq<Row>, watchlist: seq<Entry>): set<string> {
    Keys(current, RowTitleKey) + Keys(watchlist, TitleKey)
  }

  /** The recommendation written into the clicked slot; "logo.svg" stands
      in for a missing poster. */
  function NewRecommendation(chosen: Row, posterUrl: string): Row {
    map["title" := Trim(Get(chosen, "title")), "director" := Trim(Get(chosen, "director")),
        "year" := Trim(Get(chosen, "year")), "image" := if posterUrl == [] then "logo.svg" else posterUrl]
  }

  /** The row that replaces the clicked one once `chosen` is picked. */
  function ReplacementFor(chosen: Row, poster: (string, string) -> string): Row {
    NewRecommendation(chosen, poster(Trim(Get(chosen, "title")), Trim(Get(chosen, "year"))))
  }

  /** The row to write, if Gemini offered a usable movie. */
  function NewRow(geminiMovies: seq<Row>, excludedTitles: set<string>,
                  poster: (string, string) -> string): Option<Row>
  {
    match ChosenCandidate(geminiMovies, excludedTitles)
    case None => None
    case Some(chosen) => Some(ReplacementFor(chosen, poster))
  }

  /** `current_recommendations` after `replace_clicked_movie_with_new_recommendation`,
      given what Gemini proposes and what the poster lookup answers ("" for
      no poster). */
  function Replaced(current: seq<Row>, clickedTitle: string, watchlist: seq<Entry>,
                    geminiMovies: seq<Row>, poster: (string, string) -> string): seq<Row>
  {
    var normalizedClickedTitle := NormalizeMovieTitle(clickedTitle);
    if normalizedClickedTitle == [] then current
    else ReplaceFirst(current, TitleIs(normalizedClickedTitle),
                      NewRow(geminiMovies, ExcludedTitles(current, watchlist), poster))
  }

  /** Replacement keeps the number of recommendations, and changes nothing
      for a blank clicked title, a title not shown, or no usable Gemini
      movie. */
  lemma ReplacedShape(current: seq<Row>, clickedTitle: string, watchlist: seq<Entry>,
                      geminiMovies: seq<Row>, poster: (string, string) -> string)
    ensures |Replaced(current, clickedTitle, watchlist, geminiMovies, poster)| == |current|
    ensures NormalizeMovieTitle(clickedTitle) == [] ==>
      Replaced(current, clickedTitle, watchlist, geminiMovies, poster) == current
    ensures (forall i :: 0 <= i < |current| ==> RowTitleKey(current[i]) != NormalizeMovieTitle(clickedTitle)) ==>
      Replaced(current, clickedTitle, watchlist, geminiMovies, poster) == current
    ensures ChosenCandidate(geminiMovies, ExcludedTitles(current, watchlist)).None? ==>
      Replaced(current, clickedTitle, watchlist, geminiMovies, poster) == current
  {
    var nt := NormalizeMovieTitle(clickedTitle);
    if nt != [] {
      var p := TitleIs(nt);
      var excluded := ExcludedTitles(current, watchlist);
      var x := NewRow(geminiMovies, excluded, poster);
      assert Replaced(current, clickedTitle, watchlist, geminiMovies, poster) == ReplaceFirst(current, p, x);
      ReplaceFirstShape(current, p, x);
      assert forall i :: 0 <= i < |current| ==> (p(current[i]) <==> RowTitleKey(current[i]) == nt);
      assert x.None? <==> ChosenCandidate(geminiMovies, excluded).None?;
    }
  }

  /** A slot that replacement changes is the first one showing the clicked
      title, and it now holds the movie Gemini offered first that is
      neither shown nor watchlisted. */
  lemma ReplacedSlot(current: seq<Row>, clickedTitle: string, watchlist: seq<Entry>,
                     geminiMovies: seq<Row>, poster: (string, string) -> string, j: nat)
    requires j < |current|
    requires Replaced(current, clickedTitle, watchlist, geminiMovies, poster)[j] != current[j]
    ensures RowTitleKey(current[j]) == NormalizeMovieTitle(clickedTitle)
    ensures forall i :: 0 <= i < j ==> RowTitleKey(current[i]) != NormalizeMovieTitle(clickedTitle)
    ensures ChosenCandidate(geminiMovies, ExcludedTitles(current, watchlist)).Some?
    ensures Replaced(current, clickedTitle, watchlist, geminiMovies, poster)[j]
      == ReplacementFor(ChosenCandidate(geminiMovies, ExcludedTitles(current, watchlist)).value, poster)
  {
    var nt := NormalizeMovieTitle(clickedTitle);
    var p := TitleIs(nt);
    var excluded := ExcludedTitles(current, watchlist);
    var x := NewRow(geminiMovies, excluded, poster);
    var r := Replaced(current, clickedTitle, watchlist, geminiMovies, poster);
    assert nt != [];
    assert r == ReplaceFirst(current, p, x);
    ReplaceFirstAt(current, p, x, j);
  }

  /** When the clicked title is not blank, some slot shows it and Gemini
      offers a usable movie, exactly one slot changes: the first one showing
      the clicked title now holds the record built from the chosen movie,
      and that record differs from the one it replaced. */
  lemma ReplacesClickedSlot(current: seq<Row>, clickedTitle: string, watchlist: seq<Entry>,
                            geminiMovies: seq<Row>, poster: (string, string) -> string, k: nat)
    requires NormalizeMovieTitle(clickedTitle) != []
    requires k < |current| && RowTitleKey(current[k]) == NormalizeMovieTitle(clickedTitle)
    requires forall i :: 0 <= i < k ==> RowTitleKey(current[i]) != NormalizeMovieTitle(clickedTitle)
    requires ChosenCandidate(geminiMovies, ExcludedTitles(current, watchlist)).Some?
    ensures var chosen := ChosenCandidate(geminiMovies, ExcludedTitles(current, watchlist)).value;
      Replaced(current, clickedTitle, watchlist, geminiMovies, poster)
        == current[k := ReplacementFor(chosen, poster)]
    ensures Replaced(current, clickedTitle, watchlist, geminiMovies, poster)[k] != current[k]
  {
    var nt := NormalizeMovieTitle(clickedTitle);
    var excluded := ExcludedTitles(current, watchlist);
    ChosenCandidateSpec(geminiMovies, excluded);
    var chosen := ChosenCandidate(geminiMovies, excluded).value;
    NewMovieFresh(chosen, poster, excluded);
    NotExcluded(current, watchlist, RowTitleKey(ReplacementFor(chosen, poster)));
    assert FirstIndex(current, TitleIs(nt)) == k;
  }

  /** A movie that does replace one is new: it has a stripped, non-empty
      title, its normalised title is on neither the shown list nor the
      watchlist, and it has an image. */
  lemma ReplacementIsNew(current: seq<Row>, clickedTitle: string, watchlist: seq<Entry>,
                         geminiMovies: seq<Row>, poster: (string, string) -> string, j: nat)
    requires j < |current|
    requires Replaced(current, clickedTitle, watchlist, geminiMovies, poster)[j] != current[j]
    ensures var m := Replaced(current, clickedTitle, watchlist, geminiMovies, poster)[j];
      && Trim(Get(m, "title")) == Get(m, "title") && Get(m, "title") != []
      && Get(m, "image") != []
      && (forall i :: 0 <= i < |current| ==> RowTitleKey(current[i]) != RowTitleKey(m))
      && (forall i :: 0 <= i < |watchlist| ==> TitleKey(watchlist[i]) != RowTitleKey(m))
  {
    ReplacedSlot(current, clickedTitle, watchlist, geminiMovies, poster, j);
    var excluded := ExcludedTitles(current, watchlist);
    ChosenCandidateSpec(geminiMovies, excluded);
    var chosen := ChosenCandidate(geminiMovies, excluded).value;
    NewMovieFresh(chosen, poster, excluded);
    NotExcluded(current, watchlist, RowTitleKey(ReplacementFor(chosen, poster)));
  }

  /** The replacing row carries the chosen movie's title, stripped, with
      the chosen movie's normalised title, and an image. */
  lemma NewMovieFresh(chosen: Row, poster: (string, string) -> string, excluded: set<string>)
    requires Usable(chosen, excluded)
    ensures var m := ReplacementFor(chosen, poster);
      && Trim(Get(m, "title")) == Get(m, "title") && Get(m, "title") != []
      && Get(m, "image") != []
      && RowTitleKey(m) !in excluded
  {
    var t := Trim(Get(chosen, "title"));
    var m := ReplacementFor(chosen, poster);
    assert Get(m, "title") == t;
    TrimIdempotent(Get(chosen, "title"));
    NormalizeTrimmed(t);
  }

  /** A title outside the excluded set differs from every shown and every
      watchlisted title. */
  lemma NotExcluded(current: seq<Row>, watchlist: seq<Entry>, title: string)
    requires title !in ExcludedTitles(current, watchlist)
    ensures forall i :: 0 <= i < |current| ==> RowTitleKey(current[i]) != title
    ensures forall i :: 0 <= i < |watchlist| ==> TitleKey(watchlist[i]) != title
  {
    KeysMember(current, RowTitleKey, title);
    KeysMember(watchlist, TitleKey, title);
  }

  /** `current_recommendations`. */
  class CurrentRecommendations {
    var movies: seq<Row>

    constructor(initial: seq<Row>)
      ensures movies == initial
    {
      movies := initial;
    }

    /** `replace_clicked_movie_with_new_recommendation`, with Gemini's
        answer and the poster lookup passed in. */
    method ReplaceClickedMovie(clickedTitle: string, watchlist: seq<Entry>,
                               geminiMovies: seq<Row>, poster: (string, string) -> string)
      modifies this
      ensures movies == Replaced(old(movies), clickedTitle, watchlist, geminiMovies, poster)
    {
      var normalizedClickedTitle := NormalizeMovieTitle(clickedTitle);
      if normalizedClickedTitle == [] {
        return;
      }
      var clickedIndex := FindClicked(normalizedClickedTitle);
      if clickedIndex == -1 {
        return;
      }
      var excludedTitles := CollectExcluded(watchlist);
      var chosen := ChooseOneNewMovieCandidate(geminiMovies, excludedTitles);
      if chosen.None? {
        return;
      }
      var newTitle := Trim(Get(chosen.value, "title"));
      var newYear := Trim(Get(chosen.value, "year"));
      var newDirector := Trim(Get(chosen.value, "director"));
      var posterUrl := poster(newTitle, newYear);
      if posterUrl == [] {
        posterUrl := "logo.svg";
      }
      movies := movies[clickedIndex := map["title" := newTitle, "director" := newDirector,
                                            "year" := newYear, "image" := posterUrl]];
    }

    /** The first loop: the index of the first movie showing the clicked
        title, or -1. */
    method FindClicked(normalizedClickedTitle: string) returns (clickedIndex: int)
      ensures clickedIndex == FirstIndex(movies, TitleIs(normalizedClickedTitle))
    {
      var index := 0;
      while index < |movies|
        invariant 0 <= index <= |movies|
        invariant forall j :: 0 <= j < index ==> RowTitleKey(movies[j]) != normalizedClickedTitle
      {
        if NormalizeMovieTitle(Get(movies[index], "title")) == normalizedClickedTitle {
          assert TitleIs(normalizedClickedTitle)(movies[index]);
          return index;
        }
        index := index + 1;
      }
      return -1;
    }

    /** The two loops that collect the excluded titles. */
    method CollectExcluded(watchlist: seq<Entry>) returns (excludedTitles: set<string>)
      ensures excludedTitles == ExcludedTitles(movies, watchlist)
    {
      var shown: set<string> := {};
      var k := 0;
      while k < |movies|
        invariant 0 <= k <= |movies|
        invariant shown == Keys(movies[..k], RowTitleKey)
      {
        KeysStep(movies, k, RowTitleKey);
        shown := shown + {NormalizeMovieTitle(Get(movies[k], "title"))};
        k := k + 1;
      }
      assert movies[..k] == movies;
      var listed: set<string> := {};
      k := 0;
      while k < |watchlist|
        invariant 0 <= k <= |watchlist|
        invariant listed == Keys(watchlist[..k], TitleKey)
      {
        KeysStep(watchlist, k, TitleKey);
        listed := listed + {NormalizeMovieTitle(watchlist[k].title)};
        k := k + 1;
      }
      assert watchlist[..k] == watchlist;
      excludedTitles := shown + listed;
    }
  }
}
