/** `recommend_batch` of `recommender.py` with the scores given: mode and
    size normalisation, the candidate pool, the threshold tightening, the
    sort, the top-`batch_size` selection (with the genre-diversity greedy
    pass in super mode) and the result records. */
module BatchSelection {
  import opened PyStrings
  import opened Sequences
  import opened Recommender

  const MaxBatchSize := 60

  /** `"super" if str(mode).strip().lower() == "super" else "regular"`. */
  function NormalizeMode(mode: string): string {
    if Lower(Trim(mode)) == "super" then "super" else "regular"
  }

  /** The normalised mode is one of the two modes, and normalising it again
      changes nothing. */
  lemma NormalizeModeShape(mode: string)
    ensures NormalizeMode(mode) == "super" || NormalizeMode(mode) == "regular"
    ensures NormalizeMode(NormalizeMode(mode)) == NormalizeMode(mode)
  {
    var m := NormalizeMode(mode);
    TrimOfTrimmed(m);
    LowerSpec(m);
    assert Lower(m) == m;
  }

  /** `max(1, min(batch_size, 60))`. */
  function ClampBatchSize(batchSize: int): (n: int)
    ensures 1 <= n <= MaxBatchSize
    ensures 1 <= batchSize <= MaxBatchSize ==> n == batchSize
    ensures batchSize < 1 ==> n == 1
    ensures batchSize > MaxBatchSize ==> n == MaxBatchSize
  {
    var m := Min(batchSize, MaxBatchSize);
    if m < 1 then 1 else m
  }

  /** A candidate survives the pool filter when its key is in none of the
      watched, excluded and liked-context sets. */
  predicate Unseen(watched: set<string>, exclude: set<string>, liked: set<string>, m: Movie) {
    Key(m) !in watched && Key(m) !in exclude && Key(m) !in liked
  }

  function UnseenBy(watched: set<string>, exclude: set<string>, liked: set<string>): Movie -> bool {
    (m: Movie) => Unseen(watched, exclude, liked, m)
  }

  function Pool(candidates: seq<Movie>, watched: set<string>, exclude: set<string>, liked: set<string>): seq<Movie> {
    Filter(candidates, UnseenBy(watched, exclude, liked))
  }

  /** The pool is the candidates in their order, each one kept exactly when
      its key is in none of the three sets. */
  lemma PoolSpec(candidates: seq<Movie>, watched: set<string>, exclude: set<string>, liked: set<string>, m: Movie)
    ensures IsSubsequence(Pool(candidates, watched, exclude, liked), candidates)
    ensures m in Pool(candidates, watched, exclude, liked) <==> m in candidates && Unseen(watched, exclude, liked, m)
  {
    FilterIsSubsequence(candidates, UnseenBy(watched, exclude, liked));
    FilterMember(candidates, UnseenBy(watched, exclude, liked), m);
  }

  /** The loop that builds `pool`. */
  method BuildPool(candidates: seq<Movie>, watched: set<string>, exclude: set<string>, liked: set<string>)
    returns (pool: seq<Movie>)
    ensures pool == Pool(candidates, watched, exclude, liked)
  {
    pool := [];
    var k := 0;
    while k < |candidates|
      invariant k <= |candidates|
      invariant pool == Filter(candidates[..k], UnseenBy(watched, exclude, liked))
    {
      var m := candidates[k];
      FilterStep(candidates, k, UnseenBy(watched, exclude, liked));
      var key := Key(m);
      if key in watched {
        k := k + 1;
        continue;
      }
      if key in exclude {
        k := k + 1;
        continue;
      }
      if key in liked {
        k := k + 1;
        continue;
      }
      pool := pool + [m];
      k := k + 1;
    }
    assert candidates[..k] == candidates;
  }

  /** A movie with its score, in hundredths (0.3 is 30). */
  datatype Scored = Scored(movie: Movie, score: int)

  function ScoreOf(x: Scored): int { x.score }

  /** `scored = [(m, score_movie(m, ..., mode=mode)) for m in pool]`, with
      the scoring function given. */
  function ScoreAll(pool: seq<Movie>, score: (Movie, string) -> int, mode: string): (scored: seq<Scored>)
    ensures |scored| == |pool|
  {
    seq(|pool|, i requires 0 <= i < |pool| => Scored(pool[i], score(pool[i], mode)))
  }

  /** The round thresholds; regular mode is stricter. */
  function Thresholds(mode: string): seq<int> {
    if mode == "regular" then [30, 50, 60, 60, 60] else [25, 30, 35, 35, 35]
  }

  function AtLeast(t: int): Scored -> bool {
    (x: Scored) => x.score >= t
  }

  /** One round: the items scoring at least `t` replace `working` when
      there are `batch_size` of them, or when there are any at all. */
  function TightenStep(working: seq<Scored>, t: int, batchSize: int): seq<Scored> {
    var filtered := Filter(working, AtLeast(t));
    if |filtered| >= batchSize then filtered
    else if filtered != [] then filtered else working
  }

  /** `working` after the rounds for the thresholds `ts`. */
  function Tighten(scored: seq<Scored>, ts: seq<int>, batchSize: int): seq<Scored>
    decreases |ts|
  {
    if ts == [] then scored
    else TightenStep(Tighten(scored, ts[..|ts| - 1], batchSize), ts[|ts| - 1], batchSize)
  }

  /** For a batch size of at least one, a round keeps the passing items
      when there are any and keeps `working` otherwise: the size test
      never decides anything. */
  lemma TightenStepShape(working: seq<Scored>, t: int, batchSize: int)
    requires batchSize >= 1
    ensures var filtered := Filter(working, AtLeast(t));
      TightenStep(working, t, batchSize) == if filtered != [] then filtered else working
  {
  }

  /** The rounds only ever delete items, and they never empty a non-empty
      `scored`. */
  lemma {:induction false} TightenSpec(scored: seq<Scored>, ts: seq<int>, batchSize: int)
    requires batchSize >= 1
    ensures IsSubsequence(Tighten(scored, ts, batchSize), scored)
    ensures Tighten(scored, ts, batchSize) == [] <==> scored == []
    decreases |ts|
  {
    if ts == [] {
      SubsequenceRefl(scored);
    } else {
      var prev := Tighten(scored, ts[..|ts| - 1], batchSize);
      TightenSpec(scored, ts[..|ts| - 1], batchSize);
      var filtered := Filter(prev, AtLeast(ts[|ts| - 1]));
      if filtered != [] {
        FilterIsSubsequence(prev, AtLeast(ts[|ts| - 1]));
        SubsequenceTrans(filtered, prev, scored);
      }
    }
  }

  /** An item scoring at least every threshold survives every round. */
  lemma {:induction false} TightenKeeps(scored: seq<Scored>, ts: seq<int>, batchSize: int, x: Scored)
    requires batchSize >= 1
    requires x in scored && forall j :: 0 <= j < |ts| ==> x.score >= ts[j]
    ensures x in Tighten(scored, ts, batchSize)
    decreases |ts|
  {
    if ts != [] {
      var prev := Tighten(scored, ts[..|ts| - 1], batchSize);
      TightenKeeps(scored, ts[..|ts| - 1], batchSize, x);
      FilterMember(prev, AtLeast(ts[|ts| - 1]), x);
    }
  }

  /** The threshold loop. */
  method TightenWorking(scored: seq<Scored>, ts: seq<int>, batchSize: int) returns (working: seq<Scored>)
    ensures working == Tighten(scored, ts, batchSize)
  {
    working := scored;
    var i := 0;
    while i < |ts|
      invariant i <= |ts|
      invariant working == Tighten(scored, ts[..i], batchSize)
    {
      var t := ts[i];
      assert ts[..i + 1][..i] == ts[..i];
      var filtered := Filter(working, AtLeast(t));
      if |filtered| >= batchSize {
        working := filtered;
      } else {
        working := if filtered != [] then filtered else working;
      }
      i := i + 1;
    }
    assert ts[..i] == ts;
  }

  /** Diversity penalty per earlier use of a genre: 0.03, in hundredths. */
  const PenaltyPerUse := 3

  function CountOf(counts: map<string, nat>, g: string): nat {
    if g in counts then counts[g] else 0
  }

  /** `diversity_penalty(m)` for the genres `genres` and the counts so far. */
  function Penalty(counts: map<string, nat>, genres: seq<string>): nat
    decreases |genres|
  {
    if genres == [] then 0
    else Penalty(counts, genres[..|genres| - 1]) + PenaltyPerUse * CountOf(counts, genres[|genres| - 1])
  }

  /** The counts after `genre_counts[g] = genre_counts.get(g, 0) + 1` for
      each genre in turn. */
  function Counted(counts: map<string, nat>, genres: seq<string>): map<string, nat>
    decreases |genres|
  {
    if genres == [] then counts
    else
      var c := Counted(counts, genres[..|genres| - 1]);
      var g := genres[|genres| - 1];
      c[g := CountOf(c, g) + 1]
  }

  /** A movie is penalised exactly when one of its genres was used before. */
  lemma {:induction false} PenaltyZeroIff(counts: map<string, nat>, genres: seq<string>)
    ensures Penalty(counts, genres) == 0 <==> forall i :: 0 <= i < |genres| ==> CountOf(counts, genres[i]) == 0
    decreases |genres|
  {
    if genres != [] {
      var g0 := genres[..|genres| - 1];
      PenaltyZeroIff(counts, g0);
      assert forall i :: 0 <= i < |g0| ==> g0[i] == genres[i];
    }
  }

  /** Counting adds the number of times each genre is listed. */
  lemma {:induction false} CountedAdds(counts: map<string, nat>, genres: seq<string>, g: string)
    ensures CountOf(Counted(counts, genres), g) == CountOf(counts, g) + multiset(genres)[g]
    decreases |genres|
  {
    if genres != [] {
      var g0 := genres[..|genres| - 1];
      CountedAdds(counts, g0, g);
      assert genres == g0 + [genres[|genres| - 1]];
    }
  }

  /** The loop of `diversity_penalty`. */
  method DiversityPenalty(counts: map<string, nat>, genres: seq<string>) returns (p: nat)
    ensures p == Penalty(counts, genres)
  {
    p := 0;
    var i := 0;
    while i < |genres|
      invariant i <= |genres|
      invariant p == Penalty(counts, genres[..i])
    {
      assert genres[..i + 1][..i] == genres[..i];
      var g := genres[i];
      p := p + PenaltyPerUse * (if g in counts then counts[g] else 0);
      i := i + 1;
    }
    assert genres[..i] == genres;
  }

  /** The counting loop after each pick. */
  method CountGenres(counts: map<string, nat>, genres: seq<string>) returns (c: map<string, nat>)
    ensures c == Counted(counts, genres)
  {
    c := counts;
    var i := 0;
    while i < |genres|
      invariant i <= |genres|
      invariant c == Counted(counts, genres[..i])
    {
      assert genres[..i + 1][..i] == genres[..i];
      var g := genres[i];
      c := c[g := (if g in c then c[g] else 0) + 1];
      i := i + 1;
    }
    assert genres[..i] == genres;
  }

  /** The picks of the greedy pass with their adjusted scores, and the genre
      counts after them. */
  datatype GreedyState = GreedyState(selected: seq<Scored>, counts: map<string, nat>)

  function Greedy(ws: seq<Scored>): GreedyState
    decreases |ws|
  {
    if ws == [] then GreedyState([], map[])
    else
      var st := Greedy(ws[..|ws| - 1]);
      var x := ws[|ws| - 1];
      GreedyState(st.selected + [Scored(x.movie, x.score - Penalty(st.counts, x.movie.genres))],
                  Counted(st.counts, x.movie.genres))
  }

  /** The greedy pass picks every item, in order, and only lowers scores;
      the first pick keeps its score. */
  lemma {:induction false} GreedyKeepsMovies(ws: seq<Scored>)
    ensures |Greedy(ws).selected| == |ws|
    ensures forall i :: 0 <= i < |ws| ==>
      Greedy(ws).selected[i].movie == ws[i].movie && Greedy(ws).selected[i].score <= ws[i].score
    ensures ws != [] ==> Greedy(ws).selected[0] == ws[0]
    decreases |ws|
  {
    if ws != [] {
      var w0 := ws[..|ws| - 1];
      GreedyKeepsMovies(w0);
      assert forall i :: 0 <= i < |w0| ==> w0[i] == ws[i];
      if w0 == [] {
        PenaltyZeroIff(map[], ws[0].movie.genres);
      }
    }
  }

  /** Super mode: the greedy pass over the first `batch_size` items, re-sorted
      by adjusted score. */
  function SuperSelection(sorted: seq<Scored>, batchSize: int): seq<Scored> {
    SortDesc(Greedy(Take(sorted, batchSize)).selected, ScoreOf)
  }

  /** The greedy loop, then the re-sort. */
  method SelectSuper(sorted: seq<Scored>, batchSize: int) returns (selected: seq<Scored>)
    requires batchSize >= 1
    ensures selected == SuperSelection(sorted, batchSize)
  {
    selected := [];
    var counts: map<string, nat> := map[];
    var k := 0;
    while k < |sorted|
      invariant k <= |sorted| && k <= batchSize
      invariant |selected| == k
      invariant Greedy(sorted[..k]) == GreedyState(selected, counts)
    {
      if |selected| >= batchSize {
        break;
      }
      var x := sorted[k];
      assert sorted[..k + 1][..k] == sorted[..k];
      var p := DiversityPenalty(counts, x.movie.genres);
      selected := selected + [Scored(x.movie, x.score - p)];
      counts := CountGenres(counts, x.movie.genres);
      k := k + 1;
    }
    assert Take(sorted, batchSize) == sorted[..k];
    selected := SortDesc(selected, ScoreOf);
  }

  /** Regular mode keeps `working[:batch_size]`; super mode the greedy pass. */
  function Selected(sorted: seq<Scored>, batchSize: int, mode: string): seq<Scored> {
    if mode == "super" then SuperSelection(sorted, batchSize) else Take(sorted, batchSize)
  }

  /** One result record; the "why it fits" text comes from the taste profile
      and is given. */
  datatype Recommendation = Recommendation(
    title: string, year: string, director: string, image: string,
    whyItFits: string, score: int, mode: string)

  function RecScore(r: Recommendation): int { r.score }

  function Recommend(x: Scored, why: Movie -> string, mode: string): Recommendation {
    var m := x.movie;
    Recommendation(m.title, m.year, if m.directors != [] then m.directors[0] else "",
                   if m.posterUrl != [] then m.posterUrl else "logo.svg", why(m), x.score, mode)
  }

  function Results(selected: seq<Scored>, batchSize: int, why: Movie -> string, mode: string): (results: seq<Recommendation>)
    ensures |results| == |Take(selected, batchSize)|
  {
    var chosen := Take(selected, batchSize);
    seq(|chosen|, i requires 0 <= i < |chosen| => Recommend(chosen[i], why, mode))
  }

  /** The loop over `selected[:batch_size]` that builds the records. */
  method BuildResults(selected: seq<Scored>, batchSize: int, why: Movie -> string, mode: string)
    returns (results: seq<Recommendation>)
    ensures results == Results(selected, batchSize, why, mode)
  {
    var chosen := Take(selected, batchSize);
    results := [];
    var i := 0;
    while i < |chosen|
      invariant i <= |chosen|
      invariant results == Results(selected, batchSize, why, mode)[..i]
    {
      results := results + [Recommend(chosen[i], why, mode)];
      i := i + 1;
    }
  }

  /** `working` after the threshold loop. */
  function Working(candidates: seq<Movie>, watched: set<string>, exclude: set<string>, liked: set<string>,
                   score: (Movie, string) -> int, mode: string, batchSize: int): seq<Scored>
  {
    Tighten(ScoreAll(Pool(candidates, watched, exclude, liked), score, mode), Thresholds(mode), batchSize)
  }

  /** What `recommend_batch` returns, with the scoring function and the
      "why it fits" text given. */
  function Batch(candidates: seq<Movie>, watched: set<string>, exclude: set<string>, liked: set<string>,
                 score: (Movie, string) -> int, why: Movie -> string, mode: string, batchSize: int): seq<Recommendation>
  {
    var m := NormalizeMode(mode);
    var n := ClampBatchSize(batchSize);
    Results(Selected(SortDesc(Working(candidates, watched, exclude, liked, score, m, n), ScoreOf), n, m), n, why, m)
  }

  method RecommendBatch(candidates: seq<Movie>, watched: set<string>, exclude: set<string>, liked: set<string>,
                        score: (Movie, string) -> int, why: Movie -> string, mode: string, batchSize: int)
    returns (results: seq<Recommendation>)
    ensures results == Batch(candidates, watched, exclude, liked, score, why, mode, batchSize)
  {
    var m := NormalizeMode(mode);
    var n := ClampBatchSize(batchSize);
    var pool := BuildPool(candidates, watched, exclude, liked);
    var scored := ScoreAll(pool, score, m);
    var working := TightenWorking(scored, Thresholds(m), n);
    working := SortDesc(working, ScoreOf);
    var selected;
    if m == "super" {
      selected := SelectSuper(working, n);
    } else {
      selected := Take(working, n);
    }
    results := BuildResults(selected, n, why, m);
  }

  function OnMovie(P: Movie -> bool): Scored -> bool {
    (x: Scored) => P(x.movie)
  }

  /** Both selections keep `min(batch_size, |working|)` items in
      non-increasing score order, each of them a movie of `working`. */
  lemma SelectedSpec(sorted: seq<Scored>, batchSize: int, mode: string, P: Movie -> bool)
    requires batchSize >= 1 && NonIncreasing(sorted, ScoreOf)
    requires forall j :: 0 <= j < |sorted| ==> P(sorted[j].movie)
    ensures |Selected(sorted, batchSize, mode)| == Min(batchSize, |sorted|)
    ensures NonIncreasing(Selected(sorted, batchSize, mode), ScoreOf)
    ensures forall i :: 0 <= i < |Selected(sorted, batchSize, mode)| ==> P(Selected(sorted, batchSize, mode)[i].movie)
  {
    var chosen := Take(sorted, batchSize);
    if mode == "super" {
      GreedyKeepsMovies(chosen);
      MultisetKeeps(SuperSelection(sorted, batchSize), Greedy(chosen).selected, OnMovie(P));
    } else {
      NonIncreasingPrefix(sorted, |chosen|, ScoreOf);
    }
  }

  /** In regular mode the selection is the best `batch_size` items: no item
      left out scores higher than a selected one. */
  lemma RegularSelectionIsTop(sorted: seq<Scored>, batchSize: int)
    requires batchSize >= 1 && NonIncreasing(sorted, ScoreOf)
    ensures var sel := Selected(sorted, batchSize, "regular");
      forall i, j :: 0 <= i < |sel| <= j < |sorted| ==> sel[i].score >= sorted[j].score
  {
  }

  /** The batch has `min(batch_size, |working|)` records (at most 60), and is
      empty only when the pool is. */
  lemma BatchSize(candidates: seq<Movie>, watched: set<string>, exclude: set<string>, liked: set<string>,
                  score: (Movie, string) -> int, why: Movie -> string, mode: string, batchSize: int)
    ensures var n := ClampBatchSize(batchSize);
      var working := Working(candidates, watched, exclude, liked, score, NormalizeMode(mode), n);
      var b := Batch(candidates, watched, exclude, liked, score, why, mode, batchSize);
      && |b| == Min(n, |working|) && |b| <= MaxBatchSize
      && (b == [] <==> Pool(candidates, watched, exclude, liked) == [])
  {
    var m := NormalizeMode(mode);
    var n := ClampBatchSize(batchSize);
    var scored := ScoreAll(Pool(candidates, watched, exclude, liked), score, m);
    var sorted := SortDesc(Working(candidates, watched, exclude, liked, score, m, n), ScoreOf);
    TightenSpec(scored, Thresholds(m), n);
    SelectedSpec(sorted, n, m, (mv: Movie) => true);
  }

  /** Each record is built from a candidate whose key is in none of the
      three sets. */
  lemma BatchFromPool(candidates: seq<Movie>, watched: set<string>, exclude: set<string>, liked: set<string>,
                      score: (Movie, string) -> int, why: Movie -> string, mode: string, batchSize: int, i: nat)
    requires i < |Batch(candidates, watched, exclude, liked, score, why, mode, batchSize)|
    ensures var r := Batch(candidates, watched, exclude, liked, score, why, mode, batchSize)[i];
      exists mv :: mv in candidates && Unseen(watched, exclude, liked, mv) && r.title == mv.title && r.year == mv.year
  {
    var m := NormalizeMode(mode);
    var n := ClampBatchSize(batchSize);
    var pool := Pool(candidates, watched, exclude, liked);
    var scored := ScoreAll(pool, score, m);
    var working := Working(candidates, watched, exclude, liked, score, m, n);
    var sorted := SortDesc(working, ScoreOf);
    var P := (mv: Movie) => mv in pool;
    TightenSpec(scored, Thresholds(m), n);
    SubsequenceKeeps(working, scored, OnMovie(P));
    MultisetKeeps(sorted, working, OnMovie(P));
    SelectedSpec(sorted, n, m, P);
    var sel := Selected(sorted, n, m);
    var mv := sel[i].movie;
    PoolSpec(candidates, watched, exclude, liked, mv);
  }

  /** The records come in non-increasing score order, in both modes (super
      mode orders by adjusted score). */
  lemma BatchOrdered(candidates: seq<Movie>, watched: set<string>, exclude: set<string>, liked: set<string>,
                     score: (Movie, string) -> int, why: Movie -> string, mode: string, batchSize: int)
    ensures NonIncreasing(Batch(candidates, watched, exclude, liked, score, why, mode, batchSize), RecScore)
  {
    var m := NormalizeMode(mode);
    var n := ClampBatchSize(batchSize);
    var sorted := SortDesc(Working(candidates, watched, exclude, liked, score, m, n), ScoreOf);
    SelectedSpec(sorted, n, m, (mv: Movie) => true);
    var sel := Selected(sorted, n, m);
    NonIncreasingPrefix(sel, |Take(sel, n)|, ScoreOf);
  }

  /** In regular mode no item of `working` that is left out scores higher
      than a record of the batch. */
  lemma BatchRegularTop(candidates: seq<Movie>, watched: set<string>, exclude: set<string>, liked: set<string>,
                        score: (Movie, string) -> int, why: Movie -> string, mode: string, batchSize: int)
    requires NormalizeMode(mode) == "regular"
    ensures var n := ClampBatchSize(batchSize);
      var sorted := SortDesc(Working(candidates, watched, exclude, liked, score, "regular", n), ScoreOf);
      var b := Batch(candidates, watched, exclude, liked, score, why, mode, batchSize);
      forall i, j :: 0 <= i < |b| <= j < |sorted| ==> b[i].score >= sorted[j].score
  {
    var n := ClampBatchSize(batchSize);
    var sorted := SortDesc(Working(candidates, watched, exclude, liked, score, "regular", n), ScoreOf);
    RegularSelectionIsTop(sorted, n);
  }
}
