/** The parts of the Gemini client that do not talk to the network: the
    clamping of the requested count, the loops that sanitise the decoded
    movie lists of the three `ask_*_recommendations` functions, and the
    two legacy text functions that only report an error. */
module GeminiClient {
  import opened PyStrings
  import opened Optional
  import opened Sequences
  import opened MovieIdentity
  import opened GeminiParsing

  /** The `count` argument as it may arrive: an int, a string, or any
      other value. */
  datatype CountArg = IntCount(n: int) | StrCount(s: string) | OtherCount

  /** `int(count) if isinstance(count, int) or str(count).isdigit() else fallback`. */
  function RequestedCount(count: CountArg, fallback: int): int {
    match count
    case IntCount(n) => n
    case StrCount(s) => if IsDigits(s) then DecimalValue(s) else fallback
    case OtherCount => fallback
  }

  /** `max(1, min(requested, cap))`. */
  function Clamp(requested: int, cap: int): int {
    var m := if requested <= cap then requested else cap;
    if 1 >= m then 1 else m
  }

  /** `safe_count`. */
  function SafeCount(count: CountArg, fallback: int, cap: int): int {
    Clamp(RequestedCount(count, fallback), cap)
  }

  const SuperFallback := 50
  const SuperCap := 50
  const RegularFallback := 40
  const RegularCap := 120
  const Top250Fallback := 50
  const Top250Cap := 50

  /** The clamp lands in [1, cap], keeps a requested count already in
      range, and otherwise moves to the nearer bound. */
  lemma ClampSpec(requested: int, cap: int)
    requires cap >= 1
    ensures 1 <= Clamp(requested, cap) <= cap
    ensures 1 <= requested <= cap ==> Clamp(requested, cap) == requested
    ensures requested > cap ==> Clamp(requested, cap) == cap
    ensures requested < 1 ==> Clamp(requested, cap) == 1
  {
  }

  /** A count given as the decimal string of a number counts as that
      number. */
  lemma StringCountIsDecimal(n: nat, fallback: int)
    ensures RequestedCount(StrCount(DecimalString(n)), fallback) == n
  {
    DecimalRoundTrip(n);
  }

  /** Every count the three functions use is at least 1 and at most
      their cap: 50, 120 and 50. A count that is neither an int nor a
      string of digits falls back to 50, 40 and 50. */
  lemma SafeCountsInRange(count: CountArg)
    ensures 1 <= SafeCount(count, SuperFallback, SuperCap) <= 50
    ensures 1 <= SafeCount(count, RegularFallback, RegularCap) <= 120
    ensures 1 <= SafeCount(count, Top250Fallback, Top250Cap) <= 50
    ensures count.OtherCount? || (count.StrCount? && !IsDigits(count.s)) ==>
      && SafeCount(count, SuperFallback, SuperCap) == 50
      && SafeCount(count, RegularFallback, RegularCap) == 40
      && SafeCount(count, Top250Fallback, Top250Cap) == 50
  {
    ClampSpec(RequestedCount(count, SuperFallback), SuperCap);
    ClampSpec(RequestedCount(count, RegularFallback), RegularCap);
    ClampSpec(RequestedCount(count, Top250Fallback), Top250Cap);
  }

  /** The dicts the three sanitisers append. */
  function SuperRow(title: string, year: string, director: string): Row {
    map["title" := title, "year" := year, "director" := director]
  }

  function RegularRow(title: string, year: string, director: string, why: string): Row {
    map["title" := title, "year" := year, "director" := director, "why_it_fits" := why]
  }

  function Top250Row(title: string, year: string, why: string): Row {
    map["title" := title, "year" := year, "why_it_fits" := why]
  }

  /** The item kept by the super sanitiser: a dict with a non-blank title,
      reduced to its stripped title, year and director. */
  function SuperMovie(item: Item): Option<Row> {
    if item.NotRecord? then None
    else
      var title := Trim(Get(item.fields, "title"));
      var year := Trim(Get(item.fields, "year"));
      var director := Trim(Get(item.fields, "director"));
      if title == [] then None else Some(SuperRow(title, year, director))
  }

  /** The item kept by the regular sanitiser: as the super one, plus the
      stripped "why_it_fits". */
  function RegularMovie(item: Item): Option<Row> {
    if item.NotRecord? then None
    else
      var title := Trim(Get(item.fields, "title"));
      var year := Trim(Get(item.fields, "year"));
      var director := Trim(Get(item.fields, "director"));
      var why := Trim(Get(item.fields, "why_it_fits"));
      if title == [] then None
      else Some(RegularRow(title, year, director, why))
  }

  /** The item kept by the Top-250 sanitiser: a dict whose title and year
      are both non-blank, reduced to title, year and "why_it_fits". */
  function Top250Movie(item: Item): Option<Row> {
    if item.NotRecord? then None
    else
      var title := Trim(Get(item.fields, "title"));
      var year := Trim(Get(item.fields, "year"));
      var why := Trim(Get(item.fields, "why_it_fits"));
      if title != [] && year != [] then Some(Top250Row(title, year, why))
      else None
  }

  /** A row with a stripped, non-blank value for every key of `required`
      and no keys but `keys`. */
  predicate Shaped(row: Row, keys: set<string>, required: seq<string>) {
    && row.Keys == keys
    && forall i :: 0 <= i < |required| ==> Get(row, required[i]) != [] && IsTrimmed(Get(row, required[i]))
  }

  const SuperKeys: set<string> := {"title", "year", "director"}
  const RegularKeys: set<string> := {"title", "year", "director", "why_it_fits"}
  const Top250Keys: set<string> := {"title", "year", "why_it_fits"}

  function ShapedAs(keys: set<string>, required: seq<string>): Row -> bool {
    row => Shaped(row, keys, required)
  }

  lemma SuperMovieShaped(items: seq<Item>)
    ensures forall j :: 0 <= j < |items| && SuperMovie(items[j]).Some? ==>
      ShapedAs(SuperKeys, ["title"])(SuperMovie(items[j]).value)
  {
    forall j | 0 <= j < |items| && SuperMovie(items[j]).Some?
      ensures ShapedAs(SuperKeys, ["title"])(SuperMovie(items[j]).value)
    {
      TrimIsTrimmed(Get(items[j].fields, "title"));
    }
  }

  lemma RegularMovieShaped(items: seq<Item>)
    ensures forall j :: 0 <= j < |items| && RegularMovie(items[j]).Some? ==>
      ShapedAs(RegularKeys, ["title"])(RegularMovie(items[j]).value)
  {
    forall j | 0 <= j < |items| && RegularMovie(items[j]).Some?
      ensures ShapedAs(RegularKeys, ["title"])(RegularMovie(items[j]).value)
    {
      TrimIsTrimmed(Get(items[j].fields, "title"));
    }
  }

  lemma Top250MovieShaped(items: seq<Item>)
    ensures forall j :: 0 <= j < |items| && Top250Movie(items[j]).Some? ==>
      ShapedAs(Top250Keys, ["title", "year"])(Top250Movie(items[j]).value)
  {
    forall j | 0 <= j < |items| && Top250Movie(items[j]).Some?
      ensures ShapedAs(Top250Keys, ["title", "year"])(Top250Movie(items[j]).value)
    {
      TrimIsTrimmed(Get(items[j].fields, "title"));
      TrimIsTrimmed(Get(items[j].fields, "year"));
    }
  }

  /** The first `n` kept items all have the property every kept item has,
      and there are at most `n` of them and at most as many as items. */
  lemma TakeKeeps<A, B>(s: seq<A>, f: A -> Option<B>, n: nat, P: B -> bool)
    requires forall j :: 0 <= j < |s| && f(s[j]).Some? ==> P(f(s[j]).value)
    ensures |Take(FilterMap(s, f), n)| <= n && |Take(FilterMap(s, f), n)| <= |s|
    ensures forall i :: 0 <= i < |Take(FilterMap(s, f), n)| ==> P(Take(FilterMap(s, f), n)[i])
  {
    FilterMapKeeps(s, f, P);
    var r := Take(FilterMap(s, f), n);
    assert forall i :: 0 <= i < |r| ==> r[i] == FilterMap(s, f)[i];
  }

  /** The super sanitiser keeps at most `safe_count` items, each with
      exactly title, year and director and a stripped non-blank title;
      an answer with no usable dict gives none. */
  lemma SanitisedSuperShape(movies: seq<Item>, count: CountArg)
    ensures var out := Take(FilterMap(movies, SuperMovie), SafeCount(count, SuperFallback, SuperCap));
      && 1 <= SafeCount(count, SuperFallback, SuperCap) <= 50
      && |out| <= SafeCount(count, SuperFallback, SuperCap) && |out| <= |movies|
      && (forall i :: 0 <= i < |out| ==> Shaped(out[i], SuperKeys, ["title"]))
      && (out == [] <==> forall j :: 0 <= j < |movies| ==> SuperMovie(movies[j]).None?)
  {
    SafeCountsInRange(count);
    SuperMovieShaped(movies);
    TakeKeeps(movies, SuperMovie, SafeCount(count, SuperFallback, SuperCap), ShapedAs(SuperKeys, ["title"]));
    FilterMapEmptyIff(movies, SuperMovie);
  }

  lemma SanitisedRegularShape(movies: seq<Item>, count: CountArg)
    ensures var out := Take(FilterMap(movies, RegularMovie), SafeCount(count, RegularFallback, RegularCap));
      && 1 <= SafeCount(count, RegularFallback, RegularCap) <= 120
      && |out| <= SafeCount(count, RegularFallback, RegularCap) && |out| <= |movies|
      && (forall i :: 0 <= i < |out| ==> Shaped(out[i], RegularKeys, ["title"]))
  {
    SafeCountsInRange(count);
    RegularMovieShaped(movies);
    TakeKeeps(movies, RegularMovie, SafeCount(count, RegularFallback, RegularCap), ShapedAs(RegularKeys, ["title"]));
  }

  lemma SanitisedTop250Shape(movies: seq<Item>, count: CountArg)
    ensures var out := Take(FilterMap(movies, Top250Movie), SafeCount(count, Top250Fallback, Top250Cap));
      && 1 <= SafeCount(count, Top250Fallback, Top250Cap) <= 50
      && |out| <= SafeCount(count, Top250Fallback, Top250Cap) && |out| <= |movies|
      && (forall i :: 0 <= i < |out| ==> Shaped(out[i], Top250Keys, ["title", "year"]))
  {
    SafeCountsInRange(count);
    Top250MovieShaped(movies);
    TakeKeeps(movies, Top250Movie, SafeCount(count, Top250Fallback, Top250Cap), ShapedAs(Top250Keys, ["title", "year"]));
  }

  /** One pass of the super loop up to the append: skip a non-dict or a
      blank title, else build the dict. */
  method ReadSuperItem(item: Item) returns (movie: Option<Row>)
    ensures movie == SuperMovie(item)
  {
    if item.NotRecord? {
      return None;
    }
    var title := Trim(Get(item.fields, "title"));
    var year := Trim(Get(item.fields, "year"));
    var director := Trim(Get(item.fields, "director"));
    if title == [] {
      return None;
    }
    return Some(SuperRow(title, year, director));
  }

  /** One pass of the regular loop up to the append. */
  method ReadRegularItem(item: Item) returns (movie: Option<Row>)
    ensures movie == RegularMovie(item)
  {
    if item.NotRecord? {
      return None;
    }
    var title := Trim(Get(item.fields, "title"));
    var year := Trim(Get(item.fields, "year"));
    var director := Trim(Get(item.fields, "director"));
    var why := Trim(Get(item.fields, "why_it_fits"));
    if title == [] {
      return None;
    }
    return Some(RegularRow(title, year, director, why));
  }

  /** One pass of the Top-250 loop up to the append: only a dict with a
      title and a year gives a dict. */
  method ReadTop250Item(item: Item) returns (movie: Option<Row>)
    ensures movie == Top250Movie(item)
  {
    if item.NotRecord? {
      return None;
    }
    var title := Trim(Get(item.fields, "title"));
    var year := Trim(Get(item.fields, "year"));
    var why := Trim(Get(item.fields, "why_it_fits"));
    if title != [] && year != [] {
      return Some(Top250Row(title, year, why));
    }
    return None;
  }

  /** The `out_movies` loop of `ask_super_recommendations`, on the decoded
      "movies" list. */
  method SanitiseSuperMovies(movies: seq<Item>, safeCount: int) returns (outMovies: seq<Row>)
    requires safeCount >= 1
    ensures outMovies == Take(FilterMap(movies, SuperMovie), safeCount)
  {
    outMovies := [];
    var k := 0;
    while k < |movies|
      invariant 0 <= k <= |movies|
      invariant outMovies == FilterMap(movies[..k], SuperMovie)
      invariant |outMovies| < safeCount
    {
      var movie := ReadSuperItem(movies[k]);
      if movie.None? {
        FilterMapStepNone(movies, k, SuperMovie);
        k := k + 1;
        continue;
      }
      FilterMapStepSome(movies, k, SuperMovie, movie.value);
      outMovies := outMovies + [movie.value];
      k := k + 1;
      if |outMovies| >= safeCount {
        TakeFilterMapPrefix(movies, k, SuperMovie, safeCount);
        break;
      }
    }
    if k == |movies| && |outMovies| < safeCount {
      assert movies[..k] == movies;
    }
  }

  /** The `out` loop of `ask_regular_recommendations`, on the decoded
      list. */
  method SanitiseRegularMovies(data: seq<Item>, safeCount: int) returns (out: seq<Row>)
    requires safeCount >= 1
    ensures out == Take(FilterMap(data, RegularMovie), safeCount)
  {
    out := [];
    var k := 0;
    while k < |data|
      invariant 0 <= k <= |data|
      invariant out == FilterMap(data[..k], RegularMovie)
      invariant |out| < safeCount
    {
      var movie := ReadRegularItem(data[k]);
      if movie.None? {
        FilterMapStepNone(data, k, RegularMovie);
        k := k + 1;
        continue;
      }
      FilterMapStepSome(data, k, RegularMovie, movie.value);
      out := out + [movie.value];
      k := k + 1;
      if |out| >= safeCount {
        TakeFilterMapPrefix(data, k, RegularMovie, safeCount);
        break;
      }
    }
    if k == |data| && |out| < safeCount {
      assert data[..k] == data;
    }
  }

  /** The `out` loop of `ask_top250_recommendations`, on the decoded list;
      here the count test runs after every dict, kept or not. */
  method SanitiseTop250Movies(data: seq<Item>, safeCount: int) returns (out: seq<Row>)
    requires safeCount >= 1
    ensures out == Take(FilterMap(data, Top250Movie), safeCount)
  {
    out := [];
    var k := 0;
    while k < |data|
      invariant 0 <= k <= |data|
      invariant out == FilterMap(data[..k], Top250Movie)
      invariant |out| < safeCount
    {
      var movie := ReadTop250Item(data[k]);
      if movie.Some? {
        FilterMapStepSome(data, k, Top250Movie, movie.value);
        out := out + [movie.value];
      } else {
        FilterMapStepNone(data, k, Top250Movie);
      }
      k := k + 1;
      if |out| >= safeCount {
        TakeFilterMapPrefix(data, k, Top250Movie, safeCount);
        break;
      }
    }
    if k == |data| && |out| < safeCount {
      assert data[..k] == data;
    }
  }

  /** The movies `ask_super_recommendations` returns for a decoded
      "movies" list: the clamp, then the sanitising loop. */
  method AskSuperMovies(movies: seq<Item>, count: CountArg) returns (outMovies: seq<Row>)
    ensures outMovies == Take(FilterMap(movies, SuperMovie), SafeCount(count, SuperFallback, SuperCap))
  {
    var safeCount := SafeCount(count, SuperFallback, SuperCap);
    SafeCountsInRange(count);
    outMovies := SanitiseSuperMovies(movies, safeCount);
  }

  /** What `ask_regular_recommendations` returns for a decoded list. */
  method AskRegularMovies(data: seq<Item>, count: CountArg) returns (out: seq<Row>)
    ensures out == Take(FilterMap(data, RegularMovie), SafeCount(count, RegularFallback, RegularCap))
  {
    var safeCount := SafeCount(count, RegularFallback, RegularCap);
    SafeCountsInRange(count);
    out := SanitiseRegularMovies(data, safeCount);
  }

  /** What `ask_top250_recommendations` returns for a decoded list. */
  method AskTop250Movies(data: seq<Item>, count: CountArg) returns (out: seq<Row>)
    ensures out == Take(FilterMap(data, Top250Movie), SafeCount(count, Top250Fallback, Top250Cap))
  {
    var safeCount := SafeCount(count, Top250Fallback, Top250Cap);
    SafeCountsInRange(count);
    out := SanitiseTop250Movies(data, safeCount);
  }

  const LegacyError := "Error:" + " legacy ask_recommendations disabled; use ask_top250_recommendations"

  /** `ask_recommendations`: the legacy entry point, now disabled. */
  function AskRecommendations(watchedMovies: seq<string>, count: int,
                              likedMovies: seq<string>, excludeMovies: seq<string>): string
  {
    LegacyError
  }

  /** `ask_question`. */
  function AskQuestion(watchedMovies: seq<string>): string {
    AskRecommendations(watchedMovies, 3, [], [])
  }

  /** Both legacy functions answer with a text containing "Error:", which
      the app's parser turns into no recommendations. */
  lemma LegacyAnswersParseToNothing(watchedMovies: seq<string>, count: int,
                                    likedMovies: seq<string>, excludeMovies: seq<string>, maximum: int)
    ensures Contains(AskRecommendations(watchedMovies, count, likedMovies, excludeMovies), "Error:")
    ensures Contains(AskQuestion(watchedMovies), "Error:")
    ensures ParsedRecommendations(AskRecommendations(watchedMovies, count, likedMovies, excludeMovies), maximum) == []
    ensures ParsedRecommendations(AskQuestion(watchedMovies), maximum) == []
  {
    assert OccursAt(LegacyError, "Error:", 0) by {
      assert LegacyError[..6] == "Error:";
    }
    ContainsIff(LegacyError, "Error:");
  }
}
