# Movie recommender backend: a Dafny model

This project models the logic core of a small movie-recommendation web backend written in Python. The backend has three parts:

- `app.py`: a Flask application that keeps a watchlist and a list of current recommendations in memory, parses the text answers of a Gemini model, and filters batches of picks;
- `gemini_client.py`: the client that asks Gemini for recommendations and cleans up the JSON it answers with;
- `recommender.py`: a local recommender over an IMDb Top-250 dataset.

The model covers the parts of these files that are plain list, set, dict and string processing:

- **Movie identity** (`movie_identity.dfy`): title normalisation (`strip().lower()`), the `title::year` key, the CSV column fallback and the watched-lines builder.
- **Watchlist** (`watchlist.dfy`): the global watchlist as a class whose `entries` field the methods reassign. It covers dedup-on-append by normalised title and the remove route's backward scan by key, with its three answers (missing key, invalid key, done).
- **Replacement** (`replacement.dfy`): the first-unexcluded-candidate choice and the single-slot replacement in the list of current recommendations (a class).
- **Super batch** (`super_batch.dfy`): the super-batch filter of the recommendation route. It keeps unique, unwatched, unexcluded picks in input order, at most 50 of them.
- **Answer parsing** (`gemini_parsing.dfy`): the `#`-separated `Title:/Year:/Director:/why it fits:` block parser. It is proved to invert the answer format it expects.
- **JSON extraction** (`json_extraction.dfy`): the fence stripper, and the bracket-depth scanner with its quote and escape state.
- **Gemini client** (`gemini_client.dfy`): the count clamps, the three sanitising loops over decoded movie lists, and the two legacy functions that only report an error.
- **Recommender** (`recommender.dfy`): the catalogue movie record, its key, the ASCII-title filter, the key index, and the filter/sort/cut that `load_top250` applies after decoding.
- **Batch selection** (`batch_selection.dfy`): `recommend_batch` with the scores given. It covers mode and size normalisation, the candidate pool, threshold tightening, the sort, the top-`batch_size` selection (including the genre-diversity greedy pass of super mode) and the result records.

Two further modules support the rest. `py_strings.dfy` states the Python `str` operations used (strip, lower, startswith, `in`, split, splitlines, partition, isdigit). `sequences.dfy` holds generic sequence facts: filter, filter-map, subsequence, dedup by key, stable insertion sort, and index by key. `optional.dfy` holds `Option`.

Conventions:

- Strings are `seq<char>`.
- A Python dict read with `str(d.get(k, "")).strip()` is a `map<string, string>` whose values are already strings.
- An element of a decoded JSON list is `Record(fields)` for a dict and `NotRecord` for anything else.
- Recommendation scores are integers in hundredths (0.3 is 30, so the diversity penalty of 0.03 per use is 3).
- IMDb ratings are integers in tenths.
- Calls to code outside the model are parameters: the TMDb poster lookup, the scoring function, and the "why it fits" text.

Each loop in the source is a method proved against a specification function of its inputs, such as `out == Take(FilterMap(items, SuperMovie), safeCount)`. The properties are lemmas about those functions.

`recommender.py` defines `_norm_title` and `_movie_key` with the same expressions as `normalize_movie_title` and `_movie_key` in `app.py`. The model therefore uses one definition for both (`MovieIdentity.NormalizeMovieTitle`, `MovieIdentity.MovieKey`), and `Recommender.Key` is that key for a catalogue movie.

Where the code and the documented behaviour differ, the model follows the code:

- `_is_englishish_title` strips the title before its ASCII test. A non-ASCII whitespace character at either end therefore does not make a title foreign, while one inside the title does.
- A threshold round of `recommend_batch` compares the number of passing items with `batch_size`. Both branches give the same result for every batch size of at least one, so only the rule "keep the passing items if there are any" decides (`BatchSelection.TightenStepShape`).
- The regular route of `app.py` (line 875) asks `recommend_batch` for 80 movies, but `recommend_batch` clamps the size to at most 60 (`BatchSelection.ClampBatchSize`).

## Model

| member | source | states |
|---|---|---|
| MovieIdentity.NormalizeShape | src/app.py:146-150 | The normalised title has no surrounding whitespace and no upper-case ASCII letter, is no longer than the title, and is empty exactly when the title is all whitespace. |
| MovieIdentity.NormalizeIdempotent | src/app.py:146-150 | Normalising a normalised title changes nothing. |
| MovieIdentity.MovieKeyPartition | src/app.py:815-816 | Partitioning a key at its first "::" gives back the normalised title and the stripped year. |
| MovieIdentity.MovieKeyInjective | src/app.py:815-816 | Two keys are equal exactly when the normalised titles and the stripped years are. |
| MovieIdentity.GetFirstNonEmptyValue | src/app.py:232-242 | The result is "" exactly when every listed column is missing or blank. Otherwise it is the stripped value of the first listed column that is present and not blank. |
| MovieIdentity.WatchedLine | src/app.py:646-656 | A row gives a line exactly when its stripped name is non-empty. The line starts with that name, and is non-empty and stripped. |
| MovieIdentity.WatchedLinesShape | src/app.py:643-657 | Every watched line is non-empty and stripped. There are no lines exactly when every row's name is blank. |
| MovieIdentity.BuildWatchedLinesForGemini | src/app.py:643-657 | The loop returns one line per row with a non-blank name, in order, with the shape above. |
| Watchlist.WithMovieAppends | src/app.py:489-510 | Adding keeps every earlier entry. It appends exactly one new entry at the end exactly when the stripped title is non-empty and its normalised form is not already present; otherwise the list is unchanged. |
| Watchlist.WithMovieHasTitle | src/app.py:497-510 | After adding a movie with a non-blank title, the list holds that normalised title. |
| Watchlist.WithMovieKeepsDistinct | src/app.py:497-510 | Adding preserves "no two entries share a normalised title". |
| Watchlist.WithMovieIdempotent | src/app.py:489-510 | Adding the same movie twice is adding it once. |
| Watchlist.LastMatch | src/app.py:1077-1089 | The backward scan finds a matching entry with no matching entry after it, or -1 when none matches. |
| Watchlist.RemoveOutcomeFaithful | src/app.py:1068-1091 | At most one entry goes. `watchlist_size` is the new length. `removed` holds exactly when the length dropped by one. A rejected key changes nothing. |
| Watchlist.RemovesLastMatch | src/app.py:1077-1089 | Removal deletes exactly the last entry matching the title (and the year, when the key has one), leaving a subsequence. |
| Watchlist.RemoveKeepsDistinct | src/app.py:1077-1089 | Removal preserves distinct titles, and no entry matching the key remains. |
| Watchlist.OwnKeyRemovesEntry | src/app.py:1068-1091 | In a list with distinct titles, removing by an entry's own key removes exactly that entry and reports `removed` with the new size. This holds when the entry's normalised title contains no "::" and does not end in ':'. |
| Watchlist.KeyMatchesOnlyItsEntry | src/app.py:1077-1089 | In a list with distinct titles, the only entry matching an entry's own title and year is that entry. |
| Watchlist.KeyIsTrimmed | src/app.py:815-816 | A key built from a non-empty normalised title and a stripped year survives the route's strip unchanged. |
| Watchlist.WatchlistStore.constructor | src/app.py:113 | The watchlist starts empty, with distinct titles. |
| Watchlist.WatchlistStore.AddMovie | src/app.py:489-510 | The new list is the old list with the movie added as above, and distinct titles are preserved. |
| Watchlist.WatchlistStore.ContainsTitle | src/app.py:497-503 | The scan answers whether some entry has the normalised title. |
| Watchlist.WatchlistStore.RemoveByKey | src/app.py:1068-1091 | The answer and the new list are those of the route for the given key, and distinct titles are preserved. |
| Watchlist.WatchlistStore.RemoveLastMatch | src/app.py:1077-1089 | The backward loop pops the last matching entry, and `removed` says whether the list changed. |
| Replacement.ChosenCandidateSpec | src/app.py:516-530 | The choice is the first movie with a non-empty stripped title whose normalised title is not excluded. It is `None` exactly when no movie qualifies. |
| Replacement.ChooseOneNewMovieCandidate | src/app.py:516-530 | The loop returns that choice. |
| Replacement.ReplacedShape | src/app.py:544-582 | Replacement keeps the list length. It is a no-op for a blank clicked title, when no entry matches, and when no candidate is left. |
| Replacement.ReplacedSlot | src/app.py:548-582 | A changed slot is the first one whose normalised title matches the clicked one, and it now holds the record built from the chosen candidate. |
| Replacement.ReplacesClickedSlot | src/app.py:535-582 | With a non-blank clicked title shown in the list and a usable Gemini movie, exactly one slot changes. It is the first slot showing the clicked title, it now holds the record built from the chosen movie, and that record differs from the one it replaced. |
| Replacement.ReplacementIsNew | src/app.py:558-582 | The new record has a non-empty stripped title and an image, and its title is in neither the current list nor the watchlist. |
| Replacement.NewMovieFresh | src/app.py:566-582 | The record built from a usable candidate keeps the stripped title, has an image, and is not excluded. |
| Replacement.NotExcluded | src/app.py:558-562 | A title outside the excluded set matches no current recommendation and no watchlist entry. |
| Replacement.CurrentRecommendations.constructor | src/app.py:114 | The list of current recommendations holds its initial value. |
| Replacement.CurrentRecommendations.ReplaceClickedMovie | src/app.py:533-582 | The new list is the replacement of the old one for the clicked title, the watchlist, the candidates and the poster lookup. |
| Replacement.CurrentRecommendations.FindClicked | src/app.py:548-553 | The index loop finds the first entry with the clicked normalised title, or -1. |
| Replacement.CurrentRecommendations.CollectExcluded | src/app.py:558-562 | The excluded set is the normalised titles of the current list and the watchlist. |
| SuperBatch.ResponseRowFields | src/app.py:1024 | A response record carries the title and year it was built from, and its key is their key. |
| SuperBatch.AdmittedFresh | src/app.py:1006-1023 | Every admitted pick has a non-empty stripped title, and its key is neither watched nor excluded. |
| SuperBatch.SuperPicksSpec | src/app.py:1004-1026 | The output has at most 50 picks and pairwise-distinct keys. It is an in-order subsequence of the admitted picks, each with a non-empty title and a key that is neither watched nor excluded. When fewer than 50 are output, every admitted key is present. |
| SuperBatch.AdmitPick | src/app.py:1006-1023 | One pick is admitted or skipped as the loop body decides, and an admitted record's key is the key the loop checked. |
| SuperBatch.FilterSuperPicks | src/app.py:1004-1026 | The loop is the first-by-key dedup of the admitted picks, cut at 50. |
| GeminiParsing.AfterFences | src/app.py:334-335 | The text after the second "```" is a proper suffix of the cleaned text. |
| GeminiParsing.NonBlankBlock | src/app.py:339-342 | A kept block is non-empty and stripped. |
| GeminiParsing.LabelHasColon | src/app.py:355-363 | A line whose lower-cased form starts with a label ending in ':' contains ':', so `split(":", 1)[1]` exists. |
| GeminiParsing.LineField | src/app.py:355-366 | A line is classified as a field only when it contains ':'. |
| GeminiParsing.FieldValue | src/app.py:356 | A field value is stripped. |
| GeminiParsing.Classify | src/app.py:351-366 | The value a line sets is stripped. |
| GeminiParsing.BlockMovie | src/app.py:368-376 | A block yields a movie only when its title is non-empty. |
| GeminiParsing.ParsedRecommendations | src/app.py:328-378 | The result is empty for empty text or text containing "Error:". It has at most `maximum_movies_to_parse` entries, each with a non-empty title. |
| GeminiParsing.ParseBlock | src/app.py:346-366 | The line loop of a block equals the fold of the line classifier over `splitlines()`. |
| GeminiParsing.ParseGeminiRecommendations | src/app.py:315-378 | The parser equals the specification function and has all its properties. |
| GeminiParsing.NonBlankBlocks | src/app.py:337-342 | The block loop keeps the stripped non-blank pieces of the '#' split, in order. |
| GeminiParsing.ParseBlocks | src/app.py:344-376 | The outer loop keeps the movies of the selected blocks that have a title. |
| GeminiParsing.LabelFields | src/app.py:351-366 | Each of the four labelled lines sets its own field to its value. |
| GeminiParsing.ParseFormattedLines | src/app.py:346-366 | The four lines of a block in the expected format parse back to its movie. |
| GeminiParsing.BlockRoundTrip | src/app.py:339-376 | A formatted block is kept as it is and parses back to its movie. |
| GeminiParsing.AnswerShape | src/app.py:333-342 | A whole formatted answer is unchanged by the strip and fence step, and splits into its blocks. |
| GeminiParsing.ParseFormatRoundTrip | src/app.py:315-378 | Parsing an answer in the expected format (without "Error:") gives back its first `maximum_movies_to_parse` movies. |
| JsonExtraction.StripFencesShape | src/gemini_client.py:43-51 | The result is stripped. Text that does not start with "```" only loses its surrounding whitespace. |
| JsonExtraction.StripFencesTagged | src/gemini_client.py:43-51 | A "```json" code block gives back its body. |
| JsonExtraction.StripFencesUntagged | src/gemini_client.py:43-51 | An untagged code block whose body does not start with "json" gives back its body. |
| JsonExtraction.FindOpening | src/gemini_client.py:61-66 | There is no opening exactly when the text has neither '{' nor '['. Otherwise the start is the earliest of them, paired with its closing bracket. |
| JsonExtraction.FirstCloseSpec | src/gemini_client.py:67-90 | The scan returns at the first character where an unquoted closing bracket brings the depth to zero, and at no earlier one. |
| JsonExtraction.CutSpec | src/gemini_client.py:67-91 | The result is a non-empty prefix from the opening bracket. It ends at that first closing point, or is the whole suffix when the brackets never balance. |
| JsonExtraction.ExtractJsonSpec | src/gemini_client.py:53-91 | Text without '{' or '[' comes back stripped. Otherwise the cut starts at the earliest opening bracket. |
| JsonExtraction.ExtractJsonSubstring | src/gemini_client.py:53-91 | The method equals the specification function. |
| JsonExtraction.Scan | src/gemini_client.py:67-91 | The depth/quote/escape loop returns the cut of the suffix from the start index. |
| JsonExtraction.InsideString | src/gemini_client.py:73-80 | Inside a string, characters other than the closing quote change no state, including backslash-escaped quotes. |
| JsonExtraction.QuotedStringNeutral | src/gemini_client.py:73-84 | A whole quoted string, escapes included, leaves the depth unchanged and ends outside the string. |
| JsonExtraction.DepthCountsBrackets | src/gemini_client.py:85-88 | On text without quotes, the depth moves by the number of opening brackets minus the number of closing ones. |
| GeminiClient.ClampSpec | src/gemini_client.py:208 | The clamp lands in [1, cap], keeps a count already in range, and otherwise goes to the nearer bound. |
| GeminiClient.StringCountIsDecimal | src/gemini_client.py:207 | A count given as the decimal string of a number is that number. |
| GeminiClient.SafeCountsInRange | src/gemini_client.py:207-208 | The super count lies in [1,50], the regular one in [1,120] and the Top-250 one in [1,50]. A count that is neither an int nor a string of digits falls back to 50, 40 and 50 (the same clamp appears at lines 320-321 and 385-386). |
| GeminiClient.SuperMovieShaped | src/gemini_client.py:284-299 | A kept super item is a dict with only title, year and director, and a non-empty stripped title. |
| GeminiClient.RegularMovieShaped | src/gemini_client.py:361-369 | A kept regular item has only title, year, director and why_it_fits, and a non-empty stripped title. |
| GeminiClient.Top250MovieShaped | src/gemini_client.py:423-429 | A kept Top-250 item has only title, year and why_it_fits, and both title and year are non-empty. |
| GeminiClient.SanitisedSuperShape | src/gemini_client.py:207-301 | The super output has at most `safe_count` (at most 50) shaped items. It is empty exactly when no item qualifies. |
| GeminiClient.SanitisedRegularShape | src/gemini_client.py:320-371 | The regular output has at most `safe_count` (at most 120) shaped items. |
| GeminiClient.SanitisedTop250Shape | src/gemini_client.py:385-431 | The Top-250 output has at most `safe_count` (at most 50) shaped items. |
| GeminiClient.ReadSuperItem | src/gemini_client.py:284-299 | The loop body reads one item as the specification does, skipping non-dicts and blank titles. |
| GeminiClient.ReadRegularItem | src/gemini_client.py:361-369 | The same for the regular loop. |
| GeminiClient.ReadTop250Item | src/gemini_client.py:423-429 | The same for the Top-250 loop. |
| GeminiClient.SanitiseSuperMovies | src/gemini_client.py:282-301 | The loop with its early `break` returns the first `safe_count` kept items in order. |
| GeminiClient.SanitiseRegularMovies | src/gemini_client.py:358-371 | The same for the regular loop. |
| GeminiClient.SanitiseTop250Movies | src/gemini_client.py:420-431 | The same for the Top-250 loop, whose count test runs after every dict. |
| GeminiClient.AskSuperMovies | src/gemini_client.py:207-301 | The super list is the first `safe_count` kept items for the clamped count. |
| GeminiClient.AskRegularMovies | src/gemini_client.py:320-371 | The regular list is the first `safe_count` kept items for the clamped count. |
| GeminiClient.AskTop250Movies | src/gemini_client.py:385-431 | The Top-250 list is the first `safe_count` kept items for the clamped count. |
| GeminiClient.AskQuestion | src/gemini_client.py:439-440 | `ask_question` is `ask_recommendations` with a count of 3. The member has no contract of its own: what it promises (an "Error:" answer that parses to no movies) is stated by GeminiClient.LegacyAnswersParseToNothing. |
| GeminiClient.LegacyAnswersParseToNothing | src/gemini_client.py:435-440 | Both legacy functions answer with text containing "Error:", which the app parser turns into no movies. |
| Recommender.KeySplits | src/recommender.py:14-19 | The key splits at its first "::" into the stripped, lower-cased title and the stripped year. This holds when that title contains no "::" and does not end in ':'. |
| Recommender.EnglishishShape | src/recommender.py:22-35 | An englishish title has a non-whitespace character, and all its non-whitespace characters are ASCII. Every ASCII title with a non-whitespace character is englishish. |
| Recommender.IndexByKeyAt | src/recommender.py:83-84 | A key is indexed exactly when some movie with a non-empty title has it. It then maps to the last such movie. |
| Recommender.Top250EntryListed | src/recommender.py:57-76 | A kept entry has an englishish, stripped title and a poster URL starting with "http". |
| Recommender.Top250PoolSpec | src/recommender.py:60-80 | The pool has min(100, kept) movies in non-increasing rating order, all listed. No kept entry left out rates higher than a pooled movie. |
| Recommender.Top250PoolFromEntries | src/recommender.py:57-80 | The pool is a sub-multiset of the kept entries, and each of its movies is the kept form of a decoded entry. |
| Recommender.LoadTop250 | src/recommender.py:56-80 | The loop, the sort and the cut equal the pool function. |
| BatchSelection.NormalizeModeShape | src/recommender.py:254 | The mode becomes "super" or "regular", and normalising again changes nothing. |
| BatchSelection.ClampBatchSize | src/recommender.py:255 | The batch size lands in [1,60]. It keeps a size already in range and otherwise goes to the nearer bound. |
| BatchSelection.PoolSpec | src/recommender.py:271-280 | The pool is an in-order subsequence of the candidates. A movie is in it exactly when it is a candidate whose key is in none of the watched, excluded and liked sets. |
| BatchSelection.BuildPool | src/recommender.py:271-280 | The loop with its three `continue`s builds that pool. |
| BatchSelection.TightenStepShape | src/recommender.py:291-296 | For a batch size of at least one, a round keeps the items scoring at least the threshold when there are any, and keeps `working` otherwise. |
| BatchSelection.TightenSpec | src/recommender.py:289-296 | After all rounds, `working` is a subsequence of `scored`, and it is empty only when `scored` is. |
| BatchSelection.TightenKeeps | src/recommender.py:289-296 | An item scoring at least every threshold survives every round. |
| BatchSelection.TightenWorking | src/recommender.py:289-296 | The threshold loop equals the fold of the rounds. |
| BatchSelection.PenaltyZeroIff | src/recommender.py:306-311 | The diversity penalty is zero exactly when none of the movie's genres has been used. |
| BatchSelection.CountedAdds | src/recommender.py:318-319 | Counting a movie's genres adds to each genre the number of times the movie lists it. |
| BatchSelection.DiversityPenalty | src/recommender.py:306-311 | The penalty loop sums 3 per earlier use of each listed genre. |
| BatchSelection.CountGenres | src/recommender.py:318-319 | The counting loop gives the counts above. |
| BatchSelection.GreedyKeepsMovies | src/recommender.py:313-319 | The greedy pass picks every item in order and never raises a score. The first pick keeps its score. |
| BatchSelection.SelectSuper | src/recommender.py:302-321 | The greedy loop with its `break` processes the first `batch_size` items, and the re-sort orders them by adjusted score. |
| BatchSelection.SelectedSpec | src/recommender.py:299-323 | Both modes select min(batch_size, size of `working`) items, in non-increasing score order, each of them a movie of `working`. |
| BatchSelection.RegularSelectionIsTop | src/recommender.py:323 | In regular mode, no item left out scores higher than a selected one. |
| BatchSelection.BuildResults | src/recommender.py:325-343 | The result loop builds one record per selected item: director falls back to "", image falls back to "logo.svg", and the score and mode are carried over. |
| BatchSelection.RecommendBatch | src/recommender.py:242-345 | The whole function equals the composition of the steps above. |
| BatchSelection.BatchSize | src/recommender.py:254-326 | The batch has min(batch_size, size of `working`) records (at most 60), and is empty only when the pool is. |
| BatchSelection.BatchFromPool | src/recommender.py:271-343 | Every record is built from a candidate whose key is in none of the three sets. |
| BatchSelection.BatchOrdered | src/recommender.py:299-343 | The records come in non-increasing score order in both modes; super mode orders by adjusted score. |
| BatchSelection.BatchRegularTop | src/recommender.py:299-326 | In regular mode, no item of `working` that is left out scores higher than a record. |

## Left out

- Flask routes, request and response JSON, CORS, cache headers and static files are left out as HTTP plumbing. Only the loops inside the watchlist-remove route and the super-batch route are modelled.
- The SQLite movie cache and the TMDb poster lookup are left out as I/O. Poster lookups are a function parameter that answers "" for "no poster".
- Gemini client construction, prompt text, `generate_content` calls and the retry loop are left out: they are network calls into a foreign library.
- `repair_json_like`, `json.loads` and `ast.literal_eval` are left out as library parsers. The sanitisers start from an already decoded list, and the `ValueError` raised when the decoded value is not a list is not modelled.
- How `ask_super_recommendations` assembles its returned profiles object is left out. Only its movie list is modelled.
- The floating-point scoring is left out: `analyze_user_history`, `score_movie` and the taste profile. The scores (per movie and mode) and the "why it fits" text are parameters of `BatchSelection.RecommendBatch`. `round(float(s), 4)` is not modelled: scores are integers.
- In `load_top250`, the file read, the JSON decoding and the `str()`/`float()` conversions of entry fields are I/O and library behaviour. The model starts from entries whose fields are already strings, name lists and optional integer ratings.
- `str.lower()` is modelled for ASCII letters only; other case mappings are library behaviour.
- `str.isdigit()` is modelled for ASCII digits only.
- A `count` that is neither an int nor a string counts as not a digit string (`OtherCount`). An object whose `str()` is a digit string is therefore not covered.
- `None` inputs handled by `(s or "")` are not modelled, because strings are never None here.
- `build_super_batch` prompt-context assembly in the recommendation route (src/app.py:968-985) is left out as prompt text.
- SuperBatch.AdmitPick: the model calls the poster lookup before the seen-key test, whereas the route looks the poster up only for admitted picks. The lookup is a pure parameter, so the results are the same, but the number of lookups is not modelled.
- MovieIdentity.MovieKeyPartition and MovieIdentity.MovieKeyInjective hold only for normalised titles that contain no "::" and do not end in ':'. Other titles produce keys that `partition("::")` splits elsewhere.
- Recommender.KeySplits requires the same condition on the stripped, lower-cased title.
- Watchlist.OwnKeyRemovesEntry requires the same condition: the remove route partitions the key at its first "::" (src/app.py:1072), so an entry whose normalised title contains "::" or ends in ':' is not removed by its own key.
- GeminiParsing.ParseFormatRoundTrip covers only answers in the expected format, whose values contain no line break and no '#'.
- Recommender.EnglishishShape is not an if-and-only-if: a title with non-ASCII whitespace inside it is not englishish even though all its other characters are ASCII.
- `src/script.py` is not part of this model: it is a thin upload wrapper with no logic of its own.
- The browser-side engine is not part of this model.
