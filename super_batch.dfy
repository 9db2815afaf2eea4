/** The filter the super-mode branch of the batch route runs over Gemini's
    picks: non-blank titles, not watched, not excluded, one per
    "title::year" key, with a poster or the default one, at most 50. */
module SuperBatch {
  import opened PyStrings
  import opened Optional
  import opened Sequences
  import opened MovieIdentity

  /** `batch_size` of the super branch. */
  const SuperBatchSize := 50

  /** `poster_url` is used only when its stripped form starts with "http". */
  function ImageFor(posterUrl: string): string {
    if StartsWith(Trim(posterUrl), "http") then posterUrl else "default_poster.svg"
  }

  /** The identity key of a response row. */
  function RowKey(row: Row): string {
    MovieKey(Get(row, "title"), Get(row, "year"))
  }

  /** The dict the loop appends for a kept pick. */
  function ResponseRow(title: string, year: string, director: string, image: string, why: string): Row {
    map["title" := title, "year" := year, "director" := director, "image" := image, "why_it_fits" := why]
  }

  lemma ResponseRowFields(title: string, year: string, director: string, image: string, why: string)
    ensures var row := ResponseRow(title, year, director, image, why);
      Get(row, "title") == title && Get(row, "year") == year
    ensures RowKey(ResponseRow(title, year, director, image, why)) == MovieKey(title, year)
  {
    var row := ResponseRow(title, year, director, image, why);
    assert Get(row, "title") == title;
    assert Get(row, "year") == year;
  }

  /** The response row made from a pick, with the poster lookup's answer
      ("" for none). */
  function PickRow(p: Row, poster: (string, string) -> string): Row {
    var titleValue := Trim(Get(p, "title"));
    var yearValue := Trim(Get(p, "year"));
    ResponseRow(titleValue, yearValue, Trim(Get(p, "director")),
                ImageFor(poster(titleValue, yearValue)), Trim(Get(p, "why_it_fits")))
  }

  /** A pick the loop keeps unless its key was already emitted: a dict
      with a non-blank title whose key is neither watched nor excluded. */
  function Admitted(watchedKeys: set<string>, excludeKeys: set<string>,
                    poster: (string, string) -> string): Item -> Option<Row>
  {
    (item: Item) =>
      if item.NotRecord? then None
      else
        var titleValue := Trim(Get(item.fields, "title"));
        var key := MovieKey(titleValue, Trim(Get(item.fields, "year")));
        if titleValue == [] || key in watchedKeys || key in excludeKeys then None
        else Some(PickRow(item.fields, poster))
  }

  /** What the super branch returns as "movies": the admitted picks, first
      occurrence of each key, cut at the batch size. */
  function SuperPicks(picks: seq<Item>, watchedKeys: set<string>, excludeKeys: set<string>,
                      poster: (string, string) -> string): seq<Row>
  {
    Take(FirstByKey(FilterMap(picks, Admitted(watchedKeys, excludeKeys, poster)), RowKey), SuperBatchSize)
  }

  /** What every returned row satisfies: a stripped, non-blank title and
      a key that is neither watched nor excluded. */
  function Fresh(watchedKeys: set<string>, excludeKeys: set<string>): Row -> bool {
    row => Get(row, "title") != [] && IsTrimmed(Get(row, "title"))
      && RowKey(row) !in watchedKeys && RowKey(row) !in excludeKeys
  }

  /** An admitted row is fresh: its key is the one the loop checked. */
  lemma AdmittedFresh(picks: seq<Item>, watchedKeys: set<string>, excludeKeys: set<string>,
                      poster: (string, string) -> string)
    ensures var f := Admitted(watchedKeys, excludeKeys, poster);
      forall j :: 0 <= j < |picks| && f(picks[j]).Some? ==> Fresh(watchedKeys, excludeKeys)(f(picks[j]).value)
  {
    var f := Admitted(watchedKeys, excludeKeys, poster);
    forall j | 0 <= j < |picks| && f(picks[j]).Some?
      ensures Fresh(watchedKeys, excludeKeys)(f(picks[j]).value)
    {
      var p := picks[j].fields;
      var titleValue, yearValue := Trim(Get(p, "title")), Trim(Get(p, "year"));
      TrimIsTrimmed(Get(p, "title"));
      ResponseRowFields(titleValue, yearValue, Trim(Get(p, "director")),
                        ImageFor(poster(titleValue, yearValue)), Trim(Get(p, "why_it_fits")));
    }
  }

  /** Every returned movie has a non-blank stripped title and an unwatched,
      unexcluded key; no two share a key; they come in the order of the
      picks; there are at most 50; and short of 50, every admitted key is
      present. */
  lemma SuperPicksSpec(picks: seq<Item>, watchedKeys: set<string>, excludeKeys: set<string>,
                       poster: (string, string) -> string)
    ensures var out := SuperPicks(picks, watchedKeys, excludeKeys, poster);
      && |out| <= SuperBatchSize && |out| <= |picks|
      && DistinctBy(out, RowKey)
      && IsSubsequence(out, FilterMap(picks, Admitted(watchedKeys, excludeKeys, poster)))
      && (forall i :: 0 <= i < |out| ==>
            && Get(out[i], "title") != [] && IsTrimmed(Get(out[i], "title"))
            && RowKey(out[i]) !in watchedKeys && RowKey(out[i]) !in excludeKeys)
      && (|out| < SuperBatchSize ==>
            Keys(out, RowKey) == Keys(FilterMap(picks, Admitted(watchedKeys, excludeKeys, poster)), RowKey))
  {
    AdmittedFresh(picks, watchedKeys, excludeKeys, poster);
    DedupTakeSpec(picks, Admitted(watchedKeys, excludeKeys, poster), RowKey, SuperBatchSize,
                  Fresh(watchedKeys, excludeKeys));
  }

  /** The checks of one loop pass up to the seen-key test: skip non-dicts,
      blank titles and watched or excluded keys, else build the row. */
  method AdmitPick(item: Item, watchedKeys: set<string>, excludeKeys: set<string>,
                   poster: (string, string) -> string)
    returns (row: Option<Row>)
    ensures row == Admitted(watchedKeys, excludeKeys, poster)(item)
    ensures row.Some? ==> RowKey(row.value) == MovieKey(Trim(Get(item.fields, "title")), Trim(Get(item.fields, "year")))
  {
    if item.NotRecord? {
      return None;
    }
    var titleValue := Trim(Get(item.fields, "title"));
    var yearValue := Trim(Get(item.fields, "year"));
    var directorValue := Trim(Get(item.fields, "director"));
    var why := Trim(Get(item.fields, "why_it_fits"));
    if titleValue == [] {
      return None;
    }
    var key := MovieKey(titleValue, yearValue);
    if key in watchedKeys || key in excludeKeys {
      return None;
    }
    var posterUrl := poster(titleValue, yearValue);
    var imageUrl := if StartsWith(Trim(posterUrl), "http") then posterUrl else "default_poster.svg";
    ResponseRowFields(titleValue, yearValue, directorValue, imageUrl, why);
    return Some(ResponseRow(titleValue, yearValue, directorValue, imageUrl, why));
  }

  /** The loop over `picks` at the end of the super branch, with the
      watched and exclude key sets and the poster lookup passed in. */
  method FilterSuperPicks(picks: seq<Item>, watchedKeys: set<string>, excludeKeys: set<string>,
                          poster: (string, string) -> string)
    returns (out: seq<Row>)
    ensures out == SuperPicks(picks, watchedKeys, excludeKeys, poster)
  {
    ghost var f := Admitted(watchedKeys, excludeKeys, poster);
    out := [];
    var seenResp: set<string> := {};
    var k := 0;
    while k < |picks|
      invariant 0 <= k <= |picks|
      invariant out == FirstByKey(FilterMap(picks[..k], f), RowKey)
      invariant seenResp == Keys(out, RowKey)
      invariant |out| < SuperBatchSize
    {
      var row := AdmitPick(picks[k], watchedKeys, excludeKeys, poster);
      if row.None? {
        FilterMapStepNone(picks, k, f);
        k := k + 1;
        continue;
      }
      FilterMapStepSome(picks, k, f, row.value);
      FirstByKeyAppend(FilterMap(picks[..k], f), row.value, RowKey);
      var key := RowKey(row.value);
      if key in seenResp {
        k := k + 1;
        continue;
      }
      seenResp := seenResp + {key};
      KeysAppend(out, row.value, RowKey);
      out := out + [row.value];
      k := k + 1;
      if |out| >= SuperBatchSize {
        DedupTakePrefix(picks, k, f, RowKey, SuperBatchSize);
        break;
      }
    }
    if k == |picks| && |out| < SuperBatchSize {
      assert picks[..k] == picks;
    }
  }
}
