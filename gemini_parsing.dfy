/** `parse_gemini_recommendations`: Gemini's free-text answer, blocks
    separated by '#', each block holding "Title:", "Year:", "Director:" and
    "why it fits:" lines, read into movie records. */
module GeminiParsing {
  import opened PyStrings
  import opened Optional
  import opened Sequences

  datatype ParsedMovie = ParsedMovie(title: string, year: string, director: string, whyItFits: string)

  const Fence: string := "```"
  const NoFields := ParsedMovie("", "", "", "")

  /** `text.split("```", 2)[-1]` for a text that starts with the fence: what
      follows the second fence, or what follows the first if there is no
      second one. */
  function AfterFences(text: string): (r: string)
    requires StartsWith(text, Fence)
    ensures |r| < |text| && r == text[|text| - |r|..]
  {
    var rest := text[3..];
    var j := IndexOf(rest, Fence);
    if j == -1 then rest else rest[j + 3..]
  }

  /** The text whose '#'-separated blocks are parsed. */
  function CleanedText(text: string): string {
    var cleaned := Trim(text);
    if StartsWith(cleaned, Fence) then Trim(AfterFences(cleaned)) else cleaned
  }

  function NonBlankBlock(block: string): (r: Option<string>)
    ensures r.Some? ==> r.value != [] && IsTrimmed(r.value)
  {
    TrimIsTrimmed(block);
    if Trim(block) != [] then Some(Trim(block)) else None
  }

  /** The non-blank, trimmed '#'-separated blocks. */
  function Blocks(cleaned: string): seq<string> {
    FilterMap(SplitOn(cleaned, '#'), NonBlankBlock)
  }

  /** A line whose lower-cased form starts with a tag ending in ':' holds
      a ':' itself, so `line.split(":", 1)[1]` is defined. */
  lemma {:induction false} LabelHasColon(line: string, tag: string)
    requires StartsWith(Lower(line), tag) && |tag| > 0 && tag[|tag| - 1] == ':'
    ensures Contains(line, ":")
  {
    var k := |tag| - 1;
    LowerSpec(line);
    assert Lower(line)[k] == ':';
    assert line[k] == ':';
    assert line[k..k + 1] == ":";
    assert OccursAt(line, ":", k);
  }

  /** Which field a stripped line sets, the labels checked in the loop's
      order: "title:", "year:" and "director:" as lower-cased prefixes,
      then any line mentioning "why it fits" that has a ':'. */
  datatype Field = TitleField | YearField | DirectorField | WhyField | NoField

  function LineField(line: string): (f: Field)
    ensures f != NoField ==> Contains(line, ":")
  {
    var lowerLine := Lower(line);
    if StartsWith(lowerLine, "title:") then
      LabelHasColon(line, "title:");
      TitleField
    else if StartsWith(lowerLine, "year:") then
      LabelHasColon(line, "year:");
      YearField
    else if StartsWith(lowerLine, "director:") then
      LabelHasColon(line, "director:");
      DirectorField
    else if Contains(lowerLine, "why it fits") && Contains(line, ":") then WhyField
    else NoField
  }

  /** `line.split(":", 1)[1].strip()`. */
  function FieldValue(line: string): (v: string)
    requires Contains(line, ":")
    ensures IsTrimmed(v)
  {
    TrimIsTrimmed(AfterFirstColon(line));
    Trim(AfterFirstColon(line))
  }

  /** The field a raw line sets and the value it gives that field. */
  datatype Setting = Setting(field: Field, value: string)

  function Classify(rawLine: string): (c: Setting)
    ensures IsTrimmed(c.value)
  {
    var line := Trim(rawLine);
    var f := LineField(line);
    if f == NoField then Setting(NoField, "") else Setting(f, FieldValue(line))
  }

  function SetField(acc: ParsedMovie, c: Setting): ParsedMovie {
    match c.field
    case TitleField => acc.(title := c.value)
    case YearField => acc.(year := c.value)
    case DirectorField => acc.(director := c.value)
    case WhyField => acc.(whyItFits := c.value)
    case NoField => acc
  }

  /** What one line of a block sets; a line matching no label changes
      nothing. */
  function ParseLine(acc: ParsedMovie, rawLine: string): ParsedMovie {
    SetField(acc, Classify(rawLine))
  }

  /** The fields after reading `lines` in order, starting from `acc`. */
  function ParseLines(acc: ParsedMovie, lines: seq<string>): ParsedMovie
    decreases |lines|
  {
    if lines == [] then acc else ParseLines(ParseLine(acc, lines[0]), lines[1..])
  }

  /** A block becomes a movie only when it named a title. */
  function BlockMovie(block: string): (r: Option<ParsedMovie>)
    ensures r.Some? ==> r.value.title != []
  {
    var m := ParseLines(NoFields, SplitLines(block));
    if m.title != [] then Some(m) else None
  }

  /** What `parse_gemini_recommendations(text, maximum)` returns. */
  function ParsedRecommendations(text: string, maximum: int): (r: seq<ParsedMovie>)
    ensures text == [] || Contains(text, "Error:") ==> r == []
    ensures maximum >= 0 ==> |r| <= maximum
    ensures forall i :: 0 <= i < |r| ==> r[i].title != []
  {
    if text == [] then []
    else if Contains(text, "Error:") then []
    else
      var r := FilterMap(Take(Blocks(CleanedText(text)), maximum), BlockMovie);
      FilterMapKeeps(Take(Blocks(CleanedText(text)), maximum), BlockMovie, (m: ParsedMovie) => m.title != []);
      r
  }

  /** The inner loop of `parse_gemini_recommendations`: the fields one
      block names, each line checked against the labels in turn. */
  method ParseBlock(block: string) returns (movie: ParsedMovie)
    ensures movie == ParseLines(NoFields, SplitLines(block))
  {
    var movieTitle, movieYear, movieDirector, whyItFits := "", "", "", "";
    var lines := SplitLines(block);
    var j := 0;
    while j < |lines|
      invariant 0 <= j <= |lines|
      invariant ParseLines(ParsedMovie(movieTitle, movieYear, movieDirector, whyItFits), lines[j..])
             == ParseLines(NoFields, lines)
    {
      assert lines[j..][1..] == lines[j + 1..];
      ghost var before := ParsedMovie(movieTitle, movieYear, movieDirector, whyItFits);
      var line := Trim(lines[j]);
      var lowerLine := Lower(line);
      if StartsWith(lowerLine, "title:") {
        LabelHasColon(line, "title:");
        movieTitle := Trim(AfterFirstColon(line));
      } else if StartsWith(lowerLine, "year:") {
        LabelHasColon(line, "year:");
        movieYear := Trim(AfterFirstColon(line));
      } else if StartsWith(lowerLine, "director:") {
        LabelHasColon(line, "director:");
        movieDirector := Trim(AfterFirstColon(line));
      } else if Contains(lowerLine, "why it fits") && Contains(line, ":") {
        whyItFits := Trim(AfterFirstColon(line));
      }
      assert ParseLine(before, lines[j]) == ParsedMovie(movieTitle, movieYear, movieDirector, whyItFits);
      j := j + 1;
    }
    movie := ParsedMovie(movieTitle, movieYear, movieDirector, whyItFits);
  }

  /** `parse_gemini_recommendations`, loop for loop. */
  method ParseGeminiRecommendations(geminiText: string, maximumMoviesToParse: int)
    returns (parsedMovies: seq<ParsedMovie>)
    ensures parsedMovies == ParsedRecommendations(geminiText, maximumMoviesToParse)
    ensures geminiText == [] || Contains(geminiText, "Error:") ==> parsedMovies == []
    ensures maximumMoviesToParse >= 0 ==> |parsedMovies| <= maximumMoviesToParse
    ensures forall i :: 0 <= i < |parsedMovies| ==> parsedMovies[i].title != []
  {
    if geminiText == [] {
      return [];
    }
    if Contains(geminiText, "Error:") {
      return [];
    }
    var cleanedText := Trim(geminiText);
    if StartsWith(cleanedText, Fence) {
      cleanedText := Trim(AfterFences(cleanedText));
    }
    var blocks := NonBlankBlocks(cleanedText);
    var selected := Take(blocks, maximumMoviesToParse);
    parsedMovies := ParseBlocks(selected);
    FilterMapKeeps(selected, BlockMovie, (m: ParsedMovie) => m.title != []);
  }

  /** The first loop of `parse_gemini_recommendations`: the stripped,
      non-empty pieces of the text split on '#'. */
  method NonBlankBlocks(cleanedText: string) returns (blocks: seq<string>)
    ensures blocks == Blocks(cleanedText)
  {
    var rawBlocks := SplitOn(cleanedText, '#');
    blocks := [];
    var k := 0;
    while k < |rawBlocks|
      invariant 0 <= k <= |rawBlocks|
      invariant blocks == FilterMap(rawBlocks[..k], NonBlankBlock)
    {
      var trimmedBlock := Trim(rawBlocks[k]);
      if trimmedBlock != [] {
        FilterMapStepSome(rawBlocks, k, NonBlankBlock, trimmedBlock);
        blocks := blocks + [trimmedBlock];
      } else {
        FilterMapStepNone(rawBlocks, k, NonBlankBlock);
      }
      k := k + 1;
    }
    assert rawBlocks[..k] == rawBlocks;
  }

  /** The second loop of `parse_gemini_recommendations`: each selected
      block parsed, those without a title dropped. */
  method ParseBlocks(selected: seq<string>) returns (parsedMovies: seq<ParsedMovie>)
    ensures parsedMovies == FilterMap(selected, BlockMovie)
  {
    parsedMovies := [];
    var b := 0;
    while b < |selected|
      invariant 0 <= b <= |selected|
      invariant parsedMovies == FilterMap(selected[..b], BlockMovie)
    {
      var movie := ParseBlock(selected[b]);
      if movie.title != [] {
        FilterMapStepSome(selected, b, BlockMovie, movie);
        parsedMovies := parsedMovies + [movie];
      } else {
        FilterMapStepNone(selected, b, BlockMovie);
      }
      b := b + 1;
    }
    assert selected[..b] == selected;
  }

  // The answer format Gemini is asked for, and the parser as its inverse.

  predicate NoHash(s: string) {
    forall j :: 0 <= j < |s| ==> s[j] != '#'
  }

  /** A field Gemini can write on one labelled line and the parser reads
      back unchanged. */
  predicate PlainField(v: string) {
    IsTrimmed(v) && NoLineBreak(v) && NoHash(v)
  }

  /** A movie whose answer block reads back as the same movie; a block
      with a title and a reason ends in a non-blank character. */
  predicate Formattable(m: ParsedMovie) {
    && m.title != [] && m.whyItFits != []
    && PlainField(m.title) && PlainField(m.year) && PlainField(m.director) && PlainField(m.whyItFits)
  }

  function LabelLine(tag: string, v: string): string {
    tag + " " + v
  }

  /** The four lines of an answer block: "Title: …", "Year: …",
      "Director: …" and "why it fits: …". */
  function FormatLines(m: ParsedMovie): seq<string> {
    [LabelLine("Title:", m.title), LabelLine("Year:", m.year),
     LabelLine("Director:", m.director), LabelLine("why it fits:", m.whyItFits)]
  }

  /** One answer block: its four lines joined by "\n". */
  function FormatBlock(m: ParsedMovie): string {
    Join("\n", FormatLines(m))
  }

  /** A whole answer: the blocks separated by '#'. */
  function FormatRecommendations(movies: seq<ParsedMovie>): string {
    Join("#", AnswerBlocks(movies))
  }

  lemma TrimAfterSpace(v: string)
    requires IsTrimmed(v)
    ensures Trim(" " + v) == v
  {
    assert (" " + v)[1..] == v;
    TrimOfTrimmed(v);
  }

  /** A label with its only ':' at the end. */
  predicate Label(tag: string) {
    && |tag| >= 2 && tag[|tag| - 1] == ':' && !IsSpace(tag[0])
    && forall i :: 0 <= i < |tag| - 1 ==> tag[i] != ':'
  }

  lemma {:induction false} LabelLineTrim(tag: string, v: string)
    requires Label(tag) && IsTrimmed(v)
    ensures Trim(LabelLine(tag, v)) == if v == [] then tag else LabelLine(tag, v)
  {
    var line := LabelLine(tag, v);
    if v == [] {
      assert line[..|line| - 1] == tag;
      TrimOfTrimmed(tag);
    } else {
      TrimOfTrimmed(line);
    }
  }

  lemma {:induction false} AfterLabel(tag: string, rest: string)
    requires Label(tag)
    ensures Contains(tag + rest, ":") && AfterFirstColon(tag + rest) == rest
  {
    var t := tag + rest;
    assert t[|tag| - 1..|tag|] == ":";
    assert OccursAt(t, ":", |tag| - 1);
    var r := AfterFirstColon(t);
    assert |t| - |r| - 1 == |tag| - 1;
  }

  /** A labelled line is read back as its value: after `strip()` it still
      starts with the label, and what follows its first ':' strips to the
      value. */
  lemma {:induction false} LabelLineValue(tag: string, v: string)
    requires Label(tag) && IsTrimmed(v)
    ensures StartsWith(Trim(LabelLine(tag, v)), tag)
    ensures Contains(Trim(LabelLine(tag, v)), ":")
    ensures Trim(AfterFirstColon(Trim(LabelLine(tag, v)))) == v
  {
    LabelLineTrim(tag, v);
    var t := Trim(LabelLine(tag, v));
    var rest := if v == [] then "" else " " + v;
    assert t == tag + rest;
    AfterLabel(tag, rest);
    assert t[..|tag|] == tag;
    if v != [] {
      TrimAfterSpace(v);
    }
  }

  lemma PlainLine(tag: string, v: string)
    requires NoLineBreak(tag) && NoHash(tag) && PlainField(v)
    ensures NoLineBreak(LabelLine(tag, v)) && NoHash(LabelLine(tag, v))
  {
  }

  /** How the four labelled lines of the answer format are classified. */
  lemma {:induction false} LabelFields(tv: string, yv: string, dv: string, wv: string)
    requires IsTrimmed(tv) && IsTrimmed(yv) && IsTrimmed(dv) && IsTrimmed(wv)
    ensures Classify(LabelLine("Title:", tv)) == Setting(TitleField, tv)
    ensures Classify(LabelLine("Year:", yv)) == Setting(YearField, yv)
    ensures Classify(LabelLine("Director:", dv)) == Setting(DirectorField, dv)
    ensures Classify(LabelLine("why it fits:", wv)) == Setting(WhyField, wv)
  {
    FieldValues(tv, yv, dv, wv);
    TitleClass(Trim(LabelLine("Title:", tv)));
    YearClass(Trim(LabelLine("Year:", yv)));
    DirectorClass(Trim(LabelLine("Director:", dv)));
    WhyClass(Trim(LabelLine("why it fits:", wv)));
  }

  lemma TitleClass(t: string)
    requires StartsWith(t, "Title:")
    ensures LineField(t) == TitleField
  {
    LowerPrefix(t, "Title:");
    LowerSpec("Title:");
    assert Lower("Title:") == "title:";
  }

  lemma YearClass(t: string)
    requires StartsWith(t, "Year:")
    ensures LineField(t) == YearField
  {
    LowerPrefix(t, "Year:");
    LowerSpec("Year:");
    assert Lower("Year:") == "year:";
    assert Lower(t)[0] == 'y';
  }

  lemma DirectorClass(t: string)
    requires StartsWith(t, "Director:")
    ensures LineField(t) == DirectorField
  {
    LowerPrefix(t, "Director:");
    LowerSpec("Director:");
    assert Lower("Director:") == "director:";
    assert Lower(t)[0] == 'd';
  }

  lemma WhyClass(t: string)
    requires StartsWith(t, "why it fits:")
    ensures LineField(t) == WhyField
  {
    var tag := "why it fits:";
    LowerPrefix(t, tag);
    LowerSpec(tag);
    assert Lower(tag) == tag;
    var w := Lower(t);
    assert w[0] == 'w';
    assert OccursAt(w, "why it fits", 0) by {
      assert w[..11] == "why it fits";
    }
    assert OccursAt(t, ":", 11) by {
      assert t[11..12] == ":";
    }
  }

  lemma FieldValues(tv: string, yv: string, dv: string, wv: string)
    requires IsTrimmed(tv) && IsTrimmed(yv) && IsTrimmed(dv) && IsTrimmed(wv)
    ensures StartsWith(Trim(LabelLine("Title:", tv)), "Title:")
    ensures StartsWith(Trim(LabelLine("Year:", yv)), "Year:")
    ensures StartsWith(Trim(LabelLine("Director:", dv)), "Director:")
    ensures StartsWith(Trim(LabelLine("why it fits:", wv)), "why it fits:")
    ensures Contains(Trim(LabelLine("Title:", tv)), ":")
    ensures Contains(Trim(LabelLine("Year:", yv)), ":")
    ensures Contains(Trim(LabelLine("Director:", dv)), ":")
    ensures Contains(Trim(LabelLine("why it fits:", wv)), ":")
    ensures FieldValue(Trim(LabelLine("Title:", tv))) == tv
    ensures FieldValue(Trim(LabelLine("Year:", yv))) == yv
    ensures FieldValue(Trim(LabelLine("Director:", dv))) == dv
    ensures FieldValue(Trim(LabelLine("why it fits:", wv))) == wv
  {
    assert Label("Title:") && Label("Year:") && Label("Director:") && Label("why it fits:");
    LabelLineValue("Title:", tv);
    LabelLineValue("Year:", yv);
    LabelLineValue("Director:", dv);
    LabelLineValue("why it fits:", wv);
  }

  lemma ParseLinesCons(acc: ParsedMovie, l: string, rest: seq<string>)
    ensures ParseLines(acc, [l] + rest) == ParseLines(ParseLine(acc, l), rest)
  {
    assert ([l] + rest)[1..] == rest;
  }

  /** Four lines with known settings are read one after the other. */
  lemma {:induction false} ParseFourLines(acc: ParsedMovie, l1: string, l2: string, l3: string, l4: string,
                                          c1: Setting, c2: Setting, c3: Setting, c4: Setting)
    requires Classify(l1) == c1 && Classify(l2) == c2 && Classify(l3) == c3 && Classify(l4) == c4
    ensures ParseLines(acc, [l1, l2, l3, l4]) == SetField(SetField(SetField(SetField(acc, c1), c2), c3), c4)
  {
    var a1 := SetField(acc, c1);
    var a2 := SetField(a1, c2);
    var a3 := SetField(a2, c3);
    ParseLinesCons(acc, l1, [l2, l3, l4]);
    ParseLinesCons(a1, l2, [l3, l4]);
    ParseLinesCons(a2, l3, [l4]);
    ParseLinesCons(a3, l4, []);
    assert [l1] + [l2, l3, l4] == [l1, l2, l3, l4];
    assert [l2] + [l3, l4] == [l2, l3, l4];
    assert [l3] + [l4] == [l3, l4];
    assert [l4] + [] == [l4];
  }

  /** Lines in the answer format are parsed field by field. */
  lemma {:induction false} ParseFormattedLines(m: ParsedMovie)
    requires Formattable(m)
    ensures ParseLines(NoFields, FormatLines(m)) == m
  {
    var l1, l2 := LabelLine("Title:", m.title), LabelLine("Year:", m.year);
    var l3, l4 := LabelLine("Director:", m.director), LabelLine("why it fits:", m.whyItFits);
    LabelFields(m.title, m.year, m.director, m.whyItFits);
    ParseFourLines(NoFields, l1, l2, l3, l4, Setting(TitleField, m.title), Setting(YearField, m.year),
      Setting(DirectorField, m.director), Setting(WhyField, m.whyItFits));
  }

  /** The four lines of a block are its `splitlines()`. */
  lemma FormatBlockLines(m: ParsedMovie)
    requires Formattable(m)
    ensures SplitLines(FormatBlock(m)) == FormatLines(m)
  {
    PlainLine("Title:", m.title);
    PlainLine("Year:", m.year);
    PlainLine("Director:", m.director);
    PlainLine("why it fits:", m.whyItFits);
    SplitLinesJoin(FormatLines(m));
  }

  lemma FormatBlockNoHash(m: ParsedMovie)
    requires Formattable(m)
    ensures NoHash(FormatBlock(m))
  {
    PlainLine("Title:", m.title);
    PlainLine("Year:", m.year);
    PlainLine("Director:", m.director);
    PlainLine("why it fits:", m.whyItFits);
    JoinAvoids("\n", FormatLines(m), '#');
  }

  lemma FormatBlockTrimmed(m: ParsedMovie)
    requires Formattable(m)
    ensures IsTrimmed(FormatBlock(m)) && FormatBlock(m)[0] == 'T'
  {
    var lines := FormatLines(m);
    var w := lines[3];
    assert w[|w| - 1] == m.whyItFits[|m.whyItFits| - 1];
    JoinEnds("\n", lines);
  }

  /** A block in the answer format is parsed back into its movie. */
  lemma {:induction false} BlockRoundTrip(m: ParsedMovie)
    requires Formattable(m)
    ensures BlockMovie(FormatBlock(m)) == Some(m)
    ensures NonBlankBlock(FormatBlock(m)) == Some(FormatBlock(m))
    ensures NoHash(FormatBlock(m))
  {
    FormatBlockLines(m);
    FormatBlockNoHash(m);
    ParseFormattedLines(m);
    FormatBlockTrimmed(m);
    TrimOfTrimmed(FormatBlock(m));
  }

  lemma NotFenced(t: string)
    requires t != [] && t[0] == 'T'
    ensures !StartsWith(t, Fence)
  {
    if |t| >= 3 {
      assert t[..3][0] == 'T';
    }
  }

  function AnswerBlocks(movies: seq<ParsedMovie>): seq<string> {
    seq(|movies|, i requires 0 <= i < |movies| => FormatBlock(movies[i]))
  }

  /** A non-empty answer in the requested format has no surrounding blank
      and no fence, and splits on '#' into its blocks. */
  lemma {:induction false} AnswerShape(movies: seq<ParsedMovie>)
    requires movies != [] && forall i :: 0 <= i < |movies| ==> Formattable(movies[i])
    ensures FormatRecommendations(movies) != []
    ensures CleanedText(FormatRecommendations(movies)) == FormatRecommendations(movies)
    ensures Blocks(FormatRecommendations(movies)) == AnswerBlocks(movies)
  {
    var blocks := AnswerBlocks(movies);
    var text := FormatRecommendations(movies);
    assert text == Join("#", blocks);
    forall i | 0 <= i < |movies| ensures NonBlankBlock(blocks[i]) == Some(blocks[i])
      && NoHash(blocks[i]) && blocks[i][0] == 'T' && IsTrimmed(blocks[i])
    {
      BlockRoundTrip(movies[i]);
      FormatBlockTrimmed(movies[i]);
    }
    SplitOnJoin(blocks, '#');
    FilterMapAllSome(blocks, NonBlankBlock, blocks);
    JoinEnds("#", blocks);
    assert IsTrimmed(text);
    TrimOfTrimmed(text);
    NotFenced(text);
  }

  /** Parsing inverts formatting: an answer written in the requested
      format yields its movies, cut to `maximum` as Python's `[:maximum]`
      cuts, provided the answer does not contain "Error:" (the marker of a
      failed Gemini call). */
  lemma {:induction false} ParseFormatRoundTrip(movies: seq<ParsedMovie>, maximum: int)
    requires forall i :: 0 <= i < |movies| ==> Formattable(movies[i])
    requires !Contains(FormatRecommendations(movies), "Error:")
    ensures ParsedRecommendations(FormatRecommendations(movies), maximum) == Take(movies, maximum)
  {
    var blocks := AnswerBlocks(movies);
    var text := FormatRecommendations(movies);
    if movies == [] {
      assert text == [];
    } else {
      AnswerShape(movies);
      forall i | 0 <= i < |movies| ensures BlockMovie(blocks[i]) == Some(movies[i]) {
        BlockRoundTrip(movies[i]);
      }
      var n := |Take(blocks, maximum)|;
      assert Take(blocks, maximum) == blocks[..n];
      FilterMapAllSome(blocks[..n], BlockMovie, movies[..n]);
    }
  }
}
