/** The two text clean-ups the Gemini client applies before decoding an
    answer as JSON: removing a Markdown code fence, and cutting out the
    first bracket-balanced JSON object or array with a scan that ignores
    brackets inside quoted strings. */
module JsonExtraction {
  import opened PyStrings
  import opened Sequences

  /** `strip_fences`: the stripped text; when it starts with a code fence,
      the backticks at both ends are stripped too, and then a leading
      "json" language tag. */
  function StripFences(s: string): string {
    var cleaned := Trim(s);
    if StartsWith(cleaned, "```") then
      var unfenced := Trim(StripBackticks(cleaned));
      if StartsWith(unfenced, "json") then Trim(unfenced[4..]) else unfenced
    else cleaned
  }

  /** The result never has surrounding whitespace, and unfenced text only
      loses its surrounding whitespace. */
  lemma StripFencesShape(s: string)
    ensures IsTrimmed(StripFences(s))
    ensures !StartsWith(Trim(s), "```") ==> StripFences(s) == Trim(s)
  {
    var cleaned := Trim(s);
    TrimIsTrimmed(s);
    if StartsWith(cleaned, "```") {
      var unfenced := Trim(StripBackticks(cleaned));
      TrimIsTrimmed(StripBackticks(cleaned));
      if StartsWith(unfenced, "json") {
        TrimIsTrimmed(unfenced[4..]);
      }
    }
  }

  /** What a fenced answer's body may be: no surrounding whitespace and no
      backtick at either end. */
  predicate FenceBody(body: string) {
    body != [] && IsTrimmed(body) && body[0] != '`' && body[|body| - 1] != '`'
  }

  /** Removing the fence of a "json" code block leaves the tag and the
      body. */
  lemma UnfenceTagged(body: string)
    requires FenceBody(body)
    ensures var f := "```json\n" + body + "\n```";
      && Trim(f) == f && StartsWith(f, "```")
      && Trim(StripBackticks(f)) == "json\n" + body
  {
    var f := "```json\n" + body + "\n```";
    var inner := "json\n" + body + "\n";
    assert f == "```" + inner + "```";
    assert f[0] == '`' && f[|f| - 1] == '`';
    TrimOfTrimmed(f);
    assert f[..3] == "```";
    StripWhereFrame("```", inner, "```", Backticks);
    assert inner == [] + ("json\n" + body) + "\n";
    StripWhereFrame([], "json\n" + body, "\n", Whitespace);
  }

  /** A body fenced as a "json" code block comes back unchanged. */
  lemma StripFencesTagged(body: string)
    requires FenceBody(body)
    ensures StripFences("```json\n" + body + "\n```") == body
  {
    UnfenceTagged(body);
    var tagged := "json\n" + body;
    assert tagged[..4] == "json";
    assert tagged[4..] == "\n" + body + [];
    StripWhereFrame("\n", body, [], Whitespace);
  }

  /** A body fenced without a language tag comes back unchanged, unless it
      itself starts with "json". */
  lemma StripFencesUntagged(body: string)
    requires FenceBody(body) && !StartsWith(body, "json")
    ensures StripFences("```\n" + body + "\n```") == body
  {
    var f := "```\n" + body + "\n```";
    var inner := "\n" + body + "\n";
    assert f == "```" + inner + "```";
    assert f[0] == '`' && f[|f| - 1] == '`';
    TrimOfTrimmed(f);
    assert f[..3] == "```";
    StripWhereFrame("```", inner, "```", Backticks);
    StripWhereFrame("\n", body, "\n", Whitespace);
  }

  /** Where the JSON block begins: the first '{' or the first '[',
      whichever comes first, with the bracket that closes it. */
  datatype Opening = NoOpening | OpeningAt(start: nat, openCh: char, closeCh: char)

  function IsChar(c: char): char -> bool {
    x => x == c
  }

  predicate IsOpener(ch: char) {
    ch == '{' || ch == '['
  }

  /** The `candidates` list of `extract_json_substring` and its minimum. */
  function FindOpening(t: string): (r: Opening)
    ensures r.NoOpening? <==> forall j :: 0 <= j < |t| ==> !IsOpener(t[j])
    ensures r.OpeningAt? ==>
      && r.start < |t| && t[r.start] == r.openCh
      && ((r.openCh, r.closeCh) == ('{', '}') || (r.openCh, r.closeCh) == ('[', ']'))
      && forall j :: 0 <= j < r.start ==> !IsOpener(t[j])
  {
    var curly := FirstIndex(t, IsChar('{'));
    var square := FirstIndex(t, IsChar('['));
    assert forall j :: 0 <= j < |t| && curly == -1 ==> t[j] != '{' by {
      forall j | 0 <= j < |t| && curly == -1 ensures t[j] != '{' {
        assert !IsChar('{')(t[j]);
      }
    }
    assert forall j :: 0 <= j < |t| && square == -1 ==> t[j] != '[' by {
      forall j | 0 <= j < |t| && square == -1 ensures t[j] != '[' {
        assert !IsChar('[')(t[j]);
      }
    }
    if curly == -1 && square == -1 then NoOpening
    else if square == -1 || (curly != -1 && curly <= square) then
      assert IsChar('{')(t[curly]);
      assert forall j :: 0 <= j < curly ==> !IsChar('{')(t[j]) && !IsChar('[')(t[j]);
      OpeningAt(curly, '{', '}')
    else
      assert IsChar('[')(t[square]);
      assert forall j :: 0 <= j < square ==> !IsChar('{')(t[j]) && !IsChar('[')(t[j]);
      OpeningAt(square, '[', ']')
  }

  /** The scan's variables `depth`, `in_str`, `esc` and `quote`. */
  datatype ScanState = ScanState(depth: int, inStr: bool, esc: bool, quote: string)

  const Initial := ScanState(0, false, false, "")

  predicate IsQuote(ch: char) {
    ch == '\'' || ch == '"'
  }

  /** One pass of the scan loop that does not return. */
  function Step(st: ScanState, ch: char, openCh: char, closeCh: char): ScanState {
    if st.inStr then
      if st.esc then st.(esc := false)
      else if ch == '\\' then st.(esc := true)
      else if [ch] == st.quote then st.(inStr := false)
      else st
    else if IsQuote(ch) then st.(inStr := true, quote := [ch])
    else if ch == openCh then st.(depth := st.depth + 1)
    else if ch == closeCh then st.(depth := st.depth - 1)
    else st
  }

  /** `ch` is a closing bracket outside any string that brings the depth
      back to zero: the point where the scan returns. */
  predicate Closes(st: ScanState, ch: char, openCh: char, closeCh: char) {
    !st.inStr && !IsQuote(ch) && ch != openCh && ch == closeCh && st.depth - 1 == 0
  }

  /** The scan state after reading `x` from `st`. */
  function Run(st: ScanState, x: string, openCh: char, closeCh: char): ScanState
    decreases |x|
  {
    if x == [] then st else Run(Step(st, x[0], openCh, closeCh), x[1..], openCh, closeCh)
  }

  /** The scan state just before character `j` of `u`. */
  function StateBefore(u: string, j: nat, openCh: char, closeCh: char): ScanState
    requires j <= |u|
  {
    Run(Initial, u[..j], openCh, closeCh)
  }

  lemma {:induction false} RunAppend(st: ScanState, a: string, b: string, openCh: char, closeCh: char)
    ensures Run(st, a + b, openCh, closeCh) == Run(Run(st, a, openCh, closeCh), b, openCh, closeCh)
    decreases |a|
  {
    if a == [] {
      assert a + b == b;
    } else {
      assert (a + b)[1..] == a[1..] + b;
      RunAppend(Step(st, a[0], openCh, closeCh), a[1..], b, openCh, closeCh);
    }
  }

  lemma StateBeforeNext(u: string, j: nat, openCh: char, closeCh: char)
    requires j < |u|
    ensures StateBefore(u, j + 1, openCh, closeCh)
      == Step(StateBefore(u, j, openCh, closeCh), u[j], openCh, closeCh)
  {
    assert u[..j + 1] == u[..j] + [u[j]];
    RunAppend(Initial, u[..j], [u[j]], openCh, closeCh);
  }

  /** Index in `u`, from `i` on, of the character at which the scan
      returns, starting in state `st`; -1 when it never does. */
  function FirstCloseFrom(u: string, i: nat, st: ScanState, openCh: char, closeCh: char): (r: int)
    requires i <= |u|
    ensures r == -1 || i <= r < |u|
    decreases |u| - i
  {
    if i == |u| then -1
    else if Closes(st, u[i], openCh, closeCh) then i
    else FirstCloseFrom(u, i + 1, Step(st, u[i], openCh, closeCh), openCh, closeCh)
  }

  function FirstClose(u: string, openCh: char, closeCh: char): int {
    FirstCloseFrom(u, 0, Initial, openCh, closeCh)
  }

  lemma {:induction false} FirstCloseFromSpec(u: string, i: nat, st: ScanState, openCh: char, closeCh: char)
    requires i <= |u| && st == StateBefore(u, i, openCh, closeCh)
    ensures var r := FirstCloseFrom(u, i, st, openCh, closeCh);
      && (r != -1 ==> Closes(StateBefore(u, r, openCh, closeCh), u[r], openCh, closeCh))
      && forall j :: i <= j < |u| && (r == -1 || j < r) ==>
           !Closes(StateBefore(u, j, openCh, closeCh), u[j], openCh, closeCh)
    decreases |u| - i
  {
    if i < |u| && !Closes(st, u[i], openCh, closeCh) {
      StateBeforeNext(u, i, openCh, closeCh);
      FirstCloseFromSpec(u, i + 1, Step(st, u[i], openCh, closeCh), openCh, closeCh);
    }
  }

  /** The scan returns at the first character that closes, if any. */
  lemma FirstCloseSpec(u: string, openCh: char, closeCh: char)
    ensures var r := FirstClose(u, openCh, closeCh);
      && -1 <= r < |u|
      && (r != -1 ==> Closes(StateBefore(u, r, openCh, closeCh), u[r], openCh, closeCh))
      && forall j :: 0 <= j < |u| && (r == -1 || j < r) ==>
           !Closes(StateBefore(u, j, openCh, closeCh), u[j], openCh, closeCh)
  {
    assert u[..0] == [];
    FirstCloseFromSpec(u, 0, Initial, openCh, closeCh);
  }

  /** What the scan returns for the text `u` from the opening bracket on:
      up to and including the character at which it closes, else all of
      `u`. */
  function Cut(u: string, openCh: char, closeCh: char): string {
    var e := FirstClose(u, openCh, closeCh);
    if e == -1 then u else u[..e + 1]
  }

  /** The cut is a non-empty prefix of `u` that ends at the first character
      where the scan closes, or is all of `u` when none does. */
  lemma CutSpec(u: string, openCh: char, closeCh: char)
    requires u != [] && u[0] == openCh
    ensures var r := Cut(u, openCh, closeCh);
      && 1 <= |r| <= |u| && r == u[..|r|]
      && (forall j :: 0 <= j < |r| - 1 ==>
            !Closes(StateBefore(u, j, openCh, closeCh), u[j], openCh, closeCh))
      && (Closes(StateBefore(u, |r| - 1, openCh, closeCh), u[|r| - 1], openCh, closeCh)
          || (r == u && forall j :: 0 <= j < |u| ==>
                !Closes(StateBefore(u, j, openCh, closeCh), u[j], openCh, closeCh)))
  {
    FirstCloseSpec(u, openCh, closeCh);
    assert !Closes(StateBefore(u, 0, openCh, closeCh), u[0], openCh, closeCh);
    assert u[..|u|] == u;
  }

  /** What `extract_json_substring` returns. */
  function ExtractJson(s: string): string {
    var t := Trim(s);
    if t == [] then t
    else match FindOpening(t)
      case NoOpening => t
      case OpeningAt(start, openCh, closeCh) => Cut(t[start..], openCh, closeCh)
  }

  /** `extract_json_substring`. */
  method ExtractJsonSubstring(s: string) returns (r: string)
    ensures r == ExtractJson(s)
  {
    var t := Trim(s);
    if t == [] {
      return t;
    }
    var opening := FindOpening(t);
    if opening.NoOpening? {
      return t;
    }
    r := Scan(t, opening.start, opening.openCh, opening.closeCh);
  }

  /** The scan loop of `extract_json_substring`, from `start` on. */
  method Scan(t: string, start: nat, openCh: char, closeCh: char) returns (r: string)
    requires start <= |t|
    ensures r == Cut(t[start..], openCh, closeCh)
  {
    var depth := 0;
    var inStr := false;
    var esc := false;
    var quote := "";
    ghost var u := t[start..];
    var i := start;
    while i < |t|
      invariant start <= i <= |t|
      invariant FirstClose(u, openCh, closeCh)
        == FirstCloseFrom(u, i - start, ScanState(depth, inStr, esc, quote), openCh, closeCh)
    {
      var ch := t[i];
      assert ch == u[i - start];
      if inStr {
        if esc {
          esc := false;
        } else if ch == '\\' {
          esc := true;
        } else if [ch] == quote {
          inStr := false;
        }
        i := i + 1;
        continue;
      }
      if ch == '\'' || ch == '"' {
        inStr := true;
        quote := [ch];
        i := i + 1;
        continue;
      }
      if ch == openCh {
        depth := depth + 1;
      } else if ch == closeCh {
        depth := depth - 1;
        if depth == 0 {
          assert t[start..i + 1] == u[..i - start + 1];
          return t[start..i + 1];
        }
      }
      i := i + 1;
    }
    return t[start..];
  }

  /** Text without brackets is only stripped; otherwise the result is the
      cut of the stripped text from its first '{' or '['. */
  lemma ExtractJsonSpec(s: string)
    ensures var t := Trim(s);
      && ((forall j :: 0 <= j < |t| ==> !IsOpener(t[j])) ==> ExtractJson(s) == t)
      && ((exists j :: 0 <= j < |t| && IsOpener(t[j])) ==>
            var o := FindOpening(t);
            && o.OpeningAt? && IsOpener(t[o.start])
            && (forall j :: 0 <= j < o.start ==> !IsOpener(t[j]))
            && ExtractJson(s) == Cut(t[o.start..], o.openCh, o.closeCh))
  {
  }

  /** A string literal's contents: characters other than the quote and
      the backslash, and backslash escapes of any character. */
  predicate StringBody(b: string, q: char)
    decreases |b|
  {
    if b == [] then true
    else if b[0] == '\\' then |b| >= 2 && StringBody(b[2..], q)
    else b[0] != q && StringBody(b[1..], q)
  }

  /** Inside a string, reading a string body changes nothing. */
  lemma {:induction false} InsideString(st: ScanState, b: string, q: char, openCh: char, closeCh: char)
    requires st.inStr && !st.esc && st.quote == [q] && StringBody(b, q)
    ensures Run(st, b, openCh, closeCh) == st
    decreases |b|
  {
    if b != [] {
      if b[0] == '\\' {
        var st1 := Step(st, b[0], openCh, closeCh);
        assert Step(st1, b[1], openCh, closeCh) == st;
        assert b[1..][1..] == b[2..];
        InsideString(st, b[2..], q, openCh, closeCh);
      } else {
        InsideString(st, b[1..], q, openCh, closeCh);
      }
    }
  }

  /** Brackets inside a quoted string do not count: outside a string,
      reading a whole string literal leaves the depth as it was. */
  lemma QuotedStringNeutral(st: ScanState, q: char, b: string, openCh: char, closeCh: char)
    requires !st.inStr && !st.esc && IsQuote(q) && StringBody(b, q)
    ensures var after := Run(st, [q] + b + [q], openCh, closeCh);
      after.depth == st.depth && !after.inStr && !after.esc
  {
    var open := Step(st, q, openCh, closeCh);
    assert open == st.(inStr := true, quote := [q]);
    RunAppend(st, [q] + b, [q], openCh, closeCh);
    RunAppend(st, [q], b, openCh, closeCh);
    assert Run(st, [q], openCh, closeCh) == open;
    InsideString(open, b, q, openCh, closeCh);
    assert Run(open, [q], openCh, closeCh) == Step(open, q, openCh, closeCh);
  }

  /** Number of occurrences of `c` in `x`. */
  function Count(x: string, c: char): nat
    decreases |x|
  {
    if x == [] then 0 else (if x[0] == c then 1 else 0) + Count(x[1..], c)
  }

  /** Without quotes, the depth is the number of opening brackets minus
      the number of closing ones. */
  lemma {:induction false} DepthCountsBrackets(st: ScanState, x: string, openCh: char, closeCh: char)
    requires !st.inStr && openCh != closeCh
    requires forall j :: 0 <= j < |x| ==> !IsQuote(x[j])
    ensures Run(st, x, openCh, closeCh)
      == st.(depth := st.depth + Count(x, openCh) - Count(x, closeCh))
    decreases |x|
  {
    if x != [] {
      assert forall j :: 0 <= j < |x[1..]| ==> x[1..][j] == x[j + 1];
      DepthCountsBrackets(Step(st, x[0], openCh, closeCh), x[1..], openCh, closeCh);
    }
  }
}
