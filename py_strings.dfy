/** The handful of Python `str` operations the backend relies on, stated as
    Dafny functions over `string` (= seq<char>): strip, lower, startswith,
    substring search, split, splitlines and partition. */
module PyStrings {

  /** The characters Python's `str.isspace()` accepts, which `str.strip()`
      removes from both ends when called without an argument. */
  predicate IsSpace(c: char) {
    || c == ' '
    || ('\t' <= c <= '\r')
    || ('\U{1C}' <= c <= '\U{1F}')
    || c == '\U{85}' || c == '\U{A0}' || c == '\U{1680}'
    || ('\U{2000}' <= c <= '\U{200A}')
    || c == '\U{2028}' || c == '\U{2029}' || c == '\U{202F}' || c == '\U{205F}' || c == '\U{3000}'
  }

  /** The two character sets the backend strips: `strip()` and `strip("`")`. */
  datatype StripSet = Whitespace | Backticks

  predicate Strippable(c: char, cs: StripSet) {
    match cs
    case Whitespace => IsSpace(c)
    case Backticks => c == '`'
  }

  /** Python `s.strip(chars)`: drop characters in `cs` from the front, then
      from the back, until both ends hold a character outside `cs`. */
  function StripWhere(s: string, cs: StripSet): (r: string)
    ensures |r| <= |s|
    decreases |s|
  {
    if s != [] && Strippable(s[0], cs) then StripWhere(s[1..], cs)
    else if s != [] && Strippable(s[|s| - 1], cs) then StripWhere(s[..|s| - 1], cs)
    else s
  }

  /** How many leading characters `StripWhere` drops. */
  function StripStart(s: string, cs: StripSet): (a: nat)
    decreases |s|
  {
    if s != [] && Strippable(s[0], cs) then 1 + StripStart(s[1..], cs)
    else if s != [] && Strippable(s[|s| - 1], cs) then StripStart(s[..|s| - 1], cs)
    else 0
  }

  /** `r` is the slice of `s` starting at `a`, and every character of `s`
      before it and after it is in `cs`. */
  predicate Stripped(s: string, cs: StripSet, a: int, r: string) {
    && 0 <= a && a + |r| <= |s|
    && r == s[a..a + |r|]
    && (forall i :: 0 <= i < a ==> Strippable(s[i], cs))
    && (forall i :: a + |r| <= i < |s| ==> Strippable(s[i], cs))
  }

  lemma StrippedFront(s: string, cs: StripSet, a: int, r: string)
    requires s != [] && Strippable(s[0], cs) && Stripped(s[1..], cs, a, r)
    ensures Stripped(s, cs, a + 1, r)
  {
    var t := s[1..];
    assert t[a..a + |r|] == s[a + 1..a + 1 + |r|];
    forall i | 0 < i < a + 1 ensures Strippable(s[i], cs) {
      assert s[i] == t[i - 1];
    }
    forall i | a + 1 + |r| <= i < |s| ensures Strippable(s[i], cs) {
      assert s[i] == t[i - 1];
    }
  }

  lemma StrippedBack(s: string, cs: StripSet, a: int, r: string)
    requires s != [] && Strippable(s[|s| - 1], cs) && Stripped(s[..|s| - 1], cs, a, r)
    ensures Stripped(s, cs, a, r)
  {
    var t := s[..|s| - 1];
    assert t[a..a + |r|] == s[a..a + |r|];
    forall i | 0 <= i < a ensures Strippable(s[i], cs) {
      assert s[i] == t[i];
    }
    forall i | a + |r| <= i < |s| - 1 ensures Strippable(s[i], cs) {
      assert s[i] == t[i];
    }
  }

  /** What `strip` keeps is a contiguous slice of `s`; every character
      before it and after it is in `cs`. */
  lemma {:induction false} StripWhereSpec(s: string, cs: StripSet)
    ensures Stripped(s, cs, StripStart(s, cs), StripWhere(s, cs))
    decreases |s|
  {
    if s != [] && Strippable(s[0], cs) {
      StripWhereSpec(s[1..], cs);
      StrippedFront(s, cs, StripStart(s[1..], cs), StripWhere(s[1..], cs));
    } else if s != [] && Strippable(s[|s| - 1], cs) {
      StripWhereSpec(s[..|s| - 1], cs);
      StrippedBack(s, cs, StripStart(s[..|s| - 1], cs), StripWhere(s[..|s| - 1], cs));
    } else {
      assert s[0..|s|] == s;
    }
  }

  /** What `strip` keeps begins and ends with characters not in `cs`. */
  lemma {:induction false} StripWhereEnds(s: string, cs: StripSet)
    ensures var r := StripWhere(s, cs);
      r == [] || (!Strippable(r[0], cs) && !Strippable(r[|r| - 1], cs))
    decreases |s|
  {
    if s != [] && Strippable(s[0], cs) {
      StripWhereEnds(s[1..], cs);
    } else if s != [] && Strippable(s[|s| - 1], cs) {
      StripWhereEnds(s[..|s| - 1], cs);
    }
  }

  /** Stripping a middle part whose ends are outside `cs`, framed by
      characters all in `cs`, gives back the middle part. */
  lemma StripWhereFrame(p: string, m: string, q: string, cs: StripSet)
    requires forall i :: 0 <= i < |p| ==> Strippable(p[i], cs)
    requires forall i :: 0 <= i < |q| ==> Strippable(q[i], cs)
    requires m != [] && !Strippable(m[0], cs) && !Strippable(m[|m| - 1], cs)
    ensures StripWhere(p + m + q, cs) == m
  {
    var s := p + m + q;
    StripWhereSpec(s, cs);
    StripWhereEnds(s, cs);
    var a, r := StripStart(s, cs), StripWhere(s, cs);
    assert s[|p|] == m[0];
    assert s[|p| + |m| - 1] == m[|m| - 1];
    assert s[|p|..|p| + |m|] == m;
  }

  /** Python `s.strip()`. */
  function Trim(s: string): string {
    StripWhere(s, Whitespace)
  }

  /** Python `s.strip("`")`. */
  function StripBackticks(s: string): string {
    StripWhere(s, Backticks)
  }

  predicate IsTrimmed(s: string) {
    s == [] || (!IsSpace(s[0]) && !IsSpace(s[|s| - 1]))
  }

  lemma TrimIsTrimmed(s: string)
    ensures IsTrimmed(Trim(s))
  {
    StripWhereEnds(s, Whitespace);
  }

  /** A string without surrounding whitespace is its own `strip()`. */
  lemma TrimOfTrimmed(s: string)
    requires IsTrimmed(s)
    ensures Trim(s) == s
  {
  }

  lemma TrimIdempotent(s: string)
    ensures Trim(Trim(s)) == Trim(s)
  {
    TrimIsTrimmed(s);
    TrimOfTrimmed(Trim(s));
  }

  /** `strip()` yields "" exactly when every character is whitespace. */
  lemma TrimEmptyIff(s: string)
    ensures Trim(s) == [] <==> forall i :: 0 <= i < |s| ==> IsSpace(s[i])
  {
    StripWhereSpec(s, Whitespace);
    StripWhereEnds(s, Whitespace);
    var a := StripStart(s, Whitespace);
    if Trim(s) == [] {
      forall i | 0 <= i < |s| ensures IsSpace(s[i]) {
        assert Strippable(s[i], Whitespace);
      }
    } else {
      assert !IsSpace(s[a]);
    }
  }

  /** Python `c.lower()` restricted to ASCII letters. */
  function LowerChar(c: char): char {
    if 'A' <= c <= 'Z' then (c as int + 32) as char else c
  }

  /** Python `s.lower()` (ASCII letters only). */
  function Lower(s: string): (r: string)
    ensures |r| == |s|
  {
    if s == [] then [] else Lower(s[..|s| - 1]) + [LowerChar(s[|s| - 1])]
  }

  /** Lowering works character by character. */
  lemma {:induction false} LowerSpec(s: string)
    ensures forall i :: 0 <= i < |s| ==> Lower(s)[i] == LowerChar(s[i])
    decreases |s|
  {
    if s != [] {
      var s0 := s[..|s| - 1];
      LowerSpec(s0);
      assert forall i :: 0 <= i < |s0| ==> s0[i] == s[i];
    }
  }

  lemma LowerIdempotent(s: string)
    ensures Lower(Lower(s)) == Lower(s)
  {
    LowerSpec(s);
    LowerSpec(Lower(s));
  }

  /** Lowering keeps a string free of surrounding whitespace, because it
      maps whitespace to whitespace and nothing else to whitespace. */
  lemma LowerKeepsTrimmed(s: string)
    requires IsTrimmed(s)
    ensures IsTrimmed(Lower(s))
  {
    LowerSpec(s);
  }

  lemma LowerEmptyIff(s: string)
    ensures Lower(s) == [] <==> s == []
  {
  }

  /** Lowering commutes with taking a prefix. */
  lemma LowerPrefix(s: string, prefix: string)
    requires StartsWith(s, prefix)
    ensures StartsWith(Lower(s), Lower(prefix))
  {
    LowerSpec(s);
    LowerSpec(prefix);
  }

  predicate StartsWith(s: string, prefix: string) {
    |prefix| <= |s| && s[..|prefix|] == prefix
  }

  predicate OccursAt(s: string, p: string, i: int) {
    0 <= i && i + |p| <= |s| && s[i..i + |p|] == p
  }

  /** Python `s.find(p, from)`: the first index at or after `from` where
      `p` occurs, or -1. */
  function IndexOfFrom(s: string, p: string, from: nat): (r: int)
    ensures r == -1 || (from <= r && OccursAt(s, p, r))
    ensures r == -1 ==> forall j :: from <= j ==> !OccursAt(s, p, j)
    ensures r != -1 ==> forall j :: from <= j < r ==> !OccursAt(s, p, j)
    decreases |s| - from
  {
    if from + |p| > |s| then -1
    else if s[from..from + |p|] == p then from
    else IndexOfFrom(s, p, from + 1)
  }

  /** Python `s.find(p)`. */
  function IndexOf(s: string, p: string): (r: int)
    ensures r == -1 || OccursAt(s, p, r)
    ensures r == -1 ==> forall j :: !OccursAt(s, p, j)
    ensures r != -1 ==> forall j :: 0 <= j < r ==> !OccursAt(s, p, j)
  {
    var r := IndexOfFrom(s, p, 0);
    assert forall j :: OccursAt(s, p, j) ==> 0 <= j;
    r
  }

  /** Python `p in s` for strings. */
  predicate Contains(s: string, p: string) {
    IndexOf(s, p) != -1
  }

  lemma ContainsIff(s: string, p: string)
    ensures Contains(s, p) <==> exists j :: OccursAt(s, p, j)
  {
  }

  lemma {:induction false} ContainsPrefixOf(s: string, t: string, p: string)
    requires Contains(s, p)
    ensures Contains(s + t, p)
  {
    var j := IndexOf(s, p);
    assert (s + t)[j..j + |p|] == s[j..j + |p|];
    assert OccursAt(s + t, p, j);
  }

  lemma {:induction false} ContainsSuffixOf(t: string, s: string, p: string)
    requires Contains(s, p)
    ensures Contains(t + s, p)
  {
    var j := IndexOf(s, p);
    assert (t + s)[|t| + j..|t| + j + |p|] == s[j..j + |p|];
    assert OccursAt(t + s, p, |t| + j);
  }

  /** Python `s.split(sep)` for a one-character separator. */
  function SplitOn(s: string, sep: char): (parts: seq<string>)
    ensures |parts| >= 1
    ensures forall k, j :: 0 <= k < |parts| && 0 <= j < |parts[k]| ==> parts[k][j] != sep
    decreases |s|
  {
    var i := IndexOf(s, [sep]);
    if i == -1 then
      assert forall j :: 0 <= j < |s| ==> s[j] != sep by {
        forall j | 0 <= j < |s| ensures s[j] != sep {
          assert !OccursAt(s, [sep], j);
        }
      }
      [s]
    else
      assert forall j :: 0 <= j < i ==> s[j] != sep by {
        forall j | 0 <= j < i ensures s[j] != sep {
          assert !OccursAt(s, [sep], j);
        }
      }
      [s[..i]] + SplitOn(s[i + 1..], sep)
  }

  /** The characters at which Python's `str.splitlines()` breaks a line. */
  predicate IsLineBoundary(c: char) {
    || ('\n' <= c <= '\r')
    || ('\U{1C}' <= c <= '\U{1E}')
    || c == '\U{85}' || c == '\U{2028}' || c == '\U{2029}'
  }

  /** Index of the first line boundary at or after `from`, or |s|. */
  function LineEnd(s: string, from: nat): (r: nat)
    requires from <= |s|
    ensures from <= r <= |s|
    ensures r < |s| ==> IsLineBoundary(s[r])
    ensures forall j :: from <= j < r ==> !IsLineBoundary(s[j])
    decreases |s| - from
  {
    if from == |s| || IsLineBoundary(s[from]) then from else LineEnd(s, from + 1)
  }

  /** Python `s.splitlines()`: lines without their terminators; "\r\n" ends
      one line; a final terminator does not start an empty line. */
  function SplitLines(s: string): (lines: seq<string>)
    decreases |s|
  {
    if s == [] then []
    else
      var e := LineEnd(s, 0);
      if e == |s| then [s]
      else
        var width := if s[e] == '\r' && e + 1 < |s| && s[e + 1] == '\n' then 2 else 1;
        [s[..e]] + SplitLines(s[e + width..])
  }

  predicate NoLineBreak(s: string) {
    forall j :: 0 <= j < |s| ==> !IsLineBoundary(s[j])
  }

  /** A non-empty text without line boundaries is one line. */
  lemma SplitLinesSingle(a: string)
    requires a != [] && NoLineBreak(a)
    ensures SplitLines(a) == [a]
  {
    assert LineEnd(a, 0) == |a|;
  }

  /** A "\n" after a line without boundaries ends exactly that line. */
  lemma {:induction false} SplitLinesCons(a: string, rest: string)
    requires NoLineBreak(a)
    ensures SplitLines(a + "\n" + rest) == [a] + SplitLines(rest)
  {
    var s := a + "\n" + rest;
    var e := LineEnd(s, 0);
    assert s[|a|] == '\n';
    assert e == |a|;
    assert s[..e] == a;
    assert s[e + 1..] == rest;
  }

  /** Lines without boundaries, the last one non-empty, joined by "\n"
      split back into those lines. */
  lemma {:induction false} SplitLinesJoin(lines: seq<string>)
    requires lines != [] && lines[|lines| - 1] != []
    requires forall k :: 0 <= k < |lines| ==> NoLineBreak(lines[k])
    ensures SplitLines(Join("\n", lines)) == lines
    decreases |lines|
  {
    var p := lines[0];
    if |lines| == 1 {
      SplitLinesSingle(p);
    } else {
      var rest := lines[1..];
      assert lines == [p] + rest;
      assert rest[|rest| - 1] == lines[|lines| - 1];
      assert forall k :: 0 <= k < |rest| ==> rest[k] == lines[k + 1];
      JoinCons("\n", p, rest);
      SplitLinesCons(p, Join("\n", rest));
      SplitLinesJoin(rest);
    }
  }

  /** Python `s.partition("::")`: the text before the first separator and
      the text after it; (s, "") when the separator does not occur. */
  function Partition(s: string, sep: string): (parts: (string, string))
    requires |sep| > 0
    ensures var i := IndexOf(s, sep);
      if i == -1 then parts == (s, "") else s == parts.0 + sep + parts.1 && |parts.0| == i
  {
    var i := IndexOf(s, sep);
    if i == -1 then (s, "") else
      assert s == s[..i] + sep + s[i + |sep|..];
      (s[..i], s[i + |sep|..])
  }

  /** Python `s.split(":", 1)[1]`, for a string that contains ':'. */
  function AfterFirstColon(s: string): (r: string)
    requires Contains(s, ":")
    ensures |r| < |s| && r == s[|s| - |r|..]
    ensures ':' !in s[..|s| - |r| - 1] && s[|s| - |r| - 1] == ':'
  {
    var i := IndexOf(s, ":");
    assert forall j :: 0 <= j < i ==> s[j] != ':' by {
      forall j | 0 <= j < i ensures s[j] != ':' { assert !OccursAt(s, ":", j); }
    }
    s[i + 1..]
  }

  /** Joining peels off the first part as well as the last. */
  lemma {:induction false} JoinCons(sep: string, p: string, rest: seq<string>)
    requires rest != []
    ensures Join(sep, [p] + rest) == p + sep + Join(sep, rest)
    decreases |rest|
  {
    var parts := [p] + rest;
    if |rest| == 1 {
      assert parts[..1] == [p];
    } else {
      var r0 := rest[..|rest| - 1];
      assert parts[..|parts| - 1] == [p] + r0;
      JoinCons(sep, p, r0);
    }
  }

  lemma SplitOnWithoutSep(p: string, c: char)
    requires forall j :: 0 <= j < |p| ==> p[j] != c
    ensures SplitOn(p, c) == [p]
  {
    forall j ensures !OccursAt(p, [c], j) {
      if 0 <= j && j + 1 <= |p| {
        assert p[j..j + 1] == [p[j]];
      }
    }
  }

  /** The first separator after a part without one ends that part. */
  lemma {:induction false} SplitOnCons(p: string, c: char, t: string)
    requires forall j :: 0 <= j < |p| ==> p[j] != c
    ensures SplitOn(p + [c] + t, c) == [p] + SplitOn(t, c)
  {
    var s := p + [c] + t;
    assert OccursAt(s, [c], |p|) by {
      assert s[|p|..|p| + 1] == [c];
    }
    forall j | 0 <= j < |p| ensures !OccursAt(s, [c], j) {
      assert s[j] == p[j];
    }
    assert IndexOf(s, [c]) == |p|;
    assert s[..|p|] == p;
    assert s[|p| + 1..] == t;
  }

  /** A join begins where its first part begins and ends where its last
      part ends. */
  lemma JoinEnds(sep: string, parts: seq<string>)
    requires parts != [] && parts[0] != [] && parts[|parts| - 1] != []
    ensures var j := Join(sep, parts);
      j != [] && j[0] == parts[0][0] && j[|j| - 1] == parts[|parts| - 1][|parts[|parts| - 1]| - 1]
  {
    if |parts| > 1 {
      assert parts == [parts[0]] + parts[1..];
      JoinCons(sep, parts[0], parts[1..]);
    }
  }

  /** A character found neither in the separator nor in any part is not
      in the join. */
  lemma {:induction false} JoinAvoids(sep: string, parts: seq<string>, c: char)
    requires forall j :: 0 <= j < |sep| ==> sep[j] != c
    requires forall k, j :: 0 <= k < |parts| && 0 <= j < |parts[k]| ==> parts[k][j] != c
    ensures forall j :: 0 <= j < |Join(sep, parts)| ==> Join(sep, parts)[j] != c
  {
    if |parts| > 1 {
      var p0 := parts[..|parts| - 1];
      assert forall k :: 0 <= k < |p0| ==> p0[k] == parts[k];
      JoinAvoids(sep, p0, c);
      var last := parts[|parts| - 1];
      assert forall j :: 0 <= j < |last| ==> last[j] != c;
    }
  }

  /** `sep.join(parts).split(sep)` gives the parts back when none of them
      holds the separator. */
  lemma {:induction false} SplitOnJoin(parts: seq<string>, c: char)
    requires parts != []
    requires forall k, j :: 0 <= k < |parts| && 0 <= j < |parts[k]| ==> parts[k][j] != c
    ensures SplitOn(Join([c], parts), c) == parts
    decreases |parts|
  {
    var p := parts[0];
    if |parts| == 1 {
      SplitOnWithoutSep(p, c);
    } else {
      var rest := parts[1..];
      assert parts == [p] + rest;
      JoinCons([c], p, rest);
      SplitOnCons(p, c, Join([c], rest));
      SplitOnJoin(rest, c);
    }
  }

  /** Python `s.encode("ascii")` succeeds. */
  predicate IsAscii(s: string) {
    forall i :: 0 <= i < |s| ==> s[i] as int < 128
  }

  predicate IsAsciiDigit(c: char) { '0' <= c <= '9' }

  /** Python `s.isdigit()` restricted to ASCII digits. */
  predicate IsDigits(s: string) {
    |s| > 0 && forall i :: 0 <= i < |s| ==> IsAsciiDigit(s[i])
  }

  /** Python `int(s)` for a string of ASCII digits. */
  function DecimalValue(s: string): (n: nat)
    requires forall i :: 0 <= i < |s| ==> IsAsciiDigit(s[i])
  {
    if s == [] then 0
    else
      assert IsAsciiDigit(s[|s| - 1]);
      10 * DecimalValue(s[..|s| - 1]) + (s[|s| - 1] as int - '0' as int)
  }

  /** Python `str(n)` for a natural number. */
  function DecimalString(n: nat): string
    decreases n
  {
    var d := ('0' as int + n % 10) as char;
    if n < 10 then [d] else DecimalString(n / 10) + [d]
  }

  /** `int(str(n)) == n`, and `str(n).isdigit()`. */
  lemma {:induction false} DecimalRoundTrip(n: nat)
    ensures IsDigits(DecimalString(n)) && DecimalValue(DecimalString(n)) == n
    decreases n
  {
    var s := DecimalString(n);
    if n >= 10 {
      DecimalRoundTrip(n / 10);
      assert s[..|s| - 1] == DecimalString(n / 10);
    }
  }

  /** Python `", ".join(parts)`-style joining. */
  function Join(sep: string, parts: seq<string>): string {
    if parts == [] then ""
    else if |parts| == 1 then parts[0]
    else Join(sep, parts[..|parts| - 1]) + sep + parts[|parts| - 1]
  }
}
