/**
 * ASCII models of the Python string primitives the system relies on:
 * `str.isspace`, `str.isalnum`, `str.lower`, `str.strip`, `str.split`,
 * `str.join`, `in` (substring containment), `str.find`, `str.rfind`,
 * decimal formatting and parsing, and lexicographic comparison.
 *
 * Characters outside ASCII are treated as neither letters, digits nor
 * whitespace, and `Lower`/`Upper` leave them unchanged.
 */
module Text {
  import opened Wrappers

  // ---------------------------------------------------------------------
  // Character classes
  // ---------------------------------------------------------------------

  /** Python's `str.isspace` restricted to the ASCII range. */
  predicate IsSpace(c: char) {
    c == ' ' || c == '\t' || c == '\n' || c == '\U{0B}' || c == '\U{0C}' || c == '\r'
    || c == '\U{1C}' || c == '\U{1D}' || c == '\U{1E}' || c == '\U{1F}'
  }

  predicate IsDigit(c: char) { '0' <= c <= '9' }

  predicate IsUpperAscii(c: char) { 'A' <= c <= 'Z' }

  predicate IsLowerAscii(c: char) { 'a' <= c <= 'z' }

  predicate IsAlnum(c: char) { IsDigit(c) || IsUpperAscii(c) || IsLowerAscii(c) }

  function LowerChar(c: char): (r: char)
    ensures IsUpperAscii(c) ==> IsLowerAscii(r)
    ensures !IsUpperAscii(c) ==> r == c
    ensures IsSpace(r) <==> IsSpace(c)
    ensures IsAlnum(r) <==> IsAlnum(c)
  {
    if IsUpperAscii(c) then (c as int + 32) as char else c
  }

  function UpperChar(c: char): (r: char)
    ensures IsLowerAscii(c) ==> IsUpperAscii(r)
    ensures !IsLowerAscii(c) ==> r == c
  {
    if IsLowerAscii(c) then (c as int - 32) as char else c
  }

  /** `str.lower` on ASCII. */
  function Lower(s: string): (r: string)
    ensures |r| == |s|
    ensures forall i | 0 <= i < |s| :: r[i] == LowerChar(s[i])
  {
    seq(|s|, i requires 0 <= i < |s| => LowerChar(s[i]))
  }

  /** `s.lower() == t`, decided one character at a time; `LowerIsIff` ties it to `Lower`. */
  predicate LowerIs(s: string, t: string)
    decreases |s|
  {
    |s| == |t| && (s == [] || (LowerChar(s[0]) == t[0] && LowerIs(s[1..], t[1..])))
  }

  lemma {:induction false} LowerIsIff(s: string, t: string)
    ensures LowerIs(s, t) <==> Lower(s) == t
    decreases |s|
  {
    if s != [] && |s| == |t| {
      LowerIsIff(s[1..], t[1..]);
      assert Lower(s) == [LowerChar(s[0])] + Lower(s[1..]);
      assert t == [t[0]] + t[1..];
    }
  }

  /** `str.upper` on ASCII. */
  function Upper(s: string): (r: string)
    ensures |r| == |s|
    ensures forall i | 0 <= i < |s| :: r[i] == UpperChar(s[i])
  {
    seq(|s|, i requires 0 <= i < |s| => UpperChar(s[i]))
  }

  lemma LowerConcat(a: string, b: string)
    ensures Lower(a + b) == Lower(a) + Lower(b)
  {
  }

  /** A string is in lower case when lowering it changes nothing. */
  predicate IsLowered(s: string) {
    forall i | 0 <= i < |s| :: !IsUpperAscii(s[i])
  }

  lemma LowerIdempotent(s: string)
    ensures Lower(Lower(s)) == Lower(s)
    ensures IsLowered(Lower(s))
  {
  }

  lemma LoweredFixpoint(s: string)
    requires IsLowered(s)
    ensures Lower(s) == s
  {
  }

  // ---------------------------------------------------------------------
  // Stripping
  // ---------------------------------------------------------------------

  function LStrip(s: string): (r: string)
    ensures |r| <= |s| && r == s[|s| - |r|..]
    ensures r == [] || !IsSpace(r[0])
    ensures forall i | 0 <= i < |s| - |r| :: IsSpace(s[i])
    decreases |s|
  {
    if s != [] && IsSpace(s[0]) then LStrip(s[1..]) else s
  }

  function RStrip(s: string): (r: string)
    ensures |r| <= |s| && r == s[..|r|]
    ensures r == [] || !IsSpace(r[|r| - 1])
    ensures forall i | |r| <= i < |s| :: IsSpace(s[i])
    decreases |s|
  {
    if s != [] && IsSpace(s[|s| - 1]) then RStrip(s[..|s| - 1]) else s
  }

  /** `str.strip()` with no argument. */
  function Strip(s: string): (r: string)
    ensures r == [] || (!IsSpace(r[0]) && !IsSpace(r[|r| - 1]))
  {
    RStrip(LStrip(s))
  }

  predicate IsBlank(s: string) {
    forall i | 0 <= i < |s| :: IsSpace(s[i])
  }

  /** A text is its right-stripped part followed by blank space. */
  lemma RStripSplit(s: string)
    ensures s == RStrip(s) + s[|RStrip(s)|..]
    ensures IsBlank(s[|RStrip(s)|..])
  {
    var r := RStrip(s);
    assert forall i | 0 <= i < |s| - |r| :: s[|r|..][i] == s[|r| + i];
  }

  lemma {:induction false} LStripOfBlank(s: string)
    ensures IsBlank(s) <==> LStrip(s) == []
  {
    if s != [] && IsSpace(s[0]) {
      LStripOfBlank(s[1..]);
      assert IsBlank(s) <==> IsBlank(s[1..]);
    }
  }

  lemma StripEmptyIffBlank(s: string)
    ensures Strip(s) == [] <==> IsBlank(s)
  {
    LStripOfBlank(s);
    var l := LStrip(s);
    if l != [] {
      assert RStrip(l) != [] by { assert !IsSpace(l[0]); }
    }
  }

  lemma StripNoEdgeSpace(s: string)
    requires s == [] || (!IsSpace(s[0]) && !IsSpace(s[|s| - 1]))
    ensures Strip(s) == s
  {
  }

  /** Stripping keeps only characters of the input. */
  lemma StripChars(s: string)
    ensures forall x | x in Strip(s) :: x in s
  {
    var l := LStrip(s);
    assert forall x | x in l :: x in s;
    assert forall x | x in RStrip(l) :: x in l;
  }

  lemma StripIdempotent(s: string)
    ensures Strip(Strip(s)) == Strip(s)
  {
    StripNoEdgeSpace(Strip(s));
  }

  lemma {:induction false} LStripConcat(s: string, t: string)
    ensures LStrip(s + t) == if LStrip(s) == [] then LStrip(t) else LStrip(s) + t
    decreases |s|
  {
    if s == [] {
      assert s + t == t;
    } else if IsSpace(s[0]) {
      assert (s + t)[1..] == s[1..] + t;
      LStripConcat(s[1..], t);
    }
  }

  /** Stripping a string that starts and ends with non-space characters only strips its front. */
  lemma StripNonSpaceEdges(s: string, t: string)
    requires t != [] && !IsSpace(t[0]) && !IsSpace(t[|t| - 1])
    ensures Strip(s + t) == LStrip(s) + t
  {
    LStripConcat(s, t);
    assert LStrip(t) == t;
    var x := LStrip(s) + t;
    assert LStrip(s + t) == x;
    assert x[|x| - 1] == t[|t| - 1];
    assert RStrip(x) == x;
  }

  // ---------------------------------------------------------------------
  // Whitespace splitting and joining (`str.split()` and `sep.join`)
  // ---------------------------------------------------------------------

  /** The longest prefix of `s` that holds no whitespace. */
  function TakeWord(s: string): (w: string)
    ensures w <= s
    ensures forall i | 0 <= i < |w| :: !IsSpace(w[i])
    ensures |w| == |s| || IsSpace(s[|w|])
    ensures w == [] <==> (s == [] || IsSpace(s[0]))
    decreases |s|
  {
    if s == [] || IsSpace(s[0]) then [] else [s[0]] + TakeWord(s[1..])
  }

  predicate IsWord(w: string) {
    w != [] && forall i | 0 <= i < |w| :: !IsSpace(w[i])
  }

  /** `str.split()`: the maximal runs of non-whitespace characters, in order. */
  function Words(s: string): (ws: seq<string>)
    ensures forall k | 0 <= k < |ws| :: IsWord(ws[k])
    decreases |s|
  {
    if s == [] then []
    else if IsSpace(s[0]) then Words(s[1..])
    else
      var w := TakeWord(s);
      [w] + Words(s[|w|..])
  }

  /** `sep.join(parts)`. */
  function Join(parts: seq<string>, sep: string): (r: string)
    decreases |parts|
  {
    if parts == [] then []
    else if |parts| == 1 then parts[0]
    else parts[0] + sep + Join(parts[1..], sep)
  }

  lemma JoinAppend(parts: seq<string>, x: string, sep: string)
    ensures Join(parts + [x], sep) == if parts == [] then x else Join(parts, sep) + sep + x
    decreases |parts|
  {
    if |parts| > 1 {
      assert (parts + [x])[1..] == parts[1..] + [x];
      JoinAppend(parts[1..], x, sep);
    } else if |parts| == 1 {
      assert (parts + [x])[1..] == [x];
    }
  }

  /** A string produced by collapsing whitespace: its only whitespace is single interior spaces. */
  predicate Collapsed(s: string) {
    forall i | 0 <= i < |s| :: IsSpace(s[i]) ==> s[i] == ' ' && 0 < i < |s| - 1 && !IsSpace(s[i + 1])
  }

  /** `" ".join(s.split())`. */
  function Collapse(s: string): string {
    Join(Words(s), " ")
  }

  lemma {:induction false} JoinWordsCollapsed(ws: seq<string>)
    requires forall k | 0 <= k < |ws| :: IsWord(ws[k])
    ensures Collapsed(Join(ws, " "))
    ensures Join(ws, " ") == [] <==> ws == []
    decreases |ws|
  {
    if |ws| > 1 {
      JoinWordsCollapsed(ws[1..]);
      var rest := Join(ws[1..], " ");
      var r := ws[0] + " " + rest;
      assert r == Join(ws, " ");
      assert forall j | 0 <= j < |ws[0]| :: r[j] == ws[0][j];
      forall i | 0 <= i < |r| && IsSpace(r[i])
        ensures r[i] == ' ' && 0 < i < |r| - 1 && !IsSpace(r[i + 1])
      {
        if i == |ws[0]| {
          assert rest != [] && rest[0] == r[i + 1];
          assert Collapsed(rest);
          assert !IsSpace(rest[0]);
        } else {
          assert r[i] == rest[i - |ws[0]| - 1];
          assert r[i + 1] == rest[i - |ws[0]|];
        }
      }
    }
  }

  /** Every character of a collapsed result comes from the input, or is a space. */
  lemma {:induction false} WordsChars(s: string)
    ensures forall k, i | 0 <= k < |Words(s)| && 0 <= i < |Words(s)[k]| :: Words(s)[k][i] in s
    decreases |s|
  {
    if s == [] {
    } else if IsSpace(s[0]) {
      WordsChars(s[1..]);
      assert forall c | c in s[1..] :: c in s;
    } else {
      var w := TakeWord(s);
      var rest := s[|w|..];
      WordsChars(rest);
      assert forall c | c in rest :: c in s;
      assert forall c | c in w :: c in s;
      var ws := Words(s);
      assert ws == [w] + Words(rest);
      forall k, i | 0 <= k < |ws| && 0 <= i < |ws[k]| ensures ws[k][i] in s {
        if k == 0 {
          assert ws[k][i] in w;
        } else {
          assert ws[k] == Words(rest)[k - 1];
        }
      }
    }
  }

  lemma {:induction false} JoinChars(ws: seq<string>, sep: string, j: nat)
    requires j < |Join(ws, sep)|
    ensures Join(ws, sep)[j] in sep || exists k, i | 0 <= k < |ws| && 0 <= i < |ws[k]| :: ws[k][i] == Join(ws, sep)[j]
    decreases |ws|
  {
    if |ws| == 1 {
      assert ws[0][j] == Join(ws, sep)[j];
    } else if |ws| > 1 {
      var r := Join(ws, sep);
      if j < |ws[0]| {
        assert ws[0][j] == r[j];
      } else if j < |ws[0]| + |sep| {
        assert r[j] == sep[j - |ws[0]|];
      } else {
        var j' := j - |ws[0]| - |sep|;
        JoinChars(ws[1..], sep, j');
        assert r[j] == Join(ws[1..], sep)[j'];
        if !(r[j] in sep) {
          var k, i :| 0 <= k < |ws[1..]| && 0 <= i < |ws[1..][k]| && ws[1..][k][i] == r[j];
          assert ws[k + 1][i] == r[j];
        }
      }
    }
  }

  /** `Collapse` yields single interior spaces and adds no character other than a space. */
  lemma CollapseShape(s: string)
    ensures Collapsed(Collapse(s))
    ensures forall j | 0 <= j < |Collapse(s)| :: Collapse(s)[j] == ' ' || Collapse(s)[j] in s
  {
    JoinWordsCollapsed(Words(s));
    WordsChars(s);
    forall j | 0 <= j < |Collapse(s)| ensures Collapse(s)[j] == ' ' || Collapse(s)[j] in s {
      JoinChars(Words(s), " ", j);
    }
  }

  /** A suffix of a collapsed string that starts at a non-space character is collapsed. */
  lemma CollapsedSuffix(s: string, k: nat)
    requires Collapsed(s) && k < |s| && !IsSpace(s[k])
    ensures Collapsed(s[k..])
  {
    var tail := s[k..];
    forall i | 0 <= i < |tail| && IsSpace(tail[i])
      ensures tail[i] == ' ' && 0 < i < |tail| - 1 && !IsSpace(tail[i + 1])
    {
      assert tail[i] == s[k + i];
      assert tail[i + 1] == s[k + i + 1];
    }
  }

  lemma {:induction false} CollapseFixpoint(s: string)
    requires Collapsed(s)
    ensures Collapse(s) == s
    decreases |s|
  {
    if s != [] {
      var w := TakeWord(s);
      var rest := s[|w|..];
      assert Words(s) == [w] + Words(rest);
      if rest == [] {
        assert s == w;
        assert Words(rest) == [];
      } else {
        var n := |w|;
        assert IsSpace(s[n]);
        assert s[n] == ' ' && n + 1 < |s| && !IsSpace(s[n + 1]);
        var tail := s[n + 1..];
        assert rest == [' '] + tail;
        assert Words(rest) == Words(tail);
        CollapsedSuffix(s, n + 1);
        CollapseFixpoint(tail);
        assert tail[0] == s[n + 1];
        assert Words(tail) != [];
        assert Join([w] + Words(tail), " ") == w + " " + Join(Words(tail), " ");
        assert s == w + " " + tail;
      }
    }
  }

  /** Collapsing whitespace twice is collapsing it once. */
  lemma CollapseIdempotent(s: string)
    ensures Collapse(Collapse(s)) == Collapse(s)
  {
    CollapseShape(s);
    CollapseFixpoint(Collapse(s));
  }

  lemma CollapsedStrip(s: string)
    requires Collapsed(s)
    ensures Strip(s) == s
  {
    if s != [] {
      assert !IsSpace(s[0]);
      assert !IsSpace(s[|s| - 1]);
      StripNoEdgeSpace(s);
    }
  }

  lemma CollapsedLower(s: string)
    requires Collapsed(s)
    ensures Collapsed(Lower(s))
  {
  }

  /** Trailing whitespace adds no word. */
  lemma {:induction false} WordsBlankSuffix(s: string, t: string)
    requires IsBlank(t)
    ensures Words(s + t) == Words(s)
    decreases |s| + |t|
  {
    if s == [] {
      assert s + t == t;
      WordsOfBlank(t);
    } else if IsSpace(s[0]) {
      assert (s + t)[1..] == s[1..] + t;
      WordsBlankSuffix(s[1..], t);
    } else {
      TakeWordBlankSuffix(s, t);
      var w := TakeWord(s);
      assert (s + t)[|w|..] == s[|w|..] + t;
      WordsBlankSuffix(s[|w|..], t);
    }
  }

  lemma {:induction false} WordsOfBlank(t: string)
    requires IsBlank(t)
    ensures Words(t) == []
    decreases |t|
  {
    if t != [] {
      WordsOfBlank(t[1..]);
    }
  }

  lemma {:induction false} TakeWordBlankSuffix(s: string, t: string)
    requires IsBlank(t)
    ensures TakeWord(s + t) == TakeWord(s)
    decreases |s|
  {
    if s == [] {
      assert s + t == t;
    } else if !IsSpace(s[0]) {
      assert (s + t)[1..] == s[1..] + t;
      TakeWordBlankSuffix(s[1..], t);
    }
  }

  /** Collapsing ignores trailing whitespace. */
  lemma CollapseBlankSuffix(s: string, t: string)
    requires IsBlank(t)
    ensures Collapse(s + t) == Collapse(s)
  {
    WordsBlankSuffix(s, t);
  }

  lemma {:induction false} LowerLStrip(s: string)
    ensures Lower(LStrip(s)) == LStrip(Lower(s))
    decreases |s|
  {
    var l := Lower(s);
    if s != [] {
      assert l[0] == LowerChar(s[0]);
      if IsSpace(s[0]) {
        assert l[1..] == Lower(s[1..]);
        LowerLStrip(s[1..]);
        assert LStrip(l) == LStrip(l[1..]);
      } else {
        assert LStrip(l) == l;
      }
    }
  }

  lemma {:induction false} LowerRStrip(s: string)
    ensures Lower(RStrip(s)) == RStrip(Lower(s))
    decreases |s|
  {
    var l := Lower(s);
    if s != [] {
      assert l[|s| - 1] == LowerChar(s[|s| - 1]);
      if IsSpace(s[|s| - 1]) {
        assert l[..|s| - 1] == Lower(s[..|s| - 1]);
        LowerRStrip(s[..|s| - 1]);
        assert RStrip(l) == RStrip(l[..|s| - 1]);
      } else {
        assert RStrip(l) == l;
      }
    }
  }

  /** Lowering and stripping commute, since lowering keeps whitespace. */
  lemma LowerStrip(s: string)
    ensures Lower(Strip(s)) == Strip(Lower(s))
  {
    LowerLStrip(s);
    LowerRStrip(LStrip(s));
  }

  lemma LowerUpper(s: string)
    ensures Lower(Upper(s)) == Lower(s)
  {
  }

  // ---------------------------------------------------------------------
  // Splitting on a separator (`str.split(sep)`)
  // ---------------------------------------------------------------------

  /** `s.split(sep)` for a one-character separator: keeps empty fields. */
  function SplitOn(s: string, sep: char): (parts: seq<string>)
    ensures |parts| >= 1
    decreases |s|
  {
    if s == [] then [""]
    else
      var tail := SplitOn(s[1..], sep);
      if s[0] == sep then [""] + tail else [[s[0]] + tail[0]] + tail[1..]
  }

  predicate FreeOf(s: string, c: char) {
    forall i | 0 <= i < |s| :: s[i] != c
  }

  lemma {:induction false} SplitOnFree(a: string, sep: char)
    requires FreeOf(a, sep)
    ensures SplitOn(a, sep) == [a]
    decreases |a|
  {
    if a != [] {
      SplitOnFree(a[1..], sep);
      assert a == [a[0]] + a[1..];
    }
  }

  lemma {:induction false} SplitOnField(a: string, sep: char, rest: string)
    requires FreeOf(a, sep)
    ensures SplitOn(a + [sep] + rest, sep) == [a] + SplitOn(rest, sep)
    decreases |a|
  {
    var s := a + [sep] + rest;
    if a == [] {
      assert s[1..] == rest;
    } else {
      assert s[1..] == a[1..] + [sep] + rest;
      SplitOnField(a[1..], sep, rest);
      assert a == [a[0]] + a[1..];
    }
  }

  /** Joining the fields of a split gives the text back, and no field holds the separator. */
  lemma {:induction false} SplitOnInverse(s: string, sep: char)
    ensures forall k | 0 <= k < |SplitOn(s, sep)| :: FreeOf(SplitOn(s, sep)[k], sep)
    ensures Join(SplitOn(s, sep), [sep]) == s
    decreases |s|
  {
    if s != [] {
      var tail := SplitOn(s[1..], sep);
      SplitOnInverse(s[1..], sep);
      if s[0] != sep {
        var parts := SplitOn(s, sep);
        assert parts[0] == [s[0]] + tail[0];
        assert parts[1..] == tail[1..];
        if |tail| > 1 {
          assert tail == [tail[0]] + tail[1..];
        }
      } else {
        assert SplitOn(s, sep)[1..] == tail;
      }
      assert s == [s[0]] + s[1..];
    }
  }

  /** Splitting undoes joining when no field holds the separator. */
  lemma {:induction false} SplitOnJoin(parts: seq<string>, sep: char)
    requires parts != []
    requires forall k | 0 <= k < |parts| :: FreeOf(parts[k], sep)
    ensures SplitOn(Join(parts, [sep]), sep) == parts
    decreases |parts|
  {
    if |parts| == 1 {
      SplitOnFree(parts[0], sep);
    } else {
      SplitOnJoin(parts[1..], sep);
      SplitOnField(parts[0], sep, Join(parts[1..], [sep]));
      assert parts == [parts[0]] + parts[1..];
    }
  }

  lemma JoinFour(a: string, b: string, c: string, d: string, sep: string)
    ensures Join([a, b, c, d], sep) == a + sep + b + sep + c + sep + d
  {
    assert [a, b, c, d][1..] == [b, c, d];
    assert [b, c, d][1..] == [c, d];
    assert [c, d][1..] == [d];
    assert Join([d], sep) == d;
    assert Join([c, d], sep) == c + sep + d;
    assert Join([b, c, d], sep) == b + sep + (c + sep + d);
    assert a + sep + (b + sep + (c + sep + d)) == a + sep + b + sep + c + sep + d;
  }

  /** Four separator-free fields joined by the separator split back into those fields. */
  lemma SplitFour(a: string, b: string, c: string, d: string, sep: char)
    requires FreeOf(a, sep) && FreeOf(b, sep) && FreeOf(c, sep) && FreeOf(d, sep)
    ensures SplitOn(a + [sep] + b + [sep] + c + [sep] + d, sep) == [a, b, c, d]
  {
    var parts := [a, b, c, d];
    JoinFour(a, b, c, d, [sep]);
    assert forall k | 0 <= k < |parts| :: FreeOf(parts[k], sep);
    SplitOnJoin(parts, sep);
  }

  // ---------------------------------------------------------------------
  // Prefixes, suffixes and substring search
  // ---------------------------------------------------------------------

  predicate StartsWith(s: string, p: string) { p <= s }

  predicate EndsWith(s: string, suffix: string) {
    |suffix| <= |s| && s[|s| - |suffix|..] == suffix
  }

  /** Whether `needle` occurs in `hay` starting at position `i`. */
  predicate OccursAt(hay: string, needle: string, i: int) {
    0 <= i && i + |needle| <= |hay| && hay[i..i + |needle|] == needle
  }

  /** The first position at or after `i` at which `needle` occurs, or -1. */
  function FindFrom(hay: string, needle: string, i: nat): (r: int)
    ensures r == -1 || (i <= r && r + |needle| <= |hay|)
    ensures r >= 0 ==> OccursAt(hay, needle, r)
    ensures forall j | i <= j && (r < 0 || j < r) :: !OccursAt(hay, needle, j)
    decreases |hay| - i
  {
    if i + |needle| > |hay| then -1
    else if OccursAt(hay, needle, i) then i
    else FindFrom(hay, needle, i + 1)
  }

  /** `hay.find(needle)`: the first position at which `needle` occurs, or -1. */
  function Find(hay: string, needle: string): (r: int)
    ensures -1 <= r <= |hay|
    ensures r >= 0 ==> OccursAt(hay, needle, r)
    ensures forall j | 0 <= j && (r < 0 || j < r) :: !OccursAt(hay, needle, j)
  {
    FindFrom(hay, needle, 0)
  }

  /** Python's `needle in hay`. */
  predicate Contains(hay: string, needle: string) {
    Find(hay, needle) >= 0
  }

  lemma ContainsIff(hay: string, needle: string)
    ensures Contains(hay, needle) <==> exists i :: OccursAt(hay, needle, i)
  {
  }

  lemma ContainsAt(hay: string, needle: string, i: int)
    requires OccursAt(hay, needle, i)
    ensures Contains(hay, needle)
  {
  }

  /** The empty string is contained in every string. */
  lemma ContainsEmpty(hay: string)
    ensures Contains(hay, "")
  {
    assert OccursAt(hay, "", 0);
  }

  /** `hay.rfind(needle)`: the last position at which `needle` occurs, or -1. */
  function RFind(hay: string, needle: string): (r: int)
    ensures -1 <= r <= |hay|
    ensures r >= 0 ==> OccursAt(hay, needle, r)
    ensures forall j | r < j :: !OccursAt(hay, needle, j)
    decreases |hay|
  {
    if |hay| < |needle| then -1
    else if hay[|hay| - |needle|..] == needle then |hay| - |needle|
    else
      var k := RFind(hay[..|hay| - 1], needle);
      assert forall j | 0 <= j && j + |needle| <= |hay| - 1 :: OccursAt(hay, needle, j) == OccursAt(hay[..|hay| - 1], needle, j);
      k
  }

  /** `s.replace(c, "")` for one character. */
  function RemoveChar(s: string, c: char): (r: string)
    ensures c !in r
    ensures forall x | x in r :: x in s
    decreases |s|
  {
    if s == [] then []
    else if s[0] == c then RemoveChar(s[1..], c)
    else [s[0]] + RemoveChar(s[1..], c)
  }

  lemma {:induction false} RemoveCharAbsent(s: string, c: char)
    requires c !in s
    ensures RemoveChar(s, c) == s
    decreases |s|
  {
    if s != [] {
      RemoveCharAbsent(s[1..], c);
      assert s == [s[0]] + s[1..];
    }
  }

  /** Keeps the characters of `s` that satisfy `IsDigit`, in order. */
  function DigitsOf(s: string): (r: string)
    ensures forall i | 0 <= i < |r| :: IsDigit(r[i])
    ensures |r| <= |s|
    decreases |s|
  {
    if s == [] then []
    else if IsDigit(s[0]) then [s[0]] + DigitsOf(s[1..])
    else DigitsOf(s[1..])
  }

  lemma {:induction false} DigitsOfAllDigits(s: string)
    requires forall i | 0 <= i < |s| :: IsDigit(s[i])
    ensures DigitsOf(s) == s
    decreases |s|
  {
    if s != [] { DigitsOfAllDigits(s[1..]); }
  }

  function Repeat(c: char, n: nat): (r: string)
    ensures |r| == n && forall i | 0 <= i < n :: r[i] == c
  {
    seq(n, _ => c)
  }

  /** `s.zfill(width)` for a string without sign. */
  function ZFill(s: string, width: int): (r: string)
    ensures |r| == if width > |s| then width else |s|
    ensures EndsWith(r, s)
    ensures forall i | 0 <= i < |r| - |s| :: r[i] == '0'
  {
    if width > |s| then Repeat('0', width - |s|) + s else s
  }

  // ---------------------------------------------------------------------
  // Decimal numerals (`str(int)` and `int(str)`)
  // ---------------------------------------------------------------------

  predicate AllDigits(s: string) {
    forall i | 0 <= i < |s| :: IsDigit(s[i])
  }

  function DigitChar(d: nat): (c: char)
    requires d < 10
    ensures IsDigit(c)
  {
    ('0' as int + d) as char
  }

  function DigitValue(c: char): (d: nat)
    requires IsDigit(c)
    ensures d < 10 && DigitChar(d) == c
  {
    c as int - '0' as int
  }

  /** `str(n)` for a natural number: no leading zero except for "0". */
  function NatToString(n: nat): (r: string)
    ensures r != [] && AllDigits(r)
    ensures |r| > 1 ==> r[0] != '0'
    decreases n
  {
    if n < 10 then [DigitChar(n)] else NatToString(n / 10) + [DigitChar(n % 10)]
  }

  /** The value of a string of decimal digits; the empty string is 0. */
  function ParseDigits(s: string): (n: nat)
    requires AllDigits(s)
    decreases |s|
  {
    if s == [] then 0 else ParseDigits(s[..|s| - 1]) * 10 + DigitValue(s[|s| - 1])
  }

  function Pow10(k: nat): (r: nat)
    ensures r >= 1
  {
    if k == 0 then 1 else 10 * Pow10(k - 1)
  }

  lemma ParseDigitsSnoc(s: string, c: char)
    requires AllDigits(s) && IsDigit(c)
    ensures AllDigits(s + [c])
    ensures ParseDigits(s + [c]) == ParseDigits(s) * 10 + DigitValue(c)
  {
    assert (s + [c])[..|s|] == s;
  }

  /** A numeral of `k` digits is below `10^k`. */
  lemma {:induction false} ParseDigitsBound(s: string)
    requires AllDigits(s)
    ensures ParseDigits(s) < Pow10(|s|)
    decreases |s|
  {
    if s != [] {
      ParseDigitsBound(s[..|s| - 1]);
    }
  }

  lemma {:induction false} ParseNatToString(n: nat)
    ensures ParseDigits(NatToString(n)) == n
    decreases n
  {
    if n >= 10 {
      var s := NatToString(n);
      assert s[..|s| - 1] == NatToString(n / 10);
      ParseNatToString(n / 10);
    }
  }

  /** Decimal formatting is injective, since parsing undoes it. */
  lemma NatToStringInjective(a: nat, b: nat)
    requires NatToString(a) == NatToString(b)
    ensures a == b
  {
    ParseNatToString(a);
    ParseNatToString(b);
  }

  /** `str(i)` for any integer. */
  function IntToString(i: int): (r: string)
    ensures r != []
  {
    if i < 0 then "-" + NatToString(-i) else NatToString(i)
  }

  // ---------------------------------------------------------------------
  // Lexicographic order (Python's `<` on `str`, by code point)
  // ---------------------------------------------------------------------

  predicate LexLe(a: string, b: string)
    decreases |a|
  {
    a == [] || (b != [] && (a[0] < b[0] || (a[0] == b[0] && LexLe(a[1..], b[1..]))))
  }

  /** A shared prefix does not change the order. */
  lemma {:induction false} LexLeCommonPrefix(p: string, x: string, y: string)
    requires LexLe(x, y)
    ensures LexLe(p + x, p + y)
    decreases |p|
  {
    if p != [] {
      LexLeCommonPrefix(p[1..], x, y);
      assert (p + x)[0] == (p + y)[0] == p[0];
      assert (p + x)[1..] == p[1..] + x;
      assert (p + y)[1..] == p[1..] + y;
    } else {
      assert p + x == x && p + y == y;
    }
  }

  lemma {:induction false} LexLeTotal(a: string, b: string)
    ensures LexLe(a, b) || LexLe(b, a)
    decreases |a|
  {
    if a != [] && b != [] && a[0] == b[0] {
      LexLeTotal(a[1..], b[1..]);
    }
  }

  lemma {:induction false} LexLeTransitive(a: string, b: string, c: string)
    requires LexLe(a, b) && LexLe(b, c)
    ensures LexLe(a, c)
    decreases |a|
  {
    if a != [] && b != [] && c != [] && a[0] == b[0] && b[0] == c[0] {
      LexLeTransitive(a[1..], b[1..], c[1..]);
    }
  }

  lemma {:induction false} LexLeAntisymmetric(a: string, b: string)
    requires LexLe(a, b) && LexLe(b, a)
    ensures a == b
    decreases |a|
  {
    if a != [] {
      LexLeAntisymmetric(a[1..], b[1..]);
      assert a == [a[0]] + a[1..];
      assert b == [b[0]] + b[1..];
    }
  }

  // ---------------------------------------------------------------------
  // Integer parsing (`int(s)` on a stripped text)
  // ---------------------------------------------------------------------

  /**
   * `int(s)` for a text without surrounding whitespace: an optional sign
   * followed by at least one ASCII digit. Digit-group underscores are not
   * accepted here.
   */
  function ParseInt(s: string): (r: Option<int>)
    ensures r.Some? ==> s != [] && !IsSpace(s[0]) && !IsSpace(s[|s| - 1])
  {
    if s == [] then None
    else if s[0] == '+' || s[0] == '-' then
      if |s| > 1 && AllDigits(s[1..]) then
        Some(if s[0] == '-' then -(ParseDigits(s[1..]) as int) else ParseDigits(s[1..]))
      else None
    else if AllDigits(s) then Some(ParseDigits(s))
    else None
  }

  /** Parsing undoes `str(i)`. */
  lemma ParseIntToString(i: int)
    ensures ParseInt(IntToString(i)) == Some(i)
  {
    if i < 0 {
      ParseNegative(-i);
    } else {
      ParseNonNegative(i);
    }
  }

  lemma ParseNonNegative(n: nat)
    ensures ParseInt(NatToString(n)) == Some(n)
  {
    var s := NatToString(n);
    assert IsDigit(s[0]);
    ParseNatToString(n);
  }

  lemma ParseNegative(n: nat)
    requires n > 0
    ensures ParseInt("-" + NatToString(n)) == Some(-(n as int))
  {
    var s := "-" + NatToString(n);
    assert s[1..] == NatToString(n);
    ParseNatToString(n);
  }
}
