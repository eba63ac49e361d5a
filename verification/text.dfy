/** The slice of Python's `str` behaviour the browser relies on: whitespace
    splitting, splitting on a separator, joining, `replace`, `strip`,
    `lower`, `startswith`/`endswith`, substring search, `isdigit` and `int()`.
    Character classes are the ASCII ones. */
module Text {
  import opened Wrappers

  /** `str.isspace` on ASCII: space, tab, newline, vertical tab, form feed,
      carriage return and the four separators 0x1C-0x1F. */
  predicate IsSpace(c: char) {
    c == ' ' || (9 <= c as int <= 13) || (28 <= c as int <= 31)
  }

  predicate IsDigit(c: char) {
    '0' <= c <= '9'
  }

  /** The ASCII reading of the regular-expression class `\w`. */
  predicate IsWordChar(c: char) {
    IsDigit(c) || ('a' <= c <= 'z') || ('A' <= c <= 'Z') || c == '_'
  }

  function LowerChar(c: char): (r: char)
    ensures 'A' <= c <= 'Z' ==> 'a' <= r <= 'z'
    ensures !('A' <= c <= 'Z') ==> r == c
  {
    if 'A' <= c <= 'Z' then (c as int + 32) as char else c
  }

  /** `str.lower` on ASCII letters. */
  function Lower(s: string): (r: string)
    ensures |r| == |s|
    ensures forall i :: 0 <= i < |s| ==> r[i] == LowerChar(s[i])
  {
    seq(|s|, i requires 0 <= i < |s| => LowerChar(s[i]))
  }

  predicate StartsWith(s: string, prefix: string) {
    |prefix| <= |s| && s[..|prefix|] == prefix
  }

  predicate EndsWith(s: string, suffix: string) {
    |suffix| <= |s| && s[|s| - |suffix|..] == suffix
  }

  /** `p` occurs in `s` starting at position `j`. */
  predicate OccursAt(s: string, p: string, j: nat) {
    j + |p| <= |s| && s[j..j + |p|] == p
  }

  /** Index of the first occurrence of `p` in `s` (`str.find`), if any. */
  function FindSub(s: string, p: string): (r: Option<nat>)
    ensures r.Some? ==> OccursAt(s, p, r.value)
    ensures r.Some? ==> forall j: nat :: j < r.value ==> !OccursAt(s, p, j)
    ensures r.None? ==> forall j: nat :: !OccursAt(s, p, j)
    decreases |s|
  {
    if |s| < |p| then None
    else if s[..|p|] == p then Some(0)
    else
      assert forall j: nat | 1 <= j :: OccursAt(s, p, j) == OccursAt(s[1..], p, j - 1) by {
        forall j: nat | 1 <= j
          ensures OccursAt(s, p, j) == OccursAt(s[1..], p, j - 1)
        {
          if j + |p| <= |s| {
            var a, b := s[j..j + |p|], s[1..][j - 1..j - 1 + |p|];
            assert |a| == |b| && forall k :: 0 <= k < |a| ==> a[k] == b[k];
          }
        }
      }
      match FindSub(s[1..], p)
      case None => None
      case Some(k) => Some(k + 1)
  }

  /** The Python test `p in s` for strings. */
  predicate ContainsSub(s: string, p: string) {
    FindSub(s, p).Some?
  }

  /** The text before the first occurrence holds no occurrence. */
  lemma BeforeFirstOccurrence(s: string, p: string)
    requires |p| > 0 && FindSub(s, p).Some?
    ensures !ContainsSub(s[..FindSub(s, p).value], p)
  {
    var i := FindSub(s, p).value;
    if ContainsSub(s[..i], p) {
      var j := FindSub(s[..i], p).value;
      assert OccursAt(s[..i], p, j);
      assert j < i && s[j..j + |p|] == s[..i][j..j + |p|];
      assert OccursAt(s, p, j);
    }
  }

  /** `s.index(x)`: position of the first `x` in `s`. */
  function Position<T(==)>(s: seq<T>, x: T): (i: nat)
    requires x in s
    ensures i < |s| && s[i] == x && x !in s[..i]
    ensures forall k :: 0 <= k < i ==> s[k] != x
  {
    if s[0] == x then 0 else
      assert s[1..][..Position(s[1..], x)] == s[1..Position(s[1..], x) + 1];
      1 + Position(s[1..], x)
  }

  /** `sep.join(parts)`. */
  function Join(parts: seq<string>, sep: string): string
    decreases |parts|
  {
    if |parts| == 0 then ""
    else if |parts| == 1 then parts[0]
    else parts[0] + sep + Join(parts[1..], sep)
  }

  /** `s.split(c)` for a one-character separator: the pieces between the
      separators, so that joining them back with `c` gives `s`. */
  function SplitOn(s: string, c: char): (r: seq<string>)
    ensures |r| >= 1
    ensures forall i :: 0 <= i < |r| ==> c !in r[i]
    ensures Join(r, [c]) == s
    decreases |s|
  {
    if c !in s then [s]
    else
      var i := Position(s, c);
      var rest := SplitOn(s[i + 1..], c);
      var r := [s[..i]] + rest;
      assert r[1..] == rest;
      assert s == s[..i] + [c] + s[i + 1..];
      r
  }

  /** `s.replace(pat, rep)`: left to right, non-overlapping occurrences. */
  function Replace(s: string, pat: string, rep: string): string
    requires |pat| > 0
    decreases |s|
  {
    if |s| < |pat| then s
    else if s[..|pat|] == pat then rep + Replace(s[|pat|..], pat, rep)
    else [s[0]] + Replace(s[1..], pat, rep)
  }

  /** One step of `Replace` at the front of a non-empty string that does
      not start with the pattern. */
  lemma ReplaceStep(s: string, pat: string, rep: string)
    requires |pat| > 0 && |s| > 0
    requires !StartsWith(s, pat)
    ensures Replace(s, pat, rep) == [s[0]] + Replace(s[1..], pat, rep)
  {
    if |s| < |pat| {
      assert Replace(s[1..], pat, rep) == s[1..];
      assert s == [s[0]] + s[1..];
    }
  }

  /** `Replace` at a string that starts with the pattern. */
  lemma ReplaceAtMatch(x: string, pat: string, rep: string)
    requires |pat| > 0
    ensures Replace(pat + x, pat, rep) == rep + Replace(x, pat, rep)
  {
    assert (pat + x)[..|pat|] == pat;
    assert (pat + x)[|pat|..] == x;
  }

  /** A string without the pattern passes through `Replace` unchanged. */
  lemma {:induction false} ReplaceAbsent(s: string, pat: string, rep: string)
    requires |pat| > 0 && !ContainsSub(s, pat)
    ensures Replace(s, pat, rep) == s
    decreases |s|
  {
    if |s| >= |pat| {
      assert !OccursAt(s, pat, 0);
      assert FindSub(s[1..], pat).None?;
      ReplaceAbsent(s[1..], pat, rep);
      assert s == [s[0]] + s[1..];
    }
  }

  /** Replacing a character by a text without it leaves none of it. */
  lemma {:induction false} ReplaceRemovesChar(s: string, c: char, rep: string)
    requires c !in rep
    ensures c !in Replace(s, [c], rep)
    decreases |s|
  {
    if |s| > 0 {
      ReplaceRemovesChar(s[1..], c, rep);
    }
  }

  /** A string whose first character differs from the pattern's does not
      start with it. */
  lemma FirstCharMismatch(s: string, pat: string)
    requires |s| > 0 && |pat| > 0 && s[0] != pat[0]
    ensures !StartsWith(s, pat)
  {
    if |pat| <= |s| {
      assert s[..|pat|][0] != pat[0];
    }
  }

  /** Characters that cannot start the pattern pass through `Replace`. */
  lemma {:induction false} ReplaceSkipsPrefix(w: string, x: string, pat: string, rep: string)
    requires |pat| > 0
    requires forall i :: 0 <= i < |w| ==> w[i] != pat[0]
    ensures Replace(w + x, pat, rep) == w + Replace(x, pat, rep)
    decreases |w|
  {
    if |w| > 0 {
      var s := w + x;
      assert s[0] == w[0];
      FirstCharMismatch(s, pat);
      ReplaceStep(s, pat, rep);
      assert s[1..] == w[1..] + x;
      ReplaceSkipsPrefix(w[1..], x, pat, rep);
      assert w == [w[0]] + w[1..];
    } else {
      assert w + x == x;
    }
  }

  /** Number of leading characters of `s` that are not whitespace. */
  function WordLength(s: string): (n: nat)
    ensures n <= |s|
    ensures forall i :: 0 <= i < n ==> !IsSpace(s[i])
    ensures n < |s| ==> IsSpace(s[n])
  {
    if |s| == 0 || IsSpace(s[0]) then 0 else 1 + WordLength(s[1..])
  }

  function StripLeft(s: string): (r: string)
    ensures |r| <= |s| && r == s[|s| - |r|..]
    ensures |r| > 0 ==> !IsSpace(r[0])
    ensures forall i :: 0 <= i < |s| - |r| ==> IsSpace(s[i])
  {
    if |s| > 0 && IsSpace(s[0]) then StripLeft(s[1..]) else s
  }

  function StripRight(s: string): (r: string)
    ensures |r| <= |s| && r == s[..|r|]
    ensures |r| > 0 ==> !IsSpace(r[|r| - 1])
    ensures forall i :: |r| <= i < |s| ==> IsSpace(s[i])
  {
    if |s| > 0 && IsSpace(s[|s| - 1]) then StripRight(s[..|s| - 1]) else s
  }

  /** `str.strip()` with no argument. */
  function Strip(s: string): string {
    StripRight(StripLeft(s))
  }

  /** `Strip` again, peeling one whitespace character at a time from
      either end; cheaper to unfold than `Strip`, and equal to it. */
  function Trim(s: string): string
    decreases |s|
  {
    if |s| > 0 && IsSpace(s[0]) then Trim(s[1..])
    else if |s| > 0 && IsSpace(s[|s| - 1]) then Trim(s[..|s| - 1])
    else s
  }

  lemma {:induction false} TrimIsStrip(s: string)
    ensures Trim(s) == Strip(s)
    decreases |s|
  {
    if |s| > 0 && IsSpace(s[0]) {
      TrimIsStrip(s[1..]);
    } else if |s| > 0 && IsSpace(s[|s| - 1]) {
      var t := s[..|s| - 1];
      TrimIsStrip(t);
      assert StripLeft(s) == s;
      if |t| > 0 {
        assert t[0] == s[0];
      }
      assert StripLeft(t) == t;
      assert StripRight(s) == StripRight(t);
    }
  }

  /** A string that neither starts nor ends with whitespace is its own
      strip. */
  lemma StripUnchanged(s: string)
    requires |s| > 0 && !IsSpace(s[0]) && !IsSpace(s[|s| - 1])
    ensures Strip(s) == s
  {
    assert StripLeft(s) == s;
  }

  /** What `str.split()` can produce: a non-empty run of non-space characters. */
  predicate IsToken(w: string) {
    |w| > 0 && forall i :: 0 <= i < |w| ==> !IsSpace(w[i])
  }

  /** `str.split()` with no argument: the maximal runs of non-whitespace. */
  function SplitWhitespace(s: string): (r: seq<string>)
    ensures forall i :: 0 <= i < |r| ==> IsToken(r[i])
    decreases |s|
  {
    var t := StripLeft(s);
    if |t| == 0 then []
    else
      var n := WordLength(t);
      var rest := SplitWhitespace(t[n..]);
      FirstWordIsToken(t);
      ConsTokens(t[..n], rest);
      [t[..n]] + rest
  }

  /** The first word of a string that starts with a non-space is a token. */
  lemma FirstWordIsToken(t: string)
    requires |t| > 0 && !IsSpace(t[0])
    ensures IsToken(t[..WordLength(t)])
  {
    var w := t[..WordLength(t)];
    assert |w| > 0;
    assert forall i :: 0 <= i < |w| ==> w[i] == t[i];
  }

  lemma ConsTokens(w: string, rest: seq<string>)
    requires IsToken(w) && forall i :: 0 <= i < |rest| ==> IsToken(rest[i])
    ensures forall i :: 0 <= i < |[w] + rest| ==> IsToken(([w] + rest)[i])
  {
    forall i | 0 <= i < |[w] + rest|
      ensures IsToken(([w] + rest)[i])
    {
      if i > 0 {
        assert ([w] + rest)[i] == rest[i - 1];
      }
    }
  }

  /** Splitting a space-joined list of tokens gives the tokens back. */
  lemma {:induction false} SplitJoinRoundTrip(ws: seq<string>)
    requires forall i :: 0 <= i < |ws| ==> IsToken(ws[i])
    ensures SplitWhitespace(Join(ws, " ")) == ws
    decreases |ws|
  {
    if |ws| == 1 {
      SplitAfterToken(ws[0], "");
      assert ws[0] + "" == ws[0];
    } else if |ws| > 1 {
      var w, j := ws[0], Join(ws[1..], " ");
      calc {
        SplitWhitespace(Join(ws, " "));
      == { assert Join(ws, " ") == w + (" " + j); }
        SplitWhitespace(w + (" " + j));
      == { SplitAfterToken(w, " " + j); }
        [w] + SplitWhitespace(" " + j);
      == { JoinStartsWithToken(ws[1..]); SplitLeadingSpace(j); }
        [w] + SplitWhitespace(j);
      == { SplitJoinRoundTrip(ws[1..]); }
        [w] + ws[1..];
      ==
        ws;
      }
    }
  }

  lemma {:induction false} JoinStartsWithToken(ws: seq<string>)
    requires |ws| > 0 && IsToken(ws[0])
    ensures |Join(ws, " ")| > 0 && Join(ws, " ")[0] == ws[0][0]
  {
  }

  lemma SplitAfterToken(w: string, rest: string)
    requires IsToken(w)
    requires |rest| == 0 || rest[0] == ' '
    ensures SplitWhitespace(w + rest) == [w] + SplitWhitespace(rest)
  {
    var s := w + rest;
    assert StripLeft(s) == s;
    WordLengthOfToken(w, rest);
    assert s[|w|..] == rest;
  }

  lemma SplitLeadingSpace(j: string)
    requires |j| > 0 && !IsSpace(j[0])
    ensures SplitWhitespace(" " + j) == SplitWhitespace(j)
  {
    assert (" " + j)[1..] == j;
    assert StripLeft(" " + j) == StripLeft(j) == j;
  }

  lemma {:induction false} WordLengthOfToken(w: string, rest: string)
    requires IsToken(w)
    requires |rest| == 0 || rest[0] == ' '
    ensures WordLength(w + rest) == |w|
    ensures (w + rest)[..|w|] == w
    decreases |w|
  {
    if |w| > 1 {
      assert (w + rest)[1..] == w[1..] + rest;
      WordLengthOfToken(w[1..], rest);
    } else {
      assert (w + rest)[1..] == rest;
    }
  }

  function DigitValue(c: char): (d: nat)
    requires IsDigit(c)
    ensures d < 10
  {
    c as int - '0' as int
  }

  function DigitChar(d: nat): (c: char)
    requires d < 10
    ensures IsDigit(c) && DigitValue(c) == d
  {
    ('0' as int + d) as char
  }

  predicate AllDigits(s: string) {
    forall i :: 0 <= i < |s| ==> IsDigit(s[i])
  }

  /** `str.isdigit()` on ASCII: non-empty and made of decimal digits only. */
  predicate IsDecimal(s: string) {
    |s| > 0 && AllDigits(s)
  }

  function DigitsValue(s: string): nat
    requires AllDigits(s)
  {
    if |s| == 0 then 0 else DigitsValue(s[..|s| - 1]) * 10 + DigitValue(s[|s| - 1])
  }

  /** A literal Python's `int()` accepts: decimal digits, where a single
      underscore may stand between two digits (`1_000`). */
  predicate IsGrouped(s: string) {
    |s| > 0 && forall i :: 0 <= i < |s| ==> GroupedAt(s, i)
  }

  predicate GroupedAt(s: string, i: int)
    requires 0 <= i < |s|
  {
    IsDigit(s[i]) || (s[i] == '_' && 0 < i < |s| - 1 && IsDigit(s[i - 1]) && IsDigit(s[i + 1]))
  }

  predicate DigitOrMark(c: char) {
    IsDigit(c) || c == '_'
  }

  lemma GroupedMarks(s: string)
    requires IsGrouped(s)
    ensures forall i :: 0 <= i < |s| ==> DigitOrMark(s[i])
  {
    forall i | 0 <= i < |s|
      ensures DigitOrMark(s[i])
    {
      assert GroupedAt(s, i);
    }
  }

  lemma NotGrouped(s: string, i: int)
    requires 0 <= i < |s| && !GroupedAt(s, i)
    ensures !IsGrouped(s)
  {
  }

  /** The value of a digit string, reading past underscores. */
  function GroupedValue(s: string): nat
    requires forall i :: 0 <= i < |s| ==> DigitOrMark(s[i])
  {
    if |s| == 0 then 0
    else if s[|s| - 1] == '_' then GroupedValue(s[..|s| - 1])
    else
      assert DigitOrMark(s[|s| - 1]);
      GroupedValue(s[..|s| - 1]) * 10 + DigitValue(s[|s| - 1])
  }

  /** `int(s)` on a token: an optional sign followed by a grouped digit
      string; anything else is the ValueError case, None. */
  function ParseInt(s: string): Option<int> {
    if |s| > 0 && (s[0] == '+' || s[0] == '-') then
      if IsGrouped(s[1..]) then
        GroupedMarks(s[1..]);
        var v: int := GroupedValue(s[1..]);
        Some(if s[0] == '-' then -v else v)
      else None
    else if IsGrouped(s) then
      GroupedMarks(s);
      Some(GroupedValue(s))
    else None
  }

  /** Without underscores the two readings of a digit string agree. */
  lemma {:induction false} GroupedIsDigits(s: string)
    requires AllDigits(s)
    ensures GroupedValue(s) == DigitsValue(s)
  {
    if |s| > 0 {
      GroupedIsDigits(s[..|s| - 1]);
    }
  }

  /** Underscores between digits do not change the number: `int("1_000")`
      is `int("1000")`, and a doubled or trailing underscore is rejected. */
  lemma UnderscoreExamples()
    ensures ParseInt("1_000") == Some(1000)
    ensures ParseInt("1__0") == None
    ensures ParseInt("10_") == None
    ensures ParseInt("_10") == None
  {
    assert GroupedValue("1_000") == 1000 by {
      assert "1_000"[..4] == "1_00";
      assert "1_00"[..3] == "1_0";
      assert "1_0"[..2] == "1_";
      assert "1_"[..1] == "1";
      assert "1"[..0] == "";
    }
    NotGrouped("1__0", 1);
    NotGrouped("10_", 2);
    NotGrouped("_10", 0);
  }

  /** `str(n)` for a natural number. */
  function NatToString(n: nat): (s: string)
    ensures IsDecimal(s)
  {
    if n < 10 then [DigitChar(n)] else NatToString(n / 10) + [DigitChar(n % 10)]
  }

  /** `str(i)` for an integer. */
  function IntToString(i: int): string {
    if i < 0 then "-" + NatToString(-i) else NatToString(i)
  }

  lemma {:induction false} NatToStringValue(n: nat)
    ensures DigitsValue(NatToString(n)) == n
  {
    if n >= 10 {
      var s := NatToString(n);
      assert s[..|s| - 1] == NatToString(n / 10);
      NatToStringValue(n / 10);
    }
  }

  /** `int(str(i)) == i`. */
  lemma ParseIntRoundTrip(i: int)
    ensures ParseInt(IntToString(i)) == Some(i)
  {
    if i < 0 {
      var n := NatToString(-i);
      NatToStringValue(-i);
      GroupedIsDigits(n);
      assert IntToString(i) == "-" + n;
      assert ("-" + n)[1..] == n;
    } else {
      var n := NatToString(i);
      NatToStringValue(i);
      GroupedIsDigits(n);
      assert IntToString(i) == n;
      assert n[0] != '+' && n[0] != '-';
    }
  }

  /** Distinct numbers print differently. */
  lemma NatToStringInjective(m: nat, n: nat)
    requires m != n
    ensures NatToString(m) != NatToString(n)
  {
    NatToStringValue(m);
    NatToStringValue(n);
  }

  /** `re.sub(r'[^\w\s]', '', s)`: drops every character that is neither a
      word character nor whitespace, keeping the others in order. */
  function KeepWordAndSpace(s: string): (r: string)
    ensures |r| <= |s|
    ensures forall i :: 0 <= i < |r| ==> IsWordChar(r[i]) || IsSpace(r[i])
    ensures (forall i :: 0 <= i < |s| ==> IsWordChar(s[i]) || IsSpace(s[i])) ==> r == s
    ensures forall i :: 0 <= i < |r| ==> r[i] in s
  {
    if |s| == 0 then ""
    else
      var rest := KeepWordAndSpace(s[1..]);
      if IsWordChar(s[0]) || IsSpace(s[0]) then [s[0]] + rest else rest
  }
}
