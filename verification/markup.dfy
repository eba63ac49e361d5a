/** The tag-line parameter extractor of the markup interpreter: one
    whitespace-split markup line `<tag> content ... ; params ... :` is cut
    into its content (rebuilt into a string, `<nl>` meaning a line break),
    its parameter map (a fixed base schema plus a tag's extra keys, each with
    a default that a missing or malformed value leaves in place) and the
    offset just past the parameter terminator. */
module Markup {
  import opened Wrappers
  import opened Text

  const NewlineMarker := "<nl>"
  const ContentEnd := ";"
  const ParamsEnd := ":"
  const DefaultSize := 10

  /** The keys every tag understands. */
  const BaseKeys: set<string> := {"size", "bold", "italic", "fg", "bg", "id"}

  /** The scanning loops of the extractor: the first position at or after
      `from` holding `marker`; when there is none the scan stops at the end
      of the tokens, or stays at `from` if that is already past the end. */
  function ScanTo(tokens: seq<string>, from: nat, marker: string): (k: nat)
    ensures from <= k
    ensures k < |tokens| ==> tokens[k] == marker
    ensures k >= |tokens| ==> k == from || k == |tokens|
    decreases |tokens| - from
  {
    if from >= |tokens| then from
    else if tokens[from] == marker then from
    else ScanTo(tokens, from + 1, marker)
  }

  /** No marker lies between the start of a scan and where it stops. */
  lemma {:induction false} ScanToSkips(tokens: seq<string>, from: nat, marker: string)
    ensures forall j :: from <= j < ScanTo(tokens, from, marker) && j < |tokens| ==> tokens[j] != marker
    decreases |tokens| - from
  {
    if from < |tokens| && tokens[from] != marker {
      ScanToSkips(tokens, from + 1, marker);
    }
  }

  /** The tokens after the tag name. */
  function After(tokens: seq<string>, idx: nat): seq<string> {
    if idx + 1 <= |tokens| then tokens[idx + 1..] else []
  }

  /** A tag line cut into its content tokens, its parameter tokens and the
      offset where scanning resumes. */
  datatype Sections = Sections(content: seq<string>, params: seq<string>, next: nat)

  /** Content tokens run up to the first `;`, parameter tokens from there to
      the next `:`; the resume offset is one past that `:` (or where it would
      be). */
  function Cut(tokens: seq<string>, idx: nat): (s: Sections)
    ensures ContentEnd !in s.content && ParamsEnd !in s.params
    ensures s.next == idx + |s.content| + |s.params| + 3
  {
    var c := ScanTo(tokens, idx + 1, ContentEnd);
    ScanToSkips(tokens, idx + 1, ContentEnd);
    var content := if c <= |tokens| then tokens[idx + 1..c] else [];
    var p := ScanTo(tokens, c + 1, ParamsEnd);
    ScanToSkips(tokens, c + 1, ParamsEnd);
    var params := if c + 1 <= |tokens| then tokens[c + 1..p] else [];
    Sections(content, params, p + 1)
  }

  /** The cut is exactly at the first `;` after the tag and the first `:`
      after that; with no `;` the whole rest of the line is content and the
      offset is two past the end, with no `:` it is one past the end. */
  lemma CutCharacterized(tokens: seq<string>, idx: nat)
    ensures var s := Cut(tokens, idx);
      ContentEnd !in After(tokens, idx) ==> s.content == After(tokens, idx) && s.params == []
    ensures var s := Cut(tokens, idx);
      ContentEnd in After(tokens, idx) ==>
      var tail := After(tokens, idx);
      var rest := tail[|s.content| + 1..];
      && |s.content| < |tail| && tail[..|s.content|] == s.content && tail[|s.content|] == ContentEnd
      && (s.params == rest || (|s.params| < |rest| && rest[..|s.params|] == s.params && rest[|s.params|] == ParamsEnd))
    ensures var s := Cut(tokens, idx);
      idx < |tokens| && ContentEnd !in After(tokens, idx) ==> s.next == |tokens| + 2
    ensures var s := Cut(tokens, idx);
      ContentEnd in After(tokens, idx) && ParamsEnd !in After(tokens, idx)[|s.content| + 1..] ==>
      s.next == |tokens| + 1
  {
    if ScanTo(tokens, idx + 1, ContentEnd) < |tokens| {
      CutAtSemicolon(tokens, idx);
    } else {
      CutWithoutSemicolon(tokens, idx);
    }
  }

  /** The shape of a cut at a `;`: the content is the tail up to that `;`,
      and the parameters are the rest, or the rest up to a `:`. */
  predicate CutAtSemicolonShape(s: Sections, tail: seq<string>, n: nat) {
    && ContentEnd in tail
    && |s.content| < |tail| && tail[..|s.content|] == s.content && tail[|s.content|] == ContentEnd
    && var rest := tail[|s.content| + 1..];
    && (s.params == rest || (|s.params| < |rest| && rest[..|s.params|] == s.params && rest[|s.params|] == ParamsEnd))
    && (ParamsEnd !in rest ==> s.next == n + 1)
  }

  /** The cut when a `;` follows the tag. */
  lemma CutAtSemicolon(tokens: seq<string>, idx: nat)
    requires ScanTo(tokens, idx + 1, ContentEnd) < |tokens|
    ensures CutAtSemicolonShape(Cut(tokens, idx), After(tokens, idx), |tokens|)
  {
    var c := ScanTo(tokens, idx + 1, ContentEnd);
    var p := ScanTo(tokens, c + 1, ParamsEnd);
    assert idx + 1 <= c < p <= |tokens|;
    assert Cut(tokens, idx) == Sections(tokens[idx + 1..c], tokens[c + 1..p], p + 1);
    assert After(tokens, idx) == tokens[idx + 1..];
    SemicolonSlices(tokens, idx + 1, c, p, Cut(tokens, idx), After(tokens, idx));
  }

  /** The content and parameter slices around a `;` at `c` and a `:` (or
      the end) at `p`, seen from the tail starting at `a`. */
  lemma SemicolonSlices(tokens: seq<string>, a: nat, c: nat, p: nat, s: Sections, tail: seq<string>)
    requires a <= c < p <= |tokens| && tokens[c] == ContentEnd
    requires p < |tokens| ==> tokens[p] == ParamsEnd
    requires s == Sections(tokens[a..c], tokens[c + 1..p], p + 1) && tail == tokens[a..]
    ensures CutAtSemicolonShape(s, tail, |tokens|)
  {
    DropSplit(tokens, a, c);
    DropSplit(tokens, c + 1, p);
    assert tail[c - a] == ContentEnd;
    if p < |tokens| {
      assert tokens[c + 1..][p - c - 1] == ParamsEnd;
    }
  }

  /** Slicing after a drop is slicing the original. */
  lemma DropSplit(xs: seq<string>, a: nat, b: nat)
    requires a <= b <= |xs|
    ensures |xs[a..b]| == b - a
    ensures xs[a..][..b - a] == xs[a..b]
    ensures xs[a..][b - a..] == xs[b..]
    ensures b < |xs| ==> xs[a..][b - a] == xs[b] && xs[a..][b - a + 1..] == xs[b + 1..]
    ensures b == |xs| ==> xs[a..b] == xs[a..]
  {
  }

  /** The cut when no `;` follows the tag. */
  lemma CutWithoutSemicolon(tokens: seq<string>, idx: nat)
    requires ScanTo(tokens, idx + 1, ContentEnd) >= |tokens|
    ensures var s := Cut(tokens, idx);
      && ContentEnd !in After(tokens, idx)
      && s.content == After(tokens, idx) && s.params == []
      && (idx < |tokens| ==> s.next == |tokens| + 2)
  {
    var c := ScanTo(tokens, idx + 1, ContentEnd);
    ScanToSkips(tokens, idx + 1, ContentEnd);
    var tail := After(tokens, idx);
    assert ContentEnd !in tail by {
      forall j | 0 <= j < |tail|
        ensures tail[j] != ContentEnd
      {
        assert tail[j] == tokens[idx + 1 + j];
      }
    }
    if idx + 1 <= |tokens| {
      assert c == |tokens|;
      assert tokens[idx + 1..c] == tail;
    }
  }

  /** The content tokens with the newline marker turned into a newline. */
  function MarkNewlines(parts: seq<string>): seq<string> {
    seq(|parts|, i requires 0 <= i < |parts| => if parts[i] == NewlineMarker then "\n" else parts[i])
  }

  /** The content string as the extractor builds it: the marked tokens joined
      with single spaces, then the spaces around each newline replaced away in
      three passes. */
  function BuildContent(parts: seq<string>): string {
    var joined := Join(MarkNewlines(parts), " ");
    Replace(Replace(Replace(joined, " \n ", "\n"), " \n", "\n"), "\n ", "\n")
  }

  /** The intended reading of content: consecutive pieces separated by one
      space, except that nothing separates a piece from a neighbouring line
      break. */
  function GlueJoin(t: seq<string>): string
    decreases |t|
  {
    if |t| == 0 then ""
    else if |t| == 1 then t[0]
    else t[0] + (if t[0] == "\n" || t[1] == "\n" then "" else " ") + GlueJoin(t[1..])
  }

  /** A content piece after marking: a line break, or a word with neither
      spaces nor line breaks in it. */
  predicate IsPiece(t: string) {
    t == "\n" || (|t| > 0 && ' ' !in t && '\n' !in t)
  }

  /** Pieces joined by a single space, or by nothing where `glue` says so. */
  function Interleave(t: seq<string>, glue: seq<bool>): string
    requires |t| >= 1 && |glue| == |t| - 1
    decreases |t|
  {
    if |t| == 1 then t[0]
    else t[0] + (if glue[0] then "" else " ") + Interleave(t[1..], glue[1..])
  }

  function NoGlue(n: nat): (g: seq<bool>)
    ensures |g| == n
  {
    seq(n, _ => false)
  }

  /** Where the first pass (`" \n "` to `"\n"`) leaves no space: on both sides
      of a line break that has a piece on each side, unless the space before
      it was already taken by the previous match. */
  function Stage1Glue(t: seq<string>): (g: seq<bool>)
    requires |t| >= 1
    ensures |g| == |t| - 1
    decreases |t|
  {
    if |t| == 1 then []
    else if t[1] == "\n" && |t| >= 3 then [true, true] + Stage1Glue(t[2..])
    else [false] + Stage1Glue(t[1..])
  }

  /** After the second pass (`" \n"` to `"\n"`): no space before a line break. */
  function Stage2Glue(t: seq<string>, g: seq<bool>): (r: seq<bool>)
    requires |t| >= 1 && |g| == |t| - 1
    ensures |r| == |g|
  {
    seq(|g|, i requires 0 <= i < |g| => g[i] || t[i + 1] == "\n")
  }

  /** After the third pass (`"\n "` to `"\n"`): no space after a line break. */
  function Stage3Glue(t: seq<string>, g: seq<bool>): (r: seq<bool>)
    requires |t| >= 1 && |g| == |t| - 1
    ensures |r| == |g|
  {
    seq(|g|, i requires 0 <= i < |g| => g[i] || t[i] == "\n")
  }

  /** No space next to any line break. */
  function NewlineGlue(t: seq<string>): (g: seq<bool>)
    requires |t| >= 1
    ensures |g| == |t| - 1
  {
    seq(|t| - 1, i requires 0 <= i < |t| - 1 => t[i] == "\n" || t[i + 1] == "\n")
  }

  lemma {:induction false} InterleaveHead(t: seq<string>, glue: seq<bool>)
    requires |t| >= 1 && |glue| == |t| - 1 && IsPiece(t[0])
    ensures |Interleave(t, glue)| > 0 && Interleave(t, glue)[0] == t[0][0]
  {
  }

  lemma {:induction false} JoinIsInterleave(t: seq<string>)
    requires |t| >= 1
    ensures Join(t, " ") == Interleave(t, NoGlue(|t| - 1))
    decreases |t|
  {
    if |t| > 1 {
      JoinIsInterleave(t[1..]);
      assert NoGlue(|t| - 1)[1..] == NoGlue(|t| - 2);
    }
  }

  lemma {:induction false} GlueJoinIsInterleave(t: seq<string>)
    requires |t| >= 1
    ensures GlueJoin(t) == Interleave(t, NewlineGlue(t))
    decreases |t|
  {
    if |t| > 1 {
      GlueJoinIsInterleave(t[1..]);
      assert NewlineGlue(t)[1..] == NewlineGlue(t[1..]);
    }
  }

  lemma {:induction false} Stage1GlueNearNewline(t: seq<string>)
    requires |t| >= 1
    ensures forall i :: 0 <= i < |t| - 1 && Stage1Glue(t)[i] ==> t[i] == "\n" || t[i + 1] == "\n"
    decreases |t|
  {
    if |t| > 1 {
      if t[1] == "\n" && |t| >= 3 {
        Stage1GlueNearNewline(t[2..]);
        var g := Stage1Glue(t);
        assert forall i :: 2 <= i < |t| - 1 ==> g[i] == Stage1Glue(t[2..])[i - 2];
      } else {
        Stage1GlueNearNewline(t[1..]);
        var g := Stage1Glue(t);
        assert forall i :: 1 <= i < |t| - 1 ==> g[i] == Stage1Glue(t[1..])[i - 1];
      }
    }
  }

  /** The first pass at a space that is not followed by a line break and
      another space. */
  lemma Stage1GapNoMatch(rest: string)
    requires |rest| > 0
    requires !(|rest| >= 2 && rest[0] == '\n' && rest[1] == ' ')
    ensures Replace(" " + rest, " \n ", "\n") == " " + Replace(rest, " \n ", "\n")
  {
    var pat, rep := " \n ", "\n";
    var s := " " + rest;
    assert !StartsWith(s, pat) by {
      if |pat| <= |s| {
        assert s[..|pat|][1] != pat[1] || s[..|pat|][2] != pat[2];
      }
    }
    ReplaceStep(s, pat, rep);
    assert s[1..] == rest;
  }

  /** The first replacement pass, on the space-joined pieces. */
  lemma {:induction false} Stage1(t: seq<string>)
    requires |t| >= 1 && forall i :: 0 <= i < |t| ==> IsPiece(t[i])
    ensures Replace(Interleave(t, NoGlue(|t| - 1)), " \n ", "\n") == Interleave(t, Stage1Glue(t))
    decreases |t|
  {
    var pat, rep := " \n ", "\n";
    assert forall i :: 0 <= i < |t[0]| ==> t[0][i] != pat[0];
    if |t| == 1 {
      ReplaceSkipsPrefix(t[0], "", pat, rep);
      assert t[0] + "" == t[0];
    } else {
      var g := Stage1Glue(t);
      var rest := Interleave(t[1..], NoGlue(|t| - 2));
      InterleaveUnfold(t, NoGlue(|t| - 1));
      assert NoGlue(|t| - 1)[1..] == NoGlue(|t| - 2);
      ReplaceSkipsPrefix(t[0], " " + rest, pat, rep);
      if t[1] == "\n" && |t| >= 3 {
        Stage1AtNewline(t);
        Stage1GlueAtNewline(t);
      } else {
        Stage1AtGap(t);
      }
    }
  }

  /** The first pass at a gap that is not followed by an inner line break. */
  lemma {:induction false} Stage1AtGap(t: seq<string>)
    requires |t| >= 2 && !(t[1] == "\n" && |t| >= 3) && forall i :: 0 <= i < |t| ==> IsPiece(t[i])
    ensures Replace(" " + Interleave(t[1..], NoGlue(|t| - 2)), " \n ", "\n")
         == " " + Interleave(t[1..], Stage1Glue(t[1..]))
    ensures Interleave(t, Stage1Glue(t)) == t[0] + (" " + Interleave(t[1..], Stage1Glue(t[1..])))
    decreases |t|, 0
  {
    var rest := Interleave(t[1..], NoGlue(|t| - 2));
    InterleaveHead(t[1..], NoGlue(|t| - 2));
    if |t| == 2 {
      assert rest == t[1];
    }
    Stage1GapNoMatch(rest);
    Stage1(t[1..]);
    var g := Stage1Glue(t);
    InterleaveUnfold(t, g);
    assert g[1..] == Stage1Glue(t[1..]);
  }

  /** The first pass at a line break with pieces on both sides. */
  lemma {:induction false} Stage1AtNewline(t: seq<string>)
    requires |t| >= 3 && t[1] == "\n" && forall i :: 0 <= i < |t| ==> IsPiece(t[i])
    ensures Replace(" " + Interleave(t[1..], NoGlue(|t| - 2)), " \n ", "\n")
         == "\n" + Interleave(t[2..], Stage1Glue(t[2..]))
    decreases |t|, 0
  {
    var pat, rep := " \n ", "\n";
    var r2 := Interleave(t[2..], NoGlue(|t| - 3));
    InterleaveUnfold(t[1..], NoGlue(|t| - 2));
    assert t[1..][1..] == t[2..];
    assert NoGlue(|t| - 2)[1..] == NoGlue(|t| - 3);
    assert " " + Interleave(t[1..], NoGlue(|t| - 2)) == pat + r2;
    ReplaceAtMatch(r2, pat, rep);
    Stage1(t[2..]);
  }

  /** The glued pieces around such a line break. */
  lemma Stage1GlueAtNewline(t: seq<string>)
    requires |t| >= 3 && t[1] == "\n"
    ensures Interleave(t, Stage1Glue(t)) == t[0] + ("\n" + Interleave(t[2..], Stage1Glue(t[2..])))
  {
    var g := Stage1Glue(t);
    var x := Interleave(t[2..], Stage1Glue(t[2..]));
    assert g == [true, true] + Stage1Glue(t[2..]);
    InterleaveUnfold(t[1..], g[1..]);
    assert t[1..][1..] == t[2..] && g[1..][1..] == Stage1Glue(t[2..]);
    assert Interleave(t[1..], g[1..]) == "\n" + x by {
      assert "" + x == x;
    }
    InterleaveUnfold(t, g);
    assert "" + ("\n" + x) == "\n" + x;
  }

  /** The separator `Interleave` puts between two pieces. */
  function Sep(glued: bool): string {
    if glued then "" else " "
  }

  lemma InterleaveUnfold(t: seq<string>, g: seq<bool>)
    requires |t| >= 2 && |g| == |t| - 1
    ensures Interleave(t, g) == t[0] + (Sep(g[0]) + Interleave(t[1..], g[1..]))
  {
  }

  /** The second pass at one gap: the space before a line break goes. */
  lemma Stage2Gap(glued: bool, rest: string)
    requires |rest| > 0 && rest[0] != ' '
    ensures Replace(Sep(glued) + rest, " \n", "\n")
         == Sep(glued || rest[0] == '\n') + Replace(rest, " \n", "\n")
  {
    if glued {
      assert Sep(glued) + rest == rest;
    } else if rest[0] == '\n' {
      Stage2GapAtNewline(rest);
    } else {
      Stage2GapAtWord(rest);
    }
  }

  lemma Stage2GapAtNewline(rest: string)
    requires |rest| > 0 && rest[0] == '\n'
    ensures Replace(" " + rest, " \n", "\n") == Replace(rest, " \n", "\n")
  {
    var pat, rep := " \n", "\n";
    var z := rest[1..];
    assert rest == "\n" + z;
    assert " " + rest == pat + z;
    ReplaceAtMatch(z, pat, rep);
    assert !StartsWith(rest, pat) by {
      assert rest[0] != pat[0];
    }
    ReplaceStep(rest, pat, rep);
    assert [rest[0]] == rep;
  }

  lemma Stage2GapAtWord(rest: string)
    requires |rest| > 0 && rest[0] != '\n'
    ensures Replace(" " + rest, " \n", "\n") == " " + Replace(rest, " \n", "\n")
  {
    var pat, rep := " \n", "\n";
    var s := " " + rest;
    assert !StartsWith(s, pat) by {
      if |pat| <= |s| {
        assert s[..|pat|][1] != pat[1];
      }
    }
    ReplaceStep(s, pat, rep);
    assert s[1..] == rest;
  }

  /** The second replacement pass removes the space before every line break. */
  lemma {:induction false} Stage2(t: seq<string>, g: seq<bool>)
    requires |t| >= 1 && |g| == |t| - 1 && forall i :: 0 <= i < |t| ==> IsPiece(t[i])
    ensures Replace(Interleave(t, g), " \n", "\n") == Interleave(t, Stage2Glue(t, g))
    decreases |t|
  {
    var pat, rep := " \n", "\n";
    assert forall i :: 0 <= i < |t[0]| ==> t[0][i] != pat[0];
    if |t| == 1 {
      ReplaceSkipsPrefix(t[0], "", pat, rep);
      assert t[0] + "" == t[0];
    } else {
      var g2 := Stage2Glue(t, g);
      var rest := Interleave(t[1..], g[1..]);
      InterleaveUnfold(t, g);
      InterleaveUnfold(t, g2);
      assert g2[1..] == Stage2Glue(t[1..], g[1..]);
      Stage2(t[1..], g[1..]);
      InterleaveHead(t[1..], g[1..]);
      ReplaceSkipsPrefix(t[0], Sep(g[0]) + rest, pat, rep);
      Stage2Gap(g[0], rest);
    }
  }

  /** The third pass after a line break: the space after it goes. */
  lemma Stage3Gap(glued: bool, rest: string)
    requires |rest| > 0 && rest[0] != ' '
    ensures Replace("\n" + (Sep(glued) + rest), "\n ", "\n") == "\n" + Replace(rest, "\n ", "\n")
  {
    if glued {
      assert "\n" + (Sep(glued) + rest) == "\n" + rest;
      Stage3GapGlued(rest);
    } else {
      Stage3GapSpace(rest);
    }
  }

  lemma Stage3GapSpace(rest: string)
    ensures Replace("\n" + (" " + rest), "\n ", "\n") == "\n" + Replace(rest, "\n ", "\n")
  {
    var pat := "\n ";
    assert "\n" + (" " + rest) == pat + rest;
    ReplaceAtMatch(rest, pat, "\n");
  }

  lemma Stage3GapGlued(rest: string)
    requires |rest| > 0 && rest[0] != ' '
    ensures Replace("\n" + rest, "\n ", "\n") == "\n" + Replace(rest, "\n ", "\n")
  {
    var pat, rep := "\n ", "\n";
    var s := "\n" + rest;
    assert !StartsWith(s, pat) by {
      if |pat| <= |s| {
        assert s[..|pat|][1] != pat[1];
      }
    }
    ReplaceStep(s, pat, rep);
    assert s[1..] == rest;
  }

  /** The third replacement pass removes the space after every line break. */
  lemma {:induction false} Stage3(t: seq<string>, g: seq<bool>)
    requires |t| >= 1 && |g| == |t| - 1 && forall i :: 0 <= i < |t| ==> IsPiece(t[i])
    ensures Replace(Interleave(t, g), "\n ", "\n") == Interleave(t, Stage3Glue(t, g))
    decreases |t|
  {
    var pat, rep := "\n ", "\n";
    if |t| == 1 {
      if t[0] != "\n" {
        assert forall i :: 0 <= i < |t[0]| ==> t[0][i] != pat[0];
        ReplaceSkipsPrefix(t[0], "", pat, rep);
        assert t[0] + "" == t[0];
      }
    } else {
      var g3 := Stage3Glue(t, g);
      var rest := Interleave(t[1..], g[1..]);
      InterleaveUnfold(t, g);
      InterleaveUnfold(t, g3);
      assert g3[1..] == Stage3Glue(t[1..], g[1..]);
      Stage3(t[1..], g[1..]);
      InterleaveHead(t[1..], g[1..]);
      if t[0] != "\n" {
        Stage3AtWord(t[0], g[0], rest);
        assert g3[0] == g[0];
      } else {
        Stage3Gap(g[0], rest);
      }
    }
  }

  /** The third pass leaves a word and the gap after it alone. */
  lemma Stage3AtWord(word: string, glued: bool, rest: string)
    requires IsPiece(word) && word != "\n"
    ensures Replace(word + (Sep(glued) + rest), "\n ", "\n") == word + (Sep(glued) + Replace(rest, "\n ", "\n"))
  {
    var pat, rep := "\n ", "\n";
    assert forall i :: 0 <= i < |word| ==> word[i] != pat[0];
    assert forall i :: 0 <= i < |Sep(glued)| ==> Sep(glued)[i] != pat[0];
    ReplaceSkipsPrefix(Sep(glued), rest, pat, rep);
    ReplaceSkipsPrefix(word, Sep(glued) + rest, pat, rep);
  }

  /** Content rebuilt from whitespace-split tokens is exactly the pieces
      glued around line breaks: the three replacement passes restore the line
      breaks an author wrote as `<nl>` without stray spaces beside them. */
  lemma ContentIsGlueJoin(parts: seq<string>)
    requires forall i :: 0 <= i < |parts| ==> IsToken(parts[i])
    ensures BuildContent(parts) == GlueJoin(MarkNewlines(parts))
  {
    var t := MarkNewlines(parts);
    if |t| == 0 {
      assert Join(t, " ") == "";
    } else {
      assert forall i :: 0 <= i < |t| ==> IsPiece(t[i]) by {
        forall i | 0 <= i < |t|
          ensures IsPiece(t[i])
        {
          if parts[i] != NewlineMarker {
            assert ' ' !in parts[i] && '\n' !in parts[i] by {
              assert forall k :: 0 <= k < |parts[i]| ==> !IsSpace(parts[i][k]);
            }
          }
        }
      }
      JoinIsInterleave(t);
      Stage1(t);
      var g1 := Stage1Glue(t);
      Stage2(t, g1);
      var g2 := Stage2Glue(t, g1);
      Stage3(t, g2);
      Stage1GlueNearNewline(t);
      assert Stage3Glue(t, g2) == NewlineGlue(t);
      GlueJoinIsInterleave(t);
    }
  }

  /** A tag's parameter values after defaults. `extra` holds the tag's own
      keys (`href`, `btn_id`, `width`, `height`), each None unless given. */
  datatype Params = Params(
    size: int,
    bold: bool,
    italic: bool,
    fg: Option<string>,
    bg: Option<string>,
    id: Option<string>,
    extra: map<string, Option<string>>)

  /** `key` first occurs at position `i` and a value token follows it. */
  ghost predicate FirstWithValue(parts: seq<string>, key: string, i: int) {
    0 <= i < |parts| - 1 && parts[i] == key && forall k :: 0 <= k < i ==> parts[k] != key
  }

  /** The token after the first occurrence of `key` (`list.index`), when
      there is one; later occurrences are never looked at. */
  function FirstValue(parts: seq<string>, key: string): Option<string> {
    if key in parts then
      var i := Position(parts, key);
      if i + 1 < |parts| then Some(parts[i + 1]) else None
    else None
  }

  /** A key has a value exactly when its first occurrence is followed by a
      token, and the value is that token. */
  lemma FirstValueSpec(parts: seq<string>, key: string)
    ensures FirstValue(parts, key).Some? <==> exists i :: FirstWithValue(parts, key, i)
    ensures forall i :: FirstWithValue(parts, key, i) ==> FirstValue(parts, key) == Some(parts[i + 1])
  {
    if key in parts {
      var i := Position(parts, key);
      if i + 1 < |parts| {
        assert FirstWithValue(parts, key, i);
      }
    }
  }

  /** The parameter map for parameter tokens `parts`, starting from the
      defaults: size 10, not bold, not italic, no colours, no id and every
      extra key absent. */
  function ParseParams(parts: seq<string>, extraKeys: set<string>): (p: Params)
    requires extraKeys !! BaseKeys
    ensures p.bold <==> "bold" in parts
    ensures p.italic <==> "italic" in parts
    ensures p.extra.Keys == extraKeys
  {
    var size := match FirstValue(parts, "size")
      case Some(v) => ParseInt(v).GetOr(DefaultSize)
      case None => DefaultSize;
    Params(size, "bold" in parts, "italic" in parts,
           FirstValue(parts, "fg"), FirstValue(parts, "bg"), FirstValue(parts, "id"),
           map k | k in extraKeys :: FirstValue(parts, k))
  }

  /** The defaults: what a tag without parameters gets. */
  function Defaults(extraKeys: set<string>): Params {
    Params(DefaultSize, false, false, None, None, None, map k | k in extraKeys :: None)
  }

  /** Without parameter tokens every key keeps its default. */
  lemma NoParamsGiveDefaults(extraKeys: set<string>)
    requires extraKeys !! BaseKeys
    ensures ParseParams([], extraKeys) == Defaults(extraKeys)
  {
  }

  /** A key followed by a value token takes that value, whatever follows
      later (a repeated key is ignored); `size` takes it only when it is an
      integer and otherwise stays 10. */
  lemma {:induction false} FirstValueWins(parts: seq<string>, before: seq<string>, key: string, v: string, after: seq<string>, extraKeys: set<string>)
    requires extraKeys !! BaseKeys
    requires parts == before + [key, v] + after && key !in before
    ensures FirstValue(parts, key) == Some(v)
    ensures key == "size" ==> ParseParams(parts, extraKeys).size == (if ParseInt(v).Some? then ParseInt(v).value else DefaultSize)
    ensures key == "fg" ==> ParseParams(parts, extraKeys).fg == Some(v)
    ensures key == "bg" ==> ParseParams(parts, extraKeys).bg == Some(v)
    ensures key == "id" ==> ParseParams(parts, extraKeys).id == Some(v)
    ensures key in extraKeys ==> ParseParams(parts, extraKeys).extra[key] == Some(v)
  {
    assert parts[..|before|] == before;
    FirstValueSpec(parts, key);
    assert FirstWithValue(parts, key, |before|);
  }

  /** A key whose only occurrence is the last parameter token has no value
      and keeps its default, as does a key that does not occur at all. */
  lemma {:induction false} MissingValueKeepsDefault(parts: seq<string>, key: string, extraKeys: set<string>)
    requires extraKeys !! BaseKeys
    requires key !in parts || (parts[|parts| - 1] == key && key !in parts[..|parts| - 1])
    ensures FirstValue(parts, key) == None
    ensures key == "size" ==> ParseParams(parts, extraKeys).size == DefaultSize
    ensures key == "fg" ==> ParseParams(parts, extraKeys).fg == None
    ensures key == "bg" ==> ParseParams(parts, extraKeys).bg == None
    ensures key == "id" ==> ParseParams(parts, extraKeys).id == None
    ensures key in extraKeys ==> ParseParams(parts, extraKeys).extra[key] == None
  {
    forall i | 0 <= i < |parts| - 1
      ensures parts[i] != key
    {
      assert parts[..|parts| - 1][i] == parts[i];
    }
    FirstValueSpec(parts, key);
  }

  /** Everything the extractor returns for the tag at `idx`. */
  datatype Parsed = Parsed(content: string, params: Params, next: nat)

  /** Whether every token of a line is a whitespace-free word, as the
      page splitter produces them. */
  predicate AllTokens(tokens: seq<string>) {
    forall i :: 0 <= i < |tokens| ==> IsToken(tokens[i])
  }

  /** `_parse_tag_content_and_params`: on a split line the content is the
      content tokens glued around line breaks, every parameter is read from
      the first occurrence of its key among the parameter tokens, and the
      scan resumes past the cut. */
  function ParseTag(tokens: seq<string>, idx: nat, extraKeys: set<string>): (r: Parsed)
    requires extraKeys !! BaseKeys
    ensures r.next == Cut(tokens, idx).next
    ensures AllTokens(tokens) ==> r.content == GlueJoin(MarkNewlines(Cut(tokens, idx).content))
    ensures var ps := Cut(tokens, idx).params;
      && (r.params.bold <==> "bold" in ps) && (r.params.italic <==> "italic" in ps)
      && r.params.fg == FirstValue(ps, "fg") && r.params.bg == FirstValue(ps, "bg") && r.params.id == FirstValue(ps, "id")
      && r.params.extra.Keys == extraKeys
    ensures var ps := Cut(tokens, idx).params;
      forall k :: k in extraKeys ==> r.params.extra[k] == FirstValue(ps, k)
    ensures var v := FirstValue(Cut(tokens, idx).params, "size");
      r.params.size == if v.Some? && ParseInt(v.value).Some? then ParseInt(v.value).value else DefaultSize
  {
    var s := Cut(tokens, idx);
    assert AllTokens(tokens) ==> BuildContent(s.content) == GlueJoin(MarkNewlines(s.content)) by {
      if AllTokens(tokens) {
        CutContentTokens(tokens, idx);
        ContentIsGlueJoin(s.content);
      }
    }
    Parsed(BuildContent(s.content), ParseParams(s.params, extraKeys), s.next)
  }

  /** The content tokens are tokens of the line. */
  lemma CutContentTokens(tokens: seq<string>, idx: nat)
    requires AllTokens(tokens)
    ensures forall i :: 0 <= i < |Cut(tokens, idx).content| ==> IsToken(Cut(tokens, idx).content[i])
  {
    var c := ScanTo(tokens, idx + 1, ContentEnd);
    if c <= |tokens| {
      var content := tokens[idx + 1..c];
      assert Cut(tokens, idx).content == content;
      assert forall i :: 0 <= i < |content| ==> content[i] == tokens[idx + 1 + i];
    }
  }

  /** The documented example: `<t> Hello <nl> World ; size 14 bold id m1 :`
      gives the text "Hello\nWorld", size 14, bold and id m1. */
  lemma HelloWorldExample()
    ensures var r := ParseTag(["<t>", "Hello", "<nl>", "World", ";", "size", "14", "bold", "id", "m1", ":"], 0, {});
      && r.content == "Hello\nWorld"
      && r.params == Params(14, true, false, None, None, Some("m1"), map[])
      && r.next == 11
  {
    var tokens := ["<t>", "Hello", "<nl>", "World", ";", "size", "14", "bold", "id", "m1", ":"];
    HelloWorldCut();
    HelloWorldContent(["Hello", "<nl>", "World"]);
    HelloWorldParams();
  }

  lemma HelloWorldCut()
    ensures Cut(["<t>", "Hello", "<nl>", "World", ";", "size", "14", "bold", "id", "m1", ":"], 0)
         == Sections(["Hello", "<nl>", "World"], ["size", "14", "bold", "id", "m1"], 11)
  {
    var tokens := ["<t>", "Hello", "<nl>", "World", ";", "size", "14", "bold", "id", "m1", ":"];
    assert ScanTo(tokens, 1, ContentEnd) == 4;
    assert ScanTo(tokens, 5, ParamsEnd) == 10;
    assert tokens[1..4] == ["Hello", "<nl>", "World"];
    assert tokens[5..10] == ["size", "14", "bold", "id", "m1"];
  }

  lemma HelloWorldContent(parts: seq<string>)
    requires parts == ["Hello", "<nl>", "World"]
    ensures BuildContent(parts) == "Hello\nWorld"
  {
    ContentIsGlueJoin(parts);
    assert MarkNewlines(parts) == ["Hello", "\n", "World"];
    GlueAroundNewline("Hello", "World");
    assert "Hello" + ("\n" + "World") == "Hello\nWorld";
  }

  lemma GlueAroundNewline(a: string, b: string)
    requires a != "\n" && b != "\n"
    ensures GlueJoin([a, "\n", b]) == a + ("\n" + b)
  {
    var t := [a, "\n", b];
    assert t[1..] == ["\n", b] && t[1..][1..] == [b];
    assert GlueJoin(t[1..]) == "\n" + "" + b;
    assert "\n" + "" + b == "\n" + b;
    assert a + "" + ("\n" + b) == a + ("\n" + b);
  }

  lemma HelloWorldParams()
    ensures ParseParams(["size", "14", "bold", "id", "m1"], {}) == Params(14, true, false, None, None, Some("m1"), map[])
  {
    var parts := ["size", "14", "bold", "id", "m1"];
    HelloWorldSize(parts);
    HelloWorldId(parts);
    HelloWorldColours(parts);
    var p := ParseParams(parts, {});
    assert p.bold && !p.italic;
    assert p.extra == map[];
  }

  lemma HelloWorldSize(parts: seq<string>)
    requires parts == ["size", "14", "bold", "id", "m1"]
    ensures ParseParams(parts, {}).size == 14
  {
    FirstValueWins(parts, [], "size", "14", ["bold", "id", "m1"], {});
    ParseFourteen();
  }

  lemma HelloWorldId(parts: seq<string>)
    requires parts == ["size", "14", "bold", "id", "m1"]
    ensures ParseParams(parts, {}).id == Some("m1")
  {
    FirstValueWins(parts, ["size", "14", "bold"], "id", "m1", [], {});
  }

  lemma HelloWorldColours(parts: seq<string>)
    requires parts == ["size", "14", "bold", "id", "m1"]
    ensures ParseParams(parts, {}).fg == None && ParseParams(parts, {}).bg == None
  {
    MissingValueKeepsDefault(parts, "fg", {});
    MissingValueKeepsDefault(parts, "bg", {});
  }

  lemma ParseFourteen()
    ensures ParseInt("14") == Some(14)
  {
    ParseIntRoundTrip(14);
    assert NatToString(1) == "1";
    assert IntToString(14) == "14";
  }
}
