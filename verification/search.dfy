/** The server's site index and ranked search (server.py `load_all_data`,
    `_search_for_tags`, `_search_for_content`, `search_api`,
    `wiki_search_api`). A site table is a Python dict from url to record,
    kept here as a sequence in insertion order with distinct urls. */
module Search {
  import opened Wrappers
  import opened Text

  /** A stored site: its url, lowercased tags, the words of its content, and
      the content and page description passed through untouched. */
  datatype Site = Site(url: string, tags: seq<string>, words: seq<string>, content: Option<string>, source: Option<string>)

  type Table = seq<Site>

  /** No url is stored twice. */
  predicate Distinct(t: Table) {
    forall i, j :: 0 <= i < j < |t| ==> t[i].url != t[j].url
  }

  // ---------------------------------------------------------------------
  // Loading

  /** A site file as read from disk: the `url`, `tags`, `content` and
      `source_code` fields (missing ones as None / empty). */
  datatype Document = Document(url: Option<string>, tags: seq<string>, content: Option<string>, source: Option<string>)

  /** Each string lowercased: no capital letter is left, so lowercasing
      again changes nothing. */
  function Lowered(xs: seq<string>): (r: seq<string>)
    ensures |r| == |xs| && forall i :: 0 <= i < |xs| ==> r[i] == Lower(xs[i])
    ensures forall i, j :: 0 <= i < |r| && 0 <= j < |r[i]| ==> !('A' <= r[i][j] <= 'Z')
    ensures forall i :: 0 <= i < |r| ==> Lower(r[i]) == r[i]
  {
    seq(|xs|, i requires 0 <= i < |xs| => Lower(xs[i]))
  }

  /** The searchable words of a content: lowercased, stripped of everything
      but word characters and whitespace, split on whitespace. */
  function ContentWords(content: Option<string>): seq<string> {
    SplitWhitespace(KeepWordAndSpace(Lower(content.GetOr(""))))
  }

  /** The record stored for a document with a url. */
  function Normalize(d: Document): (s: Site)
    requires Truthy(d.url)
    ensures s.url == d.url.value && s.content == d.content && s.source == d.source
    ensures s.tags == Lowered(d.tags)
    ensures Normalized(s)
  {
    ContentWordsClean(d.content);
    Site(d.url.value, Lowered(d.tags), ContentWords(d.content), d.content, d.source)
  }

  /** The record stored under `url`, if any. */
  function Find(t: Table, url: string): (r: Option<Site>)
    ensures r.Some? ==> r.value in t && r.value.url == url
    ensures r.None? <==> forall i :: 0 <= i < |t| ==> t[i].url != url
  {
    if |t| == 0 then None
    else if t[0].url == url then Some(t[0])
    else Find(t[1..], url)
  }

  /** `table[site.url] = site`: an existing url keeps its place and gets the
      new record; a new url goes last. */
  function Put(t: Table, s: Site): (r: Table)
    ensures Find(t, s.url).Some? ==> |r| == |t|
    ensures Find(t, s.url).None? ==> r == t + [s]
    ensures forall i :: 0 <= i < |t| && t[i].url != s.url ==> r[i] == t[i]
    ensures forall i :: 0 <= i < |r| ==> r[i] == s || (i < |t| && r[i] == t[i])
  {
    if |t| == 0 then [s]
    else if t[0].url == s.url then [s] + t[1..]
    else [t[0]] + Put(t[1..], s)
  }

  /** After a put, the url finds the new record and every other url finds
      what it found before; the table still stores each url once. */
  lemma PutThenFind(t: Table, s: Site, url: string)
    requires Distinct(t)
    ensures Distinct(Put(t, s))
    ensures Find(Put(t, s), url) == if url == s.url then Some(s) else Find(t, url)
  {
    PutKeepsDistinct(t, s);
    PutFind(t, s, url);
  }

  lemma {:induction false} PutKeepsDistinct(t: Table, s: Site)
    requires Distinct(t)
    ensures Distinct(Put(t, s))
    decreases |t|
  {
    if |t| > 0 {
      var rest := t[1..];
      assert forall j :: 0 <= j < |rest| ==> rest[j] == t[j + 1];
      if t[0].url != s.url {
        var q := Put(rest, s);
        PutKeepsDistinct(rest, s);
        assert forall j :: 0 <= j < |q| ==> q[j].url != t[0].url;
        ConsDistinct(t[0], q);
      } else {
        ConsDistinct(s, rest);
      }
    }
  }

  /** A record whose url the rest does not hold can go in front. */
  lemma ConsDistinct(x: Site, q: Table)
    requires Distinct(q) && forall j :: 0 <= j < |q| ==> q[j].url != x.url
    ensures Distinct([x] + q)
  {
    var r := [x] + q;
    forall i, j | 0 <= i < j < |r|
      ensures r[i].url != r[j].url
    {
      assert r[j] == q[j - 1];
      if i > 0 {
        assert r[i] == q[i - 1];
      }
    }
  }

  lemma {:induction false} PutFind(t: Table, s: Site, url: string)
    ensures Find(Put(t, s), url) == if url == s.url then Some(s) else Find(t, url)
    decreases |t|
  {
    if |t| > 0 {
      var r := Put(t, s);
      if t[0].url != s.url {
        PutFind(t[1..], s, url);
        assert r == [t[0]] + Put(t[1..], s);
        assert r[1..] == Put(t[1..], s);
      } else {
        assert r == [s] + t[1..];
        assert r[1..] == t[1..];
      }
    }
  }

  /** One file of the sites folder: its name and its document. */
  datatype SiteFile = SiteFile(name: string, doc: Document)

  /** The files in listing order: the wiki folder's entry and documents
      without a url are skipped; every other document is stored. */
  function Load(t: Table, files: seq<SiteFile>): (r: Table)
    ensures |t| <= |r|
    ensures forall i :: 0 <= i < |t| ==> r[i].url == t[i].url
    decreases |files|
  {
    if |files| == 0 then t
    else
      var f := files[0];
      var next := if EndsWith(f.name, "maxipedia") || !Truthy(f.doc.url) then t else Put(t, Normalize(f.doc));
      Load(next, files[1..])
  }

  /** A stored record is normalised: lowercase tags, and content words made
      of lowercase word characters only. */
  ghost predicate Normalized(s: Site) {
    && (forall i, j :: 0 <= i < |s.tags| && 0 <= j < |s.tags[i]| ==> !('A' <= s.tags[i][j] <= 'Z'))
    && CleanWords(s.words)
  }

  /** A character of a lowercase word. */
  predicate LowerWordChar(c: char) {
    IsWordChar(c) && !('A' <= c <= 'Z')
  }

  /** A text of lowercase word characters and whitespace. */
  predicate CleanText(s: string) {
    forall i :: 0 <= i < |s| ==> LowerWordChar(s[i]) || IsSpace(s[i])
  }

  /** Words made of lowercase word characters. */
  predicate CleanWords(ws: seq<string>) {
    forall i, j :: 0 <= i < |ws| && 0 <= j < |ws[i]| ==> LowerWordChar(ws[i][j])
  }

  lemma CleanSuffix(s: string, k: nat)
    requires CleanText(s) && k <= |s|
    ensures CleanText(s[k..])
  {
    assert forall i :: 0 <= i < |s| - k ==> s[k..][i] == s[k + i];
  }

  lemma CleanCons(w: string, rest: seq<string>)
    requires forall j :: 0 <= j < |w| ==> LowerWordChar(w[j])
    requires CleanWords(rest)
    ensures CleanWords([w] + rest)
  {
    var ws := [w] + rest;
    forall i, j | 0 <= i < |ws| && 0 <= j < |ws[i]|
      ensures LowerWordChar(ws[i][j])
    {
      if i > 0 {
        assert ws[i] == rest[i - 1];
      }
    }
  }

  /** Splitting a clean text gives clean words. */
  lemma {:induction false} WordsOfCleanText(s: string)
    requires CleanText(s)
    ensures CleanWords(SplitWhitespace(s))
    decreases |s|
  {
    var t := StripLeft(s);
    CleanSuffix(s, |s| - |t|);
    if |t| > 0 {
      var n := WordLength(t);
      var w := t[..n];
      forall j | 0 <= j < |w|
        ensures LowerWordChar(w[j])
      {
        assert w[j] == t[j];
      }
      CleanSuffix(t, n);
      WordsOfCleanText(t[n..]);
      CleanCons(w, SplitWhitespace(t[n..]));
      assert SplitWhitespace(s) == [w] + SplitWhitespace(t[n..]);
    }
  }

  /** Every document with a url is stored normalised. */
  lemma NormalizeNormalizes(d: Document)
    requires Truthy(d.url)
    ensures Normalized(Normalize(d))
  {
  }

  /** The words of any content are clean. */
  lemma ContentWordsClean(content: Option<string>)
    ensures CleanWords(ContentWords(content))
  {
    var low := Lower(content.GetOr(""));
    var clean := KeepWordAndSpace(low);
    assert CleanText(clean) by {
      forall i | 0 <= i < |clean|
        ensures LowerWordChar(clean[i]) || IsSpace(clean[i])
      {
        assert clean[i] in low;
      }
    }
    WordsOfCleanText(clean);
  }

  /** Loading keeps the table's urls distinct and its records normalised. */
  lemma {:induction false} LoadKeepsTable(t: Table, files: seq<SiteFile>)
    requires Distinct(t) && forall i :: 0 <= i < |t| ==> Normalized(t[i])
    ensures var r := Load(t, files);
      Distinct(r) && forall i :: 0 <= i < |r| ==> Normalized(r[i])
    decreases |files|
  {
    if |files| > 0 {
      var f := files[0];
      if EndsWith(f.name, "maxipedia") || !Truthy(f.doc.url) {
        LoadKeepsTable(t, files[1..]);
      } else {
        var s := Normalize(f.doc);
        NormalizeNormalizes(f.doc);
        PutThenFind(t, s, s.url);
        LoadKeepsTable(Put(t, s), files[1..]);
      }
    }
  }

  /** A later file with the same url replaces the earlier record in place. */
  lemma LaterFileWins(d1: Document, d2: Document)
    requires Truthy(d1.url) && d2.url == d1.url
    ensures Load([], [SiteFile("a", d1), SiteFile("b", d2)]) == [Normalize(d2)]
  {
    var files := [SiteFile("a", d1), SiteFile("b", d2)];
    var s1, s2 := Normalize(d1), Normalize(d2);
    assert !EndsWith("a", "maxipedia") && !EndsWith("b", "maxipedia");
    assert Put([], s1) == [s1];
    assert Put([s1], s2) == [s2] by {
      assert [s1][0].url == s2.url && [s1][1..] == [];
    }
    assert Load([], files) == Load([s1], files[1..]);
    assert files[1..][1..] == [];
    assert Load([s1], files[1..]) == Load([s2], []);
  }

  // ---------------------------------------------------------------------
  // Scoring

  /** How many of the terms, lowercased and counted with repetition, are in
      the list. */
  function Matches(terms: seq<string>, bag: seq<string>): (n: nat)
    ensures n <= |terms|
  {
    if |terms| == 0 then 0 else (if Lower(terms[0]) in bag then 1 else 0) + Matches(terms[1..], bag)
  }

  /** A site's score: the terms found among its tags plus those found among
      its content words. */
  function Score(s: Site, terms: seq<string>): (n: nat)
    ensures n <= 2 * |terms|
    ensures terms == [] ==> n == 0
  {
    Matches(terms, s.tags) + Matches(terms, s.words)
  }

  /** Counting distributes over concatenated term lists, so each repetition
      of a term counts again. */
  lemma {:induction false} MatchesAppend(a: seq<string>, b: seq<string>, bag: seq<string>)
    ensures Matches(a + b, bag) == Matches(a, bag) + Matches(b, bag)
    decreases |a|
  {
    if |a| == 0 {
      assert a + b == b;
    } else {
      assert (a + b)[1..] == a[1..] + b;
      MatchesAppend(a[1..], b, bag);
    }
  }

  /** A site scores at most two points per term, and repeating the query
      doubles the score. */
  lemma ScoreBounds(s: Site, terms: seq<string>)
    ensures Score(s, terms) <= 2 * |terms|
    ensures Score(s, terms + terms) == 2 * Score(s, terms)
  {
    MatchesAppend(terms, terms, s.tags);
    MatchesAppend(terms, terms, s.words);
  }

  /** Lowercasing twice is lowercasing once. */
  lemma LowerTwice(x: string)
    ensures Lower(Lower(x)) == Lower(x)
  {
  }

  /** The score does not depend on the letter case of the query. */
  lemma {:induction false} ScoreIgnoresCase(s: Site, terms: seq<string>)
    ensures Score(s, Lowered(terms)) == Score(s, terms)
  {
    MatchesIgnoreCase(terms, s.tags);
    MatchesIgnoreCase(terms, s.words);
  }

  lemma {:induction false} MatchesIgnoreCase(terms: seq<string>, bag: seq<string>)
    ensures Matches(Lowered(terms), bag) == Matches(terms, bag)
    decreases |terms|
  {
    if |terms| > 0 {
      LowerTwice(terms[0]);
      assert Lowered(terms)[1..] == Lowered(terms[1..]);
      MatchesIgnoreCase(terms[1..], bag);
    }
  }

  /** A stored site whose tags are lowercase matches a query term in any
      letter case when the term is one of its tags. */
  lemma TagMatchIgnoresCase(s: Site, term: string)
    requires Lower(term) in s.tags
    ensures Score(s, [term]) >= 1 && Score(s, [Lower(term)]) == Score(s, [term])
  {
    LowerTwice(term);
  }

  // ---------------------------------------------------------------------
  // Ranking

  /** A site's url and content with its score. */
  datatype Scored = Scored(url: string, content: Option<string>, score: nat)

  /** Every site of the table scored, in table order. */
  function ScoreAll(t: Table, terms: seq<string>): (r: seq<Scored>)
    ensures |r| == |t|
    ensures forall i :: 0 <= i < |t| ==> r[i] == Scored(t[i].url, t[i].content, Score(t[i], terms))
  {
    seq(|t|, i requires 0 <= i < |t| => Scored(t[i].url, t[i].content, Score(t[i], terms)))
  }

  /** Scores never increase along the list. */
  predicate Descending(s: seq<Scored>) {
    forall i, j :: 0 <= i < j < |s| ==> s[i].score >= s[j].score
  }

  /** The entries of one score, in list order. */
  function Only(s: seq<Scored>, k: nat): seq<Scored>
    decreases |s|
  {
    if |s| == 0 then [] else (if s[0].score == k then [s[0]] else []) + Only(s[1..], k)
  }

  lemma {:induction false} OnlyAppend(a: seq<Scored>, b: seq<Scored>, k: nat)
    ensures Only(a + b, k) == Only(a, k) + Only(b, k)
    decreases |a|
  {
    if |a| == 0 {
      assert a + b == b;
    } else {
      var h := if a[0].score == k then [a[0]] else [];
      assert (a + b)[0] == a[0] && (a + b)[1..] == a[1..] + b;
      OnlyAppend(a[1..], b, k);
      assert Only(a + b, k) == h + (Only(a[1..], k) + Only(b, k));
    }
  }

  /** Inserting into a descending list, after every entry scoring at least
      as much: equal scores keep their arrival order. */
  function Insert(x: Scored, s: seq<Scored>): (r: seq<Scored>)
    ensures |r| == |s| + 1
    decreases |s|
  {
    if |s| == 0 then [x]
    else if s[0].score >= x.score then [s[0]] + Insert(x, s[1..])
    else [x] + s
  }

  /** Insertion adds exactly the one entry. */
  lemma {:induction false} InsertPermutes(x: Scored, s: seq<Scored>)
    ensures multiset(Insert(x, s)) == multiset(s) + multiset{x}
    decreases |s|
  {
    if |s| > 0 && s[0].score >= x.score {
      InsertPermutes(x, s[1..]);
      assert s == [s[0]] + s[1..];
    }
  }

  /** `sorted(items, key=score, reverse=True)`: a stable descending sort,
      written as insertion of each entry in turn. */
  function Sort(s: seq<Scored>): (r: seq<Scored>)
    ensures |r| == |s|
    ensures Descending(r)
    decreases |s|
  {
    if |s| == 0 then []
    else
      var sorted := Sort(s[..|s| - 1]);
      InsertDescending(s[|s| - 1], sorted);
      Insert(s[|s| - 1], sorted)
  }

  /** The sort is a permutation of its input. */
  lemma {:induction false} SortPermutes(s: seq<Scored>)
    ensures multiset(Sort(s)) == multiset(s)
    decreases |s|
  {
    if |s| > 0 {
      var pre, x := s[..|s| - 1], s[|s| - 1];
      SortPermutes(pre);
      InsertPermutes(x, Sort(pre));
      assert Sort(s) == Insert(x, Sort(pre));
      assert s == pre + [x];
      assert multiset(s) == multiset(pre) + multiset{x};
    }
  }

  lemma {:induction false} InsertDescending(x: Scored, s: seq<Scored>)
    requires Descending(s)
    ensures Descending(Insert(x, s))
    decreases |s|
  {
    if |s| > 0 && s[0].score >= x.score {
      InsertDescending(x, s[1..]);
      var r := Insert(x, s);
      assert r == [s[0]] + Insert(x, s[1..]);
      forall i, j | 0 <= i < j < |r|
        ensures r[i].score >= r[j].score
      {
        if i == 0 {
          InsertPermutes(x, s[1..]);
          assert r[j] in multiset(Insert(x, s[1..]));
          assert r[j] in multiset(s[1..]) + multiset{x};
          if r[j] != x {
            var m :| 0 <= m < |s[1..]| && s[1..][m] == r[j];
            assert s[m + 1] == r[j];
          }
        }
      }
    }
  }

  lemma {:induction false} InsertStable(x: Scored, s: seq<Scored>, k: nat)
    requires Descending(s)
    ensures Only(Insert(x, s), k) == Only(s, k) + (if x.score == k then [x] else [])
    decreases |s|
  {
    if |s| == 0 {
    } else if s[0].score >= x.score {
      var q := Insert(x, s[1..]);
      DescendingTail(s);
      InsertStable(x, s[1..], k);
      var r := Insert(x, s);
      assert r == [s[0]] + q;
      assert r[1..] == q;
      var h := if s[0].score == k then [s[0]] else [];
      assert Only(r, k) == h + Only(q, k);
      assert Only(s, k) == h + Only(s[1..], k);
    } else {
      OnlyBelow(s, x.score);
      assert Insert(x, s) == [x] + s;
      assert ([x] + s)[1..] == s;
    }
  }

  lemma DescendingTail(s: seq<Scored>)
    requires Descending(s) && |s| > 0
    ensures Descending(s[1..])
  {
    assert forall j :: 0 <= j < |s| - 1 ==> s[1..][j] == s[j + 1];
  }

  /** In a descending list headed by a score below `k`, nothing scores `k`. */
  lemma {:induction false} OnlyBelow(s: seq<Scored>, k: nat)
    requires Descending(s) && |s| > 0 && s[0].score < k
    ensures Only(s, k) == []
    decreases |s|
  {
    if |s| > 1 {
      OnlyBelow(s[1..], k);
    }
  }

  /** The sort orders by descending score. */
  lemma {:induction false} SortDescending(s: seq<Scored>)
    ensures Descending(Sort(s))
    decreases |s|
  {
    if |s| > 0 {
      SortDescending(s[..|s| - 1]);
      InsertDescending(s[|s| - 1], Sort(s[..|s| - 1]));
    }
  }

  /** Among equal scores the sort keeps the input order. */
  lemma {:induction false} SortStable(s: seq<Scored>, k: nat)
    ensures Only(Sort(s), k) == Only(s, k)
    decreases |s|
  {
    if |s| > 0 {
      var pre, x := s[..|s| - 1], s[|s| - 1];
      var tail := if x.score == k then [x] else [];
      SortStable(pre, k);
      SortDescending(pre);
      InsertStable(x, Sort(pre), k);
      assert Sort(s) == Insert(x, Sort(pre));
      SplitLast(s, k);
    }
  }

  /** The entries of one score of a list are those of its front followed
      by its last entry when that has the score. */
  lemma SplitLast(s: seq<Scored>, k: nat)
    requires |s| > 0
    ensures Only(s, k) == Only(s[..|s| - 1], k) + (if s[|s| - 1].score == k then [s[|s| - 1]] else [])
  {
    var pre, x := s[..|s| - 1], s[|s| - 1];
    assert s == pre + [x];
    OnlyAppend(pre, [x], k);
    assert [x][1..] == [];
  }

  /** The entries with a positive score, in order. */
  function Positive(s: seq<Scored>): (r: seq<Scored>)
    ensures |r| <= |s|
    ensures forall i :: 0 <= i < |r| ==> r[i].score > 0
    ensures forall x :: x in r <==> x in s && x.score > 0
    decreases |s|
  {
    if |s| == 0 then [] else (if s[0].score > 0 then [s[0]] else []) + Positive(s[1..])
  }

  /** The head of a descending list scores at least as much as the rest. */
  lemma HeadDominates(s: seq<Scored>, x: Scored)
    requires Descending(s) && |s| > 0 && x in s[1..]
    ensures s[0].score >= x.score
  {
    var m :| 0 <= m < |s[1..]| && s[1..][m] == x;
    assert s[m + 1] == x;
  }

  lemma {:induction false} PositiveDescending(s: seq<Scored>)
    requires Descending(s)
    ensures Descending(Positive(s))
    decreases |s|
  {
    if |s| > 0 {
      DescendingTail(s);
      PositiveDescending(s[1..]);
      var rest := Positive(s[1..]);
      if s[0].score > 0 {
        forall j | 0 <= j < |rest|
          ensures rest[j].score <= s[0].score
        {
          assert rest[j] in rest;
          HeadDominates(s, rest[j]);
        }
        ConsDescending(s[0], rest);
      }
    }
  }

  /** An entry scoring at least as much as a descending list can head it. */
  lemma ConsDescending(x: Scored, q: seq<Scored>)
    requires Descending(q) && forall j :: 0 <= j < |q| ==> q[j].score <= x.score
    ensures Descending([x] + q)
  {
    var r := [x] + q;
    forall i, j | 0 <= i < j < |r|
      ensures r[i].score >= r[j].score
    {
      assert r[j] == q[j - 1];
      if i > 0 {
        assert r[i] == q[i - 1];
      }
    }
  }

  lemma {:induction false} PositiveOnly(s: seq<Scored>, k: nat)
    ensures Only(Positive(s), k) == if k > 0 then Only(s, k) else []
    decreases |s|
  {
    if |s| > 0 {
      PositiveOnly(s[1..], k);
      OnlyAppend(if s[0].score > 0 then [s[0]] else [], Positive(s[1..]), k);
    }
  }

  /** The ranked list for some terms: positive scores only, best first,
      ties in table order. */
  function Ranked(t: Table, terms: seq<string>): (r: seq<Scored>)
    ensures |r| <= |t|
    ensures Descending(r) && forall i :: 0 <= i < |r| ==> r[i].score > 0
  {
    var sorted := Sort(ScoreAll(t, terms));
    PositiveDescending(sorted);
    Positive(sorted)
  }

  /** A search hit: url and content. */
  datatype Hit = Hit(url: string, content: Option<string>)

  function Hits(s: seq<Scored>): (r: seq<Hit>)
    ensures |r| == |s| && forall i :: 0 <= i < |s| ==> r[i] == Hit(s[i].url, s[i].content)
  {
    seq(|s|, i requires 0 <= i < |s| => Hit(s[i].url, s[i].content))
  }

  /** Every site, in table order. */
  function AllHits(t: Table): (r: seq<Hit>)
    ensures |r| == |t| && forall i :: 0 <= i < |t| ==> r[i] == Hit(t[i].url, t[i].content)
  {
    Hits(ScoreAll(t, []))
  }

  /** `search_api` / `wiki_search_api`: an empty query lists every site;
      otherwise the query is split on whitespace and ranked. */
  function Query(t: Table, query: string): (r: seq<Hit>)
    ensures query == "" ==> |r| == |t|
    ensures query != "" ==> |r| <= |t|
  {
    if query == "" then AllHits(t) else Hits(Ranked(t, SplitWhitespace(query)))
  }

  /** The ranking: best first, ties in table order, and exactly the sites
      with a positive score. */
  lemma RankedIsRanking(t: Table, terms: seq<string>)
    ensures Descending(Ranked(t, terms))
    ensures forall k: nat :: k > 0 ==> Only(Ranked(t, terms), k) == Only(ScoreAll(t, terms), k)
    ensures forall k: nat :: k == 0 ==> Only(Ranked(t, terms), k) == []
    ensures forall x :: x in Ranked(t, terms) <==> x in ScoreAll(t, terms) && x.score > 0
  {
    var all := ScoreAll(t, terms);
    SortDescending(all);
    PositiveDescending(Sort(all));
    forall k: nat
      ensures Only(Ranked(t, terms), k) == if k > 0 then Only(all, k) else []
    {
      SortStable(all, k);
      PositiveOnly(Sort(all), k);
    }
    SortPermutes(all);
    forall x
      ensures x in Ranked(t, terms) <==> x in all && x.score > 0
    {
      assert x in Sort(all) <==> x in multiset(Sort(all));
      assert x in all <==> x in multiset(all);
    }
  }

  /** Membership in the ranking: a scored entry is ranked exactly when its
      score is positive. */
  lemma RankedMembers(t: Table, terms: seq<string>)
    ensures forall x :: x in Ranked(t, terms) <==> x in ScoreAll(t, terms) && x.score > 0
  {
    var all := ScoreAll(t, terms);
    SortPermutes(all);
    forall x
      ensures x in Ranked(t, terms) <==> x in all && x.score > 0
    {
      assert x in Sort(all) <==> x in multiset(Sort(all));
      assert x in all <==> x in multiset(all);
    }
  }

  /** A site is among the results of a non-empty query exactly when it
      scores a point. */
  lemma FoundIffScores(t: Table, query: string, i: nat)
    requires Distinct(t) && query != "" && i < |t|
    ensures Hit(t[i].url, t[i].content) in Query(t, query) <==> Score(t[i], SplitWhitespace(query)) > 0
  {
    var terms := SplitWhitespace(query);
    RankedMembers(t, terms);
    if Score(t[i], terms) > 0 {
      FoundWhenScores(t, terms, i);
    } else {
      MissingWhenZero(t, terms, i);
    }
  }

  lemma FoundWhenScores(t: Table, terms: seq<string>, i: nat)
    requires i < |t| && Score(t[i], terms) > 0
    requires forall x :: x in Ranked(t, terms) <==> x in ScoreAll(t, terms) && x.score > 0
    ensures Hit(t[i].url, t[i].content) in Hits(Ranked(t, terms))
  {
    var all := ScoreAll(t, terms);
    var r := Ranked(t, terms);
    assert all[i] in r;
    var m :| 0 <= m < |r| && r[m] == all[i];
    assert Hits(r)[m] == Hit(t[i].url, t[i].content);
  }

  lemma MissingWhenZero(t: Table, terms: seq<string>, i: nat)
    requires Distinct(t) && i < |t| && Score(t[i], terms) == 0
    requires forall x :: x in Ranked(t, terms) <==> x in ScoreAll(t, terms) && x.score > 0
    ensures Hit(t[i].url, t[i].content) !in Hits(Ranked(t, terms))
  {
    var all := ScoreAll(t, terms);
    var r := Ranked(t, terms);
    forall m | 0 <= m < |r|
      ensures Hits(r)[m] != Hit(t[i].url, t[i].content)
    {
      assert r[m] in all;
      var j :| 0 <= j < |all| && all[j] == r[m];
      assert j != i;
      assert t[j].url != t[i].url;
    }
  }

  lemma {:induction false} NothingPositive(s: seq<Scored>)
    requires forall i :: 0 <= i < |s| ==> s[i].score == 0
    ensures Positive(s) == []
    decreases |s|
  {
    if |s| > 0 {
      NothingPositive(s[1..]);
    }
  }

  /** A query of whitespace only finds nothing, unlike the empty query. */
  lemma BlankQueryFindsNothing(t: Table, query: string)
    requires query != "" && SplitWhitespace(query) == []
    ensures Query(t, query) == []
  {
    var all := ScoreAll(t, []);
    var sorted := Sort(all);
    SortPermutes(all);
    forall i | 0 <= i < |sorted|
      ensures sorted[i].score == 0
    {
      assert sorted[i] in multiset(all);
      var j :| 0 <= j < |all| && all[j] == sorted[i];
    }
    NothingPositive(sorted);
  }

  /** The wiki search's answer: the hits, or 404 when there are none. */
  datatype Reply = Found(hits: seq<Hit>) | NotFound

  function WikiQuery(t: Table, query: string): (r: Reply)
    ensures r.NotFound? <==> Query(t, query) == []
    ensures r.Found? ==> r.hits == Query(t, query)
  {
    var hits := Query(t, query);
    if |hits| > 0 then Found(hits) else NotFound
  }

  /** An empty wiki query is 404 only when the wiki is empty. */
  lemma EmptyWikiQuery(t: Table)
    ensures WikiQuery(t, "").NotFound? <==> |t| == 0
  {
  }
}
