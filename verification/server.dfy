/** The server's request gate and its lookups besides search (server.py
    `check_auth`, `get_website_page`, `get_raw_json`, `fetch_r34_tags`). */
module Server {
  import opened Wrappers
  import opened Text
  import opened Search

  // ---------------------------------------------------------------------
  // Authorisation

  /** The paths that need the API key. The test is a plain prefix test, so
      `/searchable` or `/r34x` count as well. */
  function Protected(path: string): (b: bool)
    ensures b ==> |path| >= 4 && path[0] == '/' && path[1] in {'i', 'w', 's', 'r'}
    ensures StartsWith(path, "/wiki") || StartsWith(path, "/raw") || StartsWith(path, "/list") ==> !b
  {
    assert StartsWith(path, "/images") ==> path[1] == path[..7][1];
    assert StartsWith(path, "/website") ==> path[1] == path[..8][1] && path[2] == path[..8][2];
    assert StartsWith(path, "/search") ==> path[1] == path[..7][1];
    assert StartsWith(path, "/r34") ==> path[1] == path[..4][1] && path[2] == path[..4][2];
    assert StartsWith(path, "/wiki") ==> path[1] == path[..5][1] && path[2] == path[..5][2];
    assert StartsWith(path, "/raw") ==> path[1] == path[..4][1] && path[2] == path[..4][2];
    assert StartsWith(path, "/list") ==> path[1] == path[..5][1];
    StartsWith(path, "/images") || StartsWith(path, "/website") || StartsWith(path, "/search") || StartsWith(path, "/r34")
  }

  /** `check_auth`: a protected path is refused with 401 unless the client
      sent the server key and that key is not empty. */
  predicate Refused(path: string, header: Option<string>, serverKey: string) {
    Protected(path) && (header != Some(serverKey) || serverKey == "")
  }

  /** A request passes exactly when its path is open, or it carries the
      server's non-empty key. */
  lemma PassesIff(path: string, header: Option<string>, serverKey: string)
    ensures !Refused(path, header, serverKey) <==> !Protected(path) || (serverKey != "" && header == Some(serverKey))
  {
  }

  /** With no key configured every protected path is refused, whatever the
      client sends. */
  lemma NoKeyLocksOut(path: string, header: Option<string>)
    requires Protected(path)
    ensures Refused(path, header, "")
  {
  }

  /** The wiki search, the raw record endpoint and the image listing are
      open to everyone; the search and image files are not. */
  lemma OpenEndpoints(rest: string, header: Option<string>, serverKey: string)
    ensures !Refused("/wiki_search/" + rest, header, serverKey)
    ensures !Refused("/raw/" + rest, header, serverKey)
    ensures !Refused("/list_images/" + rest, header, serverKey)
    ensures Protected("/search/" + rest) && Protected("/images/" + rest)
  {
    var w, r, l := "/wiki_search/" + rest, "/raw/" + rest, "/list_images/" + rest;
    assert w[1] == 'w' && w[2] == 'i' && r[1] == 'r' && r[2] == 'a' && l[1] == 'l';
    assert ("/search/" + rest)[..7] == "/search";
    assert ("/images/" + rest)[..7] == "/images";
  }

  // ---------------------------------------------------------------------
  // Page lookup

  /** The first record whose url ends with the requested path. */
  function FindBySuffix(t: Table, path: string): (r: Option<Site>)
    ensures r.Some? ==> exists i :: 0 <= i < |t| && t[i] == r.value && EndsWith(t[i].url, path) && forall j :: 0 <= j < i ==> !EndsWith(t[j].url, path)
    ensures r.None? <==> forall i :: 0 <= i < |t| ==> !EndsWith(t[i].url, path)
  {
    if |t| == 0 then None
    else if EndsWith(t[0].url, path) then Some(t[0])
    else
      var r := FindBySuffix(t[1..], path);
      if r.Some? then
        var i :| 0 <= i < |t[1..]| && t[1..][i] == r.value && EndsWith(t[1..][i].url, path) && forall j :: 0 <= j < i ==> !EndsWith(t[1..][j].url, path);
        assert t[i + 1] == r.value && forall j :: 0 <= j < i + 1 ==> !EndsWith(t[j].url, path) by {
          forall j | 0 <= j < i + 1
            ensures !EndsWith(t[j].url, path)
          {
            if j > 0 {
              assert t[j] == t[1..][j - 1];
            }
          }
        }
        r
      else r
  }

  /** `get_website_page` and `get_raw_json`: the sites are searched before
      the wiki; None is the 404. */
  function Lookup(sites: Table, wiki: Table, path: string): (r: Option<Site>)
    ensures r.Some? ==> EndsWith(r.value.url, path) && (r.value in sites || r.value in wiki)
    ensures r.None? <==> (forall i :: 0 <= i < |sites| ==> !EndsWith(sites[i].url, path)) && (forall i :: 0 <= i < |wiki| ==> !EndsWith(wiki[i].url, path))
  {
    match FindBySuffix(sites, path)
    case Some(s) => Some(s)
    case None => FindBySuffix(wiki, path)
  }

  /** A site matching the path hides every wiki entry that matches too. */
  lemma SitesComeFirst(sites: Table, wiki: Table, path: string, i: nat)
    requires i < |sites| && EndsWith(sites[i].url, path)
    ensures Lookup(sites, wiki, path).Some? && Lookup(sites, wiki, path).value in sites
  {
  }

  /** The wiki is consulted exactly when no site matches. */
  lemma WikiWhenNoSite(sites: Table, wiki: Table, path: string)
    requires forall i :: 0 <= i < |sites| ==> !EndsWith(sites[i].url, path)
    ensures Lookup(sites, wiki, path) == FindBySuffix(wiki, path)
  {
  }

  /** Suffix matching can pick a different site than the one named: asking
      for `home` finds `site/myhome` when it comes first. */
  lemma SuffixIsLoose(a: Site, b: Site)
    requires a.url == "site/myhome" && b.url == "site/home"
    ensures Lookup([a, b], [], "home") == Some(a)
  {
    assert a.url[|a.url| - 4..] == "home";
  }

  // ---------------------------------------------------------------------
  // The external image posts

  const CacheLifetime: real := 300.0

  /** A post of the external API: its `file_url` and `tags` fields. */
  datatype Post = Post(fileUrl: Option<string>, tags: Option<string>)

  /** A picture handed to the client: url and split tags. */
  datatype Picture = Picture(url: string, tags: seq<string>)

  /** One post's picture, if it has both a file url and tags. */
  function KeepOne(p: Post): (r: seq<Picture>)
    ensures |r| <= 1
  {
    if Truthy(p.fileUrl) && Truthy(p.tags) then [Picture(p.fileUrl.value, SplitWhitespace(p.tags.value))] else []
  }

  /** The posts with both a file url and tags, in order. */
  function Keep(posts: seq<Post>): (r: seq<Picture>)
    ensures |r| <= |posts|
    decreases |posts|
  {
    if |posts| == 0 then [] else KeepOne(posts[0]) + Keep(posts[1..])
  }

  /** Filtering works post by post: the pictures of two batches are the
      pictures of each, in order. */
  lemma {:induction false} KeepAppend(a: seq<Post>, b: seq<Post>)
    ensures Keep(a + b) == Keep(a) + Keep(b)
    decreases |a|
  {
    if |a| == 0 {
      assert a + b == b;
    } else {
      assert (a + b)[0] == a[0] && (a + b)[1..] == a[1..] + b;
      KeepAppend(a[1..], b);
      assert Keep(a + b) == KeepOne(a[0]) + (Keep(a[1..]) + Keep(b));
    }
  }

  /** Every kept picture has a non-empty url. (Its tag list can still be
      empty: a tags field of only whitespace is truthy but splits to nothing.) */
  lemma {:induction false} KeptPicturesComplete(posts: seq<Post>)
    ensures forall i :: 0 <= i < |Keep(posts)| ==> Keep(posts)[i].url != ""
    decreases |posts|
  {
    if |posts| > 0 {
      KeptPicturesComplete(posts[1..]);
      var head := KeepOne(posts[0]);
      var r := Keep(posts);
      assert r == head + Keep(posts[1..]);
      forall i | 0 <= i < |r|
        ensures r[i].url != ""
      {
        if i >= |head| {
          assert r[i] == Keep(posts[1..])[i - |head|];
        }
      }
    }
  }

  /** A cached answer and when it was stored. */
  datatype Entry = Entry(timestamp: real, data: seq<Picture>)

  type PostCache = map<string, Entry>

  /** A tag is served from the cache when it was stored less than the
      lifetime ago. */
  predicate Fresh(cache: PostCache, tag: string, now: real) {
    tag in cache && now - cache[tag].timestamp < CacheLifetime
  }

  /** What the external API gave: a network failure, a body that is not
      JSON, or a list of posts. */
  datatype Upstream = NetworkFailure | Malformed | Posts(posts: seq<Post>)

  /** The answer: the pictures, 404 for an empty post list, 500 on failure. */
  datatype Answer = Pictures(pictures: seq<Picture>) | NoResults | Failed

  datatype Served = Served(answer: Answer, cache: PostCache)

  /** `fetch_r34_tags` at time `now`; `upstream` is what the API would
      answer and `stored` the clock reading when the answer is cached. */
  function FetchTag(cache: PostCache, tag: string, now: real, upstream: Upstream, stored: real): (r: Served)
    ensures Fresh(cache, tag, now) ==> r == Served(Pictures(cache[tag].data), cache)
    ensures r.cache != cache ==> r.answer.Pictures? && r.cache == cache[tag := Entry(stored, r.answer.pictures)]
  {
    if Fresh(cache, tag, now) then Served(Pictures(cache[tag].data), cache)
    else match upstream
      case NetworkFailure => Served(Failed, cache)
      case Malformed => Served(Failed, cache)
      case Posts(posts) =>
        if |posts| == 0 then Served(NoResults, cache)
        else
          var pictures := Keep(posts);
          Served(Pictures(pictures), cache[tag := Entry(stored, pictures)])
  }

  /** A fetched answer is reused: asking again within the lifetime gives the
      same pictures whatever the API would say now, and leaves the cache as
      it is. */
  lemma CachedAnswerReused(cache: PostCache, tag: string, now: real, posts: seq<Post>, stored: real, later: real, upstream: Upstream, stored2: real)
    requires !Fresh(cache, tag, now) && |posts| > 0
    requires later - stored < CacheLifetime
    ensures var first := FetchTag(cache, tag, now, Posts(posts), stored);
      && first.answer == Pictures(Keep(posts))
      && FetchTag(first.cache, tag, later, upstream, stored2) == first
  {
  }

  /** A stale entry is fetched again; a failure leaves the stale entry in
      place and answers 500. */
  lemma StaleEntryRefetched(cache: PostCache, tag: string, now: real, stored: real)
    requires tag in cache && now - cache[tag].timestamp >= CacheLifetime
    ensures FetchTag(cache, tag, now, NetworkFailure, stored) == Served(Failed, cache)
    ensures FetchTag(cache, tag, now, Posts([]), stored) == Served(NoResults, cache)
  {
  }

  /** Posts without a file url or without tags are dropped; an API answer of
      only such posts is an empty picture list, not a 404. */
  lemma IncompletePostsDropped(cache: PostCache, tag: string, now: real, stored: real)
    requires !Fresh(cache, tag, now)
    ensures var r := FetchTag(cache, tag, now, Posts([Post(Some("u"), Some("")), Post(None, Some("t"))]), stored);
      r.answer == Pictures([]) && tag in r.cache
  {
    var posts := [Post(Some("u"), Some("")), Post(None, Some("t"))];
    assert Keep(posts[1..]) == [];
  }
}
