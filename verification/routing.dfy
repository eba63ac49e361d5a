/** Where the graphical client goes for what the user typed (main.py
    `_perform_search` and `_fetch_and_render_page`): the built-in homepage,
    a wiki search on the configured server, a local file, or an HTTP GET of
    a URL derived from the text. */
module Routing {
  import opened Text

  /** What a location leads to. */
  datatype Request =
    | Homepage
    | WikiFetch(term: string, url: string)
    | FileRead(path: string)
    | HttpGet(url: string)

  /** `http://{server}/wiki_search/`. */
  function WikiPrefix(server: string): string {
    "http://" + server + "/wiki_search/"
  }

  /** The location the `wiki_search` command visits for a text. */
  function WikiLocation(server: string, text: string): string {
    WikiPrefix(server) + text
  }

  /** A bare text with no scheme: a search on the server when it holds a
      space or looks like no host name (neither `.` nor `:`), otherwise the
      text taken as a host with `http://` in front. */
  function Bare(server: string, url: string): (r: string)
    ensures (' ' in url || ('.' !in url && ':' !in url)) <==> r == "http://" + server + "/search/" + url
    ensures !(' ' in url || ('.' !in url && ':' !in url)) <==> r == "http://" + url
    ensures StartsWith(r, "http://")
  {
    if ' ' in url || !('.' in url || ':' in url) then
      assert ("http://" + (server + "/search/" + url))[..7] == "http://";
      "http://" + (server + "/search/" + url)
    else
      assert ("http://" + url)[..7] == "http://";
      "http://" + url
  }

  /** `_fetch_and_render_page`'s choice for a location that is neither the
      homepage nor a wiki search. */
  function Fetch(server: string, url: string): (r: Request)
    ensures r.FileRead? <==> StartsWith(url, "file://")
    ensures r.HttpGet? <==> !StartsWith(url, "file://")
    ensures r.HttpGet? ==> StartsWith(r.url, "http://") || StartsWith(r.url, "https://")
  {
    if StartsWith(url, "file://") then FileRead(Replace(url, "file://", ""))
    else if StartsWith(url, "http://") || StartsWith(url, "https://") then HttpGet(url)
    else HttpGet(Bare(server, url))
  }

  /** A location starting with `/` is a path on the configured server. */
  function Absolute(server: string, terms: string): (r: string)
    ensures StartsWith(terms, "/") ==> r == "http://" + server + terms
    ensures !StartsWith(terms, "/") ==> r == terms
    ensures !StartsWith(r, "/")
  {
    if StartsWith(terms, "/") then
      assert ("http://" + (server + terms))[0] == 'h';
      "http://" + (server + terms)
    else terms
  }

  /** The whole routing of a location: the homepage in any letter case,
      a wiki fetch under the wiki prefix, a file read for a `file://`
      location, and otherwise a GET of an `http://` or `https://` URL. */
  function Route(server: string, terms: string): (r: Request)
    ensures r.Homepage? <==> Lower(terms) == "homepage://"
    ensures r.WikiFetch? <==> Lower(terms) != "homepage://" && StartsWith(terms, WikiPrefix(server))
    ensures r.WikiFetch? ==> StartsWith(r.url, WikiPrefix(server))
    ensures r.FileRead? <==> Lower(terms) != "homepage://" && !StartsWith(terms, WikiPrefix(server)) && StartsWith(Absolute(server, terms), "file://")
    ensures r.HttpGet? ==> StartsWith(r.url, "http://") || StartsWith(r.url, "https://")
  {
    if Lower(terms) == "homepage://" then Homepage
    else if StartsWith(terms, WikiPrefix(server)) then
      var term := Replace(terms, WikiPrefix(server), "");
      WikiFetch(term, WikiPrefix(server) + term)
    else Fetch(server, Absolute(server, terms))
  }

  /** What the address bar shows while a page loads. */
  function AddressText(server: string, terms: string): (r: string)
    ensures ' ' !in r
  {
    ReplaceRemovesChar(Absolute(server, terms), ' ', "%20");
    Replace(Absolute(server, terms), " ", "%20")
  }

  /** Every GET goes to an `http://` or `https://` URL. */
  lemma GetsAreHttp(server: string, terms: string)
    ensures Route(server, terms).HttpGet? ==>
      StartsWith(Route(server, terms).url, "http://") || StartsWith(Route(server, terms).url, "https://")
  {
    var a := Absolute(server, terms);
    if !StartsWith(a, "file://") && !StartsWith(a, "http://") && !StartsWith(a, "https://") {
      var b := Bare(server, a);
      assert StartsWith(b, "http://") by {
        if ' ' in a || ('.' !in a && ':' !in a) {
          assert b == "http://" + (server + "/search/" + a);
        } else {
          assert b == "http://" + a;
        }
      }
    }
  }

  /** The homepage is recognised whatever its letter case. */
  lemma HomepageAnyCase()
    ensures Route("s", "HomePage://") == Homepage
  {
    assert Lower("HomePage://") == "homepage://";
  }

  /** A text starting with `http` is never taken for the homepage. */
  lemma HttpIsNotHomepage(s: string)
    requires StartsWith(s, "http")
    ensures Lower(s) != "homepage://"
  {
    assert Lower(s)[1] == 't';
  }

  /** Following the GET of a routed location leads to the same GET: the URL
      the client fetched is a fixed point of the routing, unless it falls
      under the wiki prefix. */
  lemma RoutingIsStable(server: string, terms: string)
    requires Route(server, terms).HttpGet?
    requires !StartsWith(Route(server, terms).url, WikiPrefix(server))
    ensures Route(server, Route(server, terms).url) == Route(server, terms)
  {
    GetsAreHttp(server, terms);
    HttpUrlIsFetched(server, Route(server, terms).url);
  }

  /** An `http://` or `https://` URL outside the wiki prefix is fetched as
      it is. */
  lemma HttpUrlIsFetched(server: string, u: string)
    requires StartsWith(u, "http://") || StartsWith(u, "https://")
    requires !StartsWith(u, WikiPrefix(server))
    ensures Route(server, u) == HttpGet(u)
  {
    assert StartsWith(u, "http") by {
      if StartsWith(u, "http://") {
        assert u[..4] == u[..7][..4];
      } else {
        assert u[..4] == u[..8][..4];
      }
    }
    HttpIsNotHomepage(u);
    assert u[0] == 'h';
    assert !StartsWith(u, "/") && !StartsWith(u, "file://");
    assert Absolute(server, u) == u;
  }

  /** The `wiki_search` command reaches the wiki endpoint with its text, as
      long as the text does not itself contain the wiki prefix. */
  lemma WikiSearchRoundTrip(server: string, text: string)
    requires !ContainsSub(text, WikiPrefix(server))
    ensures Route(server, WikiLocation(server, text)) == WikiFetch(text, WikiLocation(server, text))
  {
    var p := WikiPrefix(server);
    var loc := p + text;
    assert StartsWith(loc, p) by {
      assert loc[..|p|] == p;
    }
    assert loc[1] == 't';
    assert Lower(loc)[1] == 't';
    ReplaceAtMatch(text, p, "");
    ReplaceAbsent(text, p, "");
  }

  /** A text of plain words searches the server: `hello world` becomes a
      search with the space kept (the address bar shows `%20`), and a single
      word without `.` or `:` is a search too, not a host name. */
  lemma WordsAreSearches(server: string, words: string)
    requires |words| > 0 && words[0] != '/' && LowerChar(words[0]) != 'h' && words[0] != 'f'
    requires ' ' in words || ('.' !in words && ':' !in words)
    ensures Route(server, words) == HttpGet("http://" + server + "/search/" + words)
  {
    assert Lower(words)[0] != 'h' by {
      assert Lower(words)[0] == LowerChar(words[0]);
    }
    assert !StartsWith(words, WikiPrefix(server)) by {
      assert WikiPrefix(server)[0] == 'h';
    }
    assert !StartsWith(words, "/") && !StartsWith(words, "file://");
    assert !StartsWith(words, "http://") && !StartsWith(words, "https://");
  }

  /** A dotted name without a scheme is taken as a host. */
  lemma HostNameGetsScheme(server: string, host: string)
    requires |host| > 0 && host[0] != '/' && LowerChar(host[0]) != 'h' && host[0] != 'f'
    requires ' ' !in host && ('.' in host || ':' in host)
    ensures Route(server, host) == HttpGet("http://" + host)
  {
    assert Lower(host)[0] != 'h' by {
      assert Lower(host)[0] == LowerChar(host[0]);
    }
    assert !StartsWith(host, WikiPrefix(server)) by {
      assert WikiPrefix(server)[0] == 'h';
    }
    assert !StartsWith(host, "/") && !StartsWith(host, "file://");
    assert !StartsWith(host, "http://") && !StartsWith(host, "https://");
  }

  /** A path on the server is fetched from the server. */
  lemma PathGoesToServer(server: string, path: string)
    requires StartsWith(path, "/")
    ensures Route(server, path) == HttpGet("http://" + server + path)
  {
    assert Lower(path)[0] == '/';
    assert !StartsWith(path, WikiPrefix(server)) by {
      assert WikiPrefix(server)[0] == 'h';
    }
    var u := "http://" + server + path;
    assert StartsWith(u, "http://") by {
      assert u[..7] == "http://";
    }
    assert !StartsWith(u, "file://") by {
      assert u[0] == 'h';
    }
  }
}
