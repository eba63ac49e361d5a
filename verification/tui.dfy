/** The text-mode client (tui_client/main.py): it prints the lines of a
    fetched page, numbers the links it finds, and reads commands; a number
    follows a link, anything else is turned into a location to fetch. */
module Tui {
  import opened Wrappers
  import opened Text

  // ---------------------------------------------------------------------
  // Locations

  /** `fetch_and_render`'s guess at a scheme: a location without `://`
      gets `http://` in front. */
  function NormalizeUrl(url: string): (r: string)
    ensures ContainsSub(r, "://")
    ensures ContainsSub(url, "://") ==> r == url
    ensures !ContainsSub(url, "://") ==> r == "http://" + url
  {
    if ContainsSub(url, "://") then url
    else
      var r := "http://" + url;
      assert OccursAt(r, "://", 4);
      r
  }

  /** Normalising twice is normalising once. */
  lemma NormalizeIdempotent(url: string)
    ensures NormalizeUrl(NormalizeUrl(url)) == NormalizeUrl(url)
  {
  }

  /** A link target that is a path on the server (`/website/...`) gets no
      host: the client asks for `http:///website/...`. */
  lemma RelativeHrefHasNoHost(path: string)
    requires !ContainsSub(path, "://")
    ensures NormalizeUrl("/" + path) == "http:///" + path
  {
    var s := "/" + path;
    forall j: nat
      ensures !OccursAt(s, "://", j)
    {
      if j == 0 {
        assert s[0] == '/';
      } else if j + 3 <= |s| {
        assert s[j..j + 3] == path[j - 1..j + 2];
        assert !OccursAt(path, "://", j - 1);
      }
    }
  }

  // ---------------------------------------------------------------------
  // What the client prints

  /** A printed line. `Numbered` and `Hit` carry their number; `target` is
      the link the number stands for (the `<a>` line prints only the
      number and the text). */
  datatype Note =
    | Line(text: string)
    | Entry(text: string)
    | Numbered(n: nat, text: string, target: string)
    | PictureNote(url: string)
    | BackgroundNote(colour: string)
    | ScriptNote
    | Hit(n: nat, url: string, content: string)
    | NoneFound

  /** What one markup line does: nothing, print a line, add a link, or
      raise an IndexError that nothing catches. */
  datatype Effect = Nothing | Show(note: Note) | Link(text: string, target: string) | Crash

  /** The text before the first `href`, and the text between it and the
      next `href` (or the end): the first two parts of `s.split("href")`. */
  function HrefParts(s: string): (r: Option<(string, string)>)
    ensures r.None? <==> !ContainsSub(s, "href")
    ensures r.Some? ==> exists i :: 0 <= i <= |s| - 4 && r.value.0 == s[..i] && s[i..i + 4] == "href" && !ContainsSub(r.value.0, "href")
  {
    match FindSub(s, "href")
    case None => None
    case Some(i) =>
      var after := s[i + 4..];
      var second := match FindSub(after, "href") case None => after case Some(j) => after[..j];
      BeforeFirstOccurrence(s, "href");
      Some((s[..i], second))
  }

  /** An `<a>` line: a link to the first word after the first `href`,
      labelled with the text before it; nothing without `href`; an
      IndexError when no word follows. */
  function AnchorEffect(s: string): Effect {
    match HrefParts(s)
    case None => Nothing
    case Some((before, between)) =>
      var words := SplitWhitespace(between);
      if |words| == 0 then Crash else Link(Strip(Replace(before, "<a>", "")), words[0])
  }

  /** `s.split()[1]` of an `<img>` or `<mainbg>` line; None is the
      IndexError. */
  function Operand(s: string): (r: Option<string>)
    ensures r.Some? <==> |SplitWhitespace(s)| >= 2
  {
    var words := SplitWhitespace(s);
    if |words| < 2 then None else Some(words[1])
  }

  /** The effect of a stripped line starting with `<`, by the first tag
      it starts with; unknown tags print nothing. */
  function TagEffect(s: string): (r: Effect)
    ensures r.Show? ==> !r.note.Numbered? && !r.note.Hit?
  {
    if StartsWith(s, "<t>") then
      Show(Line(Strip(Replace(Replace(SplitOn(s, ';')[0], "<t>", ""), " <nl> ", "\n"))))
    else if StartsWith(s, "<e>") then
      Show(Entry(Strip(Replace(SplitOn(s, ';')[0], "<e>", ""))))
    else if StartsWith(s, "<a>") then AnchorEffect(s)
    else if StartsWith(s, "<img>") then
      match Operand(s) case None => Crash case Some(url) => Show(PictureNote(url))
    else if StartsWith(s, "<mainbg>") then
      match Operand(s) case None => Crash case Some(colour) => Show(BackgroundNote(colour))
    else if StartsWith(s, "<script>") then Show(ScriptNote)
    else Nothing
  }

  /** The effect of one line of markup: a line whose stripped form does not
      start with `<` prints nothing. */
  function LineEffect(line: string): (r: Effect)
    ensures r.Show? ==> !r.note.Numbered? && !r.note.Hit?
    ensures !StartsWith(Strip(line), "<") ==> r == Nothing
    ensures r.Link? ==> StartsWith(Strip(line), "<a>")
    ensures r.Crash? ==> StartsWith(Strip(line), "<a>") || StartsWith(Strip(line), "<img>") || StartsWith(Strip(line), "<mainbg>")
  {
    var s := Strip(line);
    if StartsWith(s, "<") then TagEffect(s) else Nothing
  }

  /** What a fetch leaves: a failed request (connection, HTTP status or
      JSON error), the printed lines with the collected links, or the
      client ended by an uncaught error. */
  datatype View = Failed | Shown(notes: seq<Note>, links: seq<string>) | Crashed

  /** The effects of the lines in order, numbering each link one past the
      links collected so far; the first crash ends the client. */
  function RenderEffects(effects: seq<Effect>, notes: seq<Note>, links: seq<string>): (r: View)
    ensures !r.Failed?
    ensures (forall i :: 0 <= i < |effects| ==> !effects[i].Crash?) ==> r.Shown?
    ensures r.Shown? ==> |links| <= |r.links| && r.links[..|links|] == links
    decreases |effects|
  {
    if |effects| == 0 then Shown(notes, links)
    else match effects[0]
      case Nothing => RenderEffects(effects[1..], notes, links)
      case Show(note) => RenderEffects(effects[1..], notes + [note], links)
      case Link(text, target) => RenderEffects(effects[1..], notes + [Numbered(|links| + 1, text, target)], links + [target])
      case Crash => Crashed
  }

  /** The effect of each markup line, in order. */
  function Effects(lines: seq<string>): (r: seq<Effect>)
    ensures |r| == |lines|
    ensures forall i :: 0 <= i < |lines| ==> r[i] == LineEffect(lines[i])
  {
    seq(|lines|, i requires 0 <= i < |lines| => LineEffect(lines[i]))
  }

  /** The markup lines of a page, printed in order. */
  function RenderLines(lines: seq<string>, notes: seq<Note>, links: seq<string>): (r: View)
    ensures !r.Failed?
    ensures (forall i :: 0 <= i < |lines| ==> !LineEffect(lines[i]).Crash?) ==> r.Shown?
    ensures r.Shown? ==> |links| <= |r.links| && r.links[..|links|] == links
  {
    RenderEffects(Effects(lines), notes, links)
  }

  /** An element of a JSON list answer: an object, with its `url` and
      `content` fields when present, or anything else. */
  datatype Item = Record(url: Option<string>, content: Option<string>) | Other

  /** The objects with both a url and a content, in order; each is printed
      with its number and its url becomes a link. */
  function ListHits(items: seq<Item>, notes: seq<Note>, links: seq<string>): (r: View)
    ensures r.Shown?
    decreases |items|
  {
    if |items| == 0 then Shown(notes, links)
    else match items[0]
      case Record(Some(u), Some(c)) => ListHits(items[1..], notes + [Hit(|links| + 1, u, c)], links + [u])
      case _ => ListHits(items[1..], notes, links)
  }

  /** The server's answer: a failure, a JSON list, a JSON object (its
      `markup` field, and its `source_code` field when that is an object,
      with the `markup` field of that), or any other JSON value. */
  datatype Response =
    | Unreachable
    | List(items: seq<Item>)
    | Object(markup: Option<seq<string>>, source: Option<Option<seq<string>>>)
    | Scalar

  /** The markup lines of an object answer: the top-level `markup`, or when
      that is absent the one in `source_code`; an empty list prints
      nothing either way. */
  function MarkupOf(markup: Option<seq<string>>, source: Option<Option<seq<string>>>): (r: seq<string>)
    ensures markup.Some? ==> r == markup.value
    ensures markup.None? && source.Some? && source.value.Some? ==> r == source.value.value
    ensures markup.None? && (source.None? || source.value.None?) ==> r == []
  {
    var m := if markup.None? && source.Some? then source.value else markup;
    m.GetOr([])
  }

  /** `fetch_and_render` once the request is answered. */
  function FetchAndRender(response: Response): View {
    match response
    case Unreachable => Failed
    case List(items) => ListHits(items, if |items| == 0 then [NoneFound] else [], [])
    case Object(markup, source) => RenderLines(MarkupOf(markup, source), [], [])
    case Scalar => Shown([], [])
  }

  // ---------------------------------------------------------------------
  // Link numbering

  /** The numbers printed with links, and the links they stand for. */
  function LabelOf(note: Note): seq<(nat, string)> {
    match note
    case Numbered(n, _, target) => [(n, target)]
    case Hit(n, url, _) => [(n, url)]
    case _ => []
  }

  /** The labels of the printed lines, in order. */
  function Labels(notes: seq<Note>): seq<(nat, string)>
    decreases |notes|
  {
    if |notes| == 0 then [] else Labels(notes[..|notes| - 1]) + LabelOf(notes[|notes| - 1])
  }

  /** Link `i` numbered `i + 1`. */
  function Numbering(links: seq<string>): (r: seq<(nat, string)>)
    ensures |r| == |links|
    ensures forall i :: 0 <= i < |links| ==> r[i] == (i + 1, links[i])
  {
    seq(|links|, i requires 0 <= i < |links| => (i + 1, links[i]))
  }

  lemma LabelsAppend(notes: seq<Note>, note: Note)
    ensures Labels(notes + [note]) == Labels(notes) + LabelOf(note)
  {
    assert (notes + [note])[..|notes|] == notes;
  }

  lemma NumberingAppend(links: seq<string>, target: string)
    ensures Numbering(links + [target]) == Numbering(links) + [(|links| + 1, target)]
  {
  }

  /** No line prints a numbered note by itself. */
  predicate Unnumbered(effects: seq<Effect>) {
    forall i :: 0 <= i < |effects| && effects[i].Show? ==> !effects[i].note.Numbered? && !effects[i].note.Hit?
  }

  /** Rendering keeps the printed numbers and the links in step. */
  lemma {:induction false} RenderEffectsNumbers(effects: seq<Effect>, notes: seq<Note>, links: seq<string>)
    requires Unnumbered(effects) && Labels(notes) == Numbering(links)
    ensures var v := RenderEffects(effects, notes, links);
      v.Shown? ==> Labels(v.notes) == Numbering(v.links)
    decreases |effects|
  {
    if |effects| > 0 {
      assert Unnumbered(effects[1..]) by {
        forall i | 0 <= i < |effects[1..]| && effects[1..][i].Show?
          ensures !effects[1..][i].note.Numbered? && !effects[1..][i].note.Hit?
        {
          assert effects[1..][i] == effects[i + 1];
        }
      }
      match effects[0]
      case Nothing =>
        RenderEffectsNumbers(effects[1..], notes, links);
      case Show(note) =>
        LabelsAppend(notes, note);
        RenderEffectsNumbers(effects[1..], notes + [note], links);
      case Link(text, target) =>
        LabelsAppend(notes, Numbered(|links| + 1, text, target));
        NumberingAppend(links, target);
        RenderEffectsNumbers(effects[1..], notes + [Numbered(|links| + 1, text, target)], links + [target]);
      case Crash =>
    }
  }

  /** Listing results keeps the printed numbers and the links in step. */
  lemma {:induction false} ListHitsNumbers(items: seq<Item>, notes: seq<Note>, links: seq<string>)
    requires Labels(notes) == Numbering(links)
    ensures var v := ListHits(items, notes, links);
      Labels(v.notes) == Numbering(v.links)
    decreases |items|
  {
    if |items| > 0 {
      match items[0]
      case Record(Some(u), Some(c)) =>
        LabelsAppend(notes, Hit(|links| + 1, u, c));
        NumberingAppend(links, u);
        ListHitsNumbers(items[1..], notes + [Hit(|links| + 1, u, c)], links + [u]);
      case _ =>
        ListHitsNumbers(items[1..], notes, links);
    }
  }

  /** Whatever the page, the links are numbered 1, 2, ... in the order they
      are printed, and number `n` is printed next to link `n - 1` of the
      list the client keeps. */
  lemma RenderNumbersLinks(response: Response)
    ensures var v := FetchAndRender(response);
      v.Shown? ==> Labels(v.notes) == Numbering(v.links)
  {
    match response
    case Unreachable =>
    case List(items) =>
      ListHitsNumbers(items, if |items| == 0 then [NoneFound] else [], []);
    case Object(markup, source) =>
      RenderEffectsNumbers(Effects(MarkupOf(markup, source)), [], []);
    case Scalar =>
  }

  /** The links of a result list are the urls of the complete records, in
      order. */
  function RecordUrls(items: seq<Item>): seq<string>
    decreases |items|
  {
    if |items| == 0 then []
    else match items[0]
      case Record(Some(u), Some(_)) => [u] + RecordUrls(items[1..])
      case _ => RecordUrls(items[1..])
  }

  lemma {:induction false} ListHitsLinks(items: seq<Item>, notes: seq<Note>, links: seq<string>)
    ensures ListHits(items, notes, links).links == links + RecordUrls(items)
    decreases |items|
  {
    if |items| > 0 {
      match items[0]
      case Record(Some(u), Some(c)) =>
        ListHitsLinks(items[1..], notes + [Hit(|links| + 1, u, c)], links + [u]);
        assert links + [u] + RecordUrls(items[1..]) == links + ([u] + RecordUrls(items[1..]));
      case _ =>
        ListHitsLinks(items[1..], notes, links);
    }
  }

  /** A result list links exactly the records with both fields. */
  lemma ResultLinks(items: seq<Item>)
    ensures FetchAndRender(List(items)).links == RecordUrls(items)
  {
    ListHitsLinks(items, if |items| == 0 then [NoneFound] else [], []);
  }

  // ---------------------------------------------------------------------
  // Single lines

  /** A line whose stripped form does not start with `<` prints nothing. */
  lemma PlainLineIgnored(line: string)
    requires !StartsWith(Strip(line), "<")
    ensures LineEffect(line) == Nothing
  {
  }

  /** An `<a>` line without `href` adds no link. */
  lemma LinkWithoutHref(line: string)
    requires StartsWith(Strip(line), "<a>") && !ContainsSub(Strip(line), "href")
    ensures LineEffect(line) == Nothing
  {
    assert Strip(line)[..1] == "<";
  }

  /** A stripped line starting with `<a>` is read as a link line. */
  lemma AnchorLine(line: string)
    requires StartsWith(Strip(line), "<a>")
    ensures LineEffect(line) == AnchorEffect(Strip(line))
  {
    var s := Strip(line);
    assert StartsWith(s, "<") by {
      assert s[..1] == "<";
    }
    assert !StartsWith(s, "<t>") && !StartsWith(s, "<e>") by {
      assert s[..3][1] == 'a';
    }
  }

  /** `href` cannot straddle the end of a text it is appended to: no
      proper suffix of it is a prefix of it. */
  lemma NoStraddle(before: string, after: string)
    ensures forall i: nat :: i < |before| < i + 4 ==> !OccursAt(before + "href" + after, "href", i)
  {
    var s := before + "href" + after;
    forall i: nat | i < |before| < i + 4
      ensures !OccursAt(s, "href", i)
    {
      assert s[|before|] == 'h';
      if i + 4 <= |s| {
        assert s[i..i + 4][|before| - i] == s[|before|];
      }
    }
  }

  /** The first `href` of `before + "href" + after` is the one after
      `before` when `before` holds none. */
  lemma FirstHref(before: string, after: string)
    requires !ContainsSub(before, "href")
    ensures FindSub(before + "href" + after, "href") == Some(|before|)
  {
    var s := before + "href" + after;
    NoStraddle(before, after);
    assert OccursAt(s, "href", |before|) by {
      assert s[|before|..|before| + 4] == "href";
    }
    var i := FindSub(s, "href").value;
    if i + 4 <= |before| {
      assert before[i..i + 4] == s[i..i + 4];
      assert OccursAt(before, "href", i);
    }
  }

  /** `" " + url + rest` splits to `url` first. */
  lemma FirstWord(url: string, rest: string)
    requires IsToken(url) && (|rest| == 0 || rest[0] == ' ')
    ensures SplitWhitespace(" " + url + rest) == [url] + SplitWhitespace(rest)
  {
    var t := url + rest;
    assert " " + url + rest == " " + t;
    assert t[0] == url[0];
    SplitAfterToken(url, rest);
    SplitLeadingSpace(t);
  }

  /** The link of `before href url rest`, read from the stripped line. */
  lemma AnchorTarget(s: string, before: string, url: string, rest: string)
    requires s == before + "href" + (" " + url + rest)
    requires !ContainsSub(before, "href")
    requires IsToken(url) && (|rest| == 0 || rest[0] == ' ')
    requires !ContainsSub(" " + url + rest, "href")
    ensures AnchorEffect(s) == Link(Strip(Replace(before, "<a>", "")), url)
  {
    FirstHref(before, " " + url + rest);
    assert s[|before| + 4..] == " " + url + rest;
    assert s[..|before|] == before;
    assert HrefParts(s) == Some((before, " " + url + rest));
    FirstWord(url, rest);
  }

  /** The target of an `<a>` line is the first word after its first `href`:
      for `<a> text ; href url ...` with no other `href` after the first. */
  lemma LinkTarget(line: string, before: string, url: string, rest: string)
    requires Strip(line) == before + "href" + (" " + url + rest)
    requires StartsWith(before, "<a>") && !ContainsSub(before, "href")
    requires IsToken(url) && (|rest| == 0 || rest[0] == ' ')
    requires !ContainsSub(" " + url + rest, "href")
    ensures LineEffect(line) == Link(Strip(Replace(before, "<a>", "")), url)
  {
    assert Strip(line)[..3] == before[..3];
    AnchorLine(line);
    AnchorTarget(Strip(line), before, url, rest);
  }

  /** A stripped line starting with `<img>` shows its second word as a
      picture, or ends the client when there is none. */
  lemma ImageLine(line: string)
    requires StartsWith(Strip(line), "<img>")
    ensures LineEffect(line) == match Operand(Strip(line)) case None => Crash case Some(url) => Show(PictureNote(url))
  {
    var s := Strip(line);
    assert s[..1] == "<";
    ImageTag(s);
  }

  lemma ImageTag(s: string)
    requires StartsWith(s, "<img>")
    ensures TagEffect(s) == match Operand(s) case None => Crash case Some(url) => Show(PictureNote(url))
  {
    assert !StartsWith(s, "<t>") && !StartsWith(s, "<e>") && !StartsWith(s, "<a>") by {
      assert s[..3][1] == 'i';
    }
  }

  /** An image line with nothing after the tag word ends the client with an
      uncaught IndexError. */
  lemma MissingOperandCrashes(line: string)
    requires Strip(line) == "<img>"
    ensures LineEffect(line) == Crash
  {
    var tag := "<img>";
    assert IsToken(tag);
    assert SplitWhitespace(tag) == [tag] by {
      SplitAfterToken(tag, "");
      assert tag + "" == tag;
    }
    assert StartsWith(tag, "<img>");
    ImageLine(line);
  }

  /** A page whose markup is an empty list prints nothing and has no links,
      even when its source record carries markup of its own. */
  lemma EmptyMarkupShadowsSource(source: seq<string>)
    ensures FetchAndRender(Object(Some([]), Some(Some(source)))) == Shown([], [])
  {
  }

  /** A page without top-level markup shows the markup of its source. */
  lemma SourceMarkupUsed(source: seq<string>)
    ensures FetchAndRender(Object(None, Some(Some(source)))) == RenderLines(source, [], [])
  {
  }

  // ---------------------------------------------------------------------
  // The command loop

  const QuitWords: seq<string> := ["exit", "quit", "q"]

  /** What the user typed means: leave, follow a numbered link, complain
      about the number, or load a location. */
  datatype Command = Quit | Follow(url: string) | Invalid | Load(url: string)

  /** Whether a typed location already names a scheme the client knows. */
  predicate HasScheme(input: string) {
    StartsWith(input, "http://") || StartsWith(input, "https://") || StartsWith(input, "homepage://")
  }

  /** A typed location: kept with a known scheme, a path on the server, or
      a search on the server (spaces written `%20`). Input with and without
      spaces takes separate branches that agree: both are the search for
      the input with every space written `%20`, and no space is left. */
  function Address(input: string, server: string): (r: string)
    ensures HasScheme(input) ==> r == input
    ensures !HasScheme(input) && StartsWith(input, "/") ==> r == "http://" + server + input
    ensures !HasScheme(input) && !StartsWith(input, "/") ==>
      r == "http://" + server + "/search/" + Replace(input, " ", "%20")
      && ' ' !in r[|"http://" + server + "/search/"|..]
  {
    var search := "http://" + server + "/search/";
    if HasScheme(input) then input
    else if StartsWith(input, "/") then "http://" + server + input
    else if ' ' in input then
      ReplaceRemovesChar(input, ' ', "%20");
      assert (search + Replace(input, " ", "%20"))[|search|..] == Replace(input, " ", "%20");
      search + Replace(input, " ", "%20")
    else
      assert Replace(input, " ", "%20") == input by {
        ReplaceSkipsPrefix(input, "", " ", "%20");
        assert input + "" == input;
      }
      assert (search + input)[|search|..] == input;
      search + input
  }

  /** One line of input, given the links of the page shown (None after a
      failed fetch). */
  function Classify(input: string, links: Option<seq<string>>, server: string): (r: Command)
    ensures r.Quit? <==> Lower(input) in QuitWords
    ensures r.Load? ==> r.url == Address(input, server)
  {
    if Lower(input) in QuitWords then Quit
    else if IsDecimal(input) then
      var index := DigitsValue(input) - 1;
      if links.Some? && |links.value| > 0 && 0 <= index < |links.value| then Follow(links.value[index]) else Invalid
    else Load(Address(input, server))
  }

  /** The quit words are recognised in any letter case. */
  lemma QuitAnyCase(links: Option<seq<string>>, server: string)
    ensures Classify("EXIT", links, server) == Quit
    ensures Classify("Quit", links, server) == Quit
    ensures Classify("Q", links, server) == Quit
  {
    assert Lower("EXIT") == "exit";
    assert Lower("Quit") == "quit";
    assert Lower("Q") == "q";
  }

  /** A number never spells a quit word. */
  lemma DecimalIsNotQuit(input: string)
    requires IsDecimal(input)
    ensures Lower(input) !in QuitWords
  {
    assert Lower(input)[0] == input[0];
  }

  /** A number `n` follows link `n - 1` when there is one; otherwise (no
      links, a failed page, `0`, or too large) it is refused and never
      taken for a search. */
  lemma NumberSelects(input: string, links: Option<seq<string>>, server: string)
    requires IsDecimal(input)
    ensures var n := DigitsValue(input);
      && (Classify(input, links, server).Follow? <==> links.Some? && 1 <= n <= |links.value|)
      && (links.Some? && 1 <= n <= |links.value| ==> Classify(input, links, server) == Follow(links.value[n - 1]))
      && (!(links.Some? && 1 <= n <= |links.value|) ==> Classify(input, links, server) == Invalid)
  {
    DecimalIsNotQuit(input);
  }

  /** Every typed location has a scheme, so the fetch does not change it. */
  lemma AddressHasScheme(input: string, server: string)
    ensures var a := Address(input, server);
      (StartsWith(a, "http://") || StartsWith(a, "https://") || StartsWith(a, "homepage://"))
      && NormalizeUrl(a) == a
  {
    var a := Address(input, server);
    if StartsWith(input, "http://") || StartsWith(input, "https://") || StartsWith(input, "homepage://") {
      if StartsWith(input, "http://") {
        assert OccursAt(a, "://", 4);
      } else if StartsWith(input, "https://") {
        assert OccursAt(a, "://", 5);
      } else {
        assert OccursAt(a, "://", 8);
      }
    } else {
      assert a[..7] == "http://";
      assert OccursAt(a, "://", 4);
    }
  }

  /** Typed words with a space search the server with no space left in the
      location. */
  lemma SearchHasNoSpace(input: string, server: string)
    requires ' ' in input && ' ' !in server && !StartsWith(input, "/")
    requires !StartsWith(input, "http://") && !StartsWith(input, "https://") && !StartsWith(input, "homepage://")
    ensures Address(input, server) == "http://" + server + "/search/" + Replace(input, " ", "%20")
    ensures ' ' !in Address(input, server)
  {
    ReplaceRemovesChar(input, ' ', "%20");
  }

  /** The text client has no host-name rule: a dotted name is a search. */
  lemma DottedNameIsSearch(input: string, server: string)
    requires input == "example.com"
    ensures Address(input, server) == "http://" + server + "/search/" + input
  {
    assert !StartsWith(input, "http://") && !StartsWith(input, "https://") && !StartsWith(input, "homepage://") && !StartsWith(input, "/") by {
      assert input[0] == 'e';
    }
    assert ' ' !in input by {
      forall i | 0 <= i < |input|
        ensures input[i] != ' '
      {
      }
    }
  }

  /** What the loop holds after a line of input: the links of the page
      shown (None after a failed fetch), or the client has ended. */
  datatype Loop = Running(links: Option<seq<string>>) | Exited | Died

  /** The links a fetch leaves for the next command. */
  function After(v: View): (r: Loop)
    ensures r.Running? <==> !v.Crashed?
    ensures v.Shown? ==> r == Running(Some(v.links))
  {
    match v
    case Failed => Running(None)
    case Shown(_, links) => Running(Some(links))
    case Crashed => Died
  }

  /** One turn of `main_loop`: `response` is what the server answers to the
      location fetched, if any. */
  function Step(links: Option<seq<string>>, input: string, server: string, response: Response): (r: Loop)
    ensures Classify(input, links, server).Invalid? ==> r == Running(links)
    ensures Classify(input, links, server).Quit? ==> r == Exited
  {
    match Classify(input, links, server)
    case Quit => Exited
    case Invalid => Running(links)
    case Follow(_) => After(FetchAndRender(response))
    case Load(_) => After(FetchAndRender(response))
  }

  /** After a page is shown, typing the number printed next to a link
      follows exactly that link. */
  lemma FollowPrintedNumber(response: Response, server: string, i: nat, next: Response)
    requires FetchAndRender(response).Shown?
    requires i < |Labels(FetchAndRender(response).notes)|
    ensures var v := FetchAndRender(response);
      var (n, target) := Labels(v.notes)[i];
      Classify(NatToString(n), Some(v.links), server) == Follow(target)
  {
    var v := FetchAndRender(response);
    RenderNumbersLinks(response);
    var (n, target) := Labels(v.notes)[i];
    assert n == i + 1 && target == v.links[i];
    NatToStringValue(n);
    NumberSelects(NatToString(n), Some(v.links), server);
  }

  /** After a failed fetch every number is refused, and the client keeps
      waiting for input. */
  lemma NumbersAfterFailure(input: string, server: string, response: Response)
    requires IsDecimal(input)
    ensures Step(None, input, server, response) == Running(None)
  {
    DecimalIsNotQuit(input);
  }
}
