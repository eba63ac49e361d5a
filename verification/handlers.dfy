/** The tag handlers of the graphical client (interpreter.py `handle_*_tag`)
    and the widget factories they call (main.py `_create_label`,
    `_create_button`, `_create_entry`, `_create_image`). A handler reads one
    tag line and adds elements to the page, registering them under their id
    so that scripts can find them later. */
module Handlers {
  import opened Wrappers
  import opened Text
  import opened Markup
  import opened Styles
  import opened Images
  import Gallery

  datatype Kind = Label | Button | Entry | Picture | Frame

  /** What a button does when clicked. `SearchEntry` and `WikiSearchEntry`
      read the entry registered under id "2" at click time. */
  datatype Action =
    | NoAction
    | Navigate(target: Option<string>)
    | SearchEntry
    | WikiSearchEntry

  /** The look an element is given: its font and the colours that were set
      (a colour is set only when it is a non-empty string). */
  datatype Look = Look(font: Option<FontKey>, fg: Option<string>, bg: Option<string>)

  /** An image-tag dimension: absent, all digits, or any other word. */
  datatype Dim = Absent | Whole(n: nat) | Word(w: string)

  /** A shown picture: where it came from and the size it is drawn at. */
  datatype Image = Image(source: string, size: Size)

  /** A widget: its kind, its caption, the value typed into it (entries),
      its click action (buttons), its look and, for pictures, its image. */
  datatype Element = Element(kind: Kind, text: string, value: string, action: Action, look: Look, image: Option<Image>)

  /** What the outside world answers: the image sources that load as
      pictures, with their own sizes, and the gallery records the server
      returns for a tag (a source or tag missing from its map is a failed
      request or an unreadable file). */
  datatype World = World(pictures: map<string, Size>, galleries: map<string, seq<Gallery.ImageInfo>>)

  /** The client's page state: the id registry (each id names a position
      in `shown`), the page's widgets in creation order, the font and style
      caches, the page background, the gallery cursor and the URLs queued
      for the gallery worker. */
  datatype RenderState = RenderState(
    registry: map<string, nat>,
    shown: seq<Element>,
    fonts: FontCache,
    styles: StyleCache,
    background: string,
    gallery: Gallery.Cursor,
    queue: seq<string>)

  ghost predicate Valid(st: RenderState) {
    && (forall id :: id in st.registry ==> st.registry[id] < |st.shown|)
    && FontsValid(st.fonts)
    && StylesValid(st.styles)
  }

  /** What a user sees of the state: everything except the two caches. */
  datatype View = View(registry: map<string, nat>, shown: seq<Element>, background: string, gallery: Gallery.Cursor, queue: seq<string>)

  function ViewOf(st: RenderState): View {
    View(st.registry, st.shown, st.background, st.gallery, st.queue)
  }

  /** The element registered under `id`, if any. In a well-formed state
      every registered id finds a widget on the page. */
  function Lookup(st: RenderState, id: string): (r: Option<Element>)
    ensures r.Some? <==> id in st.registry && st.registry[id] < |st.shown|
    ensures Valid(st) ==> (r.Some? <==> id in st.registry)
    ensures r.Some? ==> r.value in st.shown
  {
    if id in st.registry && st.registry[id] < |st.shown| then Some(st.shown[st.registry[id]]) else None
  }

  /** Python truthiness decides whether a colour is applied. */
  function Colour(o: Option<string>): (r: Option<string>)
    ensures r.Some? <==> Truthy(o)
    ensures r.Some? ==> r == o
  {
    if Truthy(o) then o else None
  }

  /** Adds a widget to the page and registers it under `id` when `id` is a
      non-empty string; a later widget with the same id replaces the earlier
      one in the registry. */
  function Add(st: RenderState, e: Element, id: Option<string>): (r: RenderState)
    ensures r.shown == st.shown + [e]
    ensures r.fonts == st.fonts && r.styles == st.styles && r.background == st.background
    ensures r.gallery == st.gallery && r.queue == st.queue
    ensures Truthy(id) ==> r.registry == st.registry[id.value := |st.shown|]
    ensures !Truthy(id) ==> r.registry == st.registry
    ensures Valid(st) ==> Valid(r)
    ensures Grows(st, r)
  {
    var registry := if Truthy(id) then st.registry[id.value := |st.shown|] else st.registry;
    st.(shown := st.shown + [e], registry := registry)
  }

  /** After adding, the id finds the new widget, and every other id finds
      what it found before. */
  lemma AddThenLookup(st: RenderState, e: Element, id: Option<string>, other: string)
    requires Valid(st)
    ensures Valid(Add(st, e, id))
    ensures Truthy(id) ==> Lookup(Add(st, e, id), id.value) == Some(e)
    ensures (!Truthy(id) || other != id.value) ==> Lookup(Add(st, e, id), other) == Lookup(st, other)
  {
  }

  /** `r` is `st` with `n` more widgets after the ones it had, which are
      left as they were. */
  predicate Appended(st: RenderState, r: RenderState, n: nat) {
    |r.shown| == |st.shown| + n && r.shown[..|st.shown|] == st.shown
  }

  /** Whether the registry changed only by registering position `at` under
      `id`, when `id` is a non-empty string. */
  predicate RegisteredAt(st: RenderState, r: RenderState, id: Option<string>, at: nat) {
    r.registry == if Truthy(id) then st.registry[id.value := at] else st.registry
  }

  /** Every id `r` registers that `st` did not, or registers differently,
      names a widget added after those of `st`. */
  predicate RegistersNew(st: RenderState, r: RenderState) {
    forall id :: id in r.registry ==> (id in st.registry && r.registry[id] == st.registry[id]) || |st.shown| <= r.registry[id]
  }

  /** `r` keeps the widgets of `st` and may add more; ids it registers
      anew name added widgets. */
  predicate Grows(st: RenderState, r: RenderState) {
    |st.shown| <= |r.shown| && r.shown[..|st.shown|] == st.shown && RegistersNew(st, r)
  }

  /** `_create_label`: one label with the text, font and the colours that
      are set, registered under `id`. */
  function CreateLabel(st: RenderState, text: string, id: Option<string>, font: Option<FontKey>, fg: Option<string>, bg: Option<string>): (r: RenderState)
    ensures Appended(st, r, 1) && RegisteredAt(st, r, id, |st.shown|)
    ensures var e := r.shown[|st.shown|];
      e.kind == Label && e.text == text && e.look.font == font && (e.look.fg.Some? <==> Truthy(fg)) && (e.look.bg.Some? <==> Truthy(bg))
  {
    var e := Element(Label, text, "", NoAction, Look(font, Colour(fg), Colour(bg)), None);
    assert (st.shown + [e])[..|st.shown|] == st.shown;
    Add(st, e, id)
  }

  /** `_create_button`: the button's style is looked up (or made) from the
      raw font and colour values; the button is registered under `id`. */
  function CreateButton(st: RenderState, text: string, id: Option<string>, action: Action, font: Option<FontKey>, fg: Option<string>, bg: Option<string>): (r: RenderState)
    ensures Appended(st, r, 1) && RegisteredAt(st, r, id, |st.shown|)
    ensures var e := r.shown[|st.shown|];
      e.kind == Button && e.text == text && e.action == action && e.look.font == font
    ensures r.fonts == st.fonts && StyleKey("Button", font, fg, bg) in r.styles
    ensures StylesValid(st.styles) ==> StylesValid(r.styles)
  {
    var key := StyleKey("Button", font, fg, bg);
    var style := GetStyleName(st.styles, key);
    assert StylesValid(st.styles) ==> StylesValid(style.cache) by {
      if StylesValid(st.styles) {
        GetStyleNameKeepsValid(st.styles, key);
      }
    }
    var e := Element(Button, text, "", action, Look(font, Colour(fg), Colour(bg)), None);
    assert (st.shown + [e])[..|st.shown|] == st.shown;
    Add(st.(styles := style.cache), e, id)
  }

  /** The entry widget `_create_entry` makes (it never registers it). */
  function EntryElement(font: Option<FontKey>, fg: Option<string>, bg: Option<string>): Element {
    Element(Entry, "", "", NoAction, Look(font, Colour(fg), Colour(bg)), None)
  }

  /** An image-tag value: an integer when it is all digits, otherwise the
      string as given, and absent when absent. */
  function ToDim(v: Option<string>): (d: Dim)
    ensures d.Absent? <==> v.None?
    ensures d.Whole? <==> v.Some? && IsDecimal(v.value)
    ensures d.Whole? ==> d.n == DigitsValue(v.value)
    ensures d.Word? ==> d.w == v.value
    ensures d.Whole? ==> ParseInt(v.value) == Some(d.n)
  {
    match v
    case None => Absent
    case Some(s) =>
      if IsDecimal(s) then
        DecimalParses(s);
        Whole(DigitsValue(s))
      else Word(s)
  }

  /** A value `isdigit` accepts is one `int()` reads as the same number. */
  lemma DecimalParses(s: string)
    requires IsDecimal(s)
    ensures ParseInt(s) == Some(DigitsValue(s))
  {
    assert IsGrouped(s) by {
      forall i | 0 <= i < |s|
        ensures GroupedAt(s, i)
      {
      }
    }
    GroupedIsDigits(s);
  }

  /** The resize branch of `_create_image`: `auto` width with an integer
      height scales the width, `auto` height with an integer width scales the
      height, two integers are taken as they are, anything else keeps the
      picture's own size. */
  function ChooseFit(width: Dim, height: Dim): (f: Fit)
    ensures f.Exact? <==> width.Whole? && height.Whole?
    ensures f.WidthFromHeight? <==> width == Word("auto") && height.Whole?
    ensures f.HeightFromWidth? <==> height == Word("auto") && width.Whole?
    ensures f.Exact? ==> f == Exact(width.n, height.n)
    ensures f.WidthFromHeight? ==> f.height == height.n
    ensures f.HeightFromWidth? ==> f.width == width.n
  {
    if width == Word("auto") && height.Whole? then WidthFromHeight(height.n)
    else if height == Word("auto") && width.Whole? then HeightFromWidth(width.n)
    else if width.Whole? && height.Whole? then Exact(width.n, height.n)
    else KeepSize
  }

  /** The size a source is shown at, or None when `_create_image` raises:
      an empty source, one that does not load, or a resize that divides by
      zero or asks for a zero side. */
  function Loaded(src: string, fit: Fit, world: World): (r: Option<Size>)
    ensures r.Some? <==> src != "" && src in world.pictures && Resized(fit, world.pictures[src]).Some?
    ensures r.Some? ==> Drawable(r.value) && r == Target(fit, world.pictures[src])
  {
    if src != "" && src in world.pictures then Resized(fit, world.pictures[src]) else None
  }

  /** `_create_image`: a picture registered under its id when the source
      loads and resizes; otherwise the exception becomes an error label,
      which is never registered. */
  function CreateImage(st: RenderState, src: string, width: Dim, height: Dim, id: Option<string>, world: World): (r: RenderState)
    ensures Appended(st, r, 1)
    ensures r.shown[|st.shown|].kind == Picture <==> Loaded(src, ChooseFit(width, height), world).Some?
    ensures r.shown[|st.shown|].kind == Picture ==>
      r.shown[|st.shown|].image == Some(Image(src, Loaded(src, ChooseFit(width, height), world).value))
      && RegisteredAt(st, r, id, |st.shown|)
    ensures r.shown[|st.shown|].kind != Picture ==>
      r.shown[|st.shown|].kind == Label && r.shown[|st.shown|].text == "Error loading image from " + src
      && r.registry == st.registry
  {
    match Loaded(src, ChooseFit(width, height), world)
    case Some(size) =>
      var e := Element(Picture, "", "", NoAction, Look(None, None, None), Some(Image(src, size)));
      assert (st.shown + [e])[..|st.shown|] == st.shown;
      Add(st, e, id)
    case None =>
      CreateLabel(st, "Error loading image from " + src, None, None, None, None)
  }

  /** The state after a handler and the offset it returns. */
  datatype Step = Step(st: RenderState, next: nat)

  /** The font cache after fetching the font a tag's parameters ask for. */
  function WithFont(st: RenderState, p: Params): RenderState {
    st.(fonts := GetFont(st.fonts, FontKeyOf(p)).cache)
  }

  /** What every content tag does: the scan resumes past the cut, one
      widget of `kind` is added, captioned (on a split line) with the
      content glued around its line breaks, and registered under the tag's
      `id`. */
  predicate TagAdded(st: RenderState, r: Step, tokens: seq<string>, idx: nat, kind: Kind) {
    var s := Cut(tokens, idx);
    && r.next == s.next
    && Appended(st, r.st, 1)
    && RegisteredAt(st, r.st, FirstValue(s.params, "id"), |st.shown|)
    && r.st.shown[|st.shown|].kind == kind
    && (AllTokens(tokens) ==> r.st.shown[|st.shown|].text == GlueJoin(MarkNewlines(s.content)))
  }

  /** `handle_text_tag`: a label with the content, in the tag's font and
      colours, registered under `id`. */
  function TextTag(st: RenderState, tokens: seq<string>, idx: nat): (r: Step)
    ensures Grows(st, r.st)
    ensures TagAdded(st, r, tokens, idx, Label)
  {
    var r := ParseTag(tokens, idx, {});
    var p := r.params;
    Step(CreateLabel(WithFont(st, p), r.content, p.id, Some(FontKeyOf(p)), p.fg, p.bg), r.next)
  }

  /** `handle_link_tag`: a button that navigates to `href` (absent when the
      tag has none), registered under `id`. */
  function LinkTag(st: RenderState, tokens: seq<string>, idx: nat): (r: Step)
    ensures Grows(st, r.st)
    ensures TagAdded(st, r, tokens, idx, Button)
    ensures r.st.shown[|st.shown|].action == Navigate(FirstValue(Cut(tokens, idx).params, "href"))
  {
    var r := ParseTag(tokens, idx, {"href"});
    var p := r.params;
    Step(CreateButton(WithFont(st, p), r.content, p.id, Navigate(p.extra["href"]), Some(FontKeyOf(p)), p.fg, p.bg), r.next)
  }

  /** `handle_entry_tag`: an entry registered under `id`, then a button
      captioned with the content and registered under `btn_id`. */
  function EntryTag(st: RenderState, tokens: seq<string>, idx: nat): (r: Step)
    ensures Grows(st, r.st)
    ensures r.next == Cut(tokens, idx).next && Appended(st, r.st, 2)
    ensures r.st.shown[|st.shown|].kind == Entry && r.st.shown[|st.shown|].value == ""
    ensures r.st.shown[|st.shown| + 1].kind == Button && RegistersNew(st, r.st)
    ensures AllTokens(tokens) ==> r.st.shown[|st.shown| + 1].text == GlueJoin(MarkNewlines(Cut(tokens, idx).content))
  {
    var r := ParseTag(tokens, idx, {"btn_id"});
    Step(EntryWidgets(st, r.params, r.content, r.params.extra["btn_id"]), r.next)
  }

  /** The entry and its button, added after the font lookup. */
  function EntryWidgets(st: RenderState, p: Params, content: string, btnId: Option<string>): (r: RenderState)
    ensures Appended(st, r, 2) && RegistersNew(st, r)
    ensures r.shown[|st.shown|] == EntryElement(Some(FontKeyOf(p)), p.fg, p.bg)
    ensures r.shown[|st.shown| + 1].kind == Button && r.shown[|st.shown| + 1].text == content
  {
    var font := Some(FontKeyOf(p));
    var st1 := Add(WithFont(st, p), EntryElement(font, p.fg, p.bg), p.id);
    var r := CreateButton(st1, content, btnId, NoAction, font, p.fg, p.bg);
    assert r.shown[..|st.shown|] == r.shown[..|st1.shown|][..|st.shown|];
    r
  }

  /** `handle_image_tag`: the content is the image source, `width` and
      `height` choose the resize. */
  function ImageTag(st: RenderState, tokens: seq<string>, idx: nat, world: World): (r: Step)
    ensures Grows(st, r.st)
    ensures r.next == Cut(tokens, idx).next && Appended(st, r.st, 1)
    ensures var ps := Cut(tokens, idx).params;
      var fit := ChooseFit(ToDim(FirstValue(ps, "width")), ToDim(FirstValue(ps, "height")));
      r.st.shown[|st.shown|].kind == Picture <==> Loaded(ParseTag(tokens, idx, {"width", "height"}).content, fit, world).Some?
  {
    var r := ParseTag(tokens, idx, {"width", "height"});
    var p := r.params;
    Step(CreateImage(st, r.content, ToDim(p.extra["width"]), ToDim(p.extra["height"]), p.id, world), r.next)
  }

  /** `handle_mainbg_tag`: the token after the tag is the colour, and the
      scan resumes one past the next `:` after it. */
  function MainbgTag(st: RenderState, tokens: seq<string>, idx: nat): (r: Step)
    ensures Grows(st, r.st)
    ensures r.st.shown == st.shown && r.st.registry == st.registry && r.st.queue == st.queue
    ensures idx + 1 < |tokens| && tokens[idx + 1] != "" ==> r.st.background == tokens[idx + 1]
    ensures !(idx + 1 < |tokens| && tokens[idx + 1] != "") ==> r.st == st
    ensures idx + 3 <= r.next
  {
    var colour := if idx + 1 < |tokens| then Some(tokens[idx + 1]) else None;
    var next := ScanTo(tokens, idx + 2, ParamsEnd) + 1;
    Step(if Truthy(colour) then st.(background := colour.value) else st, next)
  }

  /** `handle_button_tag`: a button without action, registered under `id`. */
  function ButtonTag(st: RenderState, tokens: seq<string>, idx: nat): (r: Step)
    ensures Grows(st, r.st)
    ensures TagAdded(st, r, tokens, idx, Button)
    ensures r.st.shown[|st.shown|].action == NoAction
  {
    var r := ParseTag(tokens, idx, {});
    var p := r.params;
    Step(CreateButton(WithFont(st, p), r.content, p.id, NoAction, Some(FontKeyOf(p)), p.fg, p.bg), r.next)
  }

  /** The gallery tag's parameter tokens: those after the tag up to the
      first `:` (it has no content section). */
  function GalleryParams(tokens: seq<string>, idx: nat): seq<string> {
    var k := ScanTo(tokens, idx + 1, ParamsEnd);
    if k <= |tokens| then tokens[idx + 1..k] else []
  }

  /** `handle_gallery_tag`: a gallery frame always; with a `tag` value the
      gallery records are fetched and the first batch is queued, and a
      failed fetch gives an error label instead. */
  function GalleryTag(st: RenderState, tokens: seq<string>, idx: nat, world: World): (r: Step)
    ensures Grows(st, r.st)
    ensures r.st.registry == st.registry && |st.shown| < |r.st.shown| && r.st.shown[..|st.shown|] == st.shown
    ensures r.st.shown[|st.shown|].kind == Frame
    ensures var t := FirstValue(GalleryParams(tokens, idx), "tag");
      t.Some? && t.value in world.galleries ==>
        Appended(st, r.st, 1) && r.st.gallery == Gallery.Start(world.galleries[t.value]) && |r.st.queue| <= Gallery.DefaultBatch
    ensures var t := FirstValue(GalleryParams(tokens, idx), "tag");
      t.Some? && t.value !in world.galleries ==> Appended(st, r.st, 2) && r.st.shown[|st.shown| + 1].kind == Label && r.st.queue == st.queue
    ensures FirstValue(GalleryParams(tokens, idx), "tag").None? ==> Appended(st, r.st, 1) && r.st.queue == st.queue && r.st.gallery == st.gallery
  {
    var st1 := Add(st, Element(Frame, "", "", NoAction, Look(None, None, None), None), None);
    var next := ScanTo(tokens, idx + 1, ParamsEnd) + 1;
    match FirstValue(GalleryParams(tokens, idx), "tag")
    case None => Step(st1, next)
    case Some(t) =>
      if t in world.galleries then
        var c := Gallery.Start(world.galleries[t]);
        Step(st1.(gallery := c, queue := Gallery.BatchUrls(c, Gallery.DefaultBatch)), next)
      else
        Step(CreateLabel(st1, "Error fetching images for tag '" + t + "'", None, None, None, None), next)
  }

  /** The tag names with a handler. */
  const TagNames: set<string> := {"<t>", "<a>", "<e>", "<img>", "<mainbg>", "<script>", "<button>", "<gallery>"}

  /** One page line, split into tokens, handled at offset 0 when its first
      token names a handler other than `<script>`; other lines do nothing. */
  function Dispatch(st: RenderState, tokens: seq<string>, world: World): (r: RenderState)
    ensures |tokens| == 0 || tokens[0] !in TagNames || tokens[0] == "<script>" ==> r == st
    ensures Grows(st, r)
  {
    if |tokens| == 0 then st
    else if tokens[0] == "<t>" then TextTag(st, tokens, 0).st
    else if tokens[0] == "<a>" then LinkTag(st, tokens, 0).st
    else if tokens[0] == "<e>" then EntryTag(st, tokens, 0).st
    else if tokens[0] == "<img>" then ImageTag(st, tokens, 0, world).st
    else if tokens[0] == "<mainbg>" then MainbgTag(st, tokens, 0).st
    else if tokens[0] == "<button>" then ButtonTag(st, tokens, 0).st
    else if tokens[0] == "<gallery>" then GalleryTag(st, tokens, 0, world).st
    else st
  }

  // ---------------------------------------------------------------------
  // Properties of the handlers

  /** The handlers that parse content return the extractor's offset. */
  lemma ParsedOffsets(st: RenderState, tokens: seq<string>, idx: nat, world: World)
    ensures TextTag(st, tokens, idx).next == Cut(tokens, idx).next
    ensures LinkTag(st, tokens, idx).next == Cut(tokens, idx).next
    ensures EntryTag(st, tokens, idx).next == Cut(tokens, idx).next
    ensures ImageTag(st, tokens, idx, world).next == Cut(tokens, idx).next
    ensures ButtonTag(st, tokens, idx).next == Cut(tokens, idx).next
  {
  }

  /** The background and gallery handlers resume one past the first `:`
      at or after where their scan starts (or where it would be): the
      background tag starts past its colour token, the gallery tag right
      after the tag. */
  lemma ScanningOffsets(st: RenderState, tokens: seq<string>, idx: nat, world: World)
    ensures var n := MainbgTag(st, tokens, idx).next;
      idx + 3 <= n && (n - 1 < |tokens| ==> tokens[n - 1] == ParamsEnd)
      && forall j :: idx + 2 <= j < n - 1 && j < |tokens| ==> tokens[j] != ParamsEnd
    ensures var n := GalleryTag(st, tokens, idx, world).next;
      idx + 2 <= n && (n - 1 < |tokens| ==> tokens[n - 1] == ParamsEnd)
      && forall j :: idx + 1 <= j < n - 1 && j < |tokens| ==> tokens[j] != ParamsEnd
  {
    ScanToSkips(tokens, idx + 2, ParamsEnd);
    ScanToSkips(tokens, idx + 1, ParamsEnd);
    GalleryResumes(st, tokens, idx, world);
  }

  lemma GalleryResumes(st: RenderState, tokens: seq<string>, idx: nat, world: World)
    ensures GalleryTag(st, tokens, idx, world).next == ScanTo(tokens, idx + 1, ParamsEnd) + 1
  {
  }

  /** `st2` extends `st1`: well formed, with the earlier widgets unchanged,
      and every id registered anew naming one of the new widgets. */
  ghost predicate Extends(st1: RenderState, st2: RenderState) {
    && Valid(st2) && |st1.shown| <= |st2.shown| && st2.shown[..|st1.shown|] == st1.shown
    && forall id :: id in st2.registry ==> (id in st1.registry && st2.registry[id] == st1.registry[id]) || |st1.shown| <= st2.registry[id]
  }

  lemma CreateButtonExtends(st: RenderState, text: string, id: Option<string>, action: Action, font: Option<FontKey>, fg: Option<string>, bg: Option<string>)
    requires Valid(st)
    ensures Extends(st, CreateButton(st, text, id, action, font, fg, bg))
  {
    GetStyleNameKeepsValid(st.styles, StyleKey("Button", font, fg, bg));
    var r := CreateButton(st, text, id, action, font, fg, bg);
    assert r.shown[..|st.shown|] == st.shown;
  }

  lemma WithFontValid(st: RenderState, p: Params)
    requires Valid(st)
    ensures Valid(WithFont(st, p)) && ViewOf(WithFont(st, p)) == ViewOf(st)
  {
    GetFontKeepsValid(st.fonts, FontKeyOf(p));
  }

  lemma AddExtends(st: RenderState, e: Element, id: Option<string>)
    requires Valid(st)
    ensures Extends(st, Add(st, e, id))
  {
    assert Add(st, e, id).shown[..|st.shown|] == st.shown;
  }

  lemma TextTagExtends(st: RenderState, tokens: seq<string>)
    requires Valid(st)
    ensures Extends(st, TextTag(st, tokens, 0).st)
  {
    var p := ParseTag(tokens, 0, {}).params;
    WithFontValid(st, p);
    AddExtends(WithFont(st, p), Element(Label, ParseTag(tokens, 0, {}).content, "", NoAction, Look(Some(FontKeyOf(p)), Colour(p.fg), Colour(p.bg)), None), p.id);
  }

  lemma LinkTagExtends(st: RenderState, tokens: seq<string>)
    requires Valid(st)
    ensures Extends(st, LinkTag(st, tokens, 0).st)
  {
    var r := ParseTag(tokens, 0, {"href"});
    var p := r.params;
    WithFontValid(st, p);
    CreateButtonExtends(WithFont(st, p), r.content, p.id, Navigate(p.extra["href"]), Some(FontKeyOf(p)), p.fg, p.bg);
  }

  lemma ButtonTagExtends(st: RenderState, tokens: seq<string>)
    requires Valid(st)
    ensures Extends(st, ButtonTag(st, tokens, 0).st)
  {
    var r := ParseTag(tokens, 0, {});
    var p := r.params;
    WithFontValid(st, p);
    CreateButtonExtends(WithFont(st, p), r.content, p.id, NoAction, Some(FontKeyOf(p)), p.fg, p.bg);
  }

  lemma EntryTagExtends(st: RenderState, tokens: seq<string>)
    requires Valid(st)
    ensures Extends(st, EntryTag(st, tokens, 0).st)
  {
    var r := ParseTag(tokens, 0, {"btn_id"});
    var p := r.params;
    EntryWidgetsExtend(st, p, r.content, p.extra["btn_id"]);
  }

  lemma EntryWidgetsExtend(st: RenderState, p: Params, content: string, btnId: Option<string>)
    requires Valid(st)
    ensures Extends(st, EntryWidgets(st, p, content, btnId))
  {
    var font := Some(FontKeyOf(p));
    WithFontValid(st, p);
    var st0 := WithFont(st, p);
    AddExtends(st0, EntryElement(font, p.fg, p.bg), p.id);
    var st1 := Add(st0, EntryElement(font, p.fg, p.bg), p.id);
    CreateButtonExtends(st1, content, btnId, NoAction, font, p.fg, p.bg);
    ExtendsTrans(st, st1, CreateButton(st1, content, btnId, NoAction, font, p.fg, p.bg));
  }

  /** Extending is transitive. */
  lemma ExtendsTrans(a: RenderState, b: RenderState, c: RenderState)
    requires Extends(a, b) && Extends(b, c)
    ensures Extends(a, c)
  {
    assert c.shown[..|a.shown|] == c.shown[..|b.shown|][..|a.shown|];
  }

  lemma ImageTagExtends(st: RenderState, tokens: seq<string>, world: World)
    requires Valid(st)
    ensures Extends(st, ImageTag(st, tokens, 0, world).st)
  {
    var r := ParseTag(tokens, 0, {"width", "height"});
    var p := r.params;
    var w, h := ToDim(p.extra["width"]), ToDim(p.extra["height"]);
    var loaded := Loaded(r.content, ChooseFit(w, h), world);
    if loaded.Some? {
      AddExtends(st, Element(Picture, "", "", NoAction, Look(None, None, None), Some(Image(r.content, loaded.value))), p.id);
    } else {
      AddExtends(st, Element(Label, "Error loading image from " + r.content, "", NoAction, Look(None, None, None), None), None);
    }
  }

  lemma GalleryTagExtends(st: RenderState, tokens: seq<string>, world: World)
    requires Valid(st)
    ensures Extends(st, GalleryTag(st, tokens, 0, world).st)
  {
    var frame := Element(Frame, "", "", NoAction, Look(None, None, None), None);
    AddExtends(st, frame, None);
    var st1 := Add(st, frame, None);
    var tag := FirstValue(GalleryParams(tokens, 0), "tag");
    if tag.Some? && tag.value !in world.galleries {
      var notice := Element(Label, "Error fetching images for tag '" + tag.value + "'", "", NoAction, Look(None, None, None), None);
      AddExtends(st1, notice, None);
      var out := Add(st1, notice, None);
      assert out.shown[..|st.shown|] == out.shown[..|st1.shown|][..|st.shown|];
    }
  }

  /** Every handler keeps the state well formed and only appends widgets:
      the widgets already on the page are left as they were. */
  lemma DispatchExtends(st: RenderState, tokens: seq<string>, world: World)
    requires Valid(st)
    ensures Extends(st, Dispatch(st, tokens, world))
  {
    if |tokens| == 0 {
    } else if tokens[0] == "<t>" {
      TextTagExtends(st, tokens);
    } else if tokens[0] == "<a>" {
      LinkTagExtends(st, tokens);
    } else if tokens[0] == "<e>" {
      EntryTagExtends(st, tokens);
    } else if tokens[0] == "<img>" {
      ImageTagExtends(st, tokens, world);
    } else if tokens[0] == "<mainbg>" {
    } else if tokens[0] == "<button>" {
      ButtonTagExtends(st, tokens);
    } else if tokens[0] == "<gallery>" {
      GalleryTagExtends(st, tokens, world);
    }
  }

  /** What a line shows does not depend on the caches: two states that look
      the same still look the same after the same line. */
  lemma DispatchIgnoresCaches(st1: RenderState, st2: RenderState, tokens: seq<string>, world: World)
    requires ViewOf(st1) == ViewOf(st2)
    ensures ViewOf(Dispatch(st1, tokens, world)) == ViewOf(Dispatch(st2, tokens, world))
  {
    if |tokens| == 0 {
    } else if tokens[0] == "<t>" {
      TextTagIgnoresCaches(st1, st2, tokens);
    } else if tokens[0] == "<a>" {
      LinkTagIgnoresCaches(st1, st2, tokens);
    } else if tokens[0] == "<e>" {
      EntryTagIgnoresCaches(st1, st2, tokens);
    } else if tokens[0] == "<img>" {
      ImageTagIgnoresCaches(st1, st2, tokens, world);
    } else if tokens[0] == "<mainbg>" {
      assert ViewOf(MainbgTag(st1, tokens, 0).st) == ViewOf(MainbgTag(st2, tokens, 0).st);
    } else if tokens[0] == "<button>" {
      ButtonTagIgnoresCaches(st1, st2, tokens);
    } else if tokens[0] == "<gallery>" {
      GalleryTagIgnoresCaches(st1, st2, tokens, world);
    }
  }

  lemma ImageTagIgnoresCaches(st1: RenderState, st2: RenderState, tokens: seq<string>, world: World)
    requires ViewOf(st1) == ViewOf(st2)
    ensures ViewOf(ImageTag(st1, tokens, 0, world).st) == ViewOf(ImageTag(st2, tokens, 0, world).st)
  {
    var r := ParseTag(tokens, 0, {"width", "height"});
    var p := r.params;
    CreateImageIgnoresCaches(st1, st2, r.content, ToDim(p.extra["width"]), ToDim(p.extra["height"]), p.id, world);
  }

  lemma AddIgnoresCaches(st1: RenderState, st2: RenderState, e: Element, id: Option<string>)
    requires ViewOf(st1) == ViewOf(st2)
    ensures ViewOf(Add(st1, e, id)) == ViewOf(Add(st2, e, id))
  {
  }

  lemma CreateImageIgnoresCaches(st1: RenderState, st2: RenderState, src: string, width: Dim, height: Dim, id: Option<string>, world: World)
    requires ViewOf(st1) == ViewOf(st2)
    ensures ViewOf(CreateImage(st1, src, width, height, id, world)) == ViewOf(CreateImage(st2, src, width, height, id, world))
  {
    var loaded := Loaded(src, ChooseFit(width, height), world);
    if loaded.Some? {
      AddIgnoresCaches(st1, st2, Element(Picture, "", "", NoAction, Look(None, None, None), Some(Image(src, loaded.value))), id);
    } else {
      AddIgnoresCaches(st1, st2, Element(Label, "Error loading image from " + src, "", NoAction, Look(None, None, None), None), None);
    }
  }

  lemma GalleryTagIgnoresCaches(st1: RenderState, st2: RenderState, tokens: seq<string>, world: World)
    requires ViewOf(st1) == ViewOf(st2)
    ensures ViewOf(GalleryTag(st1, tokens, 0, world).st) == ViewOf(GalleryTag(st2, tokens, 0, world).st)
  {
    var frame := Element(Frame, "", "", NoAction, Look(None, None, None), None);
    var a1, a2 := Add(st1, frame, None), Add(st2, frame, None);
    assert ViewOf(a1) == ViewOf(a2);
    var tag := FirstValue(GalleryParams(tokens, 0), "tag");
    if tag.Some? && tag.value !in world.galleries {
      var t := tag.value;
      assert GalleryTag(st1, tokens, 0, world).st == CreateLabel(a1, "Error fetching images for tag '" + t + "'", None, None, None, None);
      assert GalleryTag(st2, tokens, 0, world).st == CreateLabel(a2, "Error fetching images for tag '" + t + "'", None, None, None, None);
    }
  }

  lemma CreateButtonIgnoresCaches(st1: RenderState, st2: RenderState, text: string, id: Option<string>, action: Action, font: Option<FontKey>, fg: Option<string>, bg: Option<string>)
    requires ViewOf(st1) == ViewOf(st2)
    ensures ViewOf(CreateButton(st1, text, id, action, font, fg, bg)) == ViewOf(CreateButton(st2, text, id, action, font, fg, bg))
  {
  }

  lemma TextTagIgnoresCaches(st1: RenderState, st2: RenderState, tokens: seq<string>)
    requires ViewOf(st1) == ViewOf(st2)
    ensures ViewOf(TextTag(st1, tokens, 0).st) == ViewOf(TextTag(st2, tokens, 0).st)
  {
    var r := ParseTag(tokens, 0, {});
    var p := r.params;
    assert ViewOf(WithFont(st1, p)) == ViewOf(WithFont(st2, p));
    AddIgnoresCaches(WithFont(st1, p), WithFont(st2, p), Element(Label, r.content, "", NoAction, Look(Some(FontKeyOf(p)), Colour(p.fg), Colour(p.bg)), None), p.id);
  }

  lemma LinkTagIgnoresCaches(st1: RenderState, st2: RenderState, tokens: seq<string>)
    requires ViewOf(st1) == ViewOf(st2)
    ensures ViewOf(LinkTag(st1, tokens, 0).st) == ViewOf(LinkTag(st2, tokens, 0).st)
  {
    var r := ParseTag(tokens, 0, {"href"});
    var p := r.params;
    CreateButtonIgnoresCaches(WithFont(st1, p), WithFont(st2, p), r.content, p.id, Navigate(p.extra["href"]), Some(FontKeyOf(p)), p.fg, p.bg);
  }

  lemma ButtonTagIgnoresCaches(st1: RenderState, st2: RenderState, tokens: seq<string>)
    requires ViewOf(st1) == ViewOf(st2)
    ensures ViewOf(ButtonTag(st1, tokens, 0).st) == ViewOf(ButtonTag(st2, tokens, 0).st)
  {
    var r := ParseTag(tokens, 0, {});
    var p := r.params;
    CreateButtonIgnoresCaches(WithFont(st1, p), WithFont(st2, p), r.content, p.id, NoAction, Some(FontKeyOf(p)), p.fg, p.bg);
  }

  lemma EntryTagIgnoresCaches(st1: RenderState, st2: RenderState, tokens: seq<string>)
    requires ViewOf(st1) == ViewOf(st2)
    ensures ViewOf(EntryTag(st1, tokens, 0).st) == ViewOf(EntryTag(st2, tokens, 0).st)
  {
    var r := ParseTag(tokens, 0, {"btn_id"});
    var p := r.params;
    var font := Some(FontKeyOf(p));
    var a1 := Add(WithFont(st1, p), EntryElement(font, p.fg, p.bg), p.id);
    var a2 := Add(WithFont(st2, p), EntryElement(font, p.fg, p.bg), p.id);
    assert ViewOf(a1) == ViewOf(a2);
    CreateButtonIgnoresCaches(a1, a2, r.content, p.extra["btn_id"], NoAction, font, p.fg, p.bg);
  }

  /** A text tag adds one label with the content, font and colours of its
      parameters, and registers it exactly when its id is a non-empty
      string. */
  lemma TextTagAddsLabel(st: RenderState, tokens: seq<string>, idx: nat)
    requires Valid(st)
    ensures var r := ParseTag(tokens, idx, {}); var out := TextTag(st, tokens, idx).st;
      && |out.shown| == |st.shown| + 1
      && out.shown[|st.shown|] == Element(Label, r.content, "", NoAction, Look(Some(FontKeyOf(r.params)), Colour(r.params.fg), Colour(r.params.bg)), None)
      && (Truthy(r.params.id) ==> Lookup(out, r.params.id.value) == Some(out.shown[|st.shown|]))
      && (!Truthy(r.params.id) ==> out.registry == st.registry)
  {
  }

  /** An entry tag registers the entry under `id` and its button under
      `btn_id`; when both are the same the button wins. */
  lemma EntryTagRegisters(st: RenderState, tokens: seq<string>, idx: nat)
    ensures var p := ParseTag(tokens, idx, {"btn_id"}).params; var out := EntryTag(st, tokens, idx).st;
      && |out.shown| == |st.shown| + 2
      && out.shown[|st.shown|].kind == Entry && out.shown[|st.shown| + 1].kind == Button
      && (Truthy(p.extra["btn_id"]) ==> Lookup(out, p.extra["btn_id"].value) == Some(out.shown[|st.shown| + 1]))
      && (Truthy(p.id) && p.id != p.extra["btn_id"] ==> Lookup(out, p.id.value) == Some(out.shown[|st.shown|]))
  {
    var r := ParseTag(tokens, idx, {"btn_id"});
    EntryWidgetsRegister(st, r.params, r.content, r.params.extra["btn_id"]);
    assert EntryTag(st, tokens, idx).st == EntryWidgets(st, r.params, r.content, r.params.extra["btn_id"]);
  }

  lemma EntryWidgetsRegister(st: RenderState, p: Params, content: string, btnId: Option<string>)
    ensures var out := EntryWidgets(st, p, content, btnId);
      && |out.shown| == |st.shown| + 2
      && out.shown[|st.shown|].kind == Entry && out.shown[|st.shown| + 1].kind == Button
      && (Truthy(btnId) ==> Lookup(out, btnId.value) == Some(out.shown[|st.shown| + 1]))
      && (Truthy(p.id) && p.id != btnId ==> Lookup(out, p.id.value) == Some(out.shown[|st.shown|]))
  {
    var font := Some(FontKeyOf(p));
    var st1 := Add(WithFont(st, p), EntryElement(font, p.fg, p.bg), p.id);
    var out := CreateButton(st1, content, btnId, NoAction, font, p.fg, p.bg);
    assert out.shown == st.shown + [EntryElement(font, p.fg, p.bg), out.shown[|st.shown| + 1]];
  }

  /** The documented link example: `<a> Home ; href /website/home :` adds a
      button captioned "Home" that navigates to `/website/home`. */
  lemma LinkExample(st: RenderState, tokens: seq<string>)
    requires tokens == ["<a>", "Home", ";", "href", "/website/home", ":"]
    ensures var out := LinkTag(st, tokens, 0);
      && out.next == 6
      && out.st.shown[|st.shown|].text == "Home"
      && out.st.shown[|st.shown|].action == Navigate(Some("/website/home"))
  {
    LinkExampleParse(tokens);
    var r := ParseTag(tokens, 0, {"href"});
    assert r.content == "Home" && r.params.extra["href"] == Some("/website/home") && r.next == 6;
  }

  lemma LinkExampleParse(tokens: seq<string>)
    requires tokens == ["<a>", "Home", ";", "href", "/website/home", ":"]
    ensures var r := ParseTag(tokens, 0, {"href"});
      r.content == "Home" && r.params.extra["href"] == Some("/website/home") && r.next == 6
  {
    LinkExampleCut(tokens);
    WordContent("Home");
    LinkExampleHref(["href", "/website/home"]);
  }

  lemma LinkExampleHref(parts: seq<string>)
    requires parts == ["href", "/website/home"]
    ensures ParseParams(parts, {"href"}).extra["href"] == Some("/website/home")
  {
    FirstValueWins(parts, [], "href", "/website/home", [], {"href"});
  }

  /** A single word is its own content. */
  lemma WordContent(w: string)
    requires w != NewlineMarker && forall i :: 0 <= i < |w| ==> w[i] != ' ' && w[i] != '\n'
    ensures BuildContent([w]) == w
  {
    assert MarkNewlines([w]) == [w];
    assert Join([w], " ") == w;
    NoSpaceNoReplace(w, " \n ", "\n");
    NoSpaceNoReplace(w, " \n", "\n");
    NoSpaceNoReplace(w, "\n ", "\n");
  }

  lemma LinkExampleCut(tokens: seq<string>)
    requires tokens == ["<a>", "Home", ";", "href", "/website/home", ":"]
    ensures Cut(tokens, 0) == Sections(["Home"], ["href", "/website/home"], 6)
  {
    assert ScanTo(tokens, 1, ContentEnd) == 2 by {
      assert ScanTo(tokens, 2, ContentEnd) == 2;
    }
    assert ScanTo(tokens, 3, ParamsEnd) == 5 by {
      assert ScanTo(tokens, 5, ParamsEnd) == 5;
      assert ScanTo(tokens, 4, ParamsEnd) == 5;
    }
  }

  /** A string of letters has no match of a pattern that contains a space or
      newline, so replacing leaves it alone. */
  lemma NoSpaceNoReplace(s: string, pat: string, rep: string)
    requires |pat| > 0 && (pat[0] == ' ' || pat[0] == '\n')
    requires forall i :: 0 <= i < |s| ==> s[i] != ' ' && s[i] != '\n'
    ensures Replace(s, pat, rep) == s
  {
    ReplaceSkipsPrefix(s, "", pat, rep);
    assert s + "" == s;
  }

  /** Image sizes: `width 300 height auto` keeps width 300 and scales the
      height; `width 300px` (not all digits) keeps the picture's own size. */
  lemma ImageFitExamples()
    ensures ChooseFit(ToDim(Some("300")), ToDim(Some("auto"))) == HeightFromWidth(300)
    ensures ChooseFit(ToDim(Some("300px")), ToDim(None)) == KeepSize
  {
    assert DigitsValue("300") == 300 by {
      assert "300"[..2] == "30" && "30"[..1] == "3";
    }
    assert !IsDecimal("300px") by {
      assert !IsDigit("300px"[3]);
    }
    assert !IsDecimal("auto") by {
      assert !IsDigit("auto"[0]);
    }
  }
}
