# A model of the toy browser in Dafny

The repository is a small web of JSON pages with three programs:

- a Flask server that stores site and wiki records, searches them, and proxies an external image API;
- a graphical Tk client that renders a line-oriented markup language and runs small scripts;
- a text-mode client that prints pages and numbers their links.

This project models the logic of those programs as pure Dafny functions over immutable data, and proves properties about it.

Graphical client:

- **Markup extraction** (`markup.dfy`): how `_parse_tag_content_and_params` cuts a tag line into content and parameters. This covers the three-pass newline clean-up of the content and the first-occurrence lookup of parameter values with their defaults.
- **Fonts and styles** (`styles.dfy`): the font cache keyed by the font attribute tuple, and the style-name cache that numbers styles `Custom{type}{n}.T{type}`.
- **Tag handlers** (`handlers.dfy`): each `handle_*_tag` and the widget factories. A page state holds the registered ids, the widgets in creation order, both caches, the background, the gallery cursor and the image queue.
- **Scripts** (`script.dfy`): `set_text`, `set_text_input` and `set_command`, run one command line at a time. A raised error aborts the script.
- **`render_page`** (`page.dfy`): the scan of markup lines into tag lines and `<script>` blocks, then dispatch, then the scripts.
- **History** (`history.dfy`): the back and forward history.
- **Routing** (`routing.dfy`): the choice between the homepage, a wiki search, a file and an HTTP GET for what the user typed.
- **Gallery** (`gallery.dfy`): the gallery batches and the image worker.
- **Images** (`images.dfy`): picture sizes and the resize rule that `_create_image` and the image worker share.

Server:

- **Search** (`search.dfy`): the site tables as loaded from disk, the scoring, the stable descending sort, and the two search endpoints.
- **Other endpoints** (`server.py`, modelled in `server.dfy`): the API-key gate, the page lookup by url suffix, and the cached image-post proxy.

Text client:

- **`tui.dfy`**: markup lines to printed lines, the numbered link list, and the command loop's reading of input.

Python's string operations are modelled on ASCII in `text.dfy`: `split`, `strip`, `replace`, `lower`, `startswith`, `in`, `isdigit` and `int`.

Anything that touches the outside world becomes a parameter:

- the pictures that load and the gallery records a tag returns (`Handlers.World`);
- the worker's HTTP answers (`Gallery.Fetch`);
- the external API's answer and the clock readings (`Server.FetchTag`);
- the server's answer to the text client (`Tui.Response`);
- the directory listing order of the site files (`Search.Load`).

The text client passes `homepage://` to `requests`, which has no adapter for that scheme. Its answer is therefore the `Unreachable` response: the text client cannot show the homepage.

## Model

| member | source | states |
|---|---|---|
| Markup.ScanTo | client/gui_client/interpreter.py:6-20 | the scanning loops stop at a marker at or after the start, or at the end of the tokens |
| Markup.ScanToSkips | client/gui_client/interpreter.py:6-20 | no marker lies between the start of a scan and where it stops, so the stop is the first marker |
| Markup.Cut | client/gui_client/interpreter.py:5-20 | content tokens hold no `;`, parameter tokens hold no `:`, and the returned offset is one past the closing `:` |
| Markup.CutCharacterized | client/gui_client/interpreter.py:5-20 | the cut falls exactly at the first `;` after the tag and the first `:` after that, whether or not the markers are present |
| Markup.ContentIsGlueJoin | client/gui_client/interpreter.py:9-14 | joining the marked tokens with spaces and then running the three replacements gives the pieces with no space on either side of any line break |
| Markup.FirstValueSpec | client/gui_client/interpreter.py:25-70 | a key has a value exactly when some occurrence of it is the first and is followed by a token, and the value is that next token |
| Markup.ParseParams | client/gui_client/interpreter.py:22-70 | `bold`/`italic` hold exactly when the word occurs; the extra keys are exactly the tag's declared ones |
| Markup.NoParamsGiveDefaults | client/gui_client/interpreter.py:22-23 | with no parameter tokens every key keeps its default (size 10, no bold/italic, no colours, no id, extras absent) |
| Markup.FirstValueWins | client/gui_client/interpreter.py:25-70 | a key whose first occurrence is followed by a value takes it (size only when it parses as an integer), whatever follows |
| Markup.MissingValueKeepsDefault | client/gui_client/interpreter.py:25-70 | a key that is absent, or whose only occurrence is the last token, keeps its default |
| Markup.ParseTag | client/gui_client/interpreter.py:1-72 | the offset is one past the closing `:`; on a split line the content is the content tokens glued around `<nl>`; `bold`/`italic` hold exactly when present; `fg`, `bg`, `id` and each declared extra key take the value after the first occurrence of the key; `size` takes it when `int()` accepts it and is 10 otherwise |
| Text.UnderscoreExamples | client/gui_client/interpreter.py:29 | `int()` reads `1_000` as 1000 and rejects `1__0`, `10_` and `_10`, so a size such as `1_4` is accepted |
| Text.GroupedIsDigits | client/gui_client/interpreter.py:29 | on plain digit strings the underscore-skipping reading is the ordinary decimal value |
| Text.ParseIntRoundTrip | client/gui_client/interpreter.py:29 | `int(str(i))` is `i` for every integer |
| Markup.HelloWorldExample | client/gui_client/interpreter.py:1-72 | `<t> Hello <nl> World ; size 14 bold id m1 :` gives content `Hello\nWorld`, size 14, bold, id `m1` and offset 11 |
| Styles.SameFontIffSameAttributes | client/gui_client/interpreter.py:75-81 | two tags share a font key exactly when they agree on size, bold and italic |
| Styles.GetFont | client/gui_client/interpreter.py:82-84 | the key is cached afterwards; a cached key leaves the cache alone; a new key adds exactly that key; no cached font is replaced |
| Styles.GetFontKeepsValid | client/gui_client/interpreter.py:82-84 | the cache stays well formed and the font returned was made for the key asked |
| Styles.SameKeySameFont | client/gui_client/interpreter.py:82-84 | asking for a key again after any other lookups returns the same font object |
| Styles.GetAllKeeps | client/gui_client/interpreter.py:82-84 | a run of lookups never drops or replaces a cached font |
| Styles.DistinctKeysDistinctFonts | client/gui_client/interpreter.py:82-84 | different keys in a well-formed cache are different font objects |
| Styles.GetStyleName | client/gui_client/main.py:69-89 | a known style key returns its stored name unchanged; a new key is stored with the next number, and its name uses that number |
| Styles.GetStyleNameKeepsValid | client/gui_client/main.py:73-88 | the style table stays well formed: numbers are distinct and below the table size |
| Styles.StyleNameInjective | client/gui_client/main.py:76 | names with different numbers for one widget type never coincide |
| Styles.DistinctKeysDistinctNames | client/gui_client/main.py:73-88 | two different style keys of one widget type never share a style name |
| Styles.FirstButtonStyle | client/gui_client/main.py:76 | the first button style is `CustomButton0.TButton`, and asking again returns it without change |
| Gallery.Window | client/gui_client/main.py:221-225 | the batch is `images[index:min(index+size,len)]`: at most `size` records, in order |
| Gallery.Urls | client/gui_client/main.py:224-228 | a URL is queued exactly when some record of the batch has it as a truthy `url` |
| Gallery.UrlsAppend | client/gui_client/main.py:224-228 | queueing works record by record |
| Gallery.GoBack | client/gui_client/main.py:250-253 | back keeps the records and the index a whole number of batches; it moves strictly back whenever the back control is shown, and changes nothing on the first batch |
| Gallery.GoNext | client/gui_client/main.py:255-258 | next keeps the records and the index a whole number of batches, and back undoes it |
| Gallery.Start | client/gui_client/interpreter.py:224-225 | a fetched gallery starts at index 0, where no back control is shown |
| Gallery.ControlsKeepAligned | client/gui_client/main.py:242-258 | every control that is shown keeps the index a whole number of batches |
| Gallery.BackUndoesNext | client/gui_client/main.py:250-258 | next then back returns to the same cursor |
| Gallery.NextBatchNonEmpty | client/gui_client/main.py:246-248 | when the next control is shown the current batch is full and the next batch is not empty |
| Gallery.BatchesTile | client/gui_client/main.py:221-258 | clicking next through every batch shows each record once, in order |
| Gallery.TwentyThreeImages | client/gui_client/main.py:221-248 | 23 records in batches of ten give batches of 10, 10 and 3, with next shown only on the first two |
| Gallery.Answer | client/gui_client/main.py:169-208 | videos are skipped; a picture the worker cannot resize (a zero side, or more than 400 times wider than high) gets no answer; an image button appears exactly when the response is an image type that decodes and resizes, it targets the queued URL and is 400 pixels wide with both sides positive |
| Gallery.MissingTypeNotice | client/gui_client/main.py:178-180 | a response without a Content-Type header gets the notice `URL … did not return an image. Content-Type: None` |
| Gallery.DrainAnswersEveryImage | client/gui_client/main.py:169-210 | when no queued picture stops it, the corrected worker answers every non-video URL with exactly one item; every image button targets a queued URL |
| Gallery.Drain | client/gui_client/main.py:169-210 | the corrected worker shows at most one item per non-video URL |
| Gallery.DrainAsWritten | client/gui_client/main.py:169-210 | the worker as written shows at most one item per non-video URL |
| Gallery.FatalCutsQueue | client/gui_client/main.py:185-201 | a picture the worker cannot resize ends the worker: what it shows is what it shows for the URLs before that picture |
| Gallery.AsWrittenIsPrefix | client/gui_client/main.py:205-208 | the worker as written shows a prefix of the corrected worker's output, and all of it when no image is undecodable |
| Gallery.UndecodableStopsWorker | client/gui_client/main.py:207-208 | with an undecodable image queued first, the worker as written shows nothing for the decodable image after it |
| Gallery.PanoramaStopsWorker | client/gui_client/main.py:185-201 | a 1000 by 2 picture scales to height 0, the resize raises, and neither worker shows the good image after it |
| Handlers.Lookup | client/gui_client/main.py:97-98 | in a well-formed state an id finds a widget exactly when it is registered, and what it finds is a widget on the page |
| Handlers.Add | client/gui_client/main.py:96-106 | adding keeps the state well formed, keeps the earlier widgets, and registers only the new widget, under a truthy id |
| Handlers.AddThenLookup | client/gui_client/main.py:97-98 | after adding, the id finds the new widget and every other id finds what it found before |
| Handlers.ToDim | client/gui_client/interpreter.py:118-119 | a value `isdigit` accepts becomes the number `int()` reads from it; any other value stays a word, and an absent one stays absent |
| Handlers.DecimalParses | client/gui_client/interpreter.py:118-119 | every all-digit value parses with `int()` to its decimal value |
| Handlers.ChooseFit | client/gui_client/main.py:136-144 | scaled width exactly for `auto` width with an integer height; scaled height exactly for `auto` height with an integer width; exact size exactly when both are integers |
| Images.Target | client/gui_client/main.py:133-144 | the target size: a scaled width is the floor of height times the aspect ratio, a scaled height the floor of width over it; scaling divides by zero exactly when the picture has a zero height, or (scaling the height) a zero side |
| Images.Resized | client/gui_client/main.py:146 | a picture is shown exactly when the target exists and has no zero side, and then at the target size |
| Images.ZeroRequestsFail | client/gui_client/main.py:136-146 | a requested zero width or height always ends in an error, whatever the picture |
| Images.PositiveRequests | client/gui_client/main.py:133-146 | on a picture with no zero side a positive exact request is shown at that size and no request keeps the size; a scaled side is shown exactly when it does not round down to zero |
| Handlers.Loaded | client/gui_client/main.py:117-146 | a source is shown exactly when it is non-empty, loads and resizes, and then at a size with no zero side |
| Handlers.CreateImage | client/gui_client/main.py:117-156 | one widget is added: a picture of the source at the loaded size, registered under the id, exactly when the source loads; otherwise an unregistered `Error loading image from` label |
| Handlers.CreateLabel | client/gui_client/main.py:91-99 | one label with the text and font is appended and registered under a truthy id; each colour is applied exactly when it is a non-empty string |
| Handlers.CreateButton | client/gui_client/main.py:101-107 | one button with the text, action and font is appended and registered under a truthy id; its style key is cached and the style table stays well formed |
| Handlers.ParsedOffsets | client/gui_client/interpreter.py:86-144 | the text, link, entry, image and button handlers resume at the extractor's offset |
| Handlers.ScanningOffsets | client/gui_client/interpreter.py:124-138 | the background handler resumes one past the first `:` at or after the token following its colour, and at least three past the tag; the gallery handler resumes one past the first `:` after the tag; either resumes past the end when there is no `:` |
| Handlers.WithFontValid | client/gui_client/interpreter.py:74-84 | fetching a font changes only the cache, which stays well formed |
| Handlers.DispatchExtends | client/gui_client/main.py:580-598 | every tag line, through each of the text, link, entry, image, background, button and gallery handlers, keeps the state well formed, keeps the earlier widgets, and registers only widgets it adds |
| Handlers.DispatchIgnoresCaches | client/gui_client/main.py:580-598 | what any tag line shows, whichever handler it reaches, does not depend on the font and style caches |
| Handlers.TextTagAddsLabel | client/gui_client/interpreter.py:86-90 | a text tag adds one label with the parsed content, font and colours, registered under the parsed id |
| Handlers.EntryTagRegisters | client/gui_client/interpreter.py:99-109 | an entry tag adds two widgets, the entry and then its button; the button is registered under `btn_id`, and the entry under `id` when the two ids differ |
| Handlers.LinkExample | client/gui_client/interpreter.py:92-97 | `<a> Home ; href /website/home :` adds a button `Home` that navigates to `/website/home`, and the handler resumes at 6 |
| Handlers.ImageFitExamples | client/gui_client/main.py:136-144 | `width 300 height auto` scales the height; `300px` is not a number, so the size is kept |
| Handlers.TextTag | client/gui_client/interpreter.py:86-90 | a label is added with the glued content, registered under the tag's `id`, and the scan resumes past the cut |
| Handlers.LinkTag | client/gui_client/interpreter.py:92-97 | a button is added with the glued content, navigating to the tag's `href`, registered under `id`; the scan resumes past the cut |
| Handlers.ButtonTag | client/gui_client/interpreter.py:140-144 | a button with no action is added with the glued content, registered under `id`; the scan resumes past the cut |
| Handlers.EntryTag | client/gui_client/interpreter.py:99-109 | an empty entry and then a button captioned with the glued content are added; only the new widgets are registered; the scan resumes past the cut |
| Handlers.EntryWidgets | client/gui_client/interpreter.py:99-109 | the entry comes first with the tag's font and colours, then the button with the content |
| Handlers.ImageTag | client/gui_client/interpreter.py:111-122 | one widget is added, and it is a picture exactly when the content loads with the fit that `width` and `height` choose |
| Handlers.MainbgTag | client/gui_client/interpreter.py:124-138 | the widgets and registry stay; the background becomes the token after the tag when there is a non-empty one, and otherwise nothing changes |
| Handlers.GalleryTag | client/gui_client/interpreter.py:200-235 | a frame is added; a known `tag` starts its gallery at index 0 and queues at most a batch; an unknown one adds an error label and queues nothing; without `tag` only the frame appears |
| Handlers.Dispatch | client/gui_client/main.py:580-598 | an empty line, a line whose first token names no handler, and a `<script>` line leave the state alone; every line keeps the earlier widgets and registers only new ones |
| Script.UnquoteQuoted | client/gui_client/interpreter.py:150-151 | quoting and then unquoting gives the text back: exactly one pair of outer quotes is removed |
| Script.RunAllSequential | client/gui_client/interpreter.py:178-198 | running `a + b` is running `a`, then `b` unless `a` aborted |
| Script.CommandKeepsWidgets | client/gui_client/interpreter.py:146-173 | no command adds, removes or re-registers a widget |
| Script.ScriptKeepsWidgets | client/gui_client/interpreter.py:175-198 | a whole script keeps the registry, the widget count and each widget's kind |
| Script.SetTextTargetsOne | client/gui_client/interpreter.py:146-153 | `set_text id words` on a label or button relabels it with the unquoted words and leaves every other widget as it was |
| Script.SetTextClearsEntry | client/gui_client/interpreter.py:146-153 | `set_text` on an entry raises nothing; a non-empty text empties what the entry shows, and an empty one changes nothing |
| Script.SetText | client/gui_client/interpreter.py:146-153 | `set_text` never raises and keeps the registry; exactly the aimed label or button gets the unquoted words as its caption, and an aimed entry is emptied when the text is not empty |
| Script.SetTextInput | client/gui_client/interpreter.py:165-173 | `set_text_input` raises exactly when the id is registered to a widget that is not an entry, and then changes nothing; otherwise exactly the aimed entry gets the text as its value |
| Script.SetCommand | client/gui_client/interpreter.py:155-163 | `set_command` raises exactly when the guard fails, or when `search`/`wiki_search` is bound to a widget that is not a button, and then changes nothing; otherwise exactly the aimed button gets the search action |
| Script.RunAll | client/gui_client/interpreter.py:178-198 | a run keeps the registry and widget count, and a list of blank commands does nothing |
| Script.RunScript | client/gui_client/interpreter.py:175-198 | a script keeps the registry and widget count, and a blank script does nothing |
| Script.FailedGuard | client/gui_client/interpreter.py:155-163 | with fewer than two arguments or an unknown id, `set_command` raises while `set_text` and `set_text_input` do nothing |
| Script.CommandLineDispatch | client/gui_client/interpreter.py:183-198 | a command line of words dispatches on its first word with the rest as arguments |
| Script.SetTextExample | client/gui_client/interpreter.py:146-153 | `set_text t "a b"` sets the label's text to `a b` |
| Script.SingleCommandScript | client/gui_client/interpreter.py:175-198 | a script of one command and a `;` runs exactly that command |
| Page.BlockEnd | client/gui_client/main.py:571-573 | a script block ends at the first line whose stripped form ends with `:`, or at the end of the lines |
| Page.Resume | client/gui_client/main.py:565-598 | the scan always advances, by exactly one line when the line does not open a block |
| Page.Scan | client/gui_client/main.py:565-598 | the scan yields at most one item per line, and exactly one per line when no line opens a script |
| Page.NoOpenerAllTags | client/gui_client/main.py:565-598 | without a `<script>` line there are no scripts, and every line is a tag line in order |
| Page.UnterminatedSwallowsRest | client/gui_client/main.py:568-578 | an opener with no closing line after it takes all remaining lines as one script |
| Page.TerminatedBlock | client/gui_client/main.py:568-578 | a block keeps the lines after the opener up to the first closing line, which loses every `:`, and the scan resumes after it |
| Page.ScriptTokenOpens | client/gui_client/main.py:566-583 | a line whose first token is `<script>` opens a block |
| Page.TagLinesNeverScript | client/gui_client/main.py:580-583 | no dispatched tag line starts with the `<script>` token |
| Page.DispatchAllExtends | client/gui_client/main.py:565-598 | the tag lines only add widgets and register only widgets they add |
| Page.RunScriptsKeeps | client/gui_client/main.py:600-601 | the scripts keep the registry, the widget count and the widgets' kinds |
| Page.RenderRegistryIsFresh | client/gui_client/main.py:549-601 | after a render every registered id names a widget created by this render |
| Page.Render | client/gui_client/main.py:549-601 | a render never removes widgets, registers only widgets it created, and a page without markup only clears |
| Page.RunScriptsIgnoresCaches | client/gui_client/main.py:600-601 | the scripts' effect does not depend on the caches |
| Page.DispatchAllIgnoresCaches | client/gui_client/main.py:565-598 | the tag lines' effect does not depend on the caches |
| Page.RenderForgetsPreviousPage | client/gui_client/main.py:549-601 | given the same widgets on screen, a page renders the same, and aborts or not the same, whatever the registry, caches and background were before |
| Page.EmptyPage | client/gui_client/main.py:549-561 | a page without markup only clears the registry and sets the default background `#C0C0C0` |
| History.Empty | client/gui_client/main.py:18-19 | the history before any visit is well formed, with nothing to go back or forward to |
| History.Push | client/gui_client/main.py:413-417 | a visit keeps the entries up to the current one, appends the location, and makes it current |
| History.Back | client/gui_client/main.py:627-631 | back is possible exactly when the index is positive, and moves one entry back |
| History.Forward | client/gui_client/main.py:633-637 | forward is possible exactly when an entry follows, and moves one entry forward |
| History.BackThenForward | client/gui_client/main.py:627-637 | back then forward returns to the same history |
| History.ForwardThenBack | client/gui_client/main.py:627-637 | forward then back returns to the same history |
| History.PushKeepsPast | client/gui_client/main.py:413-417 | a visit keeps the earlier entries, leaves nothing to go forward to, and back leads to the previous entry |
| History.PushAfterBackDropsForward | client/gui_client/main.py:413-417 | visiting after going back forgets the entry one came back from |
| History.Run | client/gui_client/main.py:627-637 | any session of visits, back and forward presses keeps the history well formed |
| History.RunBounded | client/gui_client/main.py:413-417 | a session adds at most one entry per visit |
| History.MovesKeepEntries | client/gui_client/main.py:627-637 | back and forward presses never change the entries |
| History.FirstVisit | client/gui_client/main.py:413-417 | the first visit gives a one-entry history showing that location |
| Routing.Bare | client/gui_client/main.py:386-389 | text with a space, or with neither `.` nor `:`, is searched on the server; otherwise it gets `http://`; either way the result is an `http://` URL |
| Routing.Absolute | client/gui_client/main.py:459-461 | a location starting with `/` is a path on the configured server; others are unchanged; the result never starts with `/` |
| Routing.Fetch | client/gui_client/main.py:359-393 | a `file://` location is read from disk and any other is a GET of an `http://` or `https://` URL |
| Routing.Route | client/gui_client/main.py:359-461 | the homepage exactly for `homepage://` in any case; a wiki fetch exactly under the wiki prefix, to a URL under it; a file read exactly for `file://`; otherwise an `http(s)://` GET |
| Routing.AddressText | client/gui_client/main.py:465-466 | the address bar never shows a space |
| Routing.GetsAreHttp | client/gui_client/main.py:359-393 | every GET goes to an `http://` or `https://` URL |
| Routing.HomepageAnyCase | client/gui_client/main.py:422 | `HomePage://` is the homepage |
| Routing.HttpIsNotHomepage | client/gui_client/main.py:422 | a text starting with `http` is never the homepage |
| Routing.RoutingIsStable | client/gui_client/main.py:359-461 | routing the URL of a GET again gives the same GET, unless it falls under the wiki prefix |
| Routing.HttpUrlIsFetched | client/gui_client/main.py:359-461 | an `http://` or `https://` URL outside the wiki prefix is fetched as it is |
| Routing.WikiSearchRoundTrip | client/gui_client/main.py:431-433 | the `wiki_search` command reaches the wiki endpoint with its own text |
| Routing.WordsAreSearches | client/gui_client/main.py:386-387 | plain words become a search on the server |
| Routing.HostNameGetsScheme | client/gui_client/main.py:388-389 | a dotted name without scheme is fetched as `http://` + name |
| Routing.PathGoesToServer | client/gui_client/main.py:459-464 | a path is fetched from the configured server |
| Search.Lowered | server.py:46 | each tag is lowercased, in order; no capital letter is left, so lowercasing again changes nothing |
| Search.Normalize | server.py:41-50 | a stored record keeps the url, content and source, has the document's tags lowercased, and is normalised: lowercase tags and clean content words |
| Search.Find | server.py:45 | a url finds a record exactly when one is stored under it |
| Search.Put | server.py:45 | storing under an existing url replaces that record in place; a new url is appended; other records stay |
| Search.PutThenFind | server.py:45 | after storing, the url finds the new record, every other url finds what it found, and urls stay distinct |
| Search.WordsOfCleanText | server.py:43-47 | content words consist of lowercase word characters only |
| Search.NormalizeNormalizes | server.py:43-50 | every stored record has lowercase tags and clean content words |
| Search.Load | server.py:34-74 | loading never drops a record and keeps each stored url at its position |
| Search.LoadKeepsTable | server.py:34-74 | loading keeps urls distinct and every record normalised |
| Search.LaterFileWins | server.py:45 | a later file with the same url replaces the earlier record |
| Search.Matches | server.py:94-104 | at most one point per query term |
| Search.MatchesAppend | server.py:94-104 | points add up over the query terms, so each repetition of a term counts |
| Search.Score | server.py:141-144 | a site scores at most two points per term and nothing for no terms |
| Search.ScoreBounds | server.py:141-144 | a site scores at most two points per term, and doubling the query doubles the score |
| Search.ScoreIgnoresCase | server.py:95-101 | the score does not depend on the letter case of the query |
| Search.TagMatchIgnoresCase | server.py:46-98 | a stored tag matches the query term in any letter case |
| Search.InsertPermutes | server.py:146 | insertion adds exactly the one entry |
| Search.SortPermutes | server.py:146 | the sort is a permutation of its input |
| Search.SortDescending | server.py:146 | the sort orders by descending score |
| Search.SortStable | server.py:146 | among equal scores the sort keeps table order |
| Search.Sort | server.py:146 | the sort keeps the length and orders by descending score |
| Search.Positive | server.py:147 | the results are exactly the entries with a positive score |
| Search.Ranked | server.py:141-147 | the ranking is no longer than the table, best first, with positive scores only |
| Search.RankedIsRanking | server.py:141-147 | the ranking is best first, keeps table order within a score, and holds exactly the positive entries |
| Search.RankedMembers | server.py:147 | an entry is ranked exactly when it scores above zero |
| Search.FoundIffScores | server.py:136-149 | a site is in a non-empty query's results exactly when it scores above zero |
| Search.BlankQueryFindsNothing | server.py:137-147 | a query of only whitespace finds nothing, unlike the empty query |
| Search.AllHits | server.py:138-139 | the empty query lists every site in table order |
| Search.Query | server.py:136-149 | the empty query lists every site; any other lists at most every site |
| Search.WikiQuery | server.py:166-169 | the wiki search answers 404 exactly when there are no hits |
| Search.EmptyWikiQuery | server.py:155-169 | the empty wiki query is 404 exactly when the wiki is empty |
| Server.Protected | server.py:87 | only paths starting `/i`, `/w`, `/s` or `/r` are protected; `/wiki`, `/raw` and `/list` paths never are |
| Server.NoKeyLocksOut | server.py:87-91 | with no key configured every protected path is refused, whatever the client sends |
| Server.OpenEndpoints | server.py:87 | the wiki search, raw and image-listing endpoints are open; search and images are protected |
| Server.FindBySuffix | server.py:112-120 | the first record whose url ends with the path, and none exactly when no url does |
| Server.Lookup | server.py:111-132 | the page found ends with the path and comes from the sites or the wiki; 404 exactly when neither has one |
| Server.SitesComeFirst | server.py:111-121 | a matching site hides every matching wiki entry |
| Server.WikiWhenNoSite | server.py:122-132 | the wiki is searched when no site matches |
| Server.SuffixIsLoose | server.py:113 | asking for `home` can find `site/myhome` |
| Server.Keep | server.py:199-208 | filtering never adds posts |
| Server.KeepAppend | server.py:200-208 | posts are filtered one by one, in order |
| Server.KeptPicturesComplete | server.py:204-208 | every kept picture has a non-empty url |
| Server.FetchTag | server.py:181-219 | a fresh cache entry is served as is; the cache changes only when pictures were fetched, and then stores exactly them |
| Server.CachedAnswerReused | server.py:184-186 | asking again within the lifetime gives the same answer and cache, whatever the API says |
| Server.StaleEntryRefetched | server.py:184-219 | a stale entry is fetched again; a failure answers 500 and an empty list 404, leaving the cache alone |
| Server.IncompletePostsDropped | server.py:196-215 | posts without url or tags are dropped, and only-incomplete posts give an empty picture list, not a 404 |
| Tui.NormalizeUrl | client/tui_client/main.py:11-12 | the fetched URL always contains `://`; one that had it is unchanged, others get `http://` |
| Tui.NormalizeIdempotent | client/tui_client/main.py:11-12 | normalising twice is normalising once |
| Tui.RelativeHrefHasNoHost | client/tui_client/main.py:11-12 | a link target `/path` is requested as `http:///path`, with no host |
| Tui.HrefParts | client/tui_client/main.py:56-59 | a link line splits only when it contains `href`, and the label part is the text before the first `href` |
| Tui.TagEffect | client/tui_client/main.py:47-72 | a line never prints a numbered note by itself; numbers come only with links |
| Tui.LineEffect | client/tui_client/main.py:41-74 | a line not starting with `<` does nothing; only `<a>` lines add links; only `<a>`, `<img>` and `<mainbg>` lines can crash the client |
| Tui.RenderLines | client/tui_client/main.py:41-74 | printing lines never fails; without a crashing line the page is shown; the links collected before are kept in front |
| Tui.ListHits | client/tui_client/main.py:28-32 | a list answer always renders |
| Tui.MarkupOf | client/tui_client/main.py:35-39 | the top-level markup is used when present, else the source's markup, else nothing |
| Tui.RenderNumbersLinks | client/tui_client/main.py:21-74 | for every answer the printed numbers are 1, 2, ... in order, and number `n` stands for link `n-1` of the kept list |
| Tui.ResultLinks | client/tui_client/main.py:28-32 | a result list's links are the urls of the records with both url and content, in order |
| Tui.PlainLineIgnored | client/tui_client/main.py:43-45 | a line whose stripped form does not start with `<` prints nothing |
| Tui.LinkWithoutHref | client/tui_client/main.py:55-57 | a link line without `href` adds no link |
| Tui.LinkTarget | client/tui_client/main.py:55-61 | a link's target is the first word after the first `href`, and its label is the text before it without `<a>` |
| Tui.ImageLine | client/tui_client/main.py:63-65 | an image line shows its second word, or ends the client when there is none |
| Tui.MissingOperandCrashes | client/tui_client/main.py:63-64 | `<img>` alone ends the client with an uncaught error |
| Tui.EmptyMarkupShadowsSource | client/tui_client/main.py:35-39 | an empty top-level markup list shows nothing, even when the source has markup |
| Tui.SourceMarkupUsed | client/tui_client/main.py:35-37 | without top-level markup, the source's markup is shown |
| Tui.Address | client/tui_client/main.py:106-113 | a location with a known scheme is kept; a path goes to the configured server; anything else is a server search with every space written `%20`, so none is left |
| Tui.Classify | client/tui_client/main.py:92-113 | the input quits exactly when it is a quit word in any case, and a loaded location is the typed address |
| Tui.QuitAnyCase | client/tui_client/main.py:92 | `EXIT`, `Quit` and `Q` quit |
| Tui.DecimalIsNotQuit | client/tui_client/main.py:92-96 | a number is never a quit word |
| Tui.NumberSelects | client/tui_client/main.py:96-104 | number `n` follows link `n-1` exactly when it exists; otherwise it is refused, and never taken for a search |
| Tui.AddressHasScheme | client/tui_client/main.py:106-113 | every typed location has a scheme, so the fetch leaves it as it is |
| Tui.SearchHasNoSpace | client/tui_client/main.py:110-111 | words with a space become a search whose location has no space |
| Tui.DottedNameIsSearch | client/tui_client/main.py:112-113 | `example.com` is searched, not fetched as a host |
| Tui.Step | client/tui_client/main.py:89-116 | a refused number keeps the current links, and a quit word ends the loop |
| Tui.FollowPrintedNumber | client/tui_client/main.py:96-101 | after a page is shown, typing a printed number follows exactly the link printed with it |
| Tui.NumbersAfterFailure | client/tui_client/main.py:96-104 | after a failed fetch every number is refused and the loop goes on |

## Left out

- Tk widget construction, packing, the style and canvas configuration side effects, the scroll setup and the window (`main()`): a widget is an abstract record in the page state.
- Image decoding: a picture is its size in pixels (`Images.Size`), and which sources load is a parameter. The request for a remote source and its status check are folded into that parameter.
- Images.Target: the aspect-ratio arithmetic `int(h * (w0/h0))` uses floating point; it is modelled as exact floor division, which can differ by one where the float product rounds just below a whole number.
- Handlers.CreateImage: the error label's text ends with the exception's message, which is not modelled; the label text stops at the source.
- Script.SetText: on an entry, `configure(text=...)` binds the entry to the Tcl variable the text names (`text` abbreviates `textvariable`), and the entry shows that variable's value. The model takes every such variable as unset, so the entry is emptied. A text naming a variable Tcl already holds (such as `tcl_version`) would show that variable's value instead, and the later binding between the entry and the variable is not modelled.
- Gallery.Answer: the network notice ends with `: ` and the exception's message, which is not modelled; the notice stops at the URL. The corrected worker's notice for an undecodable image names the URL in place of the unbound `e`.
- Handlers.GalleryTag: the error label for a failed gallery fetch ends with `: ` and the exception's message, which is not modelled; the label stops at the quoted tag.
- Gallery.DrainAnswersEveryImage: its count holds only when no queued picture stops the worker. A picture with a zero side, or more than 400 times wider than high, raises in the resize, which the worker does not catch; both workers stop there (`Gallery.FatalCutsQueue`). The corrected worker fixes only the unbound `e`.
- `int()` also accepts surrounding whitespace and non-ASCII Unicode digits; a parameter token has no whitespace, and Unicode digits are not modelled.
- A page whose `markup` is JSON `null` makes `render_page` raise `TypeError` (main.py:565) after the background is set; the model reads a null markup like a missing one, as no lines.
- A `background_color` of JSON `null` is read like a missing one, giving `#C0C0C0`; in the program Tk drops an option whose value is `None`, so the previous colour stays on screen.
- A colour name Tk does not know raises `TclError` (main.py:559, interpreter.py:137); colours are kept as uninterpreted strings and every one is accepted.
- Styles are keyed by the font requested for the widget; Tk's resolution of that font to an actual font is not modelled.
- All HTTP, Flask, file and configuration I/O, `print`, `jsonify` and `time.time`. Fetched data, responses and clock readings are parameters.
- Threads, the image queue's producer/consumer coordination and `root.after`. The worker is modelled as one sequential drain of a batch's queue.
- `_handle_search_results` page layout, `_show_image_viewer`, `_display_image_on_main_thread`, and the image branch of `_fetch_and_render_page` with its unused `;k=v` size parsing: these are layout, or use floating point.
- The HTTP error labels of `_fetch_and_render_page`: their text is not modelled, only that a request ends in an error.
- The clearing of the image queue when a new page is requested (main.py:419-420), and the `list` form of search terms (main.py:410-411), which no modelled caller produces.
- `serve_image` and `list_images`: they are file system reads.
- Site files that are not valid JSON: they are not modelled, because the documents arrive already parsed.
- A site whose `content` is JSON `null`: this crashes the server at load time and is not modelled.
- An r34 answer that is not a list of objects: not modelled.
- Non-string JSON values (a `url` of `null`) in the text client: not modelled.
- Python's Unicode semantics of `strip`, `split`, `lower`, `isdigit` and `\w`: these are modelled on ASCII.
- Server.Keep: its contract states only that no post is added. The kept posts are stated by `Server.KeepAppend` and `Server.KeptPicturesComplete`, and by the definition.
- Tui.LinkTarget: it is stated for lines with a single `href`. With a second `href`, the target is the first word between the two (see `Tui.HrefParts`).

## Findings

| source | as written | input that shows it | evidently intended | confidence | as-written member | corrected member |
|---|---|---|---|---|---|---|
| client/gui_client/main.py:207-208 | the `PIL.UnidentifiedImageError` handler formats `e`, which that `except` clause never binds, so it raises `UnboundLocalError` and the worker thread dies | a batch whose first URL answers `image/png` with bytes PIL cannot decode, followed by a good image | a notice for the bad image, then the remaining images as usual | not executed | Gallery.DrainAsWritten (Gallery.UndecodableStopsWorker) | Gallery.Drain (Gallery.DrainAnswersEveryImage) |
