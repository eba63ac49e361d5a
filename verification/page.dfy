/** The page driver `render_page` (main.py): the registry is cleared and the
    page background set, then the markup lines are scanned once. A line
    opening a script block collects the following lines up to and including
    the first one that ends with `:`; any other line is split into tokens
    and handed to its tag handler. The collected scripts run afterwards, in
    page order. */
module Page {
  import opened Wrappers
  import opened Text
  import opened Handlers
  import opened Script

  const DefaultBackground := "#C0C0C0"

  /** A page as the server sends it: the optional `background_color` and
      the optional `markup` line list. */
  datatype PageData = PageData(background: Option<string>, markup: Option<seq<string>>)

  /** What the scan makes of the lines: a tag line's tokens, or a script
      block's text. */
  datatype Item = TagLine(tokens: seq<string>) | Block(text: string)

  /** A line whose trimmed form starts with `<script>` opens a block. */
  predicate Opens(line: string) {
    StartsWith(Trim(line), "<script>")
  }

  /** A line whose trimmed form ends with `:` closes a block. */
  predicate Closes(line: string) {
    EndsWith(Trim(line), ":")
  }

  /** The first closing line at or after `from`, or the end of the lines
      when none closes. */
  function BlockEnd(lines: seq<string>, from: nat): (k: nat)
    requires from <= |lines|
    ensures from <= k <= |lines|
    ensures k < |lines| ==> Closes(lines[k])
    ensures forall j {:trigger Closes(lines[j])} :: from <= j < k ==> !Closes(lines[j])
    decreases |lines| - from
  {
    if from == |lines| then from
    else if Closes(lines[from]) then from
    else BlockEnd(lines, from + 1)
  }

  /** The text of the block opened at line `i` and ending at `k`: the lines
      in between as they are, then the closing line (if any) with every `:`
      removed, joined by newlines. */
  function BlockText(lines: seq<string>, i: nat, k: nat): string
    requires i < k <= |lines| || (i < |lines| && k == i + 1)
  {
    var body := lines[i + 1..if k <= |lines| then k else |lines|];
    var last := if k < |lines| then [Replace(lines[k], ":", "")] else [];
    Join(body + last, "\n")
  }

  /** The tokens of a tag line: the trimmed line split on whitespace. */
  function Tokens(line: string): seq<string> {
    SplitWhitespace(Strip(line))
  }

  /** What line `i` contributes: a block when it opens one, otherwise its
      tokens. */
  function ItemAt(lines: seq<string>, i: nat): Item
    requires i < |lines|
  {
    if Opens(lines[i]) then Block(BlockText(lines, i, BlockEnd(lines, i + 1)))
    else TagLine(Tokens(lines[i]))
  }

  /** Where the scan resumes after line `i`: past the block's closing line,
      at the end when the block is not closed, or at the next line. */
  function Resume(lines: seq<string>, i: nat): (n: nat)
    requires i < |lines|
    ensures i < n <= |lines|
    ensures !Opens(lines[i]) ==> n == i + 1
  {
    if Opens(lines[i]) then
      var k := BlockEnd(lines, i + 1);
      if k < |lines| then k + 1 else |lines|
    else i + 1
  }

  /** The scan of the markup lines from line `i` on. */
  function Scan(lines: seq<string>, i: nat): (r: seq<Item>)
    requires i <= |lines|
    ensures |r| <= |lines| - i
    ensures (forall j {:trigger Opens(lines[j])} :: i <= j < |lines| ==> !Opens(lines[j])) ==> |r| == |lines| - i
    decreases |lines| - i
  {
    if i == |lines| then [] else [ItemAt(lines, i)] + Scan(lines, Resume(lines, i))
  }

  /** The tag lines of a scan, in order. */
  function TagLines(items: seq<Item>): (r: seq<seq<string>>)
    ensures |r| <= |items|
  {
    if |items| == 0 then []
    else (if items[0].TagLine? then [items[0].tokens] else []) + TagLines(items[1..])
  }

  /** The script blocks of a scan, in order. */
  function Scripts(items: seq<Item>): (r: seq<string>)
    ensures |r| <= |items|
  {
    if |items| == 0 then []
    else (if items[0].Block? then [items[0].text] else []) + Scripts(items[1..])
  }

  /** Splitting an item off the front of a scan. */
  lemma SplitItem(x: Item, rest: seq<Item>)
    ensures TagLines([x] + rest) == (if x.TagLine? then [x.tokens] else []) + TagLines(rest)
    ensures Scripts([x] + rest) == (if x.Block? then [x.text] else []) + Scripts(rest)
  {
    assert ([x] + rest)[1..] == rest;
  }

  /** The tokens of each line, in order. */
  function AllTokens(lines: seq<string>): (r: seq<seq<string>>)
    ensures |r| == |lines|
    ensures forall j :: 0 <= j < |lines| ==> r[j] == Tokens(lines[j])
  {
    if |lines| == 0 then [] else [Tokens(lines[0])] + AllTokens(lines[1..])
  }

  /** Without a script opener every line is a tag line, in order. */
  lemma {:induction false} NoOpenerAllTags(lines: seq<string>, i: nat)
    requires i <= |lines|
    requires forall j {:trigger Opens(lines[j])} :: i <= j < |lines| ==> !Opens(lines[j])
    ensures Scripts(Scan(lines, i)) == []
    ensures TagLines(Scan(lines, i)) == AllTokens(lines[i..])
    decreases |lines| - i
  {
    if i < |lines| {
      NoOpenerAllTags(lines, i + 1);
      ScanStep(lines, i);
      assert !Opens(lines[i]);
      SplitItem(TagLine(Tokens(lines[i])), Scan(lines, i + 1));
      assert lines[i..][1..] == lines[i + 1..];
    }
  }

  /** An opener with no closing line after it swallows the rest of the
      page: one block of all the remaining lines and nothing else. */
  lemma UnterminatedSwallowsRest(lines: seq<string>, i: nat)
    requires i < |lines| && Opens(lines[i])
    requires forall j {:trigger Closes(lines[j])} :: i < j < |lines| ==> !Closes(lines[j])
    ensures Scan(lines, i) == [Block(Join(lines[i + 1..], "\n"))]
  {
    var k := BlockEnd(lines, i + 1);
    assert k == |lines|;
    assert lines[i + 1..k] + [] == lines[i + 1..];
    assert Resume(lines, i) == |lines|;
  }

  /** The block ends at the first closing line. */
  lemma BlockEndIsFirst(lines: seq<string>, from: nat, k: nat)
    requires from <= k < |lines| && Closes(lines[k])
    requires forall j {:trigger Closes(lines[j])} :: from <= j < k ==> !Closes(lines[j])
    ensures BlockEnd(lines, from) == k
  {
  }

  /** A terminated block ends at the first closing line, keeps the lines
      before it unchanged, drops the colons of the closing line, and the
      scan resumes on the line after it. */
  lemma TerminatedBlock(lines: seq<string>, i: nat, k: nat)
    requires i < k < |lines| && Opens(lines[i]) && Closes(lines[k])
    requires forall j {:trigger Closes(lines[j])} :: i < j < k ==> !Closes(lines[j])
    ensures Scan(lines, i) == [Block(Join(lines[i + 1..k] + [Replace(lines[k], ":", "")], "\n"))] + Scan(lines, k + 1)
  {
    ClosedBlockItem(lines, i, k);
    ScanStepAt(lines, i, k + 1, Block(Join(lines[i + 1..k] + [Replace(lines[k], ":", "")], "\n")));
  }

  lemma ClosedBlockItem(lines: seq<string>, i: nat, k: nat)
    requires i < k < |lines| && Opens(lines[i]) && Closes(lines[k])
    requires forall j {:trigger Closes(lines[j])} :: i < j < k ==> !Closes(lines[j])
    ensures Resume(lines, i) == k + 1
    ensures ItemAt(lines, i) == Block(Join(lines[i + 1..k] + [Replace(lines[k], ":", "")], "\n"))
  {
    BlockEndIsFirst(lines, i + 1, k);
    OpenerItem(lines, i);
    ClosedBlockText(lines, i, k);
  }

  lemma ScanStepAt(lines: seq<string>, i: nat, n: nat, item: Item)
    requires i < |lines| && n == Resume(lines, i) && item == ItemAt(lines, i)
    ensures Scan(lines, i) == [item] + Scan(lines, n)
  {
    ScanStep(lines, i);
  }

  lemma OpenerItem(lines: seq<string>, i: nat)
    requires i < |lines| && Opens(lines[i])
    ensures ItemAt(lines, i) == Block(BlockText(lines, i, BlockEnd(lines, i + 1)))
  {
  }

  lemma ClosedBlockText(lines: seq<string>, i: nat, k: nat)
    requires i < k < |lines|
    ensures BlockText(lines, i, k) == Join(lines[i + 1..k] + [Replace(lines[k], ":", "")], "\n")
  {
  }

  /** One step of the scan. */
  lemma ScanStep(lines: seq<string>, i: nat)
    requires i < |lines|
    ensures Scan(lines, i) == [ItemAt(lines, i)] + Scan(lines, Resume(lines, i))
  {
  }

  /** The first token of a line is a prefix of that line. */
  lemma FirstTokenIsPrefix(s: string)
    requires StripLeft(s) == s && |SplitWhitespace(s)| > 0
    ensures StartsWith(s, SplitWhitespace(s)[0])
  {
  }

  /** A line whose first token is `<script>` opens a block. */
  lemma ScriptTokenOpens(line: string)
    requires |Tokens(line)| > 0 && Tokens(line)[0] == "<script>"
    ensures Opens(line)
  {
    var stripped := Strip(line);
    TrimIsStrip(line);
    StripLeftOfStrip(line);
    FirstTokenIsPrefix(stripped);
    assert stripped[..|"<script>"|] == "<script>";
  }

  /** A tag line never starts with the `<script>` token: such a line would
      have opened a block. So the handler table's `<script>` entry is never
      called from a tag line. */
  lemma {:induction false} TagLinesNeverScript(lines: seq<string>, i: nat)
    requires i <= |lines|
    ensures forall t :: t in TagLines(Scan(lines, i)) && |t| > 0 ==> t[0] != "<script>"
    decreases |lines| - i
  {
    if i < |lines| {
      var items := Scan(lines, i);
      var n := Resume(lines, i);
      TagLinesNeverScript(lines, n);
      assert items[1..] == Scan(lines, n);
      assert TagLines(items) == (if items[0].TagLine? then [items[0].tokens] else []) + TagLines(Scan(lines, n));
      if !Opens(lines[i]) && |Tokens(lines[i])| > 0 && Tokens(lines[i])[0] == "<script>" {
        ScriptTokenOpens(lines[i]);
      }
    }
  }

  /** Stripping a stripped string's left end changes nothing. */
  lemma StripLeftOfStrip(s: string)
    ensures StripLeft(Strip(s)) == Strip(s)
  {
    var l := StripLeft(s);
    var r := StripRight(l);
    if |r| > 0 {
      assert r[0] == l[0];
    }
  }

  // ---------------------------------------------------------------------
  // Rendering

  /** Every tag line in order. */
  function DispatchAll(st: RenderState, lines: seq<seq<string>>, world: World): (r: RenderState)
    ensures Grows(st, r)
    decreases |lines|
  {
    if |lines| == 0 then
      assert st.shown[..|st.shown|] == st.shown;
      st
    else
      var next := Dispatch(st, lines[0], world);
      var r := DispatchAll(next, lines[1..], world);
      assert r.shown[..|st.shown|] == r.shown[..|next.shown|][..|st.shown|];
      r
  }

  /** Every script in order; the first that raises ends the render. */
  function RunScripts(st: RenderState, scripts: seq<string>): (r: Outcome)
    ensures r.st.registry == st.registry && |r.st.shown| == |st.shown|
    decreases |scripts|
  {
    if |scripts| == 0 then Done(st)
    else match RunScript(st, scripts[0])
      case Aborted(s) => Aborted(s)
      case Done(s) => RunScripts(s, scripts[1..])
  }

  /** The state a render starts from: empty registry, the page background
      (grey by default). The caller has already emptied the page's frame. */
  function Cleared(st: RenderState, page: PageData): RenderState {
    st.(registry := map[], background := page.background.GetOr(DefaultBackground))
  }

  /** `render_page`: the widgets shown before stay, and every id the page
      registers names a widget of this page; a page without markup lines
      only clears the registry and sets the background. */
  function Render(st: RenderState, page: PageData, world: World): (r: Outcome)
    ensures |st.shown| <= |r.st.shown|
    ensures forall id :: id in r.st.registry ==> |st.shown| <= r.st.registry[id]
    ensures page.markup.GetOr([]) == [] ==> r == Done(Cleared(st, page))
  {
    var items := Scan(page.markup.GetOr([]), 0);
    RunScripts(DispatchAll(Cleared(st, page), TagLines(items), world), Scripts(items))
  }

  /** Extending is transitive. */
  lemma ExtendsTransitive(a: RenderState, b: RenderState, c: RenderState)
    requires Extends(a, b) && Extends(b, c)
    ensures Extends(a, c)
  {
    assert c.shown[..|a.shown|] == c.shown[..|b.shown|][..|a.shown|];
  }

  /** A run of tag lines only adds widgets, and registers ids only for the
      widgets it adds. */
  lemma {:induction false} DispatchAllExtends(st: RenderState, lines: seq<seq<string>>, world: World)
    requires Valid(st)
    ensures Extends(st, DispatchAll(st, lines, world))
    decreases |lines|
  {
    if |lines| == 0 {
      assert st.shown[..|st.shown|] == st.shown;
    } else {
      var next := Dispatch(st, lines[0], world);
      DispatchExtends(st, lines[0], world);
      DispatchAllExtends(next, lines[1..], world);
      ExtendsTransitive(st, next, DispatchAll(next, lines[1..], world));
    }
  }

  lemma {:induction false} RunScriptsKeeps(st: RenderState, scripts: seq<string>)
    ensures SameWidgets(st, RunScripts(st, scripts).st)
    decreases |scripts|
  {
    if |scripts| > 0 {
      var first := RunScript(st, scripts[0]);
      ScriptKeepsWidgets(st, SplitOn(Strip(scripts[0]), ';'));
      if first.Done? {
        RunScriptsKeeps(first.st, scripts[1..]);
      }
    }
  }

  /** After a render every registered id names a widget of this render: the
      registry never refers to what an earlier page showed. The widgets
      shown before are left unchanged. */
  lemma RenderRegistryIsFresh(st: RenderState, page: PageData, world: World)
    requires Valid(st)
    ensures var out := Render(st, page, world).st;
      && Valid(out)
      && (forall id :: id in out.registry ==> |st.shown| <= out.registry[id] < |out.shown|)
      && |st.shown| <= |out.shown|
  {
    var items := Scan(page.markup.GetOr([]), 0);
    var c := Cleared(st, page);
    DispatchAllExtends(c, TagLines(items), world);
    var d := DispatchAll(c, TagLines(items), world);
    RunScriptsKeeps(d, Scripts(items));
  }

  /** Running scripts does not read the caches. */
  lemma RunCommandIgnoresCaches(s1: RenderState, s2: RenderState, line: string)
    requires ViewOf(s1) == ViewOf(s2)
    ensures RunCommand(s1, line).Done? == RunCommand(s2, line).Done?
    ensures ViewOf(RunCommand(s1, line).st) == ViewOf(RunCommand(s2, line).st)
  {
    var parts := SplitWhitespace(line);
    if |parts| > 0 {
      CommandIgnoresCaches(s1, s2, parts[0], parts[1..]);
    }
  }

  lemma CommandIgnoresCaches(s1: RenderState, s2: RenderState, name: string, args: seq<string>)
    requires ViewOf(s1) == ViewOf(s2)
    ensures Command(s1, name, args).Done? == Command(s2, name, args).Done?
    ensures ViewOf(Command(s1, name, args).st) == ViewOf(Command(s2, name, args).st)
  {
    if name == "set_command" {
      SetCommandIgnoresCaches(s1, s2, args);
    } else if name == "set_text" {
      SetTextIgnoresCaches(s1, s2, args);
    } else if name == "set_text_input" {
      SetTextInputIgnoresCaches(s1, s2, args);
    }
  }

  lemma SetTextIgnoresCaches(s1: RenderState, s2: RenderState, args: seq<string>)
    requires ViewOf(s1) == ViewOf(s2)
    ensures SetText(s1, args).Done? == SetText(s2, args).Done?
    ensures ViewOf(SetText(s1, args).st) == ViewOf(SetText(s2, args).st)
  {
    assert s1.registry == s2.registry && s1.shown == s2.shown;
  }

  lemma SetTextInputIgnoresCaches(s1: RenderState, s2: RenderState, args: seq<string>)
    requires ViewOf(s1) == ViewOf(s2)
    ensures SetTextInput(s1, args).Done? == SetTextInput(s2, args).Done?
    ensures ViewOf(SetTextInput(s1, args).st) == ViewOf(SetTextInput(s2, args).st)
  {
    assert s1.registry == s2.registry && s1.shown == s2.shown;
  }

  lemma SetCommandIgnoresCaches(s1: RenderState, s2: RenderState, args: seq<string>)
    requires ViewOf(s1) == ViewOf(s2)
    ensures SetCommand(s1, args).Done? == SetCommand(s2, args).Done?
    ensures ViewOf(SetCommand(s1, args).st) == ViewOf(SetCommand(s2, args).st)
  {
    assert s1.registry == s2.registry && s1.shown == s2.shown;
  }

  lemma {:induction false} RunAllIgnoresCaches(s1: RenderState, s2: RenderState, commands: seq<string>)
    requires ViewOf(s1) == ViewOf(s2)
    ensures RunAll(s1, commands).Done? == RunAll(s2, commands).Done?
    ensures ViewOf(RunAll(s1, commands).st) == ViewOf(RunAll(s2, commands).st)
    decreases |commands|
  {
    if |commands| > 0 {
      var line := Strip(commands[0]);
      if line == "" {
        RunAllIgnoresCaches(s1, s2, commands[1..]);
      } else {
        RunCommandIgnoresCaches(s1, s2, line);
        if RunCommand(s1, line).Done? {
          RunAllIgnoresCaches(RunCommand(s1, line).st, RunCommand(s2, line).st, commands[1..]);
        }
      }
    }
  }

  lemma {:induction false} RunScriptsIgnoresCaches(s1: RenderState, s2: RenderState, scripts: seq<string>)
    requires ViewOf(s1) == ViewOf(s2)
    ensures RunScripts(s1, scripts).Done? == RunScripts(s2, scripts).Done?
    ensures ViewOf(RunScripts(s1, scripts).st) == ViewOf(RunScripts(s2, scripts).st)
    decreases |scripts|
  {
    if |scripts| > 0 {
      var cmds := SplitOn(Strip(scripts[0]), ';');
      RunAllIgnoresCaches(s1, s2, cmds);
      if RunScript(s1, scripts[0]).Done? {
        RunScriptsIgnoresCaches(RunScript(s1, scripts[0]).st, RunScript(s2, scripts[0]).st, scripts[1..]);
      }
    }
  }

  lemma {:induction false} DispatchAllIgnoresCaches(s1: RenderState, s2: RenderState, lines: seq<seq<string>>, world: World)
    requires ViewOf(s1) == ViewOf(s2)
    ensures ViewOf(DispatchAll(s1, lines, world)) == ViewOf(DispatchAll(s2, lines, world))
    decreases |lines|
  {
    if |lines| > 0 {
      DispatchIgnoresCaches(s1, s2, lines[0], world);
      DispatchAllIgnoresCaches(Dispatch(s1, lines[0], world), Dispatch(s2, lines[0], world), lines[1..], world);
    }
  }

  /** A page looks the same however the client got there: the outcome of a
      render depends on the widgets already in the frame, the gallery state
      and the page, but not on the previous registry, background, fonts or
      styles. */
  lemma RenderForgetsPreviousPage(s1: RenderState, s2: RenderState, page: PageData, world: World)
    requires s1.shown == s2.shown && s1.gallery == s2.gallery && s1.queue == s2.queue
    ensures Render(s1, page, world).Done? == Render(s2, page, world).Done?
    ensures ViewOf(Render(s1, page, world).st) == ViewOf(Render(s2, page, world).st)
  {
    var items := Scan(page.markup.GetOr([]), 0);
    var c1, c2 := Cleared(s1, page), Cleared(s2, page);
    assert ViewOf(c1) == ViewOf(c2);
    DispatchAllIgnoresCaches(c1, c2, TagLines(items), world);
    RunScriptsIgnoresCaches(DispatchAll(c1, TagLines(items), world), DispatchAll(c2, TagLines(items), world), Scripts(items));
  }

  /** A page without markup shows nothing new and only sets the
      background, grey when the page names none. */
  lemma EmptyPage(st: RenderState, world: World)
    ensures Render(st, PageData(None, None), world) == Done(st.(registry := map[], background := DefaultBackground))
  {
  }
}
