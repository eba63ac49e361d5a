/** The page script interpreter (interpreter.py `handle_script_tag`,
    `set_text_command`, `set_text_input`, `set_command_command`). A script is
    a `;`-separated list of commands acting on registered widgets. A
    command that raises ends the script (and the rest of the render); what
    earlier commands did stays. */
module Script {
  import opened Wrappers
  import opened Text
  import opened Handlers

  /** The state after a script, and whether a command raised. */
  datatype Outcome = Done(st: RenderState) | Aborted(st: RenderState)

  /** Removes one pair of surrounding double quotes (`t[1:-1]` when `t`
      starts and ends with `"`; a lone `"` becomes empty). */
  function Unquote(t: string): (r: string)
    ensures |t| >= 2 && t[0] == '"' && t[|t| - 1] == '"' ==> r == t[1..|t| - 1]
    ensures !(|t| >= 1 && t[0] == '"' && t[|t| - 1] == '"') ==> r == t
    ensures t == "\"" ==> r == ""
  {
    if |t| >= 1 && t[0] == '"' && t[|t| - 1] == '"' then
      if |t| >= 2 then t[1..|t| - 1] else ""
    else t
  }

  /** Quoting and unquoting: a quoted text comes back as it was, and only
      the outer pair of quotes is removed. */
  lemma UnquoteQuoted(x: string)
    ensures Unquote("\"" + x + "\"") == x
  {
    var t := "\"" + x + "\"";
    assert t[1..|t| - 1] == x;
  }

  /** The text a `set_text`/`set_text_input` command sets: the arguments
      after the id, joined by single spaces, without surrounding quotes. */
  function ArgText(args: seq<string>): string
    requires |args| >= 1
  {
    Unquote(Join(args[1..], " "))
  }

  /** Replaces the widget at position `i`. */
  function Update(st: RenderState, i: nat, e: Element): (r: RenderState)
    requires i < |st.shown|
    ensures r.shown == st.shown[i := e] && r.registry == st.registry
    ensures r.fonts == st.fonts && r.styles == st.styles && r.background == st.background
    ensures r.gallery == st.gallery && r.queue == st.queue
  {
    st.(shown := st.shown[i := e])
  }

  /** The guard every command checks first: an id and at least one more
      argument, the id registered. */
  predicate Guarded(st: RenderState, args: seq<string>) {
    |args| >= 2 && Lookup(st, args[0]).Some?
  }

  /** Whether the command's id names the widget at position `j`. */
  predicate Aims(st: RenderState, args: seq<string>, j: nat) {
    Guarded(st, args) && st.registry[args[0]] == j
  }

  /** `set_text id words...`: with at least two arguments and a registered
      id, a label's or button's caption becomes the text. An entry has no
      `text` option, but Tk reads `text` as the abbreviation of
      `textvariable`: the entry is bound to the variable the text names,
      and shows that variable's value at once, which is empty for a name
      never set. An empty text binds no variable and changes nothing.
      Otherwise nothing happens. The command never raises. */
  function SetText(st: RenderState, args: seq<string>): (r: Outcome)
    ensures r.Done?
    ensures r.st.registry == st.registry && |r.st.shown| == |st.shown|
    ensures forall j :: 0 <= j < |st.shown| ==>
      r.st.shown[j] ==
        if Aims(st, args, j) && st.shown[j].kind != Entry then st.shown[j].(text := ArgText(args))
        else if Aims(st, args, j) && ArgText(args) != "" then st.shown[j].(value := "")
        else st.shown[j]
  {
    if Guarded(st, args) then
      var i := st.registry[args[0]];
      if st.shown[i].kind == Entry then
        if ArgText(args) == "" then Done(st)
        else Done(Update(st, i, st.shown[i].(value := "")))
      else Done(Update(st, i, st.shown[i].(text := ArgText(args))))
    else Done(st)
  }

  /** `set_text_input id words...`: the entry's whole value becomes the
      text; a widget that is not an entry has no value to edit and raises. */
  function SetTextInput(st: RenderState, args: seq<string>): (r: Outcome)
    ensures r.Aborted? <==> Guarded(st, args) && Lookup(st, args[0]).value.kind != Entry
    ensures r.Aborted? ==> r.st == st
    ensures r.st.registry == st.registry && |r.st.shown| == |st.shown|
    ensures forall j :: 0 <= j < |st.shown| ==>
      r.st.shown[j] == if Aims(st, args, j) && r.Done? then st.shown[j].(value := ArgText(args)) else st.shown[j]
  {
    if Guarded(st, args) then
      var i := st.registry[args[0]];
      if st.shown[i].kind != Entry then Aborted(st)
      else Done(Update(st, i, st.shown[i].(value := ArgText(args))))
    else Done(st)
  }

  /** `set_command id name`: `search` and `wiki_search` rebind the button's
      click to a search for the text of entry "2"; other names do nothing.
      When the guard fails (fewer than two arguments or an unknown id) the
      command reads names it never bound and raises; a widget that is not a
      button has no command option and raises too. */
  function SetCommand(st: RenderState, args: seq<string>): (r: Outcome)
    ensures r.Aborted? <==> !Guarded(st, args) || (args[1] in {"search", "wiki_search"} && Lookup(st, args[0]).value.kind != Button)
    ensures r.Aborted? ==> r.st == st
    ensures r.st.registry == st.registry && |r.st.shown| == |st.shown|
    ensures forall j :: 0 <= j < |st.shown| ==>
      r.st.shown[j] ==
        if Aims(st, args, j) && r.Done? && args[1] == "search" then st.shown[j].(action := SearchEntry)
        else if Aims(st, args, j) && r.Done? && args[1] == "wiki_search" then st.shown[j].(action := WikiSearchEntry)
        else st.shown[j]
  {
    if Guarded(st, args) then
      var i := st.registry[args[0]];
      var action := if args[1] == "search" then Some(SearchEntry)
        else if args[1] == "wiki_search" then Some(WikiSearchEntry)
        else None;
      if action.None? then Done(st)
      else if st.shown[i].kind != Button then Aborted(st)
      else Done(Update(st, i, st.shown[i].(action := action.value)))
    else Aborted(st)
  }

  /** One trimmed command line: its first word picks the command, the rest
      are its arguments; unknown commands are skipped. */
  function RunCommand(st: RenderState, line: string): (r: Outcome)
    ensures r.st.registry == st.registry && |r.st.shown| == |st.shown|
  {
    var parts := SplitWhitespace(line);
    if |parts| == 0 then Done(st) else Command(st, parts[0], parts[1..])
  }

  /** The `SCRIPT_HANDLERS` table: a command name and its arguments. */
  function Command(st: RenderState, name: string, args: seq<string>): (r: Outcome)
    ensures r.st.registry == st.registry && |r.st.shown| == |st.shown|
    ensures name !in {"set_command", "set_text", "set_text_input"} ==> r == Done(st)
  {
    if name == "set_command" then SetCommand(st, args)
    else if name == "set_text" then SetText(st, args)
    else if name == "set_text_input" then SetTextInput(st, args)
    else Done(st)
  }

  /** The commands in order; blank ones are skipped and the first that
      raises ends the run. */
  function RunAll(st: RenderState, commands: seq<string>): (r: Outcome)
    ensures r.st.registry == st.registry && |r.st.shown| == |st.shown|
    ensures (forall i :: 0 <= i < |commands| ==> Strip(commands[i]) == "") ==> r == Done(st)
    decreases |commands|
  {
    if |commands| == 0 then Done(st)
    else
      var line := Strip(commands[0]);
      if line == "" then RunAll(st, commands[1..])
      else match RunCommand(st, line)
        case Aborted(s) => Aborted(s)
        case Done(s) => RunAll(s, commands[1..])
  }

  /** `handle_script_tag`: the trimmed script split on `;`. */
  function RunScript(st: RenderState, content: string): (r: Outcome)
    ensures r.st.registry == st.registry && |r.st.shown| == |st.shown|
    ensures Strip(content) == "" ==> r == Done(st)
  {
    var commands := SplitOn(Strip(content), ';');
    assert Strip(content) == "" ==> commands == [""] && Strip(commands[0]) == "";
    RunAll(st, commands)
  }

  /** Continues an outcome with more commands, unless it was aborted. */
  function Then(o: Outcome, commands: seq<string>): Outcome {
    match o
    case Aborted(s) => Aborted(s)
    case Done(s) => RunAll(s, commands)
  }

  /** Commands run strictly in order: running `a + b` is running `a` and
      then, unless it raised, `b`. */
  lemma {:induction false} RunAllSequential(st: RenderState, a: seq<string>, b: seq<string>)
    ensures RunAll(st, a + b) == Then(RunAll(st, a), b)
    decreases |a|
  {
    if |a| == 0 {
      assert a + b == b;
    } else {
      assert (a + b)[0] == a[0];
      assert (a + b)[1..] == a[1..] + b;
      var line := Strip(a[0]);
      if line == "" {
        RunAllSequential(st, a[1..], b);
      } else if RunCommand(st, line).Done? {
        RunAllSequential(RunCommand(st, line).st, a[1..], b);
      }
    }
  }

  /** The widgets' identity survives a script: the registry, the number of
      widgets, each widget's kind, the caches and the background are left
      as they were; only captions, entry values and button actions change. */
  ghost predicate SameWidgets(s1: RenderState, s2: RenderState) {
    && s2.registry == s1.registry && |s2.shown| == |s1.shown|
    && (forall i :: 0 <= i < |s1.shown| ==> s2.shown[i].kind == s1.shown[i].kind && s2.shown[i].look == s1.shown[i].look && s2.shown[i].image == s1.shown[i].image)
    && s2.fonts == s1.fonts && s2.styles == s1.styles && s2.background == s1.background
    && s2.gallery == s1.gallery && s2.queue == s1.queue
  }

  lemma UpdateKeepsWidgets(st: RenderState, i: nat, e: Element)
    requires i < |st.shown| && e.kind == st.shown[i].kind && e.look == st.shown[i].look && e.image == st.shown[i].image
    ensures SameWidgets(st, Update(st, i, e))
  {
  }

  lemma CommandKeepsWidgets(st: RenderState, line: string)
    ensures SameWidgets(st, RunCommand(st, line).st)
  {
    var parts := SplitWhitespace(line);
    if |parts| > 0 {
      SetTextKeepsWidgets(st, parts[1..]);
      SetTextInputKeepsWidgets(st, parts[1..]);
      SetCommandKeepsWidgets(st, parts[1..]);
    }
  }

  lemma SetTextKeepsWidgets(st: RenderState, args: seq<string>)
    ensures SameWidgets(st, SetText(st, args).st)
  {
    if |args| >= 2 && Lookup(st, args[0]).Some? {
      var i := st.registry[args[0]];
      UpdateKeepsWidgets(st, i, st.shown[i].(text := ArgText(args)));
      UpdateKeepsWidgets(st, i, st.shown[i].(value := ""));
    }
  }

  lemma SetTextInputKeepsWidgets(st: RenderState, args: seq<string>)
    ensures SameWidgets(st, SetTextInput(st, args).st)
  {
    if |args| >= 2 && Lookup(st, args[0]).Some? {
      var i := st.registry[args[0]];
      UpdateKeepsWidgets(st, i, st.shown[i].(value := ArgText(args)));
    }
  }

  lemma SetCommandKeepsWidgets(st: RenderState, args: seq<string>)
    ensures SameWidgets(st, SetCommand(st, args).st)
  {
    if |args| >= 2 && Lookup(st, args[0]).Some? {
      var i := st.registry[args[0]];
      UpdateKeepsWidgets(st, i, st.shown[i].(action := SearchEntry));
      UpdateKeepsWidgets(st, i, st.shown[i].(action := WikiSearchEntry));
    }
  }

  lemma {:induction false} ScriptKeepsWidgets(st: RenderState, commands: seq<string>)
    ensures SameWidgets(st, RunAll(st, commands).st)
    decreases |commands|
  {
    if |commands| > 0 {
      var line := Strip(commands[0]);
      if line == "" {
        ScriptKeepsWidgets(st, commands[1..]);
      } else {
        CommandKeepsWidgets(st, line);
        if RunCommand(st, line).Done? {
          ScriptKeepsWidgets(RunCommand(st, line).st, commands[1..]);
        }
      }
    }
  }

  /** `set_text` on a registered label or button changes that one widget's
      caption and nothing else. */
  lemma SetTextTargetsOne(st: RenderState, args: seq<string>, j: nat)
    requires |args| >= 2 && Lookup(st, args[0]).Some? && Lookup(st, args[0]).value.kind != Entry
    requires j < |st.shown| && j != st.registry[args[0]]
    ensures SetText(st, args).Done?
    ensures Lookup(SetText(st, args).st, args[0]) == Some(Lookup(st, args[0]).value.(text := Unquote(Join(args[1..], " "))))
    ensures SetText(st, args).st.shown[j] == st.shown[j]
  {
  }

  /** `set_text` on an entry raises nothing: a non-empty text empties what
      the entry shows and leaves its caption alone, an empty one changes
      nothing. */
  lemma SetTextClearsEntry(st: RenderState, args: seq<string>)
    requires |args| >= 2 && Lookup(st, args[0]).Some? && Lookup(st, args[0]).value.kind == Entry
    ensures SetText(st, args).Done?
    ensures ArgText(args) != "" ==> Lookup(SetText(st, args).st, args[0]) == Some(Lookup(st, args[0]).value.(value := ""))
    ensures ArgText(args) == "" ==> SetText(st, args) == Done(st)
  {
  }

  /** A guard that fails makes `set_command` raise rather than do nothing,
      while the text commands quietly skip it. */
  lemma FailedGuard(st: RenderState, args: seq<string>)
    requires |args| < 2 || Lookup(st, args[0]).None?
    ensures SetCommand(st, args) == Aborted(st)
    ensures SetText(st, args) == Done(st) && SetTextInput(st, args) == Done(st)
  {
  }

  /** A command line of whitespace-free words dispatches on its first
      word, with the other words as its arguments. */
  lemma CommandLineDispatch(st: RenderState, name: string, args: seq<string>)
    requires IsToken(name) && forall i :: 0 <= i < |args| ==> IsToken(args[i])
    ensures RunCommand(st, Join([name] + args, " ")) ==
      if name == "set_command" then SetCommand(st, args)
      else if name == "set_text" then SetText(st, args)
      else if name == "set_text_input" then SetTextInput(st, args)
      else Done(st)
  {
    var parts := [name] + args;
    assert forall i :: 0 <= i < |parts| ==> IsToken(parts[i]) by {
      forall i | 0 <= i < |parts|
        ensures IsToken(parts[i])
      {
        if i > 0 {
          assert parts[i] == args[i - 1];
        }
      }
    }
    SplitJoinRoundTrip(parts);
    assert parts[1..] == args;
  }

  /** The documented example, shortened: with a label registered as `t`,
      the command `set_text t "a b"` (split into its words) gives it the
      caption `a b`: the arguments are joined by a space and the quotes
      removed. */
  lemma SetTextExample(st: RenderState)
    requires Lookup(st, "t").Some? && Lookup(st, "t").value.kind == Label
    ensures var o := SetText(st, ["t", "\"a", "b\""]);
      o.Done? && Lookup(o.st, "t").value.text == "a b"
  {
    var args := ["t", "\"a", "b\""];
    assert args[1..] == ["\"a", "b\""];
    assert Join(["\"a", "b\""], " ") == "\"a b\"" by {
      assert Join(["b\""], " ") == "b\"";
    }
    UnquoteQuoted("a b");
    assert "\"" + "a b" + "\"" == "\"a b\"";
  }

  /** A script of one command followed by `;` runs just that command. */
  lemma SingleCommandScript(st: RenderState, line: string)
    requires |line| > 0 && !IsSpace(line[0]) && !IsSpace(line[|line| - 1]) && ';' !in line
    ensures RunScript(st, line + ";") == RunCommand(st, line)
  {
    StripUnchanged(line + ";");
    SplitOnce(line);
    StripUnchanged(line);
    RunOneLine(st, line);
  }

  /** A line without `;` followed by one `;` splits into the line and an
      empty remainder. */
  lemma SplitOnce(line: string)
    requires ';' !in line
    ensures SplitOn(line + ";", ';') == [line, ""]
  {
    SplitAtFirst(line, "", ';');
    assert line + ";" == line + [';'] + "";
    assert SplitOn("", ';') == [""];
  }

  /** Splitting at the first separator: the text before it is the first
      piece. */
  lemma SplitAtFirst(a: string, b: string, c: char)
    requires c !in a
    ensures SplitOn(a + [c] + b, c) == [a] + SplitOn(b, c)
  {
    var s := a + [c] + b;
    assert s[|a|] == c;
    assert forall k :: 0 <= k < |a| ==> s[k] == a[k];
    assert Position(s, c) == |a|;
    assert s[..|a|] == a && s[|a| + 1..] == b;
  }

  /** A stripped non-empty command followed by an empty one runs the command. */
  lemma RunOneLine(st: RenderState, line: string)
    requires line != "" && Strip(line) == line
    ensures RunAll(st, [line, ""]) == RunCommand(st, line)
  {
    assert Strip("") == "";
    assert [line, ""][1..] == [""];
    match RunCommand(st, line)
    case Done(s) =>
      assert RunAll(s, [""]) == Done(s);
    case Aborted(s) =>
  }
}
