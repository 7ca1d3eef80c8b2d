/** What the slash commands do, from the submitted line to the UI's state. */
module ChatCommands {
  import opened Wrappers
  import opened Text
  import opened ChatHistory
  import opened ChatProtocol
  import opened ChatInvariants
  import opened ChatTheorems

  // ---- from the line to the command -----------------------------------------------------

  lemma BlankAfterWord(word: string, rest: string)
    requires NoBlank(word) && rest != "" && IsWhitespace(rest[0])
    ensures FirstBlank(word + rest) == |word|
  {
    var s := word + rest;
    assert s[|word|] == rest[0] && forall j :: 0 <= j < |word| ==> s[j] == word[j];
  }

  /** A command word, blanks and an argument, with any blanks behind. */
  lemma LineIsParsed(word: string, gap: string, arg: string, after: string)
    requires NoBlank(word) && StartsWith(word, "/")
    requires gap != "" && AllWhitespace(gap) && Solid(arg) && AllWhitespace(after)
    ensures Parse(word + (gap + arg) + after) == ParseCommand(word, arg)
  {
    var trimmed := word + (gap + arg);
    var line := trimmed + after;
    assert trimmed[|trimmed| - 1] == arg[|arg| - 1];
    TrimEndStrips(trimmed, after);
    BlankAfterWord(word, gap + arg);
    assert trimmed[..|word|] == word && trimmed[|word| + 1..] == gap[1..] + arg + "";
    TrimStrips(gap[1..], arg, "");
    assert line[0] == word[0] == '/';
  }

  /** `/system` takes the rest of the line, without the blanks around it; a bare one
      takes the prompt away. */
  lemma SystemTakesText(gap: string, text: string, after: string)
    requires gap != "" && AllWhitespace(gap) && Solid(text) && AllWhitespace(after)
    ensures Parse("/system" + (gap + text) + after) == SetSystem(text)
    ensures Parse("/system" + after) == SetSystem("")
  {
    LineIsParsed("/system", gap, text, after);
    TrimEndStrips("/system", after);
    BareCommandIff("/system" + after, "/system");
  }

  /** `/image` fetches a web address and loads anything else as a file. */
  lemma ImageTakesPath(gap: string, path: string, after: string)
    requires gap != "" && AllWhitespace(gap) && Solid(path) && AllWhitespace(after)
    ensures Parse("/image" + (gap + path) + after) == if LooksLikeUrl(path) then ImageUrl(path) else ImageFile(path)
    ensures Parse("/image" + after) == Nothing
  {
    LineIsParsed("/image", gap, path, after);
    TrimEndStrips("/image", after);
    BareCommandIff("/image" + after, "/image");
  }

  function Lowered(s: string): (r: string)
    ensures |r| == |s|
  {
    seq(|s|, i requires 0 <= i < |s| => LowerAscii(s[i]))
  }

  /** A web address starts with one of two schemes, in letters of either case. */
  lemma UrlIff(s: string)
    ensures LooksLikeUrl(s) <==> "http://" <= Lowered(s) || "https://" <= Lowered(s)
    ensures LowerAscii('H') == LowerAscii('h') == 'h' && LowerAscii('S') == 's' && LowerAscii('/') == '/'
  {
    var l := Lowered(s);
    assert StartsWithIgnoreCase(s, "http://") ==> l[..7] == "http://";
    assert StartsWithIgnoreCase(s, "https://") ==> l[..8] == "https://";
  }

  // ---- from the command to the state -----------------------------------------------------------

  /** The UI takes a line. */
  predicate Awaiting(s: Sys) {
    s.running && !s.ui.generating && s.ui.fetching == None
  }

  lemma SlashIsNotBlank(line: string, word: string)
    requires TrimEnd(line) == word && StartsWith(word, "/")
    ensures !AllWhitespace(line) && StartsWith(line, "/")
  {
    SlashIsKept(line, word);
    assert line[0] == '/' && !IsWhitespace('/');
  }

  /** `/clear` leaves the leading system message, if there is one, and nothing else. */
  lemma ClearLeavesPrompt(s: Sys, line: string, file: Option<Image>)
    requires Reachable(s) && Awaiting(s) && TrimEnd(line) == "/clear"
    ensures var h := s.ui.history;
      Apply(s, Submit(line, file)).ui ==
        (if h != [] && h[0].role == Role.System
         then s.ui.(history := [h[0]], images := [[]], pendingImages := [], truncateOffset := 0)
         else s.ui.(history := [], images := [], pendingImages := [], truncateOffset := 0))
  {
    ReachableInv(s);
    SlashIsNotBlank(line, "/clear");
    CommandsAreExact(line);
    if HasSystem(s.ui) {
      assert s.ui.history[..1] == [s.ui.history[0]] && s.ui.images[..1] == [[]];
    }
  }

  /** `/system` puts the text in front of the turns, or takes the prompt away, and leaves
      all else. */
  lemma SystemReplacesPrompt(s: Sys, line: string, text: string, file: Option<Image>)
    requires Reachable(s) && Awaiting(s) && Parse(line) == SetSystem(text) && !AllWhitespace(line)
    ensures |s.ui.history| == |s.ui.images|
    ensures var u, start := Apply(s, Submit(line, file)).ui, Start(s.ui.history);
      u == s.ui.(history := (if text == "" then [] else [Message(Role.System, text)]) + s.ui.history[start..],
                 images := (if text == "" then [] else [[]]) + s.ui.images[start..])
  {
    ReachableInv(s);
    PromptInHistory(s.ui, text);
    PromptInImages(s.ui, text);
  }

  lemma PromptInHistory(ui: Ui, text: string)
    requires |ui.history| == |ui.images|
    ensures WithSystem(ui, text).history
         == (if text == "" then [] else [Message(Role.System, text)]) + ui.history[Start(ui.history)..]
  {
    if HasSystem(ui) {
      assert ui.history[0 := Message(Role.System, text)] == [Message(Role.System, text)] + ui.history[1..];
    } else {
      assert ui.history[0..] == ui.history;
    }
  }

  lemma PromptInImages(ui: Ui, text: string)
    requires |ui.history| == |ui.images| && (HasSystem(ui) ==> ui.images[0] == [])
    ensures WithSystem(ui, text).images == (if text == "" then [] else [[]]) + ui.images[Start(ui.history)..]
  {
    if HasSystem(ui) {
      assert ui.images == [[]] + ui.images[1..];
    } else {
      assert ui.images[0..] == ui.images;
    }
  }

  /** `/image` with a file attaches it to the next turn, and changes nothing when it
      cannot be loaded. */
  lemma FileIsAttached(s: Sys, line: string, path: string, file: Option<Image>)
    requires Awaiting(s) && Parse(line) == ImageFile(path) && !AllWhitespace(line)
    ensures var u := Apply(s, Submit(line, file));
      if file.Some? then u.ui == s.ui.(pendingImages := s.ui.pendingImages + [file.value]) && u.fetches == s.fetches
      else u == s
  {
  }

  lemma AskingFetches(s: Sys, line: string, url: string, file: Option<Image>)
    requires Awaiting(s) && s.fetches == [] && Parse(line) == ImageUrl(url) && !AllWhitespace(line)
    ensures Apply(s, Submit(line, file)) == s.(ui := s.ui.(fetching := Some(url)), fetches := [url])
  {
    assert s.fetches + [url] == [url];
  }

  lemma FetchedIsDrained(s: Sys, url: string, result: Option<Image>)
    requires s.running && s.toUi == [] && s.fetches == [url]
    ensures var d := Apply(Apply(s, Fetched(result)), Drain);
      && d.fetches == [] && d.toUi == []
      && d.ui == s.ui.(fetching := None,
                       pendingImages := s.ui.pendingImages + (if result.Some? then [result.value] else []))
  {
    var u := Apply(s, Fetched(result));
    assert u.toUi == [ImageFetched(result)];
  }

  /** `/image` with a web address attaches what the fetch delivers, if it does, as soon as
      that is drained; meanwhile the UI waits for it. */
  lemma FetchIsAttached(s: Sys, line: string, url: string, file: Option<Image>, result: Option<Image>)
    requires Reachable(s) && Awaiting(s) && Parse(line) == ImageUrl(url) && !AllWhitespace(line)
    ensures var asked := Apply(s, Submit(line, file));
            var drained := Apply(Apply(asked, Fetched(result)), Drain);
      && asked.ui == s.ui.(fetching := Some(url)) && asked.fetches == [url]
      && drained.fetches == [] && drained.toUi == []
      && drained.ui == s.ui.(pendingImages := s.ui.pendingImages + (if result.Some? then [result.value] else []))
  {
    ReachableInv(s);
    assert s.toUi == [] && s.fetches == [];
    AskingFetches(s, line, url, file);
    FetchedIsDrained(Apply(s, Submit(line, file)), url, result);
  }

  // ---- leaving ---------------------------------------------------------------------------------

  /** `/exit` is Ctrl+C between turns: the UI stops, and the idle worker is told to. */
  lemma ExitStopsWorker(s: Sys, line: string, file: Option<Image>)
    requires Reachable(s) && Awaiting(s) && s.worker.Idle? && (TrimEnd(line) == "/exit" || TrimEnd(line) == "/quit")
    ensures var left := Apply(s, Submit(line, file));
      && left == Apply(s, Leave) && !left.running && left.ui == s.ui
      && Apply(left, Receive).worker == Gone && Apply(left, Receive).toWorker == []
  {
    ReachableInv(s);
    SlashIsNotBlank(line, TrimEnd(line));
    CommandsAreExact(line);
    ShutdownIsReceived(s);
  }

  lemma ShutdownIsReceived(s: Sys)
    requires s.worker.Idle? && s.toWorker == []
    ensures Apply(Leaving(s), Receive).worker == Gone && Apply(Leaving(s), Receive).toWorker == []
  {
    assert Leaving(s).toWorker == [Shutdown];
  }

  /** While a turn is in flight neither Enter nor Ctrl+C changes anything, while a fetch is
      under way Enter does not, and a blank line never does. */
  lemma BusyUiIgnoresKeys(s: Sys, line: string, file: Option<Image>)
    ensures s.ui.generating ==> Apply(s, Submit(line, file)) == s == Apply(s, Leave)
    ensures s.ui.fetching.Some? || AllWhitespace(line) ==> Apply(s, Submit(line, file)) == s
  {
  }
}
