/** The chat TUI as a protocol of three parties over FIFO channels: the UI thread,
    the inference worker and at most one image-fetch thread. Every action of a
    thread is one step; a run is any interleaving of them. */
module ChatProtocol {
  import opened Wrappers
  import opened Text
  import opened ChatHistory

  // ---- messages ------------------------------------------------------------------

  datatype UiUpdate =
    | Chunk(text: string)
    | Done
    | Error
    | HistoryTruncated
    | ImageFetched(result: Option<Image>)

  datatype TurnRequest =
    | Turn(history: seq<Message>, images: seq<seq<Image>>)
    | Shutdown

  // ---- the UI's state ------------------------------------------------------------

  datatype Ui = Ui(
    history: seq<Message>,
    images: seq<seq<Image>>,
    pending: Option<string>,
    generating: bool,
    pendingImages: seq<Image>,
    fetching: Option<string>,
    truncateOffset: nat)

  /** What `Vec::pop` leaves. */
  function Popped<T>(s: seq<T>): seq<T> {
    if s == [] then [] else s[..|s| - 1]
  }

  /** The drain loop's arm for one update. */
  function AfterUpdate(ui: Ui, u: UiUpdate): Ui {
    match u
    case Chunk(text) =>
      var sofar := if ui.pending.Some? then ui.pending.value else "";
      ui.(pending := Some(if AllWhitespace(sofar) then TrimStart(text) else sofar + text))
    case Done =>
      var text := if ui.pending.Some? then ui.pending.value else "";
      ui.(history := ui.history + [Message(Assistant, text)], images := ui.images + [[]],
          pending := None, pendingImages := [], generating := false)
    case Error =>
      var popped :=
        if ui.history != [] && ui.history[|ui.history| - 1].role == User then
          ui.(history := Popped(ui.history), images := Popped(ui.images))
        else ui;
      popped.(pending := None, generating := false)
    case HistoryTruncated => ui.(truncateOffset := ui.truncateOffset + 1)
    case ImageFetched(result) =>
      ui.(fetching := None,
          pendingImages := if result.Some? then ui.pendingImages + [result.value] else ui.pendingImages)
  }

  // ---- what a submitted line means -------------------------------------------------

  datatype Command =
    | Say(line: string)
    | Exit
    | Clear
    | SetSystem(text: string)
    | ImageFile(path: string)
    | ImageUrl(url: string)
    | Nothing                  // help, save, usage and unknown commands

  /** `str::split_once(char::is_whitespace)`, as the offset of the split. */
  function FirstBlank(s: string): (i: nat)
    ensures i <= |s|
    ensures forall j :: 0 <= j < i ==> !IsWhitespace(s[j])
    ensures i < |s| ==> IsWhitespace(s[i])
  {
    if s == "" || IsWhitespace(s[0]) then 0 else 1 + FirstBlank(s[1..])
  }

  predicate StartsWithIgnoreCase(s: string, prefix: string) {
    |prefix| <= |s| && forall i :: 0 <= i < |prefix| ==> LowerAscii(s[i]) == prefix[i]
  }

  predicate LooksLikeUrl(s: string) {
    StartsWithIgnoreCase(s, "http://") || StartsWithIgnoreCase(s, "https://")
  }

  /** The command word of a slash line without trailing blanks. */
  function Verb(trimmed: string): string {
    trimmed[..FirstBlank(trimmed)]
  }

  function Argument(trimmed: string): string {
    var i := FirstBlank(trimmed);
    if i < |trimmed| then Trim(trimmed[i + 1..]) else ""
  }

  function ParseCommand(cmd: string, rest: string): Command {
    if rest != "" && (cmd == "/exit" || cmd == "/quit" || cmd == "/help" || cmd == "/clear") then Nothing
    else if cmd == "/exit" || cmd == "/quit" then Exit
    else if cmd == "/clear" then Clear
    else if cmd == "/image" then
      if rest == "" then Nothing else if LooksLikeUrl(rest) then ImageUrl(rest) else ImageFile(rest)
    else if cmd == "/system" then SetSystem(rest)
    else Nothing
  }

  /** The dispatch of `dispatch_user_input` on a submitted line. */
  function Parse(line: string): Command {
    if !StartsWith(line, "/") then Say(line)
    else ParseCommand(Verb(TrimEnd(line)), Argument(TrimEnd(line)))
  }

  function HasSystem(ui: Ui): bool {
    ui.history != [] && ui.history[0].role == Role.System
  }

  /** `/clear`. */
  function Cleared(ui: Ui): Ui {
    var keep := if HasSystem(ui) then 1 else 0;
    ui.(history := if keep <= |ui.history| then ui.history[..keep] else ui.history,
        images := if keep <= |ui.images| then ui.images[..keep] else ui.images,
        pendingImages := [], truncateOffset := 0)
  }

  /** `/system`, with an empty text removing the prompt. */
  function WithSystem(ui: Ui, text: string): Ui
    requires |ui.history| == |ui.images|
  {
    if text == "" then
      if HasSystem(ui) then ui.(history := ui.history[1..], images := ui.images[1..]) else ui
    else
      var msg := Message(Role.System, text);
      if HasSystem(ui) then ui.(history := ui.history[0 := msg])
      else ui.(history := [msg] + ui.history, images := [[]] + ui.images)
  }

  /** A user message, up to the send. */
  function Said(ui: Ui, line: string): Ui {
    ui.(history := ui.history + [Message(User, line)], images := ui.images + [ui.pendingImages],
        pending := Some(""), generating := true)
  }

  /** The pairs that the dispatch drops up front, and the offset it goes on with:
      fewer when the history cannot bear that many. */
  function Applied(ui: Ui): nat {
    Walk(ui.history, Start(ui.history), ui.truncateOffset).1
  }

  function Healed(ui: Ui): Ui {
    if Applied(ui) < ui.truncateOffset then ui.(truncateOffset := Applied(ui)) else ui
  }

  /** The request built from the full history: a kept prefix and a kept tail. */
  function Request(ui: Ui): TurnRequest
    requires |ui.history| == |ui.images|
  {
    var start := Start(ui.history);
    var end := Walk(ui.history, start, ui.truncateOffset).0;
    Turn(ui.history[..start] + ui.history[end..], ui.images[..start] + ui.images[end..])
  }

  /** The roll-back when the worker is gone. */
  function RolledBack(ui: Ui): Ui {
    ui.(history := Popped(ui.history), images := Popped(ui.images), generating := false, pending := None)
  }

  // ---- the whole system --------------------------------------------------------------

  datatype Worker =
    | Idle
    | Prefilling(history: seq<Message>, images: seq<seq<Image>>)
    | Streaming(history: seq<Message>, images: seq<seq<Image>>)
    | Gone

  /** What happened so far, for stating properties; no thread reads it. */
  datatype Log = Log(
    attached: seq<Image>,        // attachments since the last `/clear`, in order
    emitted: string,             // reply text the worker sent in this turn
    drained: string,             // the part of it that the UI has drained
    lastTried: seq<Message>,     // the history of the worker's latest attempt
    triedImages: seq<seq<Image>>,
    before: Ui)                  // the UI just before it dispatched this turn

  datatype Sys = Sys(
    ui: Ui,
    toWorker: seq<TurnRequest>,
    toUi: seq<UiUpdate>,
    worker: Worker,
    fetches: seq<string>,
    running: bool,
    log: Log)

  datatype Attempt = Fits | Overflows | Fails

  datatype Action =
    | Drain                                        // UI takes one update
    | Submit(line: string, file: Option<Image>)    // Enter; `file` is what a path load gives
    | Leave                                        // Ctrl+C, Ctrl+D or Esc on an empty prompt
    | Receive                                      // worker takes a request
    | Prefill(attempt: Attempt)                    // one turn of the worker's retry loop
    | Emit(text: string)                           // one decoded piece
    | Finish(ok: bool)                             // generation returns
    | Die                                          // the worker thread ends between turns
    | Fetched(result: Option<Image>)               // the fetch thread delivers

  function NoImages(n: nat): (r: seq<seq<Image>>)
    ensures |r| == n && forall i :: 0 <= i < n ==> r[i] == []
  {
    seq(n, _ => [])
  }

  function Init(history: seq<Message>): Sys {
    var ui := Ui(history, NoImages(|history|), None, false, [], None, 0);
    Sys(ui, [], [], Idle, [], true, Log([], "", "", [], [], ui))
  }

  function Leaving(s: Sys): Sys {
    s.(running := false, toWorker := s.toWorker + [Shutdown])
  }

  function ApplyDrain(s: Sys): Sys {
    if !s.running || s.toUi == [] then s
    else
      var u := s.toUi[0];
      var log :=
        match u
        case Chunk(text) => s.log.(drained := s.log.drained + text)
        case ImageFetched(Some(image)) => s.log.(attached := s.log.attached + [image])
        case _ => s.log;
      s.(ui := AfterUpdate(s.ui, u), toUi := s.toUi[1..], log := log)
  }

  function ApplySay(s: Sys, line: string): Sys {
    var said := Said(s.ui, line);
    var healed := Healed(said);
    if |said.history| != |said.images| then s
    else if s.worker.Gone? then s.(ui := RolledBack(healed))
    else
      var req := Request(said);
      s.(ui := healed, toWorker := s.toWorker + [req],
         log := s.log.(emitted := "", drained := "", lastTried := req.history, triedImages := req.images,
                       before := s.ui))
  }

  function ApplyCommand(s: Sys, c: Command, file: Option<Image>): Sys {
    match c
    case Say(line) => ApplySay(s, line)
    case Exit => Leaving(s)
    case Clear => s.(ui := Cleared(s.ui), log := s.log.(attached := []))
    case SetSystem(text) => if |s.ui.history| == |s.ui.images| then s.(ui := WithSystem(s.ui, text)) else s
    case ImageFile(_) =>
      if file.None? then s
      else s.(ui := s.ui.(pendingImages := s.ui.pendingImages + [file.value]),
              log := s.log.(attached := s.log.attached + [file.value]))
    case ImageUrl(url) =>
      if s.ui.fetching.Some? then s
      else s.(ui := s.ui.(fetching := Some(url)), fetches := s.fetches + [url])
    case Nothing => s
  }

  /** `handle_key` ignores editing and Enter while a turn or a fetch is in flight,
      and a blank line does nothing. */
  function ApplySubmit(s: Sys, line: string, file: Option<Image>): Sys {
    if !s.running || s.ui.generating || s.ui.fetching.Some? || AllWhitespace(line) then s
    else ApplyCommand(s, Parse(line), file)
  }

  /** While generating, Ctrl+C only raises the cancel flag. */
  function ApplyLeave(s: Sys): Sys {
    if !s.running || s.ui.generating then s else Leaving(s)
  }

  function ApplyReceive(s: Sys): Sys {
    if !s.worker.Idle? || s.toWorker == [] then s
    else
      match s.toWorker[0]
      case Turn(h, i) => s.(worker := Prefilling(h, i), toWorker := s.toWorker[1..])
      case Shutdown => s.(worker := Gone, toWorker := s.toWorker[1..])
  }

  function ApplyPrefill(s: Sys, attempt: Attempt): Sys {
    if !s.worker.Prefilling? then s
    else
      var h, i := s.worker.history, s.worker.images;
      match attempt
      case Fits => s.(worker := Streaming(h, i))
      case Fails => s.(worker := Idle, toUi := s.toUi + [Error])
      case Overflows =>
        var n := OldestPair(h);
        if n == 0 || |h| != |i| then s.(worker := Idle, toUi := s.toUi + [Error])
        else
          var h' := Without(h, Start(h), n);
          var i' := Without(i, Start(h), n);
          s.(worker := Prefilling(h', i'), toUi := s.toUi + [HistoryTruncated],
             log := s.log.(lastTried := h', triedImages := i'))
  }

  function ApplyEmit(s: Sys, text: string): Sys {
    if !s.worker.Streaming? then s
    else s.(toUi := s.toUi + [Chunk(text)], log := s.log.(emitted := s.log.emitted + text))
  }

  function ApplyFinish(s: Sys, ok: bool): Sys {
    if !s.worker.Streaming? then s
    else s.(worker := Idle, toUi := s.toUi + [if ok then Done else Error])
  }

  function ApplyDie(s: Sys): Sys {
    if s.worker.Idle? && s.toWorker == [] then s.(worker := Gone) else s
  }

  function ApplyFetched(s: Sys, result: Option<Image>): Sys {
    if s.fetches == [] then s
    else s.(fetches := s.fetches[1..], toUi := s.toUi + [ImageFetched(result)])
  }

  /** One step; an action that is not enabled changes nothing. */
  function Apply(s: Sys, a: Action): Sys {
    match a
    case Drain => ApplyDrain(s)
    case Submit(line, file) => ApplySubmit(s, line, file)
    case Leave => ApplyLeave(s)
    case Receive => ApplyReceive(s)
    case Prefill(attempt) => ApplyPrefill(s, attempt)
    case Emit(text) => ApplyEmit(s, text)
    case Finish(ok) => ApplyFinish(s, ok)
    case Die => ApplyDie(s)
    case Fetched(result) => ApplyFetched(s, result)
  }

  /** Any interleaving. */
  function Run(s: Sys, actions: seq<Action>): Sys
    decreases |actions|
  {
    if actions == [] then s else Run(Apply(s, actions[0]), actions[1..])
  }
}
