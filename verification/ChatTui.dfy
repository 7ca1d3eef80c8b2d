/** The chat TUI's own objects: the state that the UI thread updates in place and the
    worker's retry loop, each proved to take the protocol's steps. */
module ChatTui {
  import opened Wrappers
  import opened Text
  import opened ChatHistory
  import opened ChatProtocol

  /** Updates drained one after the other. */
  function AfterUpdates(ui: Ui, mail: seq<UiUpdate>): Ui
    decreases |mail|
  {
    if mail == [] then ui else AfterUpdates(AfterUpdate(ui, mail[0]), mail[1..])
  }

  class ChatState {
    var history: seq<Message>
    var historyImages: seq<seq<Image>>
    var pending: Option<string>
    var generating: bool
    var pendingImages: seq<Image>
    var fetchingUrl: Option<string>
    var truncateOffset: nat

    ghost function View(): Ui
      reads this
    {
      Ui(history, historyImages, pending, generating, pendingImages, fetchingUrl, truncateOffset)
    }

    constructor (initial: seq<Message>)
      ensures View() == Init(initial).ui
    {
      history := initial;
      historyImages := NoImages(|initial|);
      pending := None;
      generating := false;
      pendingImages := [];
      fetchingUrl := None;
      truncateOffset := 0;
    }

    // ---- draining ------------------------------------------------------------------

    method Take(u: UiUpdate)
      modifies this
      ensures View() == AfterUpdate(old(View()), u)
    {
      match u
      case Chunk(text) =>
        var sofar := if pending.Some? then pending.value else "";
        if AllWhitespace(sofar) {
          pending := Some(TrimStart(text));
        } else {
          pending := Some(sofar + text);
        }
      case Done =>
        var text := if pending.Some? then pending.value else "";
        pending := None;
        history := history + [Message(Assistant, text)];
        historyImages := historyImages + [[]];
        pendingImages := [];
        generating := false;
      case Error =>
        if history != [] && history[|history| - 1].role == User {
          history := Popped(history);
          historyImages := Popped(historyImages);
        }
        pending := None;
        generating := false;
      case HistoryTruncated =>
        truncateOffset := truncateOffset + 1;
      case ImageFetched(result) =>
        fetchingUrl := None;
        if result.Some? {
          pendingImages := pendingImages + [result.value];
        }
    }

    /** The inner loop of `run_inner`: everything in the channel, in order. */
    method TakeAll(mail: seq<UiUpdate>)
      modifies this
      ensures View() == AfterUpdates(old(View()), mail)
    {
      var rest := mail;
      while rest != []
        invariant AfterUpdates(View(), rest) == AfterUpdates(old(View()), mail)
        decreases |rest|
      {
        Take(rest[0]);
        rest := rest[1..];
      }
    }

    // ---- dispatching -----------------------------------------------------------------

    method ClearHistory()
      modifies this
      ensures View() == Cleared(old(View()))
    {
      if history != [] && history[0].role == Role.System {
        history := history[..1];
        historyImages := if historyImages != [] then historyImages[..1] else historyImages;
      } else {
        history := [];
        historyImages := [];
      }
      pendingImages := [];
      truncateOffset := 0;
    }

    method SetSystemPrompt(text: string)
      requires |history| == |historyImages|
      modifies this
      ensures View() == WithSystem(old(View()), text)
    {
      var hasSystem := history != [] && history[0].role == Role.System;
      if text == "" {
        if hasSystem {
          history := history[1..];
          historyImages := historyImages[1..];
        }
        return;
      }
      var msg := Message(Role.System, text);
      if hasSystem {
        history := history[0 := msg];
      } else {
        history := [msg] + history;
        historyImages := [[]] + historyImages;
      }
    }

    /** A user message: commit it, cut the worker's copy, send it, and take it back
        when nobody receives it. */
    method SendTurn(line: string, alive: bool) returns (sent: seq<TurnRequest>)
      requires |history| == |historyImages|
      modifies this
      ensures var said := Said(old(View()), line);
        && sent == (if alive then [Request(said)] else [])
        && View() == (if alive then Healed(said) else RolledBack(Healed(said)))
    {
      history := history + [Message(User, line)];
      historyImages := historyImages + [pendingImages];
      pending := Some("");
      generating := true;
      var keptStart, dropEnd, applied := SimulateTruncateOldestTurnPairs(history, truncateOffset);
      if applied < truncateOffset {
        truncateOffset := applied;
      }
      var copy := history[..keptStart] + history[dropEnd..];
      var images := historyImages[..keptStart] + historyImages[dropEnd..];
      if alive {
        sent := [Turn(copy, images)];
      } else {
        sent := [];
        history := Popped(history);
        historyImages := Popped(historyImages);
        generating := false;
        pending := None;
      }
    }

    /** Enter on a line: one protocol step, `s` being the system around this state. */
    method Submit(line: string, file: Option<Image>, alive: bool, ghost s: Sys)
      returns (sent: seq<TurnRequest>, fetch: seq<string>, leave: bool)
      requires |history| == |historyImages|
      requires s.ui == View() && s.running && (alive <==> !s.worker.Gone?)
      modifies this
      ensures var t := ApplySubmit(s, line, file);
        && View() == t.ui
        && (leave <==> !t.running)
        && t.toWorker == s.toWorker + sent + (if leave then [Shutdown] else [])
        && t.fetches == s.fetches + fetch
    {
      sent, fetch, leave := [], [], false;
      if generating || fetchingUrl.Some? || AllWhitespace(line) {
        return;
      }
      match Parse(line)
      case Say(text) =>
        sent := SendTurn(text, alive);
      case Exit =>
        leave := true;
      case Clear =>
        ClearHistory();
      case SetSystem(text) =>
        SetSystemPrompt(text);
      case ImageFile(_) =>
        if file.Some? {
          pendingImages := pendingImages + [file.value];
        }
      case ImageUrl(url) =>
        fetchingUrl := Some(url);
        fetch := [url];
      case Nothing =>
    }
  }

  // ---- the worker's retry loop -----------------------------------------------------------

  lemma {:induction false} RunOneMore(s: Sys, actions: seq<Action>, a: Action)
    ensures Run(s, actions + [a]) == Apply(Run(s, actions), a)
    decreases |actions|
  {
    if actions == [] {
      assert [] + [a] == [a] && [a][1..] == [];
    } else {
      assert (actions + [a])[0] == actions[0] && (actions + [a])[1..] == actions[1..] + [a];
      RunOneMore(Apply(s, actions[0]), actions[1..], a);
    }
  }

  function Attempts(attempt: nat -> Attempt, n: nat): (r: seq<Action>)
    ensures |r| == n
  {
    if n == 0 then [] else Attempts(attempt, n - 1) + [Prefill(attempt(n - 1))]
  }

  /** `worker_loop`'s prefill: retry with the oldest pair dropped while the context
      overflows. `attempt` says what each try comes to; the loop needs no bound on
      it because every further try starts from a shorter history. */
  method PrefillWithRetries(copy: TurnCopy, attempt: nat -> Attempt, ghost s: Sys)
    returns (ok: bool, sent: seq<UiUpdate>, tries: nat)
    requires |copy.history| == |copy.images|
    requires s.worker == Prefilling(copy.history, copy.images)
    modifies copy
    ensures var t := Run(s, Attempts(attempt, tries));
      && t.worker == (if ok then Streaming(copy.history, copy.images) else Idle)
      && t.toUi == s.toUi + sent
    ensures tries <= |old(copy.history)| + 1
  {
    sent := [];
    tries := 0;
    while true
      invariant |copy.history| == |copy.images|
      invariant Run(s, Attempts(attempt, tries)).worker == Prefilling(copy.history, copy.images)
      invariant Run(s, Attempts(attempt, tries)).toUi == s.toUi + sent
      invariant tries + |copy.history| <= |old(copy.history)|
      decreases |copy.history|
    {
      RunOneMore(s, Attempts(attempt, tries), Prefill(attempt(tries)));
      ghost var now := Run(s, Attempts(attempt, tries));
      tries := tries + 1;
      match attempt(tries - 1) {
        case Fits =>
          return true, sent, tries;
        case Overflows =>
          var dropped := copy.TruncateOldestTurnPair();
          if !dropped {
            sent := sent + [Error];
            return false, sent, tries;
          }
          sent := sent + [HistoryTruncated];
        case Fails =>
          sent := sent + [Error];
          return false, sent, tries;
      }
    }
  }
}
