/** What the chat protocol guarantees in every state that some interleaving of its
    threads can reach. */
module ChatTheorems {
  import opened Wrappers
  import opened Text
  import opened ChatHistory
  import opened ChatProtocol
  import opened ChatInvariants

  /** Reached from a start with no turns but possibly a system prompt or finished
      ones, through any interleaving. */
  ghost predicate Reachable(s: Sys) {
    exists h: seq<Message>, actions: seq<Action> :: Conversation(h, false) && s == Run(Init(h), actions)
  }

  lemma ReachableInv(s: Sys)
    requires Reachable(s)
    ensures Inv(s)
  {
    var h: seq<Message>, actions: seq<Action> :| Conversation(h, false) && s == Run(Init(h), actions);
    InitHolds(h);
    RunKeeps(Init(h), actions);
  }

  // ---- the turn token -----------------------------------------------------------------

  function Queued(q: seq<TurnRequest>): nat {
    if q == [] then 0 else (if q[0].Turn? then 1 else 0) + Queued(q[1..])
  }

  function Ends(m: seq<UiUpdate>): nat {
    if m == [] then 0 else (if m[0].Done? || m[0].Error? then 1 else 0) + Ends(m[1..])
  }

  /** Queued requests, busy workers and unread turn ends. */
  function Tokens(s: Sys): nat {
    Queued(s.toWorker) + (if s.worker.Prefilling? || s.worker.Streaming? then 1 else 0) + Ends(s.toUi)
  }

  lemma {:induction false} NoEnds(m: seq<UiUpdate>)
    requires StreamMail(m) || FetchMail(m)
    ensures Ends(m) == 0
  {
    if m != [] {
      NoEnds(m[1..]);
    }
  }

  lemma {:induction false} OneEnd(m: seq<UiUpdate>)
    requires AnsweredMail(m)
    ensures Ends(m) == 1
  {
    if m[0].HistoryTruncated? || m[0].Chunk? {
      RestOfMail(m);
      OneEnd(m[1..]);
    } else if |m| > 1 {
      HeadOfInit(m);
      assert false;
    }
  }

  /** A turn is in flight exactly when one token exists, and there is never more
      than one. */
  lemma TokenIffGenerating(s: Sys)
    requires Reachable(s)
    ensures Tokens(s) == if s.ui.generating then 1 else 0
    ensures s.ui.pending.Some? <==> s.ui.generating
  {
    ReachableInv(s);
    assert s.toWorker != [] ==> s.toWorker[1..] == [];
    assert s.toWorker == [] || Queued(s.toWorker) == if s.toWorker[0].Turn? then 1 else 0;
    if !s.ui.generating {
      NoEnds(s.toUi);
    } else if (s.worker.Idle? || s.worker.Gone?) && s.toWorker == [] {
      OneEnd(s.toUi);
    } else {
      NoEnds(s.toUi);
    }
  }

  function TurnRole(i: nat, start: nat): Role {
    if i < start then Role.System else if (i - start) % 2 == 0 then User else Assistant
  }

  /** History and attachments stay parallel, roles read system?, (user assistant)*
      with a trailing user exactly while generating, only user turns carry
      attachments, and no turn runs beside a URL fetch. */
  lemma HistoryShape(s: Sys)
    requires Reachable(s)
    ensures |s.ui.history| == |s.ui.images|
    ensures forall i :: 0 <= i < |s.ui.history| ==> s.ui.history[i].role == TurnRole(i, Start(s.ui.history))
    ensures (|s.ui.history| - Start(s.ui.history)) % 2 == if s.ui.generating then 1 else 0
    ensures forall i :: 0 <= i < |s.ui.history| && s.ui.history[i].role != User ==> s.ui.images[i] == []
    ensures s.ui.generating ==> s.ui.fetching == None && s.fetches == [] && s.running
  {
    ReachableInv(s);
    ConversationRoles(s.ui.history, s.ui.generating);
  }

  // ---- truncation -------------------------------------------------------------------------

  /** The offset never exceeds the complete pairs, so a dispatch never has to lower
      it, and the request it sends is the history without exactly that many pairs. */
  lemma OffsetNeverHeals(s: Sys, line: string)
    requires Reachable(s)
    ensures s.ui.truncateOffset <= Pairs(s.ui.history)
    ensures !s.ui.generating ==> (
      var said := Said(s.ui, line);
      && |said.history| == |said.images|
      && Healed(said) == said
      && Agrees(said.history, said.images, s.ui.truncateOffset, Request(said).history, Request(said).images))
  {
    ReachableInv(s);
    if !s.ui.generating {
      DispatchDropsPairs(s.ui, line);
    }
  }

  /** When a turn's end is next to be drained, what the worker tried last is the
      UI's history without its `truncateOffset` oldest pairs. */
  lemma EndAgrees(s: Sys)
    requires Reachable(s) && s.ui.generating && s.toUi != [] && (s.toUi[0].Done? || s.toUi[0].Error?)
    ensures Agrees(s.ui.history, s.ui.images, s.ui.truncateOffset, s.log.lastTried, s.log.triedImages)
  {
    ReachableInv(s);
    EndIsLast(s.toUi);
    assert s.toUi[1..] == [] && Truncs(s.toUi) == 0 + 0;
  }

  /** What the worker holds while prefilling. */
  predicate HoldsTurn(w: Worker) {
    w.Prefilling? && |w.history| == |w.images| && Conversation(w.history, true)
  }

  lemma WorkerHoldsTurn(s: Sys)
    requires Reachable(s) && s.worker.Prefilling?
    ensures HoldsTurn(s.worker) && Pairs(s.worker.history) <= Pairs(s.ui.history)
  {
    ReachableInv(s);
    DropPairsConversation(s.ui.history, s.ui.truncateOffset + Truncs(s.toUi), true);
  }

  /** One overflow: the turn ends if it has no older pair, and has one pair less
      otherwise. */
  lemma OverflowShrinks(s: Sys)
    requires HoldsTurn(s.worker)
    ensures var w := Apply(s, Prefill(Overflows)).worker;
      if Pairs(s.worker.history) == 0 then w == Idle
      else HoldsTurn(w) && Pairs(w.history) == Pairs(s.worker.history) - 1
  {
    var h := s.worker.history;
    TruncateDropsPair(h);
    if Pairs(h) > 0 {
      DropPairsConversation(h, 1, true);
    }
  }

  /** `n` overflows in a row. */
  function OverflowTimes(n: nat): seq<Action> {
    if n == 0 then [] else [Prefill(Overflows)] + OverflowTimes(n - 1)
  }

  lemma RunFirst(s: Sys, a: Action, rest: seq<Action>)
    ensures Run(s, [a] + rest) == Run(Apply(s, a), rest)
  {
    assert ([a] + rest)[1..] == rest;
  }

  /** Nothing but overflows: the retry loop gives up after as many attempts as the
      request had pairs, and one more. */
  lemma {:induction false} OverflowsEnd(s: Sys)
    requires HoldsTurn(s.worker)
    ensures Run(s, OverflowTimes(Pairs(s.worker.history) + 1)).worker == Idle
    decreases Pairs(s.worker.history)
  {
    var n := Pairs(s.worker.history);
    OverflowShrinks(s);
    RunFirst(s, Prefill(Overflows), OverflowTimes(n));
    if n > 0 {
      OverflowsEnd(Apply(s, Prefill(Overflows)));
    }
  }

  /** So in every reachable state a prefilling worker is through after no more
      overflows than the UI's history has pairs, and one more. */
  lemma PrefillEnds(s: Sys)
    requires Reachable(s) && s.worker.Prefilling?
    ensures Pairs(s.worker.history) <= Pairs(s.ui.history)
    ensures Run(s, OverflowTimes(Pairs(s.worker.history) + 1)).worker == Idle
  {
    WorkerHoldsTurn(s);
    OverflowsEnd(s);
  }

  // ---- replies ---------------------------------------------------------------------------

  /** What is shown of a reply depends only on the text drained so far, and what is
      committed only on the text the worker sent, never on how it was cut. */
  lemma ReplyIgnoresChunking(s: Sys)
    requires Reachable(s) && s.ui.generating
    ensures s.ui.pending == Some(TrimStart(s.log.drained))
    ensures s.toUi != [] && s.toUi[0].Done? ==>
      ApplyDrain(s).ui.history == s.ui.history + [Message(Assistant, TrimStart(s.log.emitted))]
  {
    ReachableInv(s);
    if s.toUi != [] && s.toUi[0].Done? {
      EndIsLast(s.toUi);
      assert s.toUi[1..] == [] && ChunkText(s.toUi) == "" + "";
      assert s.log.emitted == s.log.drained;
    }
  }

  // ---- attachments ------------------------------------------------------------------------

  /** Every attachment since the last `/clear` is, in order, in a committed user
      turn or still pending, once; in flight it is in the open turn. */
  lemma AttachmentsConserved(s: Sys)
    requires Reachable(s)
    ensures Flatten(s.ui.images) + (if s.ui.generating then [] else s.ui.pendingImages) == s.log.attached
    ensures s.ui.generating ==>
      s.ui.images != [] && s.ui.images[|s.ui.images| - 1] == s.ui.pendingImages
  {
    ReachableInv(s);
  }

  /** A failed turn leaves no trace but a possibly larger offset. */
  lemma FailureRestores(s: Sys)
    requires Reachable(s) && s.ui.generating && s.toUi != [] && s.toUi[0].Error?
    ensures ApplyDrain(s).ui == s.log.before.(truncateOffset := s.ui.truncateOffset)
    ensures s.log.before.truncateOffset <= s.ui.truncateOffset
  {
    ReachableInv(s);
    ErrorRollsBack(s);
  }

  /** A dispatch that finds the worker gone leaves no trace at all. */
  lemma GoneWorkerRestores(s: Sys, line: string)
    requires Reachable(s) && s.running && !s.ui.generating && s.ui.fetching == None && s.worker.Gone?
    ensures ApplySay(s, line) == s
  {
    ReachableInv(s);
    UnsentSay(s, line);
  }

  // ---- commands ------------------------------------------------------------------------------

  lemma {:induction false} TrimKeepsEnd(s: string)
    requires s != "" && !IsWhitespace(s[|s| - 1])
    ensures TrimStart(s) != "" && Trim(s) != ""
  {
    if IsWhitespace(s[0]) {
      TrimKeepsEnd(s[1..]);
    }
  }

  /** Only a bare command word has no argument. */
  lemma ArgumentIffMore(trimmed: string)
    requires trimmed != "" ==> !IsWhitespace(trimmed[|trimmed| - 1])
    ensures Argument(trimmed) == "" <==> Verb(trimmed) == trimmed
  {
    var i := FirstBlank(trimmed);
    if i < |trimmed| {
      var s := trimmed[i + 1..];
      assert i != |trimmed| - 1 && s[|s| - 1] == trimmed[|trimmed| - 1];
      TrimKeepsEnd(s);
      assert |Verb(trimmed)| < |trimmed|;
    } else {
      assert trimmed[..i] == trimmed;
    }
  }

  predicate NoBlank(word: string) {
    forall i :: 0 <= i < |word| ==> !IsWhitespace(word[i])
  }

  /** A line is a bare command exactly when it is the command word up to trailing
      blanks. */
  lemma BareCommandIff(line: string, word: string)
    requires NoBlank(word) && word != ""
    ensures TrimEnd(line) == word <==> Verb(TrimEnd(line)) == word && Argument(TrimEnd(line)) == ""
  {
    TrimEndIsPrefix(line);
    ArgumentIffMore(TrimEnd(line));
    if TrimEnd(line) == word {
      assert FirstBlank(word) == |word|;
    }
  }

  lemma SlashIsKept(line: string, word: string)
    requires TrimEnd(line) == word && StartsWith(word, "/")
    ensures StartsWith(line, "/")
  {
    TrimEndIsPrefix(line);
    assert line[0] == word[0];
  }

  /** A line is said, word for word, unless it starts with a slash. Leaving and
      clearing take the bare command, trailing blanks aside: no argument is ever
      ignored. */
  lemma CommandsAreExact(line: string)
    ensures Parse(line).Say? <==> !StartsWith(line, "/")
    ensures Parse(line).Say? ==> Parse(line).line == line
    ensures Parse(line) == Exit <==> TrimEnd(line) == "/exit" || TrimEnd(line) == "/quit"
    ensures Parse(line) == Clear <==> TrimEnd(line) == "/clear"
  {
    BareCommandIff(line, "/exit");
    BareCommandIff(line, "/quit");
    BareCommandIff(line, "/clear");
    if TrimEnd(line) == "/exit" || TrimEnd(line) == "/quit" || TrimEnd(line) == "/clear" {
      SlashIsKept(line, TrimEnd(line));
    }
  }
}
