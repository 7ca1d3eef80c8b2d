/** What every interleaving of the chat protocol keeps. */
module ChatInvariants {
  import opened Wrappers
  import opened Text
  import opened ChatHistory
  import opened ChatProtocol

  // ---- the worker's mail to the UI ---------------------------------------------------

  /** Truncation notices not yet drained. */
  function Truncs(m: seq<UiUpdate>): nat {
    if m == [] then 0 else (if m[0].HistoryTruncated? then 1 else 0) + Truncs(m[1..])
  }

  /** Reply text not yet drained. */
  function ChunkText(m: seq<UiUpdate>): string {
    if m == [] then "" else if m[0].Chunk? then m[0].text + ChunkText(m[1..]) else ChunkText(m[1..])
  }

  /** What a turn sends before it ends. */
  predicate StreamMail(m: seq<UiUpdate>) {
    forall i :: 0 <= i < |m| ==> m[i].HistoryTruncated? || m[i].Chunk?
  }

  /** A whole turn's mail, its end included. */
  predicate AnsweredMail(m: seq<UiUpdate>) {
    && m != []
    && StreamMail(m[..|m| - 1])
    && (m[|m| - 1].Done? || m[|m| - 1].Error?)
  }

  predicate FetchMail(m: seq<UiUpdate>) {
    forall i :: 0 <= i < |m| ==> m[i].ImageFetched?
  }

  lemma {:induction false} TruncsAppend(m: seq<UiUpdate>, u: UiUpdate)
    ensures Truncs(m + [u]) == Truncs(m) + (if u.HistoryTruncated? then 1 else 0)
  {
    if m == [] {
      assert [] + [u] == [u] && [u][1..] == [];
    } else {
      TruncsAppend(m[1..], u);
      assert (m + [u])[0] == m[0] && (m + [u])[1..] == m[1..] + [u];
    }
  }

  lemma {:induction false} TextAppends(m: seq<UiUpdate>, u: UiUpdate)
    ensures ChunkText(m + [u]) == if u.Chunk? then ChunkText(m) + u.text else ChunkText(m)
  {
    if m == [] {
      assert [] + [u] == [u] && [u][1..] == [];
      assert u.Chunk? ==> u.text + "" == "" + u.text;
    } else {
      TextAppends(m[1..], u);
      assert (m + [u])[0] == m[0] && (m + [u])[1..] == m[1..] + [u];
      if m[0].Chunk? && u.Chunk? {
        assert m[0].text + (ChunkText(m[1..]) + u.text) == m[0].text + ChunkText(m[1..]) + u.text;
      }
    }
  }

  lemma MailAppends(m: seq<UiUpdate>, u: UiUpdate)
    ensures Truncs(m + [u]) == Truncs(m) + (if u.HistoryTruncated? then 1 else 0)
    ensures ChunkText(m + [u]) == if u.Chunk? then ChunkText(m) + u.text else ChunkText(m)
  {
    TruncsAppend(m, u);
    TextAppends(m, u);
  }

  /** Cutting a reply into chunks does not change what is shown of it: the drain's
      rule for one chunk is `TrimStart` of the longer text. */
  lemma {:induction false} TrimStartAppends(a: string, b: string)
    ensures TrimStart(a + b) == if AllWhitespace(TrimStart(a)) then TrimStart(b) else TrimStart(a) + b
  {
    if a == "" {
      assert a + b == b;
    } else if IsWhitespace(a[0]) {
      assert (a + b)[1..] == a[1..] + b;
      TrimStartAppends(a[1..], b);
    } else {
      assert TrimStart(a) == a && !IsWhitespace(a[0]);
      assert (a + b)[0] == a[0];
    }
  }

  // ---- attachments ---------------------------------------------------------------------

  function Flatten(images: seq<seq<Image>>): seq<Image> {
    if images == [] then [] else images[0] + Flatten(images[1..])
  }

  lemma {:induction false} FlattenAppends(a: seq<seq<Image>>, x: seq<Image>)
    ensures Flatten(a + [x]) == Flatten(a) + x
  {
    if a == [] {
      assert [] + [x] == [x] && [x][1..] == [];
    } else {
      assert (a + [x])[0] == a[0] && (a + [x])[1..] == a[1..] + [x];
      FlattenAppends(a[1..], x);
    }
  }

  lemma {:induction false} EmptyFlattens(images: seq<seq<Image>>)
    requires forall i :: 0 <= i < |images| ==> images[i] == []
    ensures Flatten(images) == []
  {
    if images != [] {
      EmptyFlattens(images[1..]);
    }
  }

  /** Only user turns carry attachments. */
  predicate UserImages(h: seq<Message>, images: seq<seq<Image>>) {
    && |h| == |images|
    && forall i :: 0 <= i < |h| && h[i].role != User ==> images[i] == []
  }

  // ---- the invariant -------------------------------------------------------------------

  /** Where the one token of a turn in flight is: queued, with the worker, or in
      the mail as the turn's end. Everything before the end is still to come or
      still unread. */
  predicate OneToken(w: Worker, toWorker: seq<TurnRequest>, mail: seq<UiUpdate>,
                     h: seq<Message>, i: seq<seq<Image>>) {
    match w
    case Prefilling(wh, wi) => wh == h && wi == i && toWorker == [] && StreamMail(mail)
    case Streaming(wh, wi) => wh == h && wi == i && toWorker == [] && StreamMail(mail)
    case Idle => if toWorker == [] then AnsweredMail(mail) else toWorker == [Turn(h, i)] && mail == []
    case Gone => toWorker == [] && AnsweredMail(mail)
  }

  /** The worker's latest attempt is the UI's history without its `n` oldest pairs. */
  predicate Agrees(h: seq<Message>, images: seq<seq<Image>>, n: nat,
                   tried: seq<Message>, triedImages: seq<seq<Image>>) {
    && n <= Pairs(h)
    && |images| == |h|
    && tried == DropPairs(h, Start(h), n)
    && triedImages == DropPairs(images, Start(h), n)
  }

  /** The UI state is the one before the dispatch plus one user turn. */
  predicate OneTurnAhead(ui: Ui, before: Ui) {
    && ui.history != [] && ui.images != []
    && ui.history[..|ui.history| - 1] == before.history
    && ui.images == before.images + [before.pendingImages]
    && ui.pendingImages == before.pendingImages
    && before.pending == None && !before.generating && before.fetching == None
    && before.truncateOffset <= ui.truncateOffset
  }

  /** The text shown is the drained one without leading blanks; the rest of what the
      worker sent is in the mail. */
  predicate Speaking(s: Sys) {
    && s.ui.pending == Some(TrimStart(s.log.drained))
    && s.log.emitted == s.log.drained + ChunkText(s.toUi)
  }

  predicate Moving(s: Sys) {
    && s.running
    && s.ui.fetching == None && s.fetches == []
    && OneToken(s.worker, s.toWorker, s.toUi, s.log.lastTried, s.log.triedImages)
    && Agrees(s.ui.history, s.ui.images, s.ui.truncateOffset + Truncs(s.toUi), s.log.lastTried, s.log.triedImages)
    && OneTurnAhead(s.ui, s.log.before)
  }

  /** A turn is in flight. */
  predicate Busy(s: Sys) {
    Moving(s) && Speaking(s)
  }

  /** Between turns only a fetch can be under way, and it is the one the UI waits for. */
  predicate Resting(s: Sys) {
    && s.ui.pending == None
    && FetchMail(s.toUi)
    && |s.toUi| + |s.fetches| == (if s.ui.fetching.Some? then 1 else 0)
    && (s.worker.Idle? || s.worker.Gone?)
    && (s.toWorker == [] || (!s.running && s.toWorker == [Shutdown]))
    && s.ui.truncateOffset <= Pairs(s.ui.history)
  }

  /** Every attachment since the last `/clear`, in order: committed ones first,
      then those still pending. While generating they are in the open user turn. */
  predicate Conserved(ui: Ui, attached: seq<Image>) {
    Flatten(ui.images) + (if ui.generating then [] else ui.pendingImages) == attached
  }

  predicate Inv(s: Sys) {
    && Conversation(s.ui.history, s.ui.generating)
    && UserImages(s.ui.history, s.ui.images)
    && Conserved(s.ui, s.log.attached)
    && (if s.ui.generating then Busy(s) else Resting(s))
  }

  // ---- conversations ------------------------------------------------------------------

  lemma OpenConversation(h: seq<Message>, line: string)
    requires Conversation(h, false)
    ensures Conversation(h + [Message(User, line)], true)
    ensures Start(h + [Message(User, line)]) == Start(h) && Pairs(h + [Message(User, line)]) == Pairs(h)
  {
    ConversationRoles(h, false);
    ConversationRoles(h + [Message(User, line)], true);
  }

  lemma CloseConversation(h: seq<Message>, text: string)
    requires Conversation(h, true)
    ensures Conversation(h + [Message(Assistant, text)], false)
    ensures Start(h + [Message(Assistant, text)]) == Start(h) && Pairs(h) <= Pairs(h + [Message(Assistant, text)])
  {
    ConversationRoles(h, true);
    ConversationRoles(h + [Message(Assistant, text)], false);
  }

  lemma ReopenConversation(h: seq<Message>)
    requires Conversation(h, true)
    ensures h != [] && h[|h| - 1].role == User && Conversation(h[..|h| - 1], false)
    ensures Start(h[..|h| - 1]) == Start(h) && Pairs(h[..|h| - 1]) == Pairs(h)
  {
    ConversationRoles(h, true);
    ConversationRoles(h[..|h| - 1], false);
  }

  /** One overflow: the worker's copy loses exactly the next oldest pair, or is
      refused when the open turn is all there is. */
  lemma OverflowDropsNextPair(h: seq<Message>, images: seq<seq<Image>>, n: nat,
                              tried: seq<Message>, triedImages: seq<seq<Image>>)
    requires Conversation(h, true) && Agrees(h, images, n, tried, triedImages)
    ensures OldestPair(tried) == (if n < Pairs(h) then 2 else 0)
    ensures Start(tried) == Start(h) && |tried| == |triedImages|
    ensures n < Pairs(h) ==>
      Agrees(h, images, n + 1, Without(tried, Start(tried), 2), Without(triedImages, Start(tried), 2))
  {
    DropPairsConversation(h, n, true);
    TruncateDropsPair(tried);
    if n < Pairs(h) {
      DropPairsAdd(h, Start(h), n, 1);
      DropPairsAdd(images, Start(h), n, 1);
    }
  }

  lemma InitHolds(history: seq<Message>)
    requires Conversation(history, false)
    ensures Inv(Init(history))
  {
    EmptyFlattens(NoImages(|history|));
  }

  // ---- worker and fetch steps ------------------------------------------------------------

  lemma ReceiveKeeps(s: Sys)
    requires Inv(s)
    ensures Inv(ApplyReceive(s))
  {
  }

  /** The worker's end of a turn joins the mail. */
  lemma AnswersMove(s: Sys, u: UiUpdate)
    requires Moving(s) && (s.worker.Prefilling? || s.worker.Streaming?) && (u.Done? || u.Error?)
    ensures Moving(s.(worker := Idle, toUi := s.toUi + [u]))
  {
    TruncsAppend(s.toUi, u);
    EndAppends(s.toUi, u);
  }

  lemma EndAppends(m: seq<UiUpdate>, u: UiUpdate)
    requires StreamMail(m) && (u.Done? || u.Error?)
    ensures AnsweredMail(m + [u])
  {
    assert (m + [u])[..|m|] == m;
  }

  lemma Answers(s: Sys, u: UiUpdate)
    requires Inv(s) && (s.worker.Prefilling? || s.worker.Streaming?)
    requires u.Done? || u.Error?
    ensures Inv(s.(worker := Idle, toUi := s.toUi + [u]))
  {
    AnswersMove(s, u);
    MailAppends(s.toUi, u);
  }

  lemma NoticeMoves(s: Sys, h: seq<Message>, i: seq<seq<Image>>)
    requires Moving(s) && s.worker.Prefilling?
    requires Agrees(s.ui.history, s.ui.images, s.ui.truncateOffset + Truncs(s.toUi) + 1, h, i)
    ensures Moving(s.(worker := Prefilling(h, i), toUi := s.toUi + [HistoryTruncated],
                      log := s.log.(lastTried := h, triedImages := i)))
  {
    MailAppends(s.toUi, HistoryTruncated);
  }

  lemma NoticeKeeps(s: Sys, h: seq<Message>, i: seq<seq<Image>>)
    requires Inv(s) && s.worker.Prefilling?
    requires Agrees(s.ui.history, s.ui.images, s.ui.truncateOffset + Truncs(s.toUi) + 1, h, i)
    ensures Inv(s.(worker := Prefilling(h, i), toUi := s.toUi + [HistoryTruncated],
                   log := s.log.(lastTried := h, triedImages := i)))
  {
    NoticeMoves(s, h, i);
    MailAppends(s.toUi, HistoryTruncated);
  }

  /** What an overflow does: give up, or drop a pair and say so. */
  lemma OverflowStep(s: Sys, h: seq<Message>, i: seq<seq<Image>>)
    requires s.worker == Prefilling(h, i) && |h| == |i|
    ensures OldestPair(h) == 0 ==> ApplyPrefill(s, Overflows) == s.(worker := Idle, toUi := s.toUi + [Error])
    ensures OldestPair(h) == 2 ==>
      var (h', i') := (Without(h, Start(h), 2), Without(i, Start(h), 2));
      ApplyPrefill(s, Overflows) == s.(worker := Prefilling(h', i'), toUi := s.toUi + [HistoryTruncated],
                                       log := s.log.(lastTried := h', triedImages := i'))
  {
  }

  lemma OverflowKeeps(s: Sys)
    requires Inv(s) && s.worker.Prefilling?
    ensures Inv(ApplyPrefill(s, Overflows))
  {
    var n := s.ui.truncateOffset + Truncs(s.toUi);
    var h, i := s.log.lastTried, s.log.triedImages;
    OverflowDropsNextPair(s.ui.history, s.ui.images, n, h, i);
    OverflowStep(s, h, i);
    if n < Pairs(s.ui.history) {
      NoticeKeeps(s, Without(h, Start(h), 2), Without(i, Start(h), 2));
    } else {
      Answers(s, Error);
    }
  }

  lemma PrefillKeeps(s: Sys, attempt: Attempt)
    requires Inv(s)
    ensures Inv(ApplyPrefill(s, attempt))
  {
    if s.worker.Prefilling? {
      match attempt
      case Fits =>
      case Fails => Answers(s, Error);
      case Overflows => OverflowKeeps(s);
    }
  }

  lemma EmitMoves(s: Sys, text: string)
    requires Moving(s) && s.worker.Streaming?
    ensures Moving(ApplyEmit(s, text))
  {
    MailAppends(s.toUi, Chunk(text));
  }

  lemma EmitSpeaks(s: Sys, text: string)
    requires Speaking(s) && s.worker.Streaming?
    ensures Speaking(ApplyEmit(s, text))
  {
    MailAppends(s.toUi, Chunk(text));
    assert s.log.drained + (ChunkText(s.toUi) + text) == s.log.drained + ChunkText(s.toUi) + text;
  }

  lemma EmitKeeps(s: Sys, text: string)
    requires Inv(s)
    ensures Inv(ApplyEmit(s, text))
  {
    if s.worker.Streaming? {
      EmitMoves(s, text);
      EmitSpeaks(s, text);
    }
  }

  lemma FinishKeeps(s: Sys, ok: bool)
    requires Inv(s)
    ensures Inv(ApplyFinish(s, ok))
  {
    if s.worker.Streaming? {
      Answers(s, if ok then Done else Error);
    }
  }

  lemma DieKeeps(s: Sys)
    requires Inv(s)
    ensures Inv(ApplyDie(s))
  {
  }

  lemma FetchedKeeps(s: Sys, result: Option<Image>)
    requires Inv(s)
    ensures Inv(ApplyFetched(s, result))
  {
  }

  lemma LeaveKeeps(s: Sys)
    requires Inv(s)
    ensures Inv(ApplyLeave(s))
  {
  }

  // ---- UI steps: draining -------------------------------------------------------------------

  lemma HeadOfInit(m: seq<UiUpdate>)
    requires |m| > 1
    ensures m[..|m| - 1][0] == m[0]
  {
  }

  /** In a mail that ends a turn, an end can only be the last entry. */
  lemma EndIsLast(m: seq<UiUpdate>)
    requires AnsweredMail(m) && (m[0].Done? || m[0].Error?)
    ensures m == [m[0]]
  {
    if |m| > 1 {
      HeadOfInit(m);
      assert false;
    }
  }

  /** Taking a notice or a chunk leaves the rest of the mail well formed. */
  lemma RestOfMail(m: seq<UiUpdate>)
    requires m != [] && (m[0].HistoryTruncated? || m[0].Chunk?)
    ensures StreamMail(m) ==> StreamMail(m[1..])
    ensures AnsweredMail(m) ==> AnsweredMail(m[1..])
  {
    if AnsweredMail(m) {
      assert |m| > 1;
      assert m[1..][..|m| - 2] == m[..|m| - 1][1..];
    }
  }

  lemma DrainMoves(s: Sys)
    requires Moving(s) && s.toUi != [] && (s.toUi[0].HistoryTruncated? || s.toUi[0].Chunk?)
    ensures Moving(ApplyDrain(s))
  {
    RestOfMail(s.toUi);
  }

  lemma DrainNotice(s: Sys)
    requires Inv(s) && s.ui.generating && s.toUi != [] && s.toUi[0].HistoryTruncated?
    ensures Inv(ApplyDrain(s))
  {
    DrainMoves(s);
  }

  lemma DrainSpeaks(s: Sys)
    requires Speaking(s) && s.running && s.toUi != [] && s.toUi[0].Chunk?
    ensures Speaking(ApplyDrain(s))
  {
    TrimStartAppends(s.log.drained, s.toUi[0].text);
    assert s.log.emitted == (s.log.drained + s.toUi[0].text) + ChunkText(s.toUi[1..]);
  }

  lemma DrainChunk(s: Sys)
    requires Inv(s) && s.ui.generating && s.toUi != [] && s.toUi[0].Chunk?
    ensures Inv(ApplyDrain(s))
  {
    DrainMoves(s);
    DrainSpeaks(s);
  }

  lemma DrainDone(s: Sys)
    requires Inv(s) && s.ui.generating && s.toUi != [] && s.toUi[0].Done?
    ensures Inv(ApplyDrain(s))
  {
    EndIsLast(s.toUi);
    CloseConversation(s.ui.history, s.ui.pending.value);
    FlattenAppends(s.ui.images, []);
  }

  /** After an error the UI is what it was before the dispatch, attachments still
      pending; only the truncation offset may have grown. */
  lemma ErrorRollsBack(s: Sys)
    requires Inv(s) && s.ui.generating && s.toUi != [] && s.toUi[0].Error?
    ensures ApplyDrain(s).ui == s.log.before.(truncateOffset := s.ui.truncateOffset)
  {
    ReopenConversation(s.ui.history);
  }

  lemma DrainError(s: Sys)
    requires Inv(s) && s.ui.generating && s.toUi != [] && s.toUi[0].Error?
    ensures Inv(ApplyDrain(s))
  {
    EndIsLast(s.toUi);
    ReopenConversation(s.ui.history);
    ErrorRollsBack(s);
    FlattenAppends(s.log.before.images, s.log.before.pendingImages);
  }

  lemma DrainKeeps(s: Sys)
    requires Inv(s)
    ensures Inv(ApplyDrain(s))
  {
    if s.running && s.toUi != [] && s.ui.generating {
      match s.toUi[0]
      case HistoryTruncated => DrainNotice(s);
      case Chunk(_) => DrainChunk(s);
      case Done => DrainDone(s);
      case Error => DrainError(s);
      case ImageFetched(_) =>
    }
  }

  // ---- UI steps: submitting -------------------------------------------------------------------

  /** At dispatch the index walk drops exactly the pairs the offset asks for: the
      branch that lowers the offset never runs. */
  lemma DispatchDropsPairs(ui: Ui, line: string)
    requires Conversation(ui.history, false) && |ui.history| == |ui.images|
    requires ui.truncateOffset <= Pairs(ui.history)
    ensures var said := Said(ui, line);
      && Applied(said) == ui.truncateOffset && Healed(said) == said
      && Agrees(said.history, said.images, ui.truncateOffset, Request(said).history, Request(said).images)
  {
    var said := Said(ui, line);
    OpenConversation(ui.history, line);
    ConversationRoles(said.history, true);
    WalkDropsPairs(said.history, Start(said.history), ui.truncateOffset);
  }

  /** A dispatch that nobody receives leaves no trace. */
  lemma UnsentSay(s: Sys, line: string)
    requires Inv(s) && s.running && !s.ui.generating && s.ui.fetching == None && s.worker.Gone?
    ensures ApplySay(s, line) == s
  {
    DispatchDropsPairs(s.ui, line);
    var said := Said(s.ui, line);
    assert said.history[..|said.history| - 1] == s.ui.history;
    assert said.images[..|said.images| - 1] == s.ui.images;
  }

  lemma SentMoves(s: Sys, line: string)
    requires |s.ui.history| == |s.ui.images| && Conversation(s.ui.history, false) && Resting(s)
    requires s.running && !s.ui.generating && s.ui.fetching == None && s.worker.Idle?
    ensures Busy(ApplySay(s, line))
  {
    var said := Said(s.ui, line);
    DispatchDropsPairs(s.ui, line);
    assert said.history[..|said.history| - 1] == s.ui.history;
  }

  lemma SaidShape(ui: Ui, line: string)
    requires Conversation(ui.history, false) && UserImages(ui.history, ui.images) && !ui.generating
    ensures var said := Said(ui, line);
      && Conversation(said.history, true) && UserImages(said.history, said.images)
      && Flatten(said.images) == Flatten(ui.images) + ui.pendingImages
  {
    OpenConversation(ui.history, line);
    FlattenAppends(ui.images, ui.pendingImages);
  }

  lemma SentSay(s: Sys, line: string)
    requires Inv(s) && s.running && !s.ui.generating && s.ui.fetching == None && s.worker.Idle?
    ensures Inv(ApplySay(s, line))
  {
    SentMoves(s, line);
    SaidShape(s.ui, line);
    assert Healed(Said(s.ui, line)) == Said(s.ui, line) by {
      DispatchDropsPairs(s.ui, line);
    }
  }

  lemma SayKeeps(s: Sys, line: string)
    requires Inv(s) && s.running && !s.ui.generating && s.ui.fetching == None
    ensures Inv(ApplySay(s, line))
  {
    if s.worker.Gone? {
      UnsentSay(s, line);
    } else {
      SentSay(s, line);
    }
  }

  lemma ClearKeeps(s: Sys)
    requires Inv(s) && s.running && !s.ui.generating
    ensures Inv(s.(ui := Cleared(s.ui), log := s.log.(attached := [])))
  {
    var ui := Cleared(s.ui);
    ConversationRoles(s.ui.history, false);
    ConversationRoles(ui.history, false);
    EmptyFlattens(ui.images);
  }

  /** A prompt change touches neither the turns nor their attachments. */
  lemma SystemTurns(ui: Ui, text: string)
    requires Conversation(ui.history, false) && UserImages(ui.history, ui.images)
    ensures var after := WithSystem(ui, text);
      && after.history[Start(after.history)..] == ui.history[Start(ui.history)..]
      && UserImages(after.history, after.images)
  {
    var h, msg := ui.history, Message(Role.System, text);
    if HasSystem(ui) {
      assert Start(h) == 1;
      if text == "" {
        ConversationRoles(h, false);
        assert h[1..] != [] ==> h[1..][0] == h[1] && h[1].role == User;
        assert Start(h[1..]) == 0;
      } else {
        assert h[0 := msg][1..] == h[1..];
      }
    } else if text != "" {
      assert Start(h) == 0 && ([msg] + h)[1..] == h;
    }
  }

  /** After `/system` the prompt is the given text, or gone when that is empty. */
  lemma SystemIsSet(ui: Ui, text: string)
    requires Conversation(ui.history, false) && UserImages(ui.history, ui.images)
    ensures var after := WithSystem(ui, text);
      if text == "" then Start(after.history) == 0
      else Start(after.history) == 1 && after.history[0] == Message(Role.System, text)
  {
    ConversationRoles(ui.history, false);
    if text == "" && HasSystem(ui) {
      assert ui.history[1..] != [] ==> ui.history[1..][0] == ui.history[1] && ui.history[1].role == User;
    }
  }

  lemma SystemImages(ui: Ui, text: string)
    requires UserImages(ui.history, ui.images)
    ensures Flatten(WithSystem(ui, text).images) == Flatten(ui.images)
  {
    assert text != "" && !HasSystem(ui) ==> ([[]] + ui.images)[1..] == ui.images;
  }

  lemma SystemKeeps(s: Sys, text: string)
    requires Inv(s) && s.running && !s.ui.generating
    ensures Inv(s.(ui := WithSystem(s.ui, text)))
  {
    SystemTurns(s.ui, text);
    SystemImages(s.ui, text);
  }

  lemma CommandKeeps(s: Sys, c: Command, file: Option<Image>)
    requires Inv(s) && s.running && !s.ui.generating && s.ui.fetching == None
    ensures Inv(ApplyCommand(s, c, file))
  {
    match c
    case Say(line) => SayKeeps(s, line);
    case Clear => ClearKeeps(s);
    case SetSystem(text) => SystemKeeps(s, text);
    case _ =>
  }

  // ---- every run --------------------------------------------------------------------------------

  lemma StepKeeps(s: Sys, a: Action)
    requires Inv(s)
    ensures Inv(Apply(s, a))
  {
    match a
    case Drain => DrainKeeps(s);
    case Submit(line, file) =>
      if s.running && !s.ui.generating && s.ui.fetching == None {
        CommandKeeps(s, Parse(line), file);
      }
    case Leave => LeaveKeeps(s);
    case Receive => ReceiveKeeps(s);
    case Prefill(attempt) => PrefillKeeps(s, attempt);
    case Emit(text) => EmitKeeps(s, text);
    case Finish(ok) => FinishKeeps(s, ok);
    case Die => DieKeeps(s);
    case Fetched(result) => FetchedKeeps(s, result);
  }

  lemma {:induction false} RunKeeps(s: Sys, actions: seq<Action>)
    requires Inv(s)
    ensures Inv(Run(s, actions))
    decreases |actions|
  {
    if actions != [] {
      StepKeeps(s, actions[0]);
      RunKeeps(Apply(s, actions[0]), actions[1..]);
    }
  }
}
