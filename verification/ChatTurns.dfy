/** Whole turns of the chat protocol: what the UI holds when a turn is over, told by what
    the worker did, and not by how its steps and the UI's draining interleave. */
module ChatTurns {
  import opened Wrappers
  import opened Text
  import opened ChatHistory
  import opened ChatProtocol
  import opened ChatInvariants
  import opened ChatTheorems

  // ---- draining -------------------------------------------------------------------------

  function Drains(n: nat): seq<Action> {
    if n == 0 then [] else [Drain] + Drains(n - 1)
  }

  /** The UI has drained all there is. */
  function Settled(s: Sys): Sys {
    Run(s, Drains(|s.toUi|))
  }

  lemma {:induction false} RunAppends(s: Sys, a: seq<Action>, b: seq<Action>)
    ensures Run(s, a + b) == Run(Run(s, a), b)
    decreases |a|
  {
    if a == [] {
      assert a + b == b;
    } else {
      assert (a + b)[0] == a[0] && (a + b)[1..] == a[1..] + b;
      RunAppends(Apply(s, a[0]), a[1..], b);
    }
  }

  lemma SettledFirst(s: Sys)
    requires s.running && s.toUi != []
    ensures Settled(s) == Settled(ApplyDrain(s))
  {
    RunFirst(s, Drain, Drains(|s.toUi| - 1));
  }

  /** The UI once the mail of a turn is drained, by how the turn ended. */
  function Concluded(ui: Ui, before: Ui, ok: bool, reply: string, notices: nat): Ui {
    if ok then
      ui.(history := ui.history + [Message(Assistant, TrimStart(reply))], images := ui.images + [[]],
          pending := None, pendingImages := [], generating := false, truncateOffset := ui.truncateOffset + notices)
    else before.(truncateOffset := ui.truncateOffset + notices)
  }

  /** The last piece of mail says how the turn ended. */
  predicate EndsWell(m: seq<UiUpdate>) {
    m != [] && m[|m| - 1].Done?
  }

  lemma DrainKeepsEnd(s: Sys)
    requires s.running && AnsweredMail(s.toUi) && (s.toUi[0].HistoryTruncated? || s.toUi[0].Chunk?)
    ensures AnsweredMail(ApplyDrain(s).toUi) && EndsWell(ApplyDrain(s).toUi) == EndsWell(s.toUi)
  {
    RestOfMail(s.toUi);
  }

  lemma DrainConcludes(s: Sys, ok: bool, reply: string)
    requires s.running && s.toUi != [] && (s.toUi[0].HistoryTruncated? || s.toUi[0].Chunk?)
    ensures var u := ApplyDrain(s);
      && Concluded(u.ui, u.log.before, ok, reply, Truncs(u.toUi))
         == Concluded(s.ui, s.log.before, ok, reply, Truncs(s.toUi))
      && u.ui.generating == s.ui.generating && u.log.emitted == s.log.emitted && u.log.before == s.log.before
  {
  }

  lemma DrainEnd(s: Sys)
    requires Inv(s) && s.ui.generating && AnsweredMail(s.toUi) && (s.toUi[0].Done? || s.toUi[0].Error?)
    ensures s.toUi == [s.toUi[0]] && Truncs(s.toUi) == 0 && EndsWell(s.toUi) == s.toUi[0].Done?
    ensures ApplyDrain(s).toUi == []
    ensures ApplyDrain(s).ui == Concluded(s.ui, s.log.before, EndsWell(s.toUi), s.log.emitted, 0)
  {
    EndIsLast(s.toUi);
    assert s.toUi[1..] == [] && ChunkText(s.toUi) == "";
    assert s.log.emitted == s.log.drained;
    if s.toUi[0].Error? {
      ErrorRollsBack(s);
    }
  }

  /** Draining all mail of an answered turn concludes it. */
  lemma {:induction false} TurnConcludes(s: Sys)
    requires Inv(s) && s.ui.generating && AnsweredMail(s.toUi)
    ensures var e := Settled(s);
      && e.toUi == []
      && e.ui == Concluded(s.ui, s.log.before, EndsWell(s.toUi), s.log.emitted, Truncs(s.toUi))
    decreases |s.toUi|
  {
    SettledFirst(s);
    if s.toUi[0].Done? || s.toUi[0].Error? {
      DrainEnd(s);
    } else {
      DrainKeeps(s);
      DrainKeepsEnd(s);
      DrainConcludes(s, EndsWell(s.toUi), s.log.emitted);
      TurnConcludes(ApplyDrain(s));
    }
  }

  /** When the generation returns, the UI will hold the reply, if it returned well, and
      otherwise be what it was before the dispatch, with possibly a larger offset. */
  lemma FinishedTurn(s: Sys, ok: bool)
    requires Reachable(s) && s.worker.Streaming?
    ensures var e := Settled(Apply(s, Finish(ok)));
      && e.toUi == [] && !e.ui.generating
      && (if ok then
            && e.ui.history == s.ui.history + [Message(Assistant, TrimStart(s.log.emitted))]
            && e.ui.images == s.ui.images + [[]] && e.ui.pendingImages == []
          else
            && e.ui == s.log.before.(truncateOffset := e.ui.truncateOffset)
            && s.log.before.truncateOffset <= e.ui.truncateOffset)
  {
    ReachableInv(s);
    FinishAnswers(s, ok);
    TurnConcludes(Apply(s, Finish(ok)));
  }

  lemma UnendedMail(s: Sys)
    requires Inv(s) && (s.worker.Prefilling? || s.worker.Streaming?)
    ensures s.ui.generating && StreamMail(s.toUi)
  {
  }

  lemma EndMail(m: seq<UiUpdate>, u: UiUpdate)
    requires StreamMail(m) && (u.Done? || u.Error?)
    ensures AnsweredMail(m + [u]) && EndsWell(m + [u]) == u.Done? && Truncs(m + [u]) == Truncs(m)
  {
    EndAppends(m, u);
    TruncsAppend(m, u);
  }

  lemma FinishAnswers(s: Sys, ok: bool)
    requires Inv(s) && s.worker.Streaming?
    ensures var u := Apply(s, Finish(ok));
      && Inv(u) && u.ui == s.ui && u.log == s.log && s.ui.generating
      && AnsweredMail(u.toUi) && EndsWell(u.toUi) == ok && Truncs(u.toUi) == Truncs(s.toUi)
  {
    FinishKeeps(s, ok);
    UnendedMail(s);
    EndMail(s.toUi, if ok then Done else Error);
  }

  // ---- one turn from the dispatch on -----------------------------------------------------

  /** Nothing is under way, and the worker waits. */
  predicate AtRest(s: Sys) {
    s.running && !s.ui.generating && s.ui.fetching == None && s.worker.Idle?
  }

  /** A turn as the worker sees it, the dispatch being done. */
  predicate InTurn(s: Sys, before: Ui, line: string, text: string, notices: nat) {
    && Inv(s) && s.ui == Said(before, line)
    && s.log.before == before && s.log.emitted == text && Truncs(s.toUi) == notices
  }

  lemma SubmitSays(s: Sys, line: string, file: Option<Image>)
    requires s.running && !s.ui.generating && s.ui.fetching == None
    requires !StartsWith(line, "/") && !AllWhitespace(line)
    ensures Apply(s, Submit(line, file)) == ApplySay(s, line)
  {
  }

  lemma DispatchQueues(s: Sys, line: string)
    requires Inv(s) && AtRest(s)
    ensures var d := Apply(ApplySay(s, line), Receive);
      InTurn(d, s.ui, line, "", 0) && d.worker.Prefilling?
  {
    SentSay(s, line);
    DispatchDropsPairs(s.ui, line);
    ReceiveKeeps(ApplySay(s, line));
  }

  lemma NoticeInTurn(s: Sys, before: Ui, line: string, n: nat, h: seq<Message>, i: seq<seq<Image>>)
    requires InTurn(s, before, line, "", n) && s.worker.Prefilling?
    requires Agrees(s.ui.history, s.ui.images, s.ui.truncateOffset + n + 1, h, i)
    ensures InTurn(s.(worker := Prefilling(h, i), toUi := s.toUi + [HistoryTruncated],
                      log := s.log.(lastTried := h, triedImages := i)), before, line, "", n + 1)
  {
    NoticeKeeps(s, h, i);
    MailAppends(s.toUi, HistoryTruncated);
  }

  /** The worker tries again with the next oldest pair left out, as long as there is one. */
  lemma OverflowInTurn(s: Sys, before: Ui, line: string, n: nat) returns (u: Sys)
    requires InTurn(s, before, line, "", n) && s.worker.Prefilling?
    requires before.truncateOffset + n < Pairs(Said(before, line).history)
    ensures u == Apply(s, Prefill(Overflows))
    ensures InTurn(u, before, line, "", n + 1) && u.worker.Prefilling?
  {
    var h, i := s.log.lastTried, s.log.triedImages;
    OverflowDropsNextPair(s.ui.history, s.ui.images, s.ui.truncateOffset + n, h, i);
    OverflowStep(s, h, i);
    var h', i' := Without(h, Start(h), 2), Without(i, Start(h), 2);
    NoticeInTurn(s, before, line, n, h', i');
    u := s.(worker := Prefilling(h', i'), toUi := s.toUi + [HistoryTruncated],
            log := s.log.(lastTried := h', triedImages := i'));
  }

  lemma LastOverflow(s: Sys, before: Ui, line: string, n: nat)
    requires InTurn(s, before, line, "", n) && s.worker.Prefilling?
    requires before.truncateOffset + n == Pairs(Said(before, line).history)
    ensures Apply(s, Prefill(Overflows)) == Apply(s, Prefill(Fails))
  {
    var h, i := s.log.lastTried, s.log.triedImages;
    OverflowDropsNextPair(s.ui.history, s.ui.images, s.ui.truncateOffset + n, h, i);
    OverflowStep(s, h, i);
  }

  lemma OverflowsFirst(s: Sys, k: nat)
    ensures k == 0 ==> Run(s, OverflowTimes(k)) == s
    ensures k > 0 ==> Run(s, OverflowTimes(k)) == Run(Apply(s, Prefill(Overflows)), OverflowTimes(k - 1))
  {
    if k > 0 {
      RunFirst(s, Prefill(Overflows), OverflowTimes(k - 1));
    }
  }

  lemma {:induction false} OverflowsInTurn(s: Sys, before: Ui, line: string, n: nat, m: nat) returns (u: Sys)
    requires InTurn(s, before, line, "", n) && s.worker.Prefilling?
    requires n <= m && before.truncateOffset + m <= Pairs(Said(before, line).history)
    ensures u == Run(s, OverflowTimes(m - n))
    ensures InTurn(u, before, line, "", m) && u.worker.Prefilling?
    decreases m - n
  {
    OverflowsFirst(s, m - n);
    if n < m {
      u := OverflowInTurn(s, before, line, n);
      u := OverflowsInTurn(u, before, line, n + 1, m);
    } else {
      u := s;
    }
  }

  function Emits(texts: seq<string>): seq<Action> {
    if texts == [] then [] else [Emit(texts[0])] + Emits(texts[1..])
  }

  function Concat(texts: seq<string>): string {
    if texts == [] then "" else texts[0] + Concat(texts[1..])
  }

  lemma EmitInTurn(s: Sys, before: Ui, line: string, text: string, n: nat, piece: string)
    requires InTurn(s, before, line, text, n) && s.worker.Streaming?
    ensures var u := Apply(s, Emit(piece)); InTurn(u, before, line, text + piece, n) && u.worker.Streaming?
  {
    EmitKeeps(s, piece);
    MailAppends(s.toUi, Chunk(piece));
  }

  lemma {:induction false} EmitsInTurn(s: Sys, before: Ui, line: string, text: string, n: nat, texts: seq<string>)
    returns (u: Sys)
    requires InTurn(s, before, line, text, n) && s.worker.Streaming?
    ensures u == Run(s, Emits(texts))
    ensures InTurn(u, before, line, text + Concat(texts), n) && u.worker.Streaming?
    decreases |texts|
  {
    if texts == [] {
      u := s;
      assert text + Concat(texts) == text;
    } else {
      EmitInTurn(s, before, line, text, n, texts[0]);
      RunFirst(s, Emit(texts[0]), Emits(texts[1..]));
      u := EmitsInTurn(Apply(s, Emit(texts[0])), before, line, text + texts[0], n, texts[1..]);
      assert text + texts[0] + Concat(texts[1..]) == text + Concat(texts);
    }
  }

  /** Prefilled after `k` overflows, streaming `texts`, ended well or not. */
  function Script(k: nat, texts: seq<string>, ok: bool): seq<Action> {
    [Receive] + (OverflowTimes(k) + ([Prefill(Fits)] + (Emits(texts) + [Finish(ok)])))
  }

  /** Failed in the prefill after `k` overflows. */
  function FailingScript(k: nat): seq<Action> {
    [Receive] + (OverflowTimes(k) + [Prefill(Fails)])
  }

  /** The UI after a turn that went well: the line and the reply committed, with the
      attachments, and one pair more to leave out for each overflow. */
  function Committed(ui: Ui, line: string, reply: string, k: nat): Ui {
    ui.(history := ui.history + [Message(User, line), Message(Assistant, TrimStart(reply))],
        images := ui.images + [ui.pendingImages, []],
        pendingImages := [], truncateOffset := ui.truncateOffset + k)
  }

  lemma ConcludedInTurn(before: Ui, line: string, reply: string, k: nat)
    requires before.pending == None && !before.generating
    ensures Concluded(Said(before, line), before, true, reply, k) == Committed(before, line, reply, k)
    ensures Concluded(Said(before, line), before, false, reply, k)
         == before.(truncateOffset := before.truncateOffset + k)
  {
    var ui := Concluded(Said(before, line), before, true, reply, k);
    assert ui.history == Committed(before, line, reply, k).history;
    assert ui.images == Committed(before, line, reply, k).images;
  }

  /** The turn is answered: all its mail is there. */
  predicate Answered(s: Sys, before: Ui, line: string, text: string, notices: nat, ok: bool) {
    InTurn(s, before, line, text, notices) && AnsweredMail(s.toUi) && EndsWell(s.toUi) == ok
  }

  lemma RunOne(s: Sys, a: Action)
    ensures Run(s, [a]) == Apply(s, a)
  {
    assert [a][1..] == [];
    assert Run(Apply(s, a), []) == Apply(s, a);
  }

  lemma FinishInTurn(s: Sys, before: Ui, line: string, text: string, n: nat, ok: bool)
    requires InTurn(s, before, line, text, n) && s.worker.Streaming?
    ensures Answered(Apply(s, Finish(ok)), before, line, text, n, ok)
  {
    FinishAnswers(s, ok);
  }

  lemma FailsInTurn(s: Sys, before: Ui, line: string, k: nat)
    requires InTurn(s, before, line, "", k) && s.worker.Prefilling?
    ensures Answered(Apply(s, Prefill(Fails)), before, line, "", k, false)
  {
    Answers(s, Error);
    UnendedMail(s);
    EndMail(s.toUi, Error);
  }

  lemma FitsInTurn(s: Sys, before: Ui, line: string, k: nat)
    requires InTurn(s, before, line, "", k) && s.worker.Prefilling?
    ensures var u := Apply(s, Prefill(Fits)); InTurn(u, before, line, "", k) && u.worker.Streaming?
  {
    PrefillKeeps(s, Fits);
  }

  /** From the prefilling worker on. */
  lemma StreamedTurn(s: Sys, before: Ui, line: string, k: nat, texts: seq<string>, ok: bool) returns (e: Sys)
    requires InTurn(s, before, line, "", k) && s.worker.Prefilling?
    ensures e == Run(s, [Prefill(Fits)] + (Emits(texts) + [Finish(ok)]))
    ensures Answered(e, before, line, Concat(texts), k, ok)
  {
    FitsInTurn(s, before, line, k);
    RunFirst(s, Prefill(Fits), Emits(texts) + [Finish(ok)]);
    var u := EmitsInTurn(Apply(s, Prefill(Fits)), before, line, "", k, texts);
    assert "" + Concat(texts) == Concat(texts);
    RunAppends(Apply(s, Prefill(Fits)), Emits(texts), [Finish(ok)]);
    RunOne(u, Finish(ok));
    FinishInTurn(u, before, line, Concat(texts), k, ok);
    e := Apply(u, Finish(ok));
  }

  lemma SaidPairs(s: Sys, line: string)
    requires Inv(s) && AtRest(s)
    ensures Pairs(Said(s.ui, line).history) == Pairs(s.ui.history)
  {
    OpenConversation(s.ui.history, line);
  }

  lemma RunChain(s: Sys, a: Action, actions: seq<Action>, rest: seq<Action>)
    ensures Run(s, [a] + (actions + rest)) == Run(Run(Apply(s, a), actions), rest)
  {
    RunFirst(s, a, actions + rest);
    RunAppends(Apply(s, a), actions, rest);
  }

  /** From the dispatch on: the worker has the request and `k` overflows behind it. */
  lemma OverflownTurn(s: Sys, line: string, k: nat, rest: seq<Action>) returns (u: Sys)
    requires Inv(s) && AtRest(s) && s.ui.truncateOffset + k <= Pairs(s.ui.history)
    ensures InTurn(u, s.ui, line, "", k) && u.worker.Prefilling?
    ensures Run(ApplySay(s, line), [Receive] + (OverflowTimes(k) + rest)) == Run(u, rest)
  {
    var d := ApplySay(s, line);
    DispatchQueues(s, line);
    SaidPairs(s, line);
    RunChain(d, Receive, OverflowTimes(k), rest);
    u := OverflowsInTurn(Apply(d, Receive), s.ui, line, 0, k);
  }

  // ---- when the UI drains does not matter ---------------------------------------------------

  predicate WorkerStep(a: Action) {
    a.Receive? || a.Prefill? || a.Emit? || a.Finish?
  }

  predicate Work(actions: seq<Action>) {
    forall i :: 0 <= i < |actions| ==> WorkerStep(actions[i])
  }

  function WithoutDrains(actions: seq<Action>): seq<Action> {
    if actions == [] then []
    else if actions[0].Drain? then WithoutDrains(actions[1..])
    else [actions[0]] + WithoutDrains(actions[1..])
  }

  /** The UI takes from one end of the mail and the worker adds at the other. */
  lemma DrainCommutes(s: Sys, a: Action)
    requires s.running && s.toUi != [] && WorkerStep(a)
    ensures Apply(ApplyDrain(s), a) == ApplyDrain(Apply(s, a))
    ensures Apply(s, a).running && |Apply(s, a).toUi| >= |s.toUi|
  {
    assert forall u: UiUpdate :: (s.toUi + [u])[0] == s.toUi[0] && (s.toUi + [u])[1..] == s.toUi[1..] + [u];
  }

  lemma WorkKeepsMail(s: Sys, a: Action)
    requires WorkerStep(a)
    ensures Apply(s, a).running == s.running && |Apply(s, a).toUi| >= |s.toUi|
  {
  }

  lemma {:induction false} DrainsCommute(s: Sys, a: Action, j: nat)
    requires s.running && j <= |s.toUi| && WorkerStep(a)
    ensures Apply(Run(s, Drains(j)), a) == Run(Apply(s, a), Drains(j))
    decreases j
  {
    if j > 0 {
      DrainCommutes(s, a);
      DrainsCommute(ApplyDrain(s), a, j - 1);
      RunFirst(s, Drain, Drains(j - 1));
      RunFirst(Apply(s, a), Drain, Drains(j - 1));
    }
  }

  lemma {:induction false} DrainsTake(s: Sys, j: nat)
    requires s.running && j <= |s.toUi|
    ensures var u := Run(s, Drains(j)); u.toUi == s.toUi[j..] && u.running
    decreases j
  {
    if j > 0 {
      DrainsTake(ApplyDrain(s), j - 1);
      RunFirst(s, Drain, Drains(j - 1));
    }
  }

  lemma {:induction false} DrainsAdd(i: nat, j: nat)
    ensures Drains(i) + Drains(j) == Drains(i + j)
  {
    if i > 0 {
      DrainsAdd(i - 1, j);
      assert Drains(i) + Drains(j) == [Drain] + (Drains(i - 1) + Drains(j));
    } else {
      assert [] + Drains(j) == Drains(j);
    }
  }

  lemma RunDrains(s: Sys, i: nat, j: nat)
    ensures Run(Run(s, Drains(i)), Drains(j)) == Run(s, Drains(i + j))
  {
    RunAppends(s, Drains(i), Drains(j));
    DrainsAdd(i, j);
  }

  lemma DrainAgain(s: Sys, i: nat) returns (j: nat)
    requires s.running && i <= |s.toUi|
    ensures j <= |s.toUi| && Apply(Run(s, Drains(i)), Drain) == Run(s, Drains(j))
  {
    DrainsTake(s, i);
    if i == |s.toUi| {
      j := i;
    } else {
      j := i + 1;
      RunOne(Run(s, Drains(i)), Drain);
      RunDrains(s, i, 1);
      assert Drains(1) == [Drain] + Drains(0) == [Drain];
    }
  }

  /** The drains among a worker's steps may all come last. */
  lemma {:induction false} DrainsComeLast(s: Sys, i: nat, actions: seq<Action>) returns (j: nat)
    requires s.running && i <= |s.toUi| && Work(WithoutDrains(actions))
    ensures var w := Run(s, WithoutDrains(actions));
      w.running && j <= |w.toUi| && Run(Run(s, Drains(i)), actions) == Run(w, Drains(j))
    decreases |actions|
  {
    var d := Run(s, Drains(i));
    if actions == [] {
      j := i;
    } else if actions[0].Drain? {
      var more := DrainAgain(s, i);
      j := DrainsComeLast(s, more, actions[1..]);
    } else {
      var a, rest := actions[0], WithoutDrains(actions[1..]);
      WorkSplits(a, rest);
      WorkKeepsMail(s, a);
      DrainsCommute(s, a, i);
      RunFirst(s, a, rest);
      j := DrainsComeLast(Apply(s, a), i, actions[1..]);
    }
  }

  lemma WorkSplits(a: Action, rest: seq<Action>)
    requires Work([a] + rest)
    ensures WorkerStep(a) && Work(rest)
  {
    assert ([a] + rest)[0] == a;
    forall i | 0 <= i < |rest| ensures WorkerStep(rest[i]) {
      assert ([a] + rest)[i + 1] == rest[i];
    }
  }

  lemma SettledDrained(s: Sys, j: nat, k: nat)
    requires s.running && j + k == |s.toUi|
    ensures Settled(Run(s, Drains(j))) == Settled(s)
  {
    DrainsLeave(s, j, k);
    SettledAt(Run(s, Drains(j)), k);
    SettledAt(s, j + k);
    RunDrains(s, j, k);
  }

  lemma DrainsLeave(s: Sys, j: nat, k: nat)
    requires s.running && j + k == |s.toUi|
    ensures |Run(s, Drains(j)).toUi| == k
  {
    DrainsTake(s, j);
  }

  lemma SettledAt(s: Sys, k: nat)
    requires |s.toUi| == k
    ensures Settled(s) == Run(s, Drains(k))
  {
  }

  lemma NoDrains(s: Sys)
    ensures Run(s, Drains(0)) == s
  {
  }

  /** Once all mail is drained it does not show when the UI drained. */
  lemma DrainingIsInvisible(s: Sys, actions: seq<Action>)
    requires s.running && Work(WithoutDrains(actions))
    ensures Settled(Run(s, actions)) == Settled(Run(s, WithoutDrains(actions)))
  {
    NoDrains(s);
    var j := DrainsComeLast(s, 0, actions);
    var w := Run(s, WithoutDrains(actions));
    SettledDrained(w, j, |w.toUi| - j);
  }

  // ---- whole turns ----------------------------------------------------------------------------

  lemma {:induction false} OverflowsWork(k: nat)
    ensures Work(OverflowTimes(k))
  {
    if k > 0 {
      OverflowsWork(k - 1);
    }
  }

  lemma {:induction false} EmitsWork(texts: seq<string>)
    ensures Work(Emits(texts))
  {
    if texts != [] {
      EmitsWork(texts[1..]);
    }
  }

  lemma ScriptsWork(k: nat, texts: seq<string>, ok: bool)
    ensures Work(Script(k, texts, ok)) && Work(FailingScript(k)) && Work([Receive] + OverflowTimes(k))
  {
    OverflowsWork(k);
    EmitsWork(texts);
  }

  lemma AnsweredConcludes(s: Sys, before: Ui, line: string, text: string, k: nat, ok: bool)
    requires Answered(s, before, line, text, k, ok)
    ensures Settled(s).ui == Concluded(Said(before, line), before, ok, text, k)
  {
    TurnConcludes(s);
  }

  lemma SubmitThen(s: Sys, line: string, file: Option<Image>, actions: seq<Action>)
    requires Inv(s) && AtRest(s) && !StartsWith(line, "/") && !AllWhitespace(line) && Work(WithoutDrains(actions))
    ensures Settled(Run(s, [Submit(line, file)] + actions)) == Settled(Run(ApplySay(s, line), WithoutDrains(actions)))
  {
    SubmitSays(s, line, file);
    RunFirst(s, Submit(line, file), actions);
    SayRuns(s, line);
    DrainingIsInvisible(ApplySay(s, line), actions);
  }

  lemma SayRuns(s: Sys, line: string)
    requires s.running
    ensures ApplySay(s, line).running
  {
  }

  /** A turn that goes well, after any overflows the history can bear: however the UI
      drains in between, it ends up with the line and the whole reply committed. */
  lemma TurnCommits(s: Sys, line: string, file: Option<Image>, k: nat, texts: seq<string>, actions: seq<Action>)
    requires Reachable(s) && AtRest(s) && !StartsWith(line, "/") && !AllWhitespace(line)
    requires s.ui.truncateOffset + k <= Pairs(s.ui.history)
    requires WithoutDrains(actions) == Script(k, texts, true)
    ensures Settled(Run(s, [Submit(line, file)] + actions)).ui == s.ui.(
      history := s.ui.history + [Message(User, line), Message(Assistant, TrimStart(Concat(texts)))],
      images := s.ui.images + [s.ui.pendingImages, []],
      pendingImages := [],
      truncateOffset := s.ui.truncateOffset + k)
  {
    ReachableInv(s);
    ScriptsWork(k, texts, true);
    SubmitThen(s, line, file, actions);
    var u := OverflownTurn(s, line, k, [Prefill(Fits)] + (Emits(texts) + [Finish(true)]));
    var e := StreamedTurn(u, s.ui, line, k, texts, true);
    AnsweredConcludes(e, s.ui, line, Concat(texts), k, true);
    ConcludedInTurn(s.ui, line, Concat(texts), k);
  }

  /** A generation that fails leaves the UI as it was, but for the pairs to leave out. */
  lemma BrokenTurnRestores(s: Sys, line: string, file: Option<Image>, k: nat, texts: seq<string>, actions: seq<Action>)
    requires Reachable(s) && AtRest(s) && !StartsWith(line, "/") && !AllWhitespace(line)
    requires s.ui.truncateOffset + k <= Pairs(s.ui.history)
    requires WithoutDrains(actions) == Script(k, texts, false)
    ensures Settled(Run(s, [Submit(line, file)] + actions)).ui == s.ui.(truncateOffset := s.ui.truncateOffset + k)
  {
    ReachableInv(s);
    ScriptsWork(k, texts, false);
    SubmitThen(s, line, file, actions);
    var u := OverflownTurn(s, line, k, [Prefill(Fits)] + (Emits(texts) + [Finish(false)]));
    var e := StreamedTurn(u, s.ui, line, k, texts, false);
    AnsweredConcludes(e, s.ui, line, Concat(texts), k, false);
    ConcludedInTurn(s.ui, line, Concat(texts), k);
  }

  /** And so does a prefill that fails. */
  lemma FailedPrefillRestores(s: Sys, line: string, file: Option<Image>, k: nat, actions: seq<Action>)
    requires Reachable(s) && AtRest(s) && !StartsWith(line, "/") && !AllWhitespace(line)
    requires s.ui.truncateOffset + k <= Pairs(s.ui.history)
    requires WithoutDrains(actions) == FailingScript(k)
    ensures Settled(Run(s, [Submit(line, file)] + actions)).ui == s.ui.(truncateOffset := s.ui.truncateOffset + k)
  {
    ReachableInv(s);
    ScriptsWork(k, [], false);
    SubmitThen(s, line, file, actions);
    var u := OverflownTurn(s, line, k, [Prefill(Fails)]);
    RunOne(u, Prefill(Fails));
    FailsInTurn(u, s.ui, line, k);
    AnsweredConcludes(Apply(u, Prefill(Fails)), s.ui, line, "", k, false);
    ConcludedInTurn(s.ui, line, "", k);
  }

  /** A request that overflows even with every finished pair left out: the UI is as it
      was, and leaves all of them out from now on. */
  lemma HopelessTurnRestores(s: Sys, line: string, file: Option<Image>, k: nat, actions: seq<Action>)
    requires Reachable(s) && AtRest(s) && !StartsWith(line, "/") && !AllWhitespace(line)
    requires s.ui.truncateOffset + k == Pairs(s.ui.history)
    requires WithoutDrains(actions) == [Receive] + OverflowTimes(k + 1)
    ensures Settled(Run(s, [Submit(line, file)] + actions)).ui == s.ui.(truncateOffset := Pairs(s.ui.history))
  {
    ReachableInv(s);
    ScriptsWork(k + 1, [], false);
    SubmitThen(s, line, file, actions);
    OverflowsSplit(k);
    var u := OverflownTurn(s, line, k, [Prefill(Overflows)]);
    RunOne(u, Prefill(Overflows));
    SaidPairs(s, line);
    LastOverflow(u, s.ui, line, k);
    FailsInTurn(u, s.ui, line, k);
    AnsweredConcludes(Apply(u, Prefill(Fails)), s.ui, line, "", k, false);
    ConcludedInTurn(s.ui, line, "", k);
  }

  lemma {:induction false} OverflowsSplit(k: nat)
    ensures OverflowTimes(k + 1) == OverflowTimes(k) + [Prefill(Overflows)]
  {
    if k > 0 {
      OverflowsSplit(k - 1);
      assert OverflowTimes(k + 1) == [Prefill(Overflows)] + (OverflowTimes(k - 1) + [Prefill(Overflows)]);
    } else {
      assert OverflowTimes(0) + [Prefill(Overflows)] == [Prefill(Overflows)] + OverflowTimes(0);
    }
  }
}
