/** What the handle protocol guarantees over every interleaving, and the two handle
    objects themselves. */
module SessionOwnership {
  import opened Wrappers
  import opened SessionHandles

  // ---- exactly one owner ------------------------------------------------------------------

  predicate IsAt(s: Sys, c: Core, p: Place) {
    match p
    case InSlot(h) => h < |s.handles| && s.handles[h].slot == Some(c)
    case InHand(t) => t < |s.threads| && InHands(s.threads[t]) == Some(c)
  }

  ghost predicate ExactlyOnePlace(s: Sys, c: Core) {
    exists p: Place :: IsAt(s, c, p) && forall q: Place :: IsAt(s, c, q) ==> q == p
  }

  lemma CoresStay(s: Sys, a: Action)
    requires Owned(s)
    ensures Apply(s, a).owner.Keys == s.owner.Keys
  {
    if a.t < |s.threads| && !a.Lock? && Held(s.threads[a.t]).Some? && Held(s.threads[a.t]).value < |s.handles| {
      KeptCores(s, a, s.threads[a.t], Held(s.threads[a.t]).value);
    }
  }

  lemma KeptCores(s: Sys, a: Action, d: Doing, h: nat)
    requires Owned(s) && a.t < |s.threads| && d == s.threads[a.t] && h < |s.handles| && !a.Lock?
    ensures forall u: Sys :: u.owner == s.owner ==> Bookkept(s, h, d, a, u).owner.Keys == s.owner.Keys
  {
    assert InHands(d).Some? ==> InHands(d).value in s.owner;
    assert s.handles[h].slot.Some? ==> s.handles[h].slot.value in s.owner;
  }

  lemma {:induction false} CoresStayOverRun(s: Sys, actions: seq<Action>)
    requires Inv(s)
    ensures Run(s, actions).owner.Keys == s.owner.Keys
    decreases |actions|
  {
    if actions != [] {
      CoresStay(s, actions[0]);
      StepKeeps(s, actions[0]);
      CoresStayOverRun(Apply(s, actions[0]), actions[1..]);
    }
  }

  lemma OnePlaceEach(s: Sys, c: Core)
    requires Inv(s) && c in s.owner
    ensures ExactlyOnePlace(s, c)
  {
    var p := s.owner[c];
    assert IsAt(s, c, p);
    forall q: Place | IsAt(s, c, q) ensures q == p {
      match q
      case InSlot(h) => assert s.handles[h].slot == Some(c);
      case InHand(t) => assert InHands(s.threads[t]) == Some(c);
    }
  }

  /** With any number of threads and any interleaving of conversions, every core
      session is in exactly one slot or in exactly one thread's hands. */
  lemma ExactlyOneOwner(cores: nat, threads: nat, actions: seq<Action>, c: Core)
    requires c < cores
    ensures ExactlyOnePlace(Run(Init(cores, threads), actions), c)
  {
    InitHolds(cores, threads);
    RunKeeps(Init(cores, threads), actions);
    CoresStayOverRun(Init(cores, threads), actions);
    assert c in Init(cores, threads).owner.Keys;
    OnePlaceEach(Run(Init(cores, threads), actions), c);
  }

  // ---- flags -----------------------------------------------------------------------------------

  /** While nobody holds a handle's mutex, it is flagged exactly when its slot is
      empty; it was converted at most once, and only if flagged. */
  lemma FlagTellsTheSlot(cores: nat, threads: nat, actions: seq<Action>)
    ensures var s := Run(Init(cores, threads), actions);
      && (forall h :: 0 <= h < |s.handles| && s.handles[h].holder == None ==>
            (s.handles[h].moved <==> s.handles[h].slot == None))
      && (forall i, j :: 0 <= i < j < |s.made| ==> s.made[i].0 != s.made[j].0)
      && (forall i :: 0 <= i < |s.made| ==> s.made[i].0 < |s.handles| && s.handles[s.made[i].0].moved)
  {
    InitHolds(cores, threads);
    RunKeeps(Init(cores, threads), actions);
  }

  /** A flag once set stays set, so a reclaimed handle stays dead. */
  lemma {:induction false} FlagStays(s: Sys, actions: seq<Action>, h: nat)
    requires Inv(s) && h < |s.handles| && s.handles[h].moved
    ensures h < |Run(s, actions).handles| && Run(s, actions).handles[h].moved
    decreases |actions|
  {
    if actions != [] {
      FlagStaysOnce(s, actions[0], h);
      StepKeeps(s, actions[0]);
      FlagStays(Apply(s, actions[0]), actions[1..], h);
    }
  }

  lemma FlagStaysOnce(s: Sys, a: Action, h: nat)
    requires h < |s.handles| && s.handles[h].moved
    ensures h < |Apply(s, a).handles| && Apply(s, a).handles[h].moved
  {
  }

  /** `cancel` through a handle that is not flagged reaches a core session that this
      handle, or the thread converting it, still owns: never another handle's. */
  lemma CancelStaysHome(s: Sys, h: nat)
    requires Inv(s) && h < |s.handles| && !s.handles[h].moved
    ensures IsAt(s, s.handles[h].core, InSlot(h))
         || (s.handles[h].holder.Some? && IsAt(s, s.handles[h].core, InHand(s.handles[h].holder.value)))
  {
    if s.handles[h].holder.Some? {
      var t := s.handles[h].holder.value;
      assert Held(s.threads[t]) == Some(h);
    }
  }

  // ---- refusal ------------------------------------------------------------------------------------

  predicate ByOthers(actions: seq<Action>, t: nat) {
    forall i :: 0 <= i < |actions| ==> actions[i].t != t
  }

  lemma OtherStep(s: Sys, a: Action, t: nat, h: nat)
    requires Inv(s) && t < |s.threads| && Held(s.threads[t]) == Some(h) && a.t != t
    ensures var u := Apply(s, a);
      && t < |u.threads| && u.threads[t] == s.threads[t]
      && h < |s.handles| <= |u.handles| && u.handles[h] == s.handles[h]
  {
    assert s.handles[h].holder == Some(t);
  }

  /** While a thread holds a handle, the others change neither. */
  lemma {:induction false} OthersLeaveAlone(s: Sys, actions: seq<Action>, t: nat, h: nat)
    requires Inv(s) && t < |s.threads| && Held(s.threads[t]) == Some(h) && ByOthers(actions, t)
    ensures var u := Run(s, actions);
      && Inv(u)
      && t < |u.threads| && u.threads[t] == s.threads[t]
      && h < |s.handles| <= |u.handles| && u.handles[h] == s.handles[h]
    decreases |actions|
  {
    if actions != [] {
      OtherStep(s, actions[0], t, h);
      StepKeeps(s, actions[0]);
      assert ByOthers(actions[1..], t);
      OthersLeaveAlone(Apply(s, actions[0]), actions[1..], t, h);
    }
  }

  /** Thread `t` takes its next step after others took theirs. */
  function After(s: Sys, others: seq<Action>, a: Action): Sys {
    Apply(Run(s, others), a)
  }

  lemma AfterOthers(s: Sys, others: seq<Action>, a: Action, t: nat, h: nat)
    requires Inv(s) && t < |s.threads| && Held(s.threads[t]) == Some(h) && ByOthers(others, t)
    requires a.t == t && !a.Lock? && !a.Publish?
    ensures var u := After(s, others, a);
      && Inv(u) && t < |u.threads| && h < |s.handles| <= |u.handles| == |Run(s, others).handles|
      && (u.handles[h], u.threads[t]) == Local(s.threads[t], h, s.handles[h], a)
  {
    OthersLeaveAlone(s, others, t, h);
    StepKeeps(Run(s, others), a);
  }

  /** The thread's own step makes no handle. */
  ghost predicate MakesNone(s: Sys, others: seq<Action>, a: Action) {
    |After(s, others, a).handles| == |Run(s, others).handles|
  }

  /** A refused conversion gives the handle back as it was, with the same core
      session in its slot, and makes none, whatever the other threads do in between. */
  lemma RefusalRestores(s: Sys, t: nat, h: nat, c: Core,
                        o0: seq<Action>, o1: seq<Action>, o2: seq<Action>, o3: seq<Action>)
    requires Inv(s) && t < |s.threads| && h < |s.handles|
    requires s.threads[t] == Holding(FromSession, h) && s.handles[h].slot == Some(c)
    requires ByOthers(o0, t) && ByOthers(o1, t) && ByOthers(o2, t) && ByOthers(o3, t)
    ensures var s1 := After(s, o0, Take(t));
            var s2 := After(s1, o1, Validate(t, false));
            var s3 := After(s2, o2, Restore(t));
            var s4 := After(s3, o3, Unlock(t));
      && h < |s4.handles| && s4.handles[h] == s.handles[h].(holder := None)
      && t < |s4.threads| && s4.threads[t] == Idle
      && MakesNone(s, o0, Take(t)) && MakesNone(s1, o1, Validate(t, false)) && MakesNone(s2, o2, Restore(t))
      && MakesNone(s3, o3, Unlock(t))
  {
    var s1 := After(s, o0, Take(t));
    var s2 := After(s1, o1, Validate(t, false));
    var s3 := After(s2, o2, Restore(t));
    AfterOthers(s, o0, Take(t), t, h);
    AfterOthers(s1, o1, Validate(t, false), t, h);
    AfterOthers(s2, o2, Restore(t), t, h);
    AfterOthers(s3, o3, Unlock(t), t, h);
  }

  // ---- acceptance -----------------------------------------------------------------------------------

  /** A conversion that is offered begins: an idle thread gets the lock of a free handle
      of the right kind, and an unconverted one still has its own core session. */
  lemma FreeHandleIsLocked(s: Sys, t: nat, op: Op, h: nat)
    requires Inv(s) && t < |s.threads| && s.threads[t] == Idle && h < |s.handles| && s.handles[h].holder == None
    requires (op == FromSession && s.handles[h].kind == IsSession) || (op == IntoSession && s.handles[h].kind == IsChat)
    ensures var u := Apply(s, Lock(t, op, h));
      && Inv(u) && u.threads[t] == Holding(op, h) && u.handles[h] == s.handles[h].(holder := Some(t))
      && (!s.handles[h].moved ==> u.handles[h].slot == Some(s.handles[h].core))
  {
    StepKeeps(s, Lock(t, op, h));
  }

  /** The kind of handle that a conversion makes. */
  function Made(op: Op): Kind
    requires !op.Use?
  {
    match op
    case FromSession => IsChat
    case IntoSession => IsSession
  }

  /** The step that makes a handle: one more than there were, owning the core session. */
  lemma PublishMakesOne(s: Sys, others: seq<Action>, t: nat, op: Op, h: nat, c: Core)
    requires Inv(s) && t < |s.threads| && s.threads[t] == Ready(op, h, c) && !op.Use? && ByOthers(others, t)
    ensures var before, u := Run(s, others), After(s, others, Publish(t));
      && Inv(u) && h < |s.handles| <= |before.handles|
      && u.handles == before.handles + [Handle(Made(op), c, Some(c), false, None)]
      && u.handles[h] == s.handles[h]
      && u.made == before.made + [(h, |before.handles|)]
      && t < |u.threads| && u.threads[t] == Leaving(h)
  {
    OthersLeaveAlone(s, others, t, h);
    StepKeeps(Run(s, others), Publish(t));
    var b := Run(s, others);
    assert b.handles[h := b.handles[h]] == b.handles;
  }

  /** From `s`, with the others' steps in between, thread `t` made one handle of kind
      `kind` around core session `c`, left `h` empty, flagged and free, and is idle;
      `ready` is the state in which its turn to publish came. */
  ghost predicate Converted(s: Sys, ready: Sys, published: Sys, end: Sys, t: nat, h: nat, kind: Kind, c: Core) {
    && h < |s.handles| <= |ready.handles| < |published.handles| <= |end.handles|
    && published.handles == ready.handles + [Handle(kind, c, Some(c), false, None)]
    && published.made == ready.made + [(h, |ready.handles|)]
    && end.handles[h] == s.handles[h].(slot := None, moved := true, holder := None)
    && t < |end.threads| && end.threads[t] == Idle
  }

  lemma PublishAndLeave(s: Sys, o0: seq<Action>, o1: seq<Action>, t: nat, op: Op, h: nat, c: Core)
    requires Inv(s) && t < |s.threads| && s.threads[t] == Ready(op, h, c) && !op.Use?
    requires ByOthers(o0, t) && ByOthers(o1, t)
    ensures var u := After(s, o0, Publish(t));
            var v := After(u, o1, Unlock(t));
      && h < |s.handles| && s.handles[h].slot == None && s.handles[h].moved
      && Converted(s, Run(s, o0), u, v, t, h, Made(op), c)
      && MakesNone(u, o1, Unlock(t))
  {
    var u := After(s, o0, Publish(t));
    assert InStep(s.handles[h], s.threads[t]);
    PublishMakesOne(s, o0, t, op, h, c);
    AfterOthers(u, o1, Unlock(t), t, h);
  }

  /** An accepted `from_session`, whatever the other threads do in between: the Session
      handle is left empty and flagged, and exactly one handle is made, a chat that owns
      the same core session. */
  lemma AcceptedMakesChat(s: Sys, t: nat, h: nat, c: Core,
                          o0: seq<Action>, o1: seq<Action>, o2: seq<Action>, o3: seq<Action>, o4: seq<Action>)
    requires Inv(s) && t < |s.threads| && h < |s.handles|
    requires s.threads[t] == Holding(FromSession, h) && s.handles[h].slot == Some(c)
    requires ByOthers(o0, t) && ByOthers(o1, t) && ByOthers(o2, t) && ByOthers(o3, t) && ByOthers(o4, t)
    ensures var s1 := After(s, o0, Take(t));
            var s2 := After(s1, o1, Validate(t, true));
            var s3 := After(s2, o2, Flag(t));
            var s4 := After(s3, o3, Publish(t));
            var s5 := After(s4, o4, Unlock(t));
      && s.handles[h].kind == IsSession
      && Converted(s, Run(s3, o3), s4, s5, t, h, IsChat, c)
      && MakesNone(s, o0, Take(t)) && MakesNone(s1, o1, Validate(t, true)) && MakesNone(s2, o2, Flag(t))
      && MakesNone(s4, o4, Unlock(t))
  {
    var s1 := After(s, o0, Take(t));
    var s2 := After(s1, o1, Validate(t, true));
    var s3 := After(s2, o2, Flag(t));
    assert InStep(s.handles[h], s.threads[t]);
    AfterOthers(s, o0, Take(t), t, h);
    AfterOthers(s1, o1, Validate(t, true), t, h);
    AfterOthers(s2, o2, Flag(t), t, h);
    PublishAndLeave(s3, o3, o4, t, FromSession, h, c);
  }

  /** A chat still in its slot turned back by `into_session`: likewise, the one handle
      made is a Session. */
  lemma AcceptedMakesSession(s: Sys, t: nat, h: nat, c: Core,
                             o0: seq<Action>, o1: seq<Action>, o2: seq<Action>, o3: seq<Action>, o4: seq<Action>)
    requires Inv(s) && t < |s.threads| && h < |s.handles|
    requires s.threads[t] == Holding(IntoSession, h) && s.handles[h].slot == Some(c)
    requires ByOthers(o0, t) && ByOthers(o1, t) && ByOthers(o2, t) && ByOthers(o3, t) && ByOthers(o4, t)
    ensures var s1 := After(s, o0, Take(t));
            var s2 := After(s1, o1, Flag(t));
            var s3 := After(s2, o2, Unwrap(t));
            var s4 := After(s3, o3, Publish(t));
            var s5 := After(s4, o4, Unlock(t));
      && s.handles[h].kind == IsChat
      && Converted(s, Run(s3, o3), s4, s5, t, h, IsSession, c)
      && MakesNone(s, o0, Take(t)) && MakesNone(s1, o1, Flag(t)) && MakesNone(s2, o2, Unwrap(t))
      && MakesNone(s4, o4, Unlock(t))
  {
    var s1 := After(s, o0, Take(t));
    var s2 := After(s1, o1, Flag(t));
    var s3 := After(s2, o2, Unwrap(t));
    assert InStep(s.handles[h], s.threads[t]);
    AfterOthers(s, o0, Take(t), t, h);
    AfterOthers(s1, o1, Flag(t), t, h);
    AfterOthers(s2, o2, Unwrap(t), t, h);
    PublishAndLeave(s3, o3, o4, t, IntoSession, h, c);
  }

  /** A handle already converted is given back as it was, and no handle is made. */
  lemma SpentHandleIsRefused(s: Sys, t: nat, op: Op, h: nat, o0: seq<Action>, o1: seq<Action>)
    requires Inv(s) && t < |s.threads| && h < |s.handles|
    requires s.threads[t] == Holding(op, h) && !op.Use? && s.handles[h].slot == None
    requires ByOthers(o0, t) && ByOthers(o1, t)
    ensures var s1 := After(s, o0, Take(t));
            var s2 := After(s1, o1, Unlock(t));
      && h < |s2.handles| && s2.handles[h] == s.handles[h].(holder := None)
      && t < |s2.threads| && s2.threads[t] == Idle
      && MakesNone(s, o0, Take(t)) && MakesNone(s1, o1, Unlock(t))
  {
    AfterOthers(s, o0, Take(t), t, h);
    AfterOthers(After(s, o0, Take(t)), o1, Unlock(t), t, h);
  }
}
