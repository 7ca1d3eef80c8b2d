/** Who owns a core session while threads convert `Session` handles into
    `ChatSession` handles and back: every step between taking a lock and releasing it
    is a step of its own, and the threads interleave freely. */
module SessionHandles {
  import opened Wrappers

  type Core = nat

  datatype Kind = IsSession | IsChat

  /** A handle object: the slot its mutex guards, the lock-free `moved` flag, the
      thread that holds the mutex, and the core whose cancel flag it shares. */
  datatype Handle = Handle(kind: Kind, core: Core, slot: Option<Core>, moved: bool, holder: Option<nat>)

  datatype Op = FromSession | IntoSession | Use

  /** Where a thread is in its call. */
  datatype Doing =
    | Idle
    | Holding(op: Op, h: nat)               // lock taken
    | Took(op: Op, h: nat, core: Core)      // slot emptied
    | Accepted(h: nat, core: Core)          // from_session: validated, not yet flagged
    | Refused(h: nat, core: Core)           // from_session: validation failed
    | Marked(h: nat, core: Core)            // into_session: flagged, not yet unwrapped
    | Ready(op: Op, h: nat, core: Core)     // new handle about to be made
    | Leaving(h: nat)                       // about to release the lock

  /** Where a core session is. */
  datatype Place = InSlot(h: nat) | InHand(t: nat)

  datatype Sys = Sys(
    handles: seq<Handle>,
    threads: seq<Doing>,
    owner: map<Core, Place>,          // bookkeeping only; no thread reads it
    made: seq<(nat, nat)>)            // successful conversions: from handle, to handle

  datatype Action =
    | Lock(t: nat, op: Op, h: nat)
    | Take(t: nat)
    | Validate(t: nat, ok: bool)
    | Flag(t: nat)
    | Unwrap(t: nat)
    | Publish(t: nat)
    | Restore(t: nat)
    | Unlock(t: nat)

  function Target(op: Op): Option<Kind> {
    match op
    case FromSession => Some(IsSession)
    case IntoSession => Some(IsChat)
    case Use => None
  }

  function Opposite(k: Kind): Kind {
    if k.IsSession? then IsChat else IsSession
  }

  /** The handle a thread has locked. */
  function Held(d: Doing): Option<nat> {
    match d
    case Idle => None
    case Holding(_, h) => Some(h)
    case Took(_, h, _) => Some(h)
    case Accepted(h, _) => Some(h)
    case Refused(h, _) => Some(h)
    case Marked(h, _) => Some(h)
    case Ready(_, h, _) => Some(h)
    case Leaving(h) => Some(h)
  }

  /** The core session a thread has in its hands. */
  function InHands(d: Doing): Option<Core> {
    match d
    case Took(_, _, c) => Some(c)
    case Accepted(_, c) => Some(c)
    case Refused(_, c) => Some(c)
    case Marked(_, c) => Some(c)
    case Ready(_, _, c) => Some(c)
    case _ => None
  }

  // ---- steps ------------------------------------------------------------------------------

  function Goto(s: Sys, t: nat, d: Doing): Sys
    requires t < |s.threads|
  {
    s.(threads := s.threads[t := d])
  }

  function Put(s: Sys, h: nat, x: Handle): Sys
    requires h < |s.handles|
  {
    s.(handles := s.handles[h := x])
  }

  /** What a thread at `d` does to itself and to the handle `h` it holds; a step that
      is not its next one changes nothing. */
  function Local(d: Doing, h: nat, x: Handle, a: Action): (Handle, Doing) {
    match a
    case Take(_) =>
      if !d.Holding? || d.op.Use? then (x, d)
      else if x.slot.None? then (x, Leaving(h))
      else (x.(slot := None), Took(d.op, h, x.slot.value))
    case Validate(_, ok) =>
      if !d.Took? || !d.op.FromSession? then (x, d)
      else (x, if ok then Accepted(h, d.core) else Refused(h, d.core))
    case Flag(_) =>
      if d.Accepted? then (x.(moved := true), Ready(FromSession, h, d.core))
      else if d.Took? && d.op.IntoSession? then (x.(moved := true), Marked(h, d.core))
      else (x, d)
    case Unwrap(_) => (x, if d.Marked? then Ready(IntoSession, h, d.core) else d)
    case Publish(_) => (x, if d.Ready? then Leaving(h) else d)
    case Restore(_) => if d.Refused? then (x.(slot := Some(d.core)), Leaving(h)) else (x, d)
    case Unlock(_) =>
      if d.Leaving? || (d.Holding? && d.op.Use?) then (x.(holder := None), Idle) else (x, d)
    case Lock(_, _, _) => (x, d)
  }

  /** The bookkeeping that goes with a step, and the handle that publishing makes. */
  function Bookkept(s: Sys, h: nat, d: Doing, a: Action, u: Sys): Sys
    requires h < |s.handles|
  {
    match a
    case Take(t) =>
      if d.Holding? && !d.op.Use? && s.handles[h].slot.Some? then
        u.(owner := s.owner[s.handles[h].slot.value := InHand(t)])
      else u
    case Restore(_) => if d.Refused? then u.(owner := s.owner[d.core := InSlot(h)]) else u
    case Publish(_) =>
      if !d.Ready? then u
      else
        var n := |u.handles|;
        u.(handles := u.handles + [Handle(Opposite(s.handles[h].kind), d.core, Some(d.core), false, None)],
           owner := s.owner[d.core := InSlot(n)],
           made := s.made + [(h, n)])
    case _ => u
  }

  function ApplyLock(s: Sys, t: nat, op: Op, h: nat): Sys
    requires t < |s.threads|
  {
    if !s.threads[t].Idle? || h >= |s.handles| || s.handles[h].holder.Some? then s
    else if Target(op).Some? && Target(op).value != s.handles[h].kind then s
    else Goto(Put(s, h, s.handles[h].(holder := Some(t))), t, Holding(op, h))
  }

  /** One step of one thread; a step that has to wait changes nothing. */
  function Apply(s: Sys, a: Action): Sys {
    if a.t >= |s.threads| then s
    else
      var d := s.threads[a.t];
      if a.Lock? then ApplyLock(s, a.t, a.op, a.h)
      else if Held(d).None? || Held(d).value >= |s.handles| then s
      else
        var h := Held(d).value;
        var (x, next) := Local(d, h, s.handles[h], a);
        Bookkept(s, h, d, a, Goto(Put(s, h, x), a.t, next))
  }

  function Run(s: Sys, actions: seq<Action>): Sys
    decreases |actions|
  {
    if actions == [] then s else Run(Apply(s, actions[0]), actions[1..])
  }

  /** `cores` fresh sessions, each in its own handle, and `threads` idle threads. */
  function Init(cores: nat, threads: nat): Sys {
    Sys(seq(cores, c requires 0 <= c < cores => Handle(IsSession, c, Some(c), false, None)),
        seq(threads, _ => Idle),
        map c: nat | 0 <= c < cores :: InSlot(c),
        [])
  }

  // ---- the invariant --------------------------------------------------------------------------

  /** A handle and the thread that holds it agree on slot and flag. */
  predicate InStep(x: Handle, d: Doing) {
    match d
    case Idle => true
    case Holding(op, _) => (x.moved <==> x.slot.None?) && (Target(op).Some? ==> x.kind == Target(op).value)
    case Took(op, _, c) => x.slot.None? && !x.moved && c == x.core && (Target(op) == Some(x.kind))
    case Accepted(_, c) => x.slot.None? && !x.moved && c == x.core && x.kind.IsSession?
    case Refused(_, c) => x.slot.None? && !x.moved && c == x.core && x.kind.IsSession?
    case Marked(_, c) => x.slot.None? && x.moved && x.kind.IsChat?
    case Ready(op, _, c) => x.slot.None? && x.moved && Target(op) == Some(x.kind)
    case Leaving(_) => x.moved <==> x.slot.None?
  }

  ghost predicate LocksAgree(s: Sys) {
    && (forall t :: 0 <= t < |s.threads| && Held(s.threads[t]).Some? ==>
          var h := Held(s.threads[t]).value;
          h < |s.handles| && s.handles[h].holder == Some(t) && InStep(s.handles[h], s.threads[t]))
    && (forall h :: 0 <= h < |s.handles| && s.handles[h].holder.Some? ==>
          var t := s.handles[h].holder.value;
          t < |s.threads| && Held(s.threads[t]) == Some(h))
    && (forall h :: 0 <= h < |s.handles| && s.handles[h].holder.None? ==>
          (s.handles[h].moved <==> s.handles[h].slot.None?))
  }

  /** Each core session is in exactly the one place the bookkeeping names. */
  ghost predicate Owned(s: Sys) {
    && (forall h, c :: 0 <= h < |s.handles| ==>
          (s.handles[h].slot == Some(c) <==> c in s.owner && s.owner[c] == InSlot(h)))
    && (forall t, c :: 0 <= t < |s.threads| ==>
          (InHands(s.threads[t]) == Some(c) <==> c in s.owner && s.owner[c] == InHand(t)))
    && (forall c :: c in s.owner ==>
          match s.owner[c] case InSlot(h) => h < |s.handles| case InHand(t) => t < |s.threads|)
  }

  /** A handle's slot only ever holds the core it was made for. */
  ghost predicate OwnCore(s: Sys) {
    forall h :: 0 <= h < |s.handles| && s.handles[h].slot.Some? ==> s.handles[h].slot.value == s.handles[h].core
  }

  /** Each handle is converted at most once, and is flagged when it has been. */
  ghost predicate MadeOnce(s: Sys) {
    && (forall i :: 0 <= i < |s.made| ==> s.made[i].0 < |s.handles| && s.handles[s.made[i].0].moved)
    && (forall i, j :: 0 <= i < j < |s.made| ==> s.made[i].0 != s.made[j].0)
    // a handle whose conversion is still under way has not been converted before
    && (forall i, t :: 0 <= i < |s.made| && 0 <= t < |s.threads| && InHands(s.threads[t]).Some? ==>
          Held(s.threads[t]) != Some(s.made[i].0))
  }

  ghost predicate Inv(s: Sys) {
    LocksAgree(s) && Owned(s) && OwnCore(s) && MadeOnce(s)
  }

  // ---- every step keeps it ----------------------------------------------------------------------

  /** Thread `t`, holding `h`, changes only its own state and that handle. */
  lemma LocksLocal(s: Sys, t: nat, h: nat, x: Handle, d: Doing)
    requires LocksAgree(s) && t < |s.threads| && h < |s.handles|
    requires Held(s.threads[t]) == Some(h)
    requires if d.Idle? then x.holder == None && (x.moved <==> x.slot.None?)
             else Held(d) == Some(h) && x.holder == Some(t) && InStep(x, d)
    ensures LocksAgree(Goto(Put(s, h, x), t, d))
  {
  }

  /** A new handle that nobody holds. */
  lemma LocksAppend(s: Sys, x: Handle)
    requires LocksAgree(s) && x.holder == None && (x.moved <==> x.slot.None?)
    ensures LocksAgree(s.(handles := s.handles + [x]))
  {
  }

  /** Neither the slot nor the hands change. */
  lemma OwnedStays(s: Sys, t: nat, h: nat, x: Handle, d: Doing)
    requires Owned(s) && t < |s.threads| && h < |s.handles|
    requires x.slot == s.handles[h].slot && InHands(d) == InHands(s.threads[t])
    ensures Owned(Goto(Put(s, h, x), t, d))
  {
  }

  /** From a slot into a hand. */
  lemma OwnedTaken(s: Sys, t: nat, h: nat, x: Handle, d: Doing, c: Core)
    requires Owned(s) && t < |s.threads| && h < |s.handles|
    requires s.handles[h].slot == Some(c) && InHands(s.threads[t]) == None
    requires x.slot == None && InHands(d) == Some(c)
    ensures Owned(Goto(Put(s, h, x), t, d).(owner := s.owner[c := InHand(t)]))
  {
  }

  /** From a hand into an empty slot. */
  lemma OwnedPut(s: Sys, t: nat, h: nat, x: Handle, d: Doing, c: Core)
    requires Owned(s) && t < |s.threads| && h < |s.handles|
    requires s.handles[h].slot == None && InHands(s.threads[t]) == Some(c)
    requires x.slot == Some(c) && InHands(d) == None
    ensures Owned(Goto(Put(s, h, x), t, d).(owner := s.owner[c := InSlot(h)]))
  {
  }

  /** From a hand into a new handle's slot. */
  lemma OwnedAppend(s: Sys, t: nat, x: Handle, d: Doing, c: Core)
    requires Owned(s) && t < |s.threads|
    requires InHands(s.threads[t]) == Some(c) && x.slot == Some(c) && InHands(d) == None
    ensures Owned(Goto(s, t, d).(handles := s.handles + [x], owner := s.owner[c := InSlot(|s.handles|)]))
  {
    var n := |s.handles|;
    var u := Goto(s, t, d).(handles := s.handles + [x], owner := s.owner[c := InSlot(n)]);
    forall h, k | 0 <= h < |u.handles|
      ensures u.handles[h].slot == Some(k) <==> k in u.owner && u.owner[k] == InSlot(h)
    {
      if h < n {
        assert u.handles[h] == s.handles[h];
      }
    }
  }

  /** The local part of a step keeps thread and handle in step. */
  lemma LocalInStep(d: Doing, h: nat, t: nat, x: Handle, a: Action)
    requires Held(d) == Some(h) && x.holder == Some(t) && InStep(x, d) && !a.Lock?
    requires x.slot.Some? ==> x.slot.value == x.core
    ensures var (y, next) := Local(d, h, x, a);
      if next.Idle? then y.holder == None && (y.moved <==> y.slot.None?)
      else Held(next) == Some(h) && y.holder == Some(t) && InStep(y, next)
  {
  }

  lemma LocksKept(s: Sys, a: Action)
    requires LocksAgree(s) && OwnCore(s) && a.t < |s.threads| && !a.Lock? && Held(s.threads[a.t]).Some?
    ensures LocksAgree(Apply(s, a))
  {
    var d := s.threads[a.t];
    var h := Held(d).value;
    var (x, next) := Local(d, h, s.handles[h], a);
    LocalInStep(d, h, a.t, s.handles[h], a);
    LocksLocal(s, a.t, h, x, next);
    if a.Publish? && d.Ready? {
      LocksAppend(Goto(Put(s, h, x), a.t, next), Handle(Opposite(x.kind), d.core, Some(d.core), false, None));
    }
  }

  lemma LockLocks(s: Sys, t: nat, op: Op, h: nat)
    requires LocksAgree(s) && t < |s.threads|
    ensures LocksAgree(ApplyLock(s, t, op, h))
  {
  }

  lemma LockOwned(s: Sys, t: nat, op: Op, h: nat)
    requires Owned(s) && t < |s.threads|
    ensures Owned(ApplyLock(s, t, op, h))
  {
    if s.threads[t].Idle? && h < |s.handles| {
      OwnedStays(s, t, h, s.handles[h].(holder := Some(t)), Holding(op, h));
    }
  }

  /** Thread `t` is at `d` with `h` locked, and both agree. */
  predicate Acting(s: Sys, t: nat, d: Doing, h: nat) {
    && t < |s.threads| && s.threads[t] == d && Held(d) == Some(h)
    && h < |s.handles| && InStep(s.handles[h], d)
  }

  lemma TakeOwned(s: Sys, t: nat, d: Doing, h: nat)
    requires Owned(s) && Acting(s, t, d, h)
    ensures Owned(Apply(s, Take(t)))
  {
    var (x, next) := Local(d, h, s.handles[h], Take(t));
    if d.Holding? && !d.op.Use? && s.handles[h].slot.Some? {
      OwnedTaken(s, t, h, x, next, s.handles[h].slot.value);
    } else {
      OwnedStays(s, t, h, x, next);
    }
  }

  lemma RestoreOwned(s: Sys, t: nat, d: Doing, h: nat)
    requires Owned(s) && Acting(s, t, d, h)
    ensures Owned(Apply(s, Restore(t)))
  {
    var (x, next) := Local(d, h, s.handles[h], Restore(t));
    if d.Refused? {
      OwnedPut(s, t, h, x, next, d.core);
    } else {
      OwnedStays(s, t, h, x, next);
    }
  }

  lemma PublishOwned(s: Sys, t: nat, d: Doing, h: nat)
    requires Owned(s) && Acting(s, t, d, h)
    ensures Owned(Apply(s, Publish(t)))
  {
    var x := s.handles[h];
    assert Put(s, h, x) == s;
    if d.Ready? {
      OwnedAppend(s, t, Handle(Opposite(x.kind), d.core, Some(d.core), false, None), Leaving(h), d.core);
    } else {
      OwnedStays(s, t, h, x, d);
    }
  }

  lemma OtherOwned(s: Sys, a: Action, d: Doing, h: nat)
    requires Owned(s) && Acting(s, a.t, d, h)
    requires a.Validate? || a.Flag? || a.Unwrap? || a.Unlock?
    ensures Owned(Apply(s, a))
  {
    var (x, next) := Local(d, h, s.handles[h], a);
    OwnedStays(s, a.t, h, x, next);
  }

  // ---- at most one conversion a handle ---------------------------------------------------------

  /** Nobody starts converting a handle that has been converted. */
  lemma MadeStays(s: Sys, t: nat, h: nat, x: Handle, d: Doing)
    requires MadeOnce(s) && t < |s.threads| && h < |s.handles|
    requires s.handles[h].moved ==> x.moved
    requires Held(s.threads[t]) == Some(h) || Held(s.threads[t]) == None
    requires InHands(d).Some? ==>
      Held(d) == Some(h) && (InHands(s.threads[t]).Some? || !s.handles[h].moved)
    ensures MadeOnce(Goto(Put(s, h, x), t, d))
  {
  }

  lemma MadeAppends(s: Sys, t: nat, h: nat, x: Handle)
    requires MadeOnce(s) && LocksAgree(s) && t < |s.threads| && h < |s.handles| && s.handles[h].moved
    requires Held(s.threads[t]) == Some(h) && InHands(s.threads[t]).Some?
    ensures MadeOnce(Goto(s, t, Leaving(h)).(handles := s.handles + [x], made := s.made + [(h, |s.handles|)]))
  {
    var u := Goto(s, t, Leaving(h)).(handles := s.handles + [x], made := s.made + [(h, |s.handles|)]);
    forall i, k | 0 <= i < |u.made| && 0 <= k < |u.threads| && InHands(u.threads[k]).Some?
      ensures Held(u.threads[k]) != Some(u.made[i].0)
    {
      assert k != t && u.threads[k] == s.threads[k] && Held(s.threads[k]) != Some(h);
    }
  }

  lemma MadeKept(s: Sys, a: Action, d: Doing, h: nat)
    requires MadeOnce(s) && LocksAgree(s) && Acting(s, a.t, d, h) && !a.Lock?
    ensures MadeOnce(Apply(s, a))
  {
    var (x, next) := Local(d, h, s.handles[h], a);
    if a.Publish? && d.Ready? {
      assert Put(s, h, x) == s;
      MadeAppends(s, a.t, h, Handle(Opposite(x.kind), d.core, Some(d.core), false, None));
    } else {
      MadeStays(s, a.t, h, x, next);
    }
  }

  lemma OwnCoreKept(s: Sys, a: Action, d: Doing, h: nat)
    requires OwnCore(s) && Acting(s, a.t, d, h) && !a.Lock?
    ensures OwnCore(Apply(s, a))
  {
  }

  lemma LockKeeps(s: Sys, t: nat, op: Op, h: nat)
    requires Inv(s) && t < |s.threads|
    ensures Inv(ApplyLock(s, t, op, h))
  {
    LockLocks(s, t, op, h);
    LockOwned(s, t, op, h);
    if s.threads[t].Idle? && h < |s.handles| {
      MadeStays(s, t, h, s.handles[h].(holder := Some(t)), Holding(op, h));
    }
  }

  lemma OwnedKept(s: Sys, a: Action, d: Doing, h: nat)
    requires Owned(s) && Acting(s, a.t, d, h) && !a.Lock?
    ensures Owned(Apply(s, a))
  {
    match a
    case Take(t) => TakeOwned(s, t, d, h);
    case Restore(t) => RestoreOwned(s, t, d, h);
    case Publish(t) => PublishOwned(s, t, d, h);
    case _ => OtherOwned(s, a, d, h);
  }

  lemma StepKeeps(s: Sys, a: Action)
    requires Inv(s)
    ensures Inv(Apply(s, a))
  {
    if a.t < |s.threads| {
      if a.Lock? {
        LockKeeps(s, a.t, a.op, a.h);
      } else if Held(s.threads[a.t]).Some? {
        var d := s.threads[a.t];
        var h := Held(d).value;
        LocksKept(s, a);
        OwnedKept(s, a, d, h);
        OwnCoreKept(s, a, d, h);
        MadeKept(s, a, d, h);
      }
    }
  }

  lemma {:induction false} RunKeeps(s: Sys, actions: seq<Action>)
    requires Inv(s)
    ensures Inv(Run(s, actions))
    decreases |actions|
  {
    if actions != [] {
      StepKeeps(s, actions[0]);
      RunKeeps(Apply(s, actions[0]), actions[1..]);
    }
  }

  lemma InitHolds(cores: nat, threads: nat)
    ensures Inv(Init(cores, threads))
  {
  }
}
