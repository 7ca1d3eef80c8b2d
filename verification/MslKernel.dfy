/** The pointer walk of the MSL post-pass on programs: a loop language whose
    statements are the lines the pass recognises, everything else it may meet,
    and the lines it inserts. */
module MslKernel {
  import opened Wrappers
  import opened MslAddress

  datatype Stmt =
    | Set(x: Var, e: Chain)            // any other assignment or declaration
    | Read(x: Var)                     // a value fetched from memory
    | LoadIdx(buf: Buf, at: Addr)      // matrix load in index form
    | LoadPtr(buf: Buf, at: Addr)      // matrix load through the pointer walk
    | LoadOther(e: Chain)              // matrix load from any other address
    | Seed(buf: Buf, e: Chain)         // `lsmX_0 = e;`
    | Step(buf: Buf, n: nat)           // `uint lsmX_1 = lsmX_0 + n;`
    | Commit(buf: Buf)                 // `lsmX_0 = lsmX_1;`
    | PtrSeed(buf: Buf)                // `pX_0 = _sX + lsmX_0;`
    | PtrStep(buf: Buf, n: nat)        // `pX_1 = pX_0 + (n);`
    | PtrCommit(buf: Buf)              // `pX_0 = pX_1;`
    | If(c: Chain, thn: seq<Stmt>, els: seq<Stmt>)
    | Guarded(c: Chain, line: Stmt)    // `if(c)` without braces, one statement below
    | Loop(body: seq<Stmt>)            // `for(;;)`
    | KLoop(body: seq<Stmt>)           // the `for(;;)` that holds the pointer step of A
    | Break
    | Continue

  /** `input` is what memory will answer: the pass moves no value in memory. Addresses
      are in bytes. */
  datatype State = State(env: Env, input: seq<int>)

  /** Start addresses of the two scratch slices. */
  datatype Layout = Layout(sa: int, sb: int)

  function Base(lay: Layout, b: Buf): int {
    if b == A then lay.sa else lay.sb
  }

  /** A matrix load: the address it reads, how far its rewritten form would be from it,
      and whether its index and offset add up without wrapping. */
  datatype Event = Event(buf: Option<Buf>, addr: int, skew: int, fits: bool)

  datatype Signal = Next | Broke | Continued | OutOfFuel
  datatype Outcome = Outcome(st: State, trace: seq<Event>, sig: Signal)

  function Put(st: State, x: Var, v: int): State {
    st.(env := st.env.(vars := st.env.vars[x := v]))
  }

  function IndexEvent(b: Buf, a: Addr, st: State, lay: Layout): Event {
    var l := Get(st.env, Index(b));
    Event(Some(b), IndexAddress(b, Base(lay, b), l, a, st.env), Skew(b, l, a, st.env), Fits(l, a, st.env))
  }

  function ExecPrim(s: Stmt, st: State, lay: Layout): (State, seq<Event>)
  {
    var env := st.env;
    match s
    case Set(x, e) => (Put(st, x, EvalChain(e, env)), [])
    case Read(x) =>
      if st.input == [] then (Put(st, x, 0), [])
      else (Put(st, x, st.input[0]).(input := st.input[1..]), [])
    case LoadIdx(b, a) => (st, [IndexEvent(b, a, st, lay)])
    case LoadPtr(b, a) => (st, [Event(Some(b), PointerAddress(b, Get(env, Pointer(b)), a, env), 0, true)])
    case LoadOther(e) => (st, [Event(None, EvalChain(e, env), 0, true)])
    case Seed(b, e) => (Put(st, Index(b), EvalChain(e, env)), [])
    case Step(b, n) => (Put(st, StepTmp(b), Get(env, Index(b)) + n), [])
    case Commit(b) => (Put(st, Index(b), Get(env, StepTmp(b))), [])
    case PtrSeed(b) => (Put(st, Pointer(b), Base(lay, b) + Size(b) * Get(env, Index(b))), [])
    case PtrStep(b, n) => (Put(st, PointerTmp(b), Get(env, Pointer(b)) + Size(b) * n), [])
    case PtrCommit(b) => (Put(st, Pointer(b), Get(env, PointerTmp(b))), [])
    case _ => (st, [])
  }

  /** Runs statements with at most `fuel` loop turns on any nesting path, so the
      executions for all fuels are all finite prefixes of the run. */
  function Exec(fuel: nat, ss: seq<Stmt>, st: State, lay: Layout): Outcome
    decreases fuel, ss, 0
  {
    if ss == [] then Outcome(st, [], Next)
    else
      var r := ExecOne(fuel, ss[0], st, lay);
      if r.sig != Next then r
      else
        var q := Exec(fuel, ss[1..], r.st, lay);
        Outcome(q.st, r.trace + q.trace, q.sig)
  }

  function ExecOne(fuel: nat, s: Stmt, st: State, lay: Layout): Outcome
    decreases fuel, s, 0
  {
    match s
    case If(c, thn, els) =>
      if EvalChain(c, st.env) != 0 then Exec(fuel, thn, st, lay) else Exec(fuel, els, st, lay)
    case Guarded(c, line) =>
      if EvalChain(c, st.env) != 0 then ExecOne(fuel, line, st, lay) else Outcome(st, [], Next)
    case Loop(body) => ExecLoop(fuel, body, st, lay)
    case KLoop(body) => ExecLoop(fuel, body, st, lay)
    case Break => Outcome(st, [], Broke)
    case Continue => Outcome(st, [], Continued)
    case _ =>
      var p := ExecPrim(s, st, lay);
      Outcome(p.0, p.1, Next)
  }

  function ExecLoop(fuel: nat, body: seq<Stmt>, st: State, lay: Layout): Outcome
    decreases fuel, body, 1
  {
    if fuel == 0 then Outcome(st, [], OutOfFuel)
    else
      var r := Exec(fuel - 1, body, st, lay);
      match r.sig
      case OutOfFuel => r
      case Broke => Outcome(r.st, r.trace, Next)
      case _ =>
        var q := ExecLoop(fuel - 1, body, r.st, lay);
        Outcome(q.st, r.trace + q.trace, q.sig)
  }

  // ---- the rewrite -----------------------------------------------------------

  /** Condition 2 of the pass: a pointer line below every seed, step and commit, and,
      inside the k-loop, every index-form load repointed. Below a brace-less `if` the
      new line is no longer under the condition. */
  function Rewrite(ss: seq<Stmt>, inK: bool): seq<Stmt>
    decreases ss, 0
  {
    if ss == [] then [] else RewriteOne(ss[0], inK) + Rewrite(ss[1..], inK)
  }

  function RewriteOne(s: Stmt, inK: bool): (r: seq<Stmt>)
    ensures r != []
    decreases s, 0
  {
    match s
    case Seed(b, _) => [s, PtrSeed(b)]
    case Step(b, n) => [s, PtrStep(b, n)]
    case Commit(b) => [s, PtrCommit(b)]
    case LoadIdx(b, a) => if inK then [LoadPtr(b, a)] else [s]
    case If(c, thn, els) => [If(c, Rewrite(thn, inK), Rewrite(els, inK))]
    case Guarded(c, line) =>
      var lines := RewriteOne(line, inK);
      [Guarded(c, lines[0])] + lines[1..]
    case Loop(body) => [Loop(Rewrite(body, inK))]
    case KLoop(body) => [KLoop(Rewrite(body, true))]
    case _ => [s]
  }

  lemma {:induction false} RewriteAppends(a: seq<Stmt>, b: seq<Stmt>, inK: bool)
    ensures Rewrite(a + b, inK) == Rewrite(a, inK) + Rewrite(b, inK)
    decreases |a|
  {
    if a == [] {
      assert a + b == b;
    } else {
      assert (a + b)[0] == a[0] && (a + b)[1..] == a[1..] + b;
      RewriteAppends(a[1..], b, inK);
    }
  }

  lemma RewriteSingle(s: Stmt, inK: bool)
    ensures Rewrite([s], inK) == RewriteOne(s, inK)
  {
    assert [s][1..] == [];
  }

  /** What the pointer-walking program should load, given what the index-walking
      one loads. */
  function Shadow(t: seq<Event>): (r: seq<Event>)
    ensures |r| == |t|
    ensures forall i :: 0 <= i < |t| ==> r[i] == Event(t[i].buf, t[i].addr - t[i].skew, 0, true)
  {
    seq(|t|, i requires 0 <= i < |t| => Event(t[i].buf, t[i].addr - t[i].skew, 0, true))
  }

  // ---- which names an expression may read -----------------------------------

  predicate IsIntroduced(x: Var) {
    x.Pointer? || x.PointerTmp?
  }

  predicate FreshAtom(a: Atom)
    decreases a
  {
    match a
    case Lit(_) => true
    case Use(x) => !IsIntroduced(x)
    case Paren(e) => FreshChain(e)
    case Apply(_, arg) => FreshAtom(arg)
  }

  predicate FreshTerms(ts: seq<Term>)
    decreases ts
  {
    ts == [] || (FreshTerm(ts[0]) && FreshTerms(ts[1..]))
  }

  predicate FreshTerm(t: Term)
    decreases t
  {
    FreshAtom(t.atom) && (t.op.Choice? ==> FreshChain(t.op.thn))
  }

  predicate FreshChain(e: Chain)
    decreases e
  {
    FreshAtom(e.head) && FreshTerms(e.tail)
  }

  predicate FreshAddr(a: Addr) {
    && (a.lead.Some? ==> FreshChain(a.lead.value))
    && (a.offset.Some? ==> FreshChain(a.offset.value))
    && FreshTerms(a.suffix)
  }

  /** The two states agree on every name the source program can mention. */
  ghost predicate Agree(s1: State, s2: State) {
    && s1.input == s2.input
    && s1.env.binary == s2.env.binary && s1.env.unary == s2.env.unary
    && forall x: Var :: !IsIntroduced(x) ==> Get(s1.env, x) == Get(s2.env, x)
  }

  lemma {:induction false} AtomAgrees(a: Atom, s1: State, s2: State)
    requires Agree(s1, s2) && FreshAtom(a)
    ensures EvalAtom(a, s1.env) == EvalAtom(a, s2.env)
    decreases a
  {
    if a.Paren? {
      ChainAgrees(a.e, s1, s2);
    } else if a.Apply? {
      AtomAgrees(a.arg, s1, s2);
    }
  }

  lemma {:induction false} TermsAgree(ts: seq<Term>, s1: State, s2: State)
    requires Agree(s1, s2) && FreshTerms(ts)
    ensures Values(ts, s1.env) == Values(ts, s2.env)
    decreases ts
  {
    if ts != [] {
      TermAgrees(ts[0], s1, s2);
      TermsAgree(ts[1..], s1, s2);
    }
  }

  lemma {:induction false} TermAgrees(t: Term, s1: State, s2: State)
    requires Agree(s1, s2) && FreshTerm(t)
    ensures EvalTerm(t, s1.env) == EvalTerm(t, s2.env)
    decreases t
  {
    AtomAgrees(t.atom, s1, s2);
    if t.op.Choice? {
      ChainAgrees(t.op.thn, s1, s2);
    }
  }

  /** A value depends on the operators' meaning, not on the variables. */
  lemma {:induction false} MeaningIsEnough(h: int, t: seq<Num>, e1: Env, e2: Env)
    requires e1.binary == e2.binary
    ensures Eval(h, t, e1) == Eval(h, t, e2)
    decreases |t|
  {
    if t != [] {
      var r := Root(t);
      EvalHere(h, t, r, e1);
      EvalHere(h, t, r, e2);
      MeaningIsEnough(h, t[..r], e1, e2);
      MeaningIsEnough(t[r].v, t[r + 1..], e1, e2);
    }
  }

  lemma {:induction false} ChainAgrees(e: Chain, s1: State, s2: State)
    requires Agree(s1, s2) && FreshChain(e)
    ensures EvalChain(e, s1.env) == EvalChain(e, s2.env)
    decreases e
  {
    AtomAgrees(e.head, s1, s2);
    TermsAgree(e.tail, s1, s2);
    MeaningIsEnough(EvalAtom(e.head, s1.env), Values(e.tail, s1.env), s1.env, s2.env);
  }

  lemma {:induction false} MovesAgree(t: seq<Num>, e1: Env, e2: Env)
    requires e1.binary == e2.binary
    ensures Moves(t, e1) == Moves(t, e2)
    decreases |t|
  {
    if t != [] {
      var rest := t[1..];
      var k := Products(rest);
      MeaningIsEnough(t[0].v, rest[..k], e1, e2);
      MovesAgree(rest[k..], e1, e2);
    }
  }

  lemma AddrAgrees(b: Buf, p: int, a: Addr, s1: State, s2: State)
    requires Agree(s1, s2) && FreshAddr(a)
    ensures PointerAddress(b, p, a, s1.env) == PointerAddress(b, p, a, s2.env)
  {
    TermsAgree(a.suffix, s1, s2);
    if a.offset.Some? {
      ChainAgrees(a.offset.value, s1, s2);
    }
    if a.lead.Some? {
      ChainAgrees(a.lead.value, s1, s2);
    }
    var offset := match a.offset case None => [] case Some(c) => [Plus(EvalChain(c, s1.env))];
    MovesAgree(offset + Values(a.suffix, s1.env), s1.env, s2.env);
  }

  // ---- a flow analysis that proves the walk mirrors the index -----------------

  /** Buffers whose pointer (pointer temporary) is known to mirror the index
      (step temporary). */
  datatype Track = Track(idx: set<Buf>, tmp: set<Buf>)

  const NONE: Track := Track({}, {})

  predicate Within(a: Track, b: Track) {
    a.idx <= b.idx && a.tmp <= b.tmp
  }

  ghost predicate Mirrors(tr: Track, lay: Layout, s1: State, s2: State) {
    && Agree(s1, s2)
    && (forall b :: b in tr.idx ==> Get(s2.env, Pointer(b)) == Base(lay, b) + Size(b) * Get(s1.env, Index(b)))
    && (forall b :: b in tr.tmp ==> Get(s2.env, PointerTmp(b)) == Base(lay, b) + Size(b) * Get(s1.env, StepTmp(b)))
  }

  predicate MayWrite(tr: Track, x: Var) {
    && !IsIntroduced(x)
    && (x.Index? ==> x.b !in tr.idx)
    && (x.StepTmp? ==> x.b !in tr.tmp)
  }

  /** `ss` keeps every pointer in `keep` a mirror of its index when it starts with
      those in `tr` mirrored, and loads only through mirrored pointers. A seed may
      stand under a brace-less condition, since its pointer reads the index back; a
      step or commit may not. */
  predicate Flows(tr: Track, keep: Track, ss: seq<Stmt>, inK: bool)
    decreases ss, 0
  {
    Within(keep, tr)
    && (ss == [] || (FlowsOne(tr, ss[0], inK) && Flows(After(tr, keep, ss[0]), keep, ss[1..], inK)))
  }

  predicate FlowsOne(tr: Track, s: Stmt, inK: bool)
    decreases s, 0
  {
    match s
    case Set(x, e) => MayWrite(tr, x) && FreshChain(e)
    case Read(x) => MayWrite(tr, x)
    case LoadIdx(b, a) => inK && b in tr.idx && WellTyped(a) && FreshAddr(a)
    case LoadOther(e) => FreshChain(e)
    case Seed(b, e) => FreshChain(e)
    case Step(b, _) => b in tr.idx
    case Commit(b) => b in tr.tmp
    case If(c, thn, els) => FreshChain(c) && Flows(tr, tr, thn, inK) && Flows(tr, tr, els, inK)
    case Guarded(c, line) =>
      FreshChain(c) && !Core(line).Step? && !Core(line).Commit? && FlowsOne(tr, line, inK)
    case Loop(body) => Flows(tr, tr, body, inK)
    case KLoop(body) => Flows(tr, tr, body, true)
    case Break => true
    case Continue => true
    case _ => false
  }

  /** The statement under brace-less conditions. */
  function Core(s: Stmt): Stmt {
    if s.Guarded? then Core(s.line) else s
  }

  function After(tr: Track, keep: Track, s: Stmt): Track {
    match Core(s)
    case Seed(b, _) => tr.(idx := tr.idx + {b})
    case Step(b, _) => tr.(tmp := tr.tmp + {b})
    case Commit(b) => tr.(idx := tr.idx + {b})
    case KLoop(_) => if s.KLoop? then keep else tr
    case _ => tr
  }

  predicate IsSite(s: Stmt) {
    s.Seed? || s.Step? || s.Commit?
  }

  predicate IsPlain(s: Stmt) {
    s.Set? || s.Read? || s.LoadIdx? || s.LoadOther?
  }

  lemma PutMirrors(tr: Track, x: Var, v: int, s1: State, s2: State, lay: Layout)
    requires MayWrite(tr, x) && Mirrors(tr, lay, s1, s2)
    ensures Mirrors(tr, lay, Put(s1, x, v), Put(s2, x, v))
  {
  }

  lemma ReadMirrors(tr: Track, x: Var, s1: State, s2: State, lay: Layout)
    requires MayWrite(tr, x) && Mirrors(tr, lay, s1, s2)
    ensures Mirrors(tr, lay, ExecPrim(Read(x), s1, lay).0, ExecPrim(Read(x), s2, lay).0)
  {
    var rest := if s1.input == [] then [] else s1.input[1..];
    var v := if s1.input == [] then 0 else s1.input[0];
    PutMirrors(tr, x, v, s1.(input := rest), s2.(input := rest), lay);
  }

  lemma AddressesDiffer(b: Buf, base: int, l: int, a: Addr, s1: State, s2: State)
    requires WellTyped(a) && FreshAddr(a) && Agree(s1, s2)
    ensures PointerAddress(b, base + Size(b) * l, a, s2.env)
         == IndexAddress(b, base, l, a, s1.env) - Skew(b, l, a, s1.env)
  {
    var p := PointerAddress(b, base + Size(b) * l, a, s1.env);
    assert PointerAddress(b, base + Size(b) * l, a, s2.env) == p by {
      AddrAgrees(b, base + Size(b) * l, a, s1, s2);
    }
    assert IndexAddress(b, base, l, a, s1.env) == p + Skew(b, l, a, s1.env) by {
      SpliceMoves(b, base, l, a, s1.env);
    }
  }

  lemma ShadowOne(e: Event)
    ensures Shadow([e]) == [Event(e.buf, e.addr - e.skew, 0, true)]
  {
  }

  lemma IndexTrace(b: Buf, a: Addr, st: State, lay: Layout)
    ensures ExecPrim(LoadIdx(b, a), st, lay).1 == [IndexEvent(b, a, st, lay)]
  {
  }

  lemma PointerTrace(b: Buf, a: Addr, st: State, lay: Layout, addr: int)
    requires PointerAddress(b, Get(st.env, Pointer(b)), a, st.env) == addr
    ensures ExecPrim(LoadPtr(b, a), st, lay).1 == [Event(Some(b), addr, 0, true)]
  {
  }

  lemma LoadMirrors(b: Buf, a: Addr, s1: State, s2: State, lay: Layout)
    requires WellTyped(a) && FreshAddr(a) && Agree(s1, s2)
    requires Get(s2.env, Pointer(b)) == Base(lay, b) + Size(b) * Get(s1.env, Index(b))
    ensures ExecPrim(LoadPtr(b, a), s2, lay).1 == Shadow(ExecPrim(LoadIdx(b, a), s1, lay).1)
  {
    var base, l := Base(lay, b), Get(s1.env, Index(b));
    AddressesDiffer(b, base, l, a, s1, s2);
    ShadowedLoad(b, a, s1, s2, lay, IndexAddress(b, base, l, a, s1.env), Skew(b, l, a, s1.env), Fits(l, a, s1.env));
  }

  lemma ShadowedLoad(b: Buf, a: Addr, s1: State, s2: State, lay: Layout, addr: int, skew: int, fits: bool)
    requires IndexEvent(b, a, s1, lay) == Event(Some(b), addr, skew, fits)
    requires PointerAddress(b, Get(s2.env, Pointer(b)), a, s2.env) == addr - skew
    ensures ExecPrim(LoadPtr(b, a), s2, lay).1 == Shadow(ExecPrim(LoadIdx(b, a), s1, lay).1)
  {
    IndexTrace(b, a, s1, lay);
    PointerTrace(b, a, s2, lay, addr - skew);
    ShadowedTrace(ExecPrim(LoadIdx(b, a), s1, lay).1, ExecPrim(LoadPtr(b, a), s2, lay).1,
                  Event(Some(b), addr, skew, fits));
  }

  lemma ShadowedTrace(t: seq<Event>, u: seq<Event>, e: Event)
    requires t == [e] && u == [Event(e.buf, e.addr - e.skew, 0, true)]
    ensures u == Shadow(t)
  {
    ShadowOne(e);
  }

  lemma PlainMirrors(tr: Track, s: Stmt, inK: bool, s1: State, s2: State, lay: Layout)
    requires IsPlain(s) && FlowsOne(tr, s, inK) && Mirrors(tr, lay, s1, s2)
    ensures RewriteOne(s, inK) == [if s.LoadIdx? then LoadPtr(s.buf, s.at) else s]
    ensures var p1, p2 := ExecPrim(s, s1, lay), ExecPrim(RewriteOne(s, inK)[0], s2, lay);
            p2.1 == Shadow(p1.1) && Mirrors(tr, lay, p1.0, p2.0)
  {
    match s
    case Set(x, e) =>
      ChainAgrees(e, s1, s2);
      PutMirrors(tr, x, EvalChain(e, s1.env), s1, s2, lay);
    case Read(x) => ReadMirrors(tr, x, s1, s2, lay);
    case LoadOther(e) => ChainAgrees(e, s1, s2);
    case LoadIdx(b, a) =>
      LoadMirrors(b, a, s1, s2, lay);
  }

  /** The pointer line that the pass inserts below a site. */
  function Inserted(s: Stmt): Stmt
    requires IsSite(s)
  {
    match s
    case Seed(b, _) => PtrSeed(b)
    case Step(b, n) => PtrStep(b, n)
    case Commit(b) => PtrCommit(b)
  }

  /** A site, under conditions or not, and its inserted line run on without loading. */
  ghost predicate RunsOn(fuel: nat, s: Stmt, st: State, lay: Layout) {
    ExecOne(fuel, s, st, lay) == Outcome(ExecOne(fuel, s, st, lay).st, [], Next)
  }

  /** A seed under conditions: run or not, the index is the same on both sides. */
  lemma {:induction false} SeedAgrees(fuel: nat, tr: Track, s: Stmt, inK: bool, s1: State, s2: State, lay: Layout)
    requires Core(s).Seed? && FlowsOne(tr, s, inK) && Mirrors(tr, lay, s1, s2)
    ensures RewriteOne(s, inK) == [s, PtrSeed(Core(s).buf)]
    ensures RunsOn(fuel, s, s1, lay) && RunsOn(fuel, s, s2, lay)
    ensures Mirrors(tr.(idx := tr.idx - {Core(s).buf}), lay, ExecOne(fuel, s, s1, lay).st, ExecOne(fuel, s, s2, lay).st)
    decreases s
  {
    if s.Guarded? {
      ChainAgrees(s.c, s1, s2);
      SeedAgrees(fuel, tr, s.line, inK, s1, s2, lay);
    } else {
      ChainAgrees(s.e, s1, s2);
    }
  }

  lemma PtrSeedMirrors(tr: Track, b: Buf, s1: State, s2: State, lay: Layout)
    requires Mirrors(tr.(idx := tr.idx - {b}), lay, s1, s2)
    ensures Mirrors(tr.(idx := tr.idx + {b}), lay, s1, ExecPrim(PtrSeed(b), s2, lay).0)
  {
  }

  /** A value and its pointer, written one after the other. */
  lemma PairMirrors(tr: Track, b: Buf, v: int, tmp: bool, s1: State, s2: State, lay: Layout)
    requires Mirrors(tr, lay, s1, s2)
    ensures var x, y := if tmp then StepTmp(b) else Index(b), if tmp then PointerTmp(b) else Pointer(b);
            var tr' := if tmp then tr.(tmp := tr.tmp + {b}) else tr.(idx := tr.idx + {b});
            Mirrors(tr', lay, Put(s1, x, v), Put(Put(s2, x, v), y, Base(lay, b) + Size(b) * v))
  {
  }

  lemma StepPair(tr: Track, b: Buf, n: nat, v: int, s1: State, s2: State, lay: Layout)
    requires b in tr.idx && Mirrors(tr, lay, s1, s2) && v == Get(s1.env, Index(b)) + n
    ensures ExecPrim(Step(b, n), s1, lay).0 == Put(s1, StepTmp(b), v)
    ensures ExecPrim(PtrStep(b, n), ExecPrim(Step(b, n), s2, lay).0, lay).0
         == Put(Put(s2, StepTmp(b), v), PointerTmp(b), Base(lay, b) + Size(b) * v)
  {
    assert Get(s1.env, Index(b)) == Get(s2.env, Index(b));
    assert Get(Put(s2, StepTmp(b), v).env, Pointer(b)) == Get(s2.env, Pointer(b));
  }

  lemma CommitPair(tr: Track, b: Buf, v: int, s1: State, s2: State, lay: Layout)
    requires b in tr.tmp && Mirrors(tr, lay, s1, s2) && v == Get(s1.env, StepTmp(b))
    ensures ExecPrim(Commit(b), s1, lay).0 == Put(s1, Index(b), v)
    ensures ExecPrim(PtrCommit(b), ExecPrim(Commit(b), s2, lay).0, lay).0
         == Put(Put(s2, Index(b), v), Pointer(b), Base(lay, b) + Size(b) * v)
  {
    assert Get(s1.env, StepTmp(b)) == Get(s2.env, StepTmp(b));
    assert Get(Put(s2, Index(b), v).env, PointerTmp(b)) == Get(s2.env, PointerTmp(b));
  }

  lemma StepMirrors(tr: Track, b: Buf, n: nat, s1: State, s2: State, lay: Layout)
    requires b in tr.idx && Mirrors(tr, lay, s1, s2)
    ensures Mirrors(tr.(tmp := tr.tmp + {b}), lay,
                    ExecPrim(Step(b, n), s1, lay).0, ExecPrim(PtrStep(b, n), ExecPrim(Step(b, n), s2, lay).0, lay).0)
  {
    var v := Get(s1.env, Index(b)) + n;
    PairMirrors(tr, b, v, true, s1, s2, lay);
    StepPair(tr, b, n, v, s1, s2, lay);
  }

  lemma CommitMirrors(tr: Track, b: Buf, s1: State, s2: State, lay: Layout)
    requires b in tr.tmp && Mirrors(tr, lay, s1, s2)
    ensures Mirrors(tr.(idx := tr.idx + {b}), lay,
                    ExecPrim(Commit(b), s1, lay).0, ExecPrim(PtrCommit(b), ExecPrim(Commit(b), s2, lay).0, lay).0)
  {
    var v := Get(s1.env, StepTmp(b));
    PairMirrors(tr, b, v, false, s1, s2, lay);
    CommitPair(tr, b, v, s1, s2, lay);
  }

  /** A site and its inserted line, run together, keep the mirror and extend it. */
  lemma SiteMirrors(
      fuel: nat, tr: Track, keep: Track, s: Stmt, inK: bool, s1: State, s2: State, lay: Layout)
    requires IsSite(Core(s)) && FlowsOne(tr, s, inK) && Mirrors(tr, lay, s1, s2)
    ensures RewriteOne(s, inK) == [s, Inserted(Core(s))]
    ensures RunsOn(fuel, s, s1, lay) && RunsOn(fuel, s, s2, lay)
    ensures Mirrors(After(tr, keep, s), lay, ExecOne(fuel, s, s1, lay).st,
                    ExecPrim(Inserted(Core(s)), ExecOne(fuel, s, s2, lay).st, lay).0)
  {
    match Core(s)
    case Seed(b, e) =>
      SeedAgrees(fuel, tr, s, inK, s1, s2, lay);
      PtrSeedMirrors(tr, b, ExecOne(fuel, s, s1, lay).st, ExecOne(fuel, s, s2, lay).st, lay);
    case Step(b, n) => StepMirrors(tr, b, n, s1, s2, lay);
    case Commit(b) => CommitMirrors(tr, b, s1, s2, lay);
  }

  // ---- simulation -------------------------------------------------------------

  /** The pointer program, started in a mirrored state, ends the same way in a
      mirrored state after loading the shadow of what the index program loads. */
  ghost predicate Follows(keep: Track, lay: Layout, r1: Outcome, r2: Outcome) {
    && r1.sig == r2.sig
    && r2.trace == Shadow(r1.trace)
    && Mirrors(keep, lay, r1.st, r2.st)
  }

  lemma ShadowAppends(a: seq<Event>, b: seq<Event>)
    ensures Shadow(a + b) == Shadow(a) + Shadow(b)
  {
  }

  lemma ExecSingle(fuel: nat, s: Stmt, rest: seq<Stmt>, st: State, lay: Layout)
    ensures var r := ExecOne(fuel, s, st, lay);
            Exec(fuel, [s] + rest, st, lay)
            == if r.sig != Next then r
               else var q := Exec(fuel, rest, r.st, lay); Outcome(q.st, r.trace + q.trace, q.sig)
  {
    assert ([s] + rest)[0] == s && ([s] + rest)[1..] == rest;
  }

  lemma AfterQuiet(fuel: nat, s: Stmt, rest: seq<Stmt>, st: State, lay: Layout)
    requires RunsOn(fuel, s, st, lay)
    ensures Exec(fuel, [s] + rest, st, lay) == Exec(fuel, rest, ExecOne(fuel, s, st, lay).st, lay)
  {
    ExecSingle(fuel, s, rest, st, lay);
  }

  lemma AfterBoth(fuel: nat, s: Stmt, ins: Stmt, rest: seq<Stmt>, st: State, lay: Layout)
    requires RunsOn(fuel, s, st, lay) && (ins.PtrSeed? || ins.PtrStep? || ins.PtrCommit?)
    ensures Exec(fuel, [s, ins] + rest, st, lay)
         == Exec(fuel, rest, ExecPrim(ins, ExecOne(fuel, s, st, lay).st, lay).0, lay)
  {
    assert [s, ins] + rest == [s] + ([ins] + rest);
    AfterQuiet(fuel, s, [ins] + rest, st, lay);
    AfterQuiet(fuel, ins, rest, ExecOne(fuel, s, st, lay).st, lay);
  }

  lemma {:induction false} Simulates(
      fuel: nat, ss: seq<Stmt>, tr: Track, keep: Track, inK: bool, s1: State, s2: State, lay: Layout)
    requires Flows(tr, keep, ss, inK) && Mirrors(tr, lay, s1, s2)
    ensures Follows(keep, lay, Exec(fuel, ss, s1, lay), Exec(fuel, Rewrite(ss, inK), s2, lay))
    decreases fuel, ss, 0
  {
    if ss != [] {
      var s, rest := ss[0], ss[1..];
      assert ss == [s] + rest;
      if IsSite(Core(s)) {
        SiteMirrors(fuel, tr, keep, s, inK, s1, s2, lay);
        var ins := Inserted(Core(s));
        assert Rewrite(ss, inK) == [s, ins] + Rewrite(rest, inK);
        AfterQuiet(fuel, s, rest, s1, lay);
        AfterBoth(fuel, s, ins, Rewrite(rest, inK), s2, lay);
        Simulates(fuel, rest, After(tr, keep, s), keep, inK,
                  ExecOne(fuel, s, s1, lay).st, ExecPrim(ins, ExecOne(fuel, s, s2, lay).st, lay).0, lay);
      } else {
        SimulatesOne(fuel, s, tr, keep, inK, s1, s2, lay);
        var w := RewriteOne(s, inK)[0];
        var r1, r2 := ExecOne(fuel, s, s1, lay), ExecOne(fuel, w, s2, lay);
        assert Rewrite(ss, inK) == [w] + Rewrite(rest, inK);
        ExecSingle(fuel, w, Rewrite(rest, inK), s2, lay);
        if r1.sig == Next {
          Simulates(fuel, rest, After(tr, keep, s), keep, inK, r1.st, r2.st, lay);
          ShadowAppends(r1.trace, Exec(fuel, rest, r1.st, lay).trace);
        }
      }
    }
  }

  lemma PlainFollows(fuel: nat, s: Stmt, tr: Track, inK: bool, s1: State, s2: State, lay: Layout)
    requires IsPlain(s) && FlowsOne(tr, s, inK) && Mirrors(tr, lay, s1, s2)
    ensures |RewriteOne(s, inK)| == 1
    ensures Follows(tr, lay, ExecOne(fuel, s, s1, lay), ExecOne(fuel, RewriteOne(s, inK)[0], s2, lay))
  {
    PlainMirrors(tr, s, inK, s1, s2, lay);
  }

  lemma GuardFollows(fuel: nat, c: Chain, line: Stmt, w: Stmt, tr: Track, s1: State, s2: State, lay: Layout)
    requires FreshChain(c) && Mirrors(tr, lay, s1, s2)
    requires Follows(tr, lay, ExecOne(fuel, line, s1, lay), ExecOne(fuel, w, s2, lay))
    ensures Follows(tr, lay, ExecOne(fuel, Guarded(c, line), s1, lay), ExecOne(fuel, Guarded(c, w), s2, lay))
  {
    ChainAgrees(c, s1, s2);
    GuardRuns(fuel, c, line, s1, lay);
    GuardRuns(fuel, c, w, s2, lay);
  }

  lemma GuardRuns(fuel: nat, c: Chain, line: Stmt, st: State, lay: Layout)
    ensures ExecOne(fuel, Guarded(c, line), st, lay)
         == if EvalChain(c, st.env) != 0 then ExecOne(fuel, line, st, lay) else Outcome(st, [], Next)
  {
  }

  lemma {:induction false} SimulatesOne(
      fuel: nat, s: Stmt, tr: Track, keep: Track, inK: bool, s1: State, s2: State, lay: Layout)
    requires Within(keep, tr) && FlowsOne(tr, s, inK) && !IsSite(Core(s)) && Mirrors(tr, lay, s1, s2)
    ensures |RewriteOne(s, inK)| == 1
    ensures Follows(tr, lay, ExecOne(fuel, s, s1, lay), ExecOne(fuel, RewriteOne(s, inK)[0], s2, lay))
    decreases fuel, s, 1
  {
    match s
    case If(c, thn, els) => SimulatesIf(fuel, s, tr, inK, s1, s2, lay);
    case Guarded(c, line) =>
      SimulatesOne(fuel, line, tr, keep, inK, s1, s2, lay);
      GuardFollows(fuel, c, line, RewriteOne(line, inK)[0], tr, s1, s2, lay);
    case Loop(body) => SimulatesLoop(fuel, body, tr, inK, s1, s2, lay);
    case KLoop(body) => SimulatesLoop(fuel, body, tr, true, s1, s2, lay);
    case Break =>
    case Continue =>
    case _ => PlainFollows(fuel, s, tr, inK, s1, s2, lay);
  }

  lemma {:induction false} SimulatesIf(
      fuel: nat, s: Stmt, tr: Track, inK: bool, s1: State, s2: State, lay: Layout)
    requires s.If? && FlowsOne(tr, s, inK) && Mirrors(tr, lay, s1, s2)
    ensures Follows(tr, lay, ExecOne(fuel, s, s1, lay),
                    ExecOne(fuel, If(s.c, Rewrite(s.thn, inK), Rewrite(s.els, inK)), s2, lay))
    decreases fuel, s, 0
  {
    ChainAgrees(s.c, s1, s2);
    if EvalChain(s.c, s1.env) != 0 {
      Simulates(fuel, s.thn, tr, tr, inK, s1, s2, lay);
    } else {
      Simulates(fuel, s.els, tr, tr, inK, s1, s2, lay);
    }
  }

  lemma {:induction false} SimulatesLoop(
      fuel: nat, body: seq<Stmt>, tr: Track, inK: bool, s1: State, s2: State, lay: Layout)
    requires Flows(tr, tr, body, inK) && Mirrors(tr, lay, s1, s2)
    ensures Follows(tr, lay, ExecLoop(fuel, body, s1, lay), ExecLoop(fuel, Rewrite(body, inK), s2, lay))
    decreases fuel, body, 1
  {
    if fuel != 0 {
      Simulates(fuel - 1, body, tr, tr, inK, s1, s2, lay);
      var r1 := Exec(fuel - 1, body, s1, lay);
      var r2 := Exec(fuel - 1, Rewrite(body, inK), s2, lay);
      if r1.sig == Next || r1.sig == Continued {
        SimulatesLoop(fuel - 1, body, tr, inK, r1.st, r2.st, lay);
        ShadowAppends(r1.trace, ExecLoop(fuel - 1, body, r1.st, lay).trace);
      }
    }
  }
}
