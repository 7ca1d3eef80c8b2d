/** Kernels that every guard of the post-pass accepts although the rewritten program
    loads other addresses: why each condition stands in the meaning-preservation
    theorem. They run for one turn of each loop. */
module MslDivergence {
  import opened Wrappers
  import opened MslAddress
  import opened MslKernel
  import opened MslGuards
  import opened MslPointerWalk
  import opened MslExamples

  // ---- runs -------------------------------------------------------------------

  /** Statements that run on without loading. */
  predicate Quiet(s: Stmt) {
    || s.Seed? || s.Set? || s.Step? || s.Commit? || s.PtrSeed? || s.PtrStep? || s.PtrCommit?
    || (s.Guarded? && s.line.Commit?)
  }

  predicate AllQuiet(ss: seq<Stmt>) {
    forall s :: s in ss ==> Quiet(s)
  }

  function Effect(s: Stmt, st: State, lay: Layout): State {
    ExecOne(0, s, st, lay).st
  }

  function RunAll(ss: seq<Stmt>, st: State, lay: Layout): State {
    if ss == [] then st else RunAll(ss[1..], Effect(ss[0], st, lay), lay)
  }

  lemma QuietRunsOn(fuel: nat, s: Stmt, st: State, lay: Layout)
    requires Quiet(s)
    ensures RunsOn(fuel, s, st, lay) && ExecOne(fuel, s, st, lay).st == Effect(s, st, lay)
  {
  }

  lemma {:induction false} RunsAll(fuel: nat, ss: seq<Stmt>, rest: seq<Stmt>, st: State, lay: Layout)
    requires AllQuiet(ss)
    ensures Exec(fuel, ss + rest, st, lay) == Exec(fuel, rest, RunAll(ss, st, lay), lay)
    decreases |ss|
  {
    if ss == [] {
      assert ss + rest == rest;
    } else {
      assert ss + rest == [ss[0]] + (ss[1..] + rest);
      QuietRunsOn(fuel, ss[0], st, lay);
      AfterQuiet(fuel, ss[0], ss[1..] + rest, st, lay);
      RunsAll(fuel, ss[1..], rest, Effect(ss[0], st, lay), lay);
    }
  }

  lemma {:induction false} RunAllAppends(a: seq<Stmt>, b: seq<Stmt>, st: State, lay: Layout)
    ensures RunAll(a + b, st, lay) == RunAll(b, RunAll(a, st, lay), lay)
    decreases |a|
  {
    if a == [] {
      assert a + b == b;
    } else {
      assert (a + b)[0] == a[0] && (a + b)[1..] == a[1..] + b;
      RunAllAppends(a[1..], b, Effect(a[0], st, lay), lay);
    }
  }

  function KBody(early: seq<Stmt>, load: Stmt, late: seq<Stmt>): seq<Stmt> {
    early + ([load] + (late + [Break]))
  }

  function Tile(head: seq<Stmt>, body: seq<Stmt>): seq<Stmt> {
    head + ([KLoop(body)] + [Break])
  }

  lemma BodyRuns(early: seq<Stmt>, load: Stmt, late: seq<Stmt>, st: State, lay: Layout)
    requires AllQuiet(early) && AllQuiet(late) && (load.LoadIdx? || load.LoadPtr?)
    ensures var r := Exec(0, KBody(early, load, late), st, lay);
      r.trace == ExecPrim(load, RunAll(early, st, lay), lay).1 && r.sig == Broke
  {
    var at := RunAll(early, st, lay);
    RunsAll(0, early, [load] + (late + [Break]), st, lay);
    ExecSingle(0, load, late + [Break], at, lay);
    RunsAll(0, late, [Break], at, lay);
    BreakLeaves(0, RunAll(late, at, lay), lay);
  }

  lemma LoopOnce(fuel: nat, body: seq<Stmt>, st: State, lay: Layout)
    requires Exec(fuel, body, st, lay).sig == Broke
    ensures ExecLoop(fuel + 1, body, st, lay).trace == Exec(fuel, body, st, lay).trace
    ensures ExecLoop(fuel + 1, body, st, lay).sig == Next
  {
  }

  lemma TileRunsOnce(head: seq<Stmt>, early: seq<Stmt>, load: Stmt, late: seq<Stmt>, st: State, lay: Layout)
    requires AllQuiet(head) && AllQuiet(early) && AllQuiet(late) && (load.LoadIdx? || load.LoadPtr?)
    ensures var r := Exec(1, Tile(head, KBody(early, load, late)), st, lay);
      r.trace == ExecPrim(load, RunAll(early, RunAll(head, st, lay), lay), lay).1 && r.sig == Broke
  {
    var body, at := KBody(early, load, late), RunAll(head, st, lay);
    BodyRuns(early, load, late, at, lay);
    LoopOnce(0, body, at, lay);
    RunsAll(1, head, [KLoop(body)] + [Break], st, lay);
    ThenBreak(1, KLoop(body), at, lay);
  }

  lemma ThenBreak(fuel: nat, s: Stmt, st: State, lay: Layout)
    requires ExecOne(fuel, s, st, lay).sig == Next
    ensures Exec(fuel, [s] + [Break], st, lay).trace == ExecOne(fuel, s, st, lay).trace
    ensures Exec(fuel, [s] + [Break], st, lay).sig == Broke
  {
    ExecSingle(fuel, s, [Break], st, lay);
    BreakLeaves(fuel, ExecOne(fuel, s, st, lay).st, lay);
  }

  lemma BreakLeaves(fuel: nat, st: State, lay: Layout)
    ensures Exec(fuel, [Break], st, lay) == Outcome(st, [], Broke)
  {
  }

  /** One turn of the tile loop, one of the k-loop: one load. */
  lemma TileRuns(head: seq<Stmt>, early: seq<Stmt>, load: Stmt, late: seq<Stmt>, st: State, lay: Layout)
    requires AllQuiet(head) && AllQuiet(early) && AllQuiet(late) && (load.LoadIdx? || load.LoadPtr?)
    ensures Exec(2, [Loop(Tile(head, KBody(early, load, late)))], st, lay).trace
         == ExecPrim(load, RunAll(early, RunAll(head, st, lay), lay), lay).1
  {
    TileRunsOnce(head, early, load, late, st, lay);
    LoopOnce(1, Tile(head, KBody(early, load, late)), st, lay);
  }

  lemma RewriteOneQuiet(s: Stmt, inK: bool)
    requires Quiet(s)
    ensures RewriteOne(s, inK) == if IsSite(Core(s)) then [s, Inserted(Core(s))] else [s]
    ensures AllQuiet(RewriteOne(s, inK))
  {
  }

  lemma {:induction false} RewriteQuiet(ss: seq<Stmt>, inK: bool)
    requires AllQuiet(ss)
    ensures AllQuiet(Rewrite(ss, inK))
    decreases |ss|
  {
    if ss != [] {
      RewriteOneQuiet(ss[0], inK);
      RewriteQuiet(ss[1..], inK);
    }
  }

  lemma RewriteTile(head: seq<Stmt>, early: seq<Stmt>, b: Buf, a: Addr, late: seq<Stmt>)
    ensures Rewrite([Loop(Tile(head, KBody(early, LoadIdx(b, a), late)))], false)
         == [Loop(Tile(Rewrite(head, false), KBody(Rewrite(early, true), LoadPtr(b, a), Rewrite(late, true))))]
  {
    var load := LoadIdx(b, a);
    var body := KBody(early, load, late);
    RewriteSingle(Break, true);
    RewriteSingle(Break, false);
    RewriteSingle(load, true);
    RewriteAppends(late, [Break], true);
    RewriteAppends([load], late + [Break], true);
    RewriteAppends(early, [load] + (late + [Break]), true);
    RewriteSingle(KLoop(body), false);
    RewriteAppends([KLoop(body)], [Break], false);
    RewriteAppends(head, [KLoop(body)] + [Break], false);
    RewriteSingle(Loop(Tile(head, body)), false);
  }

  // ---- where the examples stand at their load -----------------------------------

  /** Both programs, side by side, over lines that load nothing. */
  function Sides(ss: seq<Stmt>, inK: bool, p: (State, State), lay: Layout): (State, State) {
    (RunAll(ss, p.0, lay), RunAll(Rewrite(ss, inK), p.1, lay))
  }

  lemma SidesAppend(a: seq<Stmt>, b: seq<Stmt>, inK: bool, p: (State, State), lay: Layout)
    ensures Sides(a + b, inK, p, lay) == Sides(b, inK, Sides(a, inK, p, lay), lay)
  {
    RunAllAppends(a, b, p.0, lay);
    RewriteAppends(a, b, inK);
    RunAllAppends(Rewrite(a, inK), Rewrite(b, inK), p.1, lay);
  }

  lemma RunOne(s: Stmt, st: State, lay: Layout)
    ensures RunAll([s], st, lay) == Effect(s, st, lay)
  {
    assert [s][1..] == [];
  }

  lemma RunTwo(s: Stmt, t: Stmt, st: State, lay: Layout)
    ensures RunAll([s, t], st, lay) == Effect(t, Effect(s, st, lay), lay)
  {
    assert [s, t] == [s] + [t];
    RunAllAppends([s], [t], st, lay);
    RunOne(s, st, lay);
    RunOne(t, Effect(s, st, lay), lay);
  }

  /** A site with its pointer line, or a line that gets none. */
  lemma SidesOne(s: Stmt, inK: bool, p: (State, State), lay: Layout)
    requires Quiet(s)
    ensures var q := Effect(s, p.1, lay);
      Sides([s], inK, p, lay)
      == (Effect(s, p.0, lay), if IsSite(Core(s)) then Effect(Inserted(Core(s)), q, lay) else q)
  {
    RewriteSingle(s, inK);
    RewriteOneQuiet(s, inK);
    RunOne(s, p.0, lay);
    if IsSite(Core(s)) {
      RunTwo(s, Inserted(Core(s)), p.1, lay);
    } else {
      RunOne(s, p.1, lay);
    }
  }

  lemma ConstantValue(n: nat, env: Env)
    ensures EvalChain(Constant(n), env) == n
  {
    assert Values([], env) == [];
  }

  lemma NameValue(x: string, env: Env)
    ensures EvalChain(Name(x), env) == Get(env, Named(x))
  {
    assert Values([], env) == [];
  }

  /** The two sides know what operators compute and the names of the source alike. */
  ghost predicate Alike(p: (State, State), st: State) {
    && p.0.env.binary == st.env.binary
    && forall x: string :: Get(p.0.env, Named(x)) == Get(st.env, Named(x)) == Get(p.1.env, Named(x))
  }

  lemma SeedSides(b: Buf, n: nat, inK: bool, p: (State, State), st: State, lay: Layout)
    requires Alike(p, st)
    ensures var q := Sides([Seed(b, Constant(n))], inK, p, lay);
      && Alike(q, st) && Get(q.0.env, Index(b)) == n == Get(q.1.env, Index(b))
      && Get(q.1.env, Pointer(b)) == Base(lay, b) + Size(b) * n
      && (forall c :: c != b ==>
            Get(q.0.env, Index(c)) == Get(p.0.env, Index(c)) && Get(q.1.env, Pointer(c)) == Get(p.1.env, Pointer(c)))
  {
    SidesOne(Seed(b, Constant(n)), inK, p, lay);
    ConstantValue(n, p.0.env);
    ConstantValue(n, p.1.env);
  }

  lemma SetSides(v: nat, inK: bool, p: (State, State), st: State, lay: Layout)
    requires Alike(p, st)
    ensures var q := Sides([Set(Index(B), Constant(v))], inK, p, lay);
      && Alike(q, st) && Get(q.0.env, Index(B)) == v
      && Get(q.0.env, Index(A)) == Get(p.0.env, Index(A)) && Get(q.1.env, Index(A)) == Get(p.1.env, Index(A))
      && (forall b :: Get(q.1.env, Pointer(b)) == Get(p.1.env, Pointer(b)))
  {
    SidesOne(Set(Index(B), Constant(v)), inK, p, lay);
    ConstantValue(v, p.0.env);
    ConstantValue(v, p.1.env);
  }

  lemma StepSides(d: nat, p: (State, State), st: State, lay: Layout)
    requires Alike(p, st)
    ensures var q := Sides([Step(A, d)], true, p, lay);
      && Alike(q, st)
      && (forall b ::
            Get(q.0.env, Index(b)) == Get(p.0.env, Index(b)) && Get(q.1.env, Pointer(b)) == Get(p.1.env, Pointer(b)))
      && Get(q.0.env, StepTmp(A)) == Get(p.0.env, Index(A)) + d
      && Get(q.1.env, PointerTmp(A)) == Get(p.1.env, Pointer(A)) + 2 * d
  {
    SidesOne(Step(A, d), true, p, lay);
  }

  /** The pointer goes on whatever the condition says. */
  lemma CommitSides(e: Shape, p: (State, State), st: State, lay: Layout)
    requires Alike(p, st)
    ensures var q := Sides([CommitOfA(e)], true, p, lay);
      && q.0.env.binary == st.env.binary
      && Get(q.0.env, Index(B)) == Get(p.0.env, Index(B)) && Get(q.1.env, Pointer(B)) == Get(p.1.env, Pointer(B))
      && Get(q.0.env, Index(A)) == Get(p.0.env, if Commits(e, st) then StepTmp(A) else Index(A))
      && Get(q.1.env, Pointer(A)) == Get(p.1.env, PointerTmp(A))
  {
    SidesOne(CommitOfA(e), true, p, lay);
    CommitEffect(e, p.0, lay);
    CommitEffect(e, p.1, lay);
    assert Core(CommitOfA(e)) == Commit(A);
  }

  lemma CommitEffect(e: Shape, q: State, lay: Layout)
    ensures Effect(CommitOfA(e), q, lay)
         == if Commits(e, q) then Put(q, Index(A), Get(q.env, StepTmp(A))) else q
  {
    match e.guard
    case None =>
    case Some(x) =>
      NameValue(x, q.env);
      assert ExecOne(0, Commit(A), q, lay).st == Put(q, Index(A), Get(q.env, StepTmp(A)));
  }

  lemma EarlySides(e: Shape, p: (State, State), st: State, lay: Layout)
    requires Alike(p, st)
    ensures var q := Sides(Early(e), true, p, lay);
      && q.0.env.binary == st.env.binary
      && Get(q.0.env, Index(B)) == Get(p.0.env, Index(B)) && Get(q.1.env, Pointer(B)) == Get(p.1.env, Pointer(B))
      && Get(q.0.env, Index(A)) == Get(p.0.env, Index(A)) + Moved(e, st)
      && Get(q.1.env, Pointer(A)) == Get(p.1.env, Pointer(A)) + 2 * e.d
  {
    SidesAppend([Step(A, e.d)], [CommitOfA(e)], true, p, lay);
    StepSides(e.d, p, st, lay);
    CommitSides(e, Sides([Step(A, e.d)], true, p, lay), st, lay);
  }

  predicate Commits(e: Shape, st: State) {
    e.guard.Some? ==> Get(st.env, Named(e.guard.value)) != 0
  }

  /** By how much the commit of A moves the index. */
  function Moved(e: Shape, st: State): nat {
    if Commits(e, st) then e.d else 0
  }

  lemma HeadSides(e: Shape, st: State, lay: Layout)
    ensures var q := Sides(Head(e), false, (st, st), lay);
      && Alike(q, st)
      && Get(q.0.env, Index(A)) == e.n && Get(q.1.env, Pointer(A)) == lay.sa + 2 * e.n
      && Get(q.0.env, Index(B)) == e.v && Get(q.1.env, Pointer(B)) == lay.sb + 4 * (if e.early then e.m else e.v)
  {
    var seed, mid := Seed(A, Constant(e.n)), Mid(e);
    SidesAppend(Pre(e), [seed] + [mid], false, (st, st), lay);
    var p := Sides(Pre(e), false, (st, st), lay);
    if e.early {
      SeedSides(B, e.m, false, (st, st), st, lay);
    }
    SidesAppend([seed], [mid], false, p, lay);
    SeedSides(A, e.n, false, p, st, lay);
    var q := Sides([seed], false, p, lay);
    if e.early {
      SetSides(e.v, false, q, st, lay);
    } else {
      SeedSides(B, e.v, false, q, st, lay);
    }
  }

  /** The states in which source and rewritten example load. */
  function AtLoad(e: Shape, st: State, lay: Layout): (State, State) {
    Sides(Early(e), true, Sides(Head(e), false, (st, st), lay), lay)
  }

  lemma AtLoadValues(e: Shape, st: State, lay: Layout)
    ensures var q := AtLoad(e, st, lay);
      && q.0.env.binary == st.env.binary
      && Get(q.0.env, Index(A)) == e.n + Moved(e, st) && Get(q.1.env, Pointer(A)) == lay.sa + 2 * (e.n + e.d)
      && Get(q.0.env, Index(B)) == e.v && Get(q.1.env, Pointer(B)) == lay.sb + 4 * (if e.early then e.m else e.v)
  {
    HeadSides(e, st, lay);
    EarlySides(e, Sides(Head(e), false, (st, st), lay), st, lay);
  }

  lemma ExampleIsTile(e: Shape)
    ensures Program(Example(e)) == [Loop(Tile(Head(e), KBody(Early(e), LoadIdx(e.b, e.a), LATE)))]
  {
    var k := Example(e);
    assert k.kbody == KBody(Early(e), LoadIdx(e.b, e.a), LATE);
    assert TileBody(k) == Tile(Head(e), k.kbody);
    assert Program(k) == [Loop(TileBody(k))];
  }

  lemma SourceRuns(e: Shape, st: State, lay: Layout)
    ensures Source(Example(e), 2, st, lay).trace == [IndexEvent(e.b, e.a, AtLoad(e, st, lay).0, lay)]
  {
    ExampleIsTile(e);
    TileRuns(Head(e), Early(e), LoadIdx(e.b, e.a), LATE, st, lay);
  }

  lemma RewrittenRuns(e: Shape, st: State, lay: Layout)
    ensures var at := AtLoad(e, st, lay).1;
      Rewritten(Example(e), 2, st, lay).trace
      == [Event(Some(e.b), PointerAddress(e.b, Get(at.env, Pointer(e.b)), e.a, at.env), 0, true)]
  {
    ExampleIsTile(e);
    RewriteTile(Head(e), Early(e), e.b, e.a, LATE);
    RewriteQuiet(Head(e), false);
    RewriteQuiet(Early(e), true);
    RewriteQuiet(LATE, true);
    TileRuns(Rewrite(Head(e), false), Rewrite(Early(e), true), LoadPtr(e.b, e.a), Rewrite(LATE, true), st, lay);
  }

  /** Source and rewritten example load the same. */
  predicate SameLoads(e: Shape, st: State, lay: Layout) {
    Addresses(Rewritten(Example(e), 2, st, lay).trace) == Addresses(Source(Example(e), 2, st, lay).trace)
  }

  lemma SameLoadsHere(e: Shape, st: State, lay: Layout)
    ensures var q := AtLoad(e, st, lay);
      SameLoads(e, st, lay)
      <==> IndexAddress(e.b, Base(lay, e.b), Get(q.0.env, Index(e.b)), e.a, q.0.env)
           == PointerAddress(e.b, Get(q.1.env, Pointer(e.b)), e.a, q.1.env)
  {
    SourceRuns(e, st, lay);
    RewrittenRuns(e, st, lay);
    var s, w := Source(Example(e), 2, st, lay).trace, Rewritten(Example(e), 2, st, lay).trace;
    assert Addresses(s)[0] == (s[0].buf, s[0].addr) && Addresses(w)[0] == (w[0].buf, w[0].addr);
  }

  const PLAIN: Addr := Addr(None, None, None, [])

  lemma PlainAddresses(b: Buf, base: int, l: int, p: int, e1: Env, e2: Env)
    ensures IndexAddress(b, base, l, PLAIN, e1) == base + Size(b) * l && PointerAddress(b, p, PLAIN, e2) == p
  {
    assert Values(PLAIN.suffix, e1) == [] == Values(PLAIN.suffix, e2);
    var none: seq<Num> := [];
    MovesFirst(l, none, e1);
    assert none + none == none && none[..0] == none;
  }

  lemma PlainSameLoads(e: Shape, st: State, lay: Layout)
    requires e.a == PLAIN
    ensures var q := AtLoad(e, st, lay);
      SameLoads(e, st, lay)
      <==> Base(lay, e.b) + Size(e.b) * Get(q.0.env, Index(e.b)) == Get(q.1.env, Pointer(e.b))
  {
    var q := AtLoad(e, st, lay);
    SameLoadsHere(e, st, lay);
    PlainAddresses(e.b, Base(lay, e.b), Get(q.0.env, Index(e.b)), Get(q.1.env, Pointer(e.b)), q.0.env, q.1.env);
  }

  lemma PlainIsPlain(b: Buf)
    ensures FreshAddr(PLAIN) && WellTyped(PLAIN) && Spliceable(b, PLAIN)
  {
    assert FreshTerms([]);
  }

  // ---- outside the counted span --------------------------------------------------

  /** The seed of B stands before the counted span; a second write to its index takes
      the place that the count reserves for it. */
  function StraySeed(m: nat, n: nat, v: nat, d: nat): Shape {
    Shape(true, m, n, v, d, None, B, PLAIN)
  }

  lemma StrayAccepted(m: nat, n: nat, v: nat, d: nat)
    ensures var k := Example(StraySeed(m, n, v, d));
      Accepts(k) && Compiles(k) && Placed(k) && !SitesInSpan(k) && Count(Program(k), Unspliceable()) == 0
  {
    var e := StraySeed(m, n, v, d);
    PlainIsPlain(B);
    ExampleAccepted(e);
    ExampleCompiles(e);
    ExamplePlacedIff(e);
    ExampleInSpanIff(e);
    ExampleLoads(e);
  }

  /** The rewritten program loads elsewhere unless the stray write repeats the seed. */
  lemma StraySeedDiverges(m: nat, n: nat, v: nat, d: nat, st: State, lay: Layout)
    ensures SameLoads(StraySeed(m, n, v, d), st, lay) <==> v == m
  {
    var e := StraySeed(m, n, v, d);
    PlainSameLoads(e, st, lay);
    AtLoadValues(e, st, lay);
  }

  // ---- below a condition ------------------------------------------------------------

  /** The commit of A stands below `if(x)` without braces. */
  function Conditional(x: string, n: nat, v: nat, d: nat): Shape {
    Shape(false, 0, n, v, d, Some(x), A, PLAIN)
  }

  lemma ConditionalAccepted(x: string, n: nat, v: nat, d: nat)
    ensures var k := Example(Conditional(x, n, v, d));
      Accepts(k) && Compiles(k) && !Placed(k) && SitesInSpan(k) && Count(Program(k), Unspliceable()) == 0
  {
    var e := Conditional(x, n, v, d);
    PlainIsPlain(A);
    ExampleAccepted(e);
    ExampleCompiles(e);
    ExamplePlacedIff(e);
    ExampleInSpanIff(e);
    ExampleLoads(e);
  }

  /** The rewritten program loads elsewhere unless the condition holds or the step is 0. */
  lemma ConditionalDiverges(x: string, n: nat, v: nat, d: nat, st: State, lay: Layout)
    ensures SameLoads(Conditional(x, n, v, d), st, lay) <==> Get(st.env, Named(x)) != 0 || d == 0
  {
    var e := Conditional(x, n, v, d);
    PlainSameLoads(e, st, lay);
    AtLoadValues(e, st, lay);
  }

  // ---- loads that do not take the pointer ----------------------------------------------

  function LooseLoad(n: nat, v: nat, d: nat, a: Addr): Shape {
    Shape(false, 0, n, v, d, None, A, a)
  }

  lemma LooseLoadAccepted(n: nat, v: nat, d: nat, a: Addr)
    requires WellTyped(a) && FreshAddr(a)
    ensures var k := Example(LooseLoad(n, v, d, a)); Accepts(k) && Compiles(k) && Placed(k) && SitesInSpan(k)
  {
    var e := LooseLoad(n, v, d, a);
    ExampleAccepted(e);
    ExampleCompiles(e);
    ExamplePlacedIff(e);
    ExampleInSpanIff(e);
  }

  lemma SkewIff(e: Shape, st: State, lay: Layout) returns (env: Env)
    requires var k := Example(e); Accepts(k) && Compiles(k) && Placed(k) && SitesInSpan(k)
    ensures env.binary == st.env.binary
    ensures SameLoads(e, st, lay) <==> Skew(e.b, if e.b == A then e.n + Moved(e, st) else e.v, e.a, env) == 0
  {
    env := OneSkew(e, st, lay);
    OneLoadIff(Example(e), st, lay);
  }

  lemma OneLoadIff(k: Kernel, st: State, lay: Layout)
    requires Accepts(k) && Compiles(k) && Placed(k) && SitesInSpan(k)
    requires |Source(k, 2, st, lay).trace| == 1
    ensures Addresses(Rewritten(k, 2, st, lay).trace) == Addresses(Source(k, 2, st, lay).trace)
       <==> Source(k, 2, st, lay).trace[0].skew == 0
  {
    SameLoadsIff(k, 2, st, lay);
  }

  lemma OneSkew(e: Shape, st: State, lay: Layout) returns (env: Env)
    ensures env.binary == st.env.binary
    ensures var t := Source(Example(e), 2, st, lay).trace;
      |t| == 1 && t[0].skew == Skew(e.b, if e.b == A then e.n + Moved(e, st) else e.v, e.a, env)
  {
    env := AtLoad(e, st, lay).0.env;
    SourceRuns(e, st, lay);
    AtLoadValues(e, st, lay);
  }

  /** Whatever the load's text: the programs load the same exactly when it has no skew
      at the index it is run with. */
  lemma LooseLoadIff(n: nat, v: nat, d: nat, a: Addr, st: State, lay: Layout) returns (env: Env)
    requires WellTyped(a) && FreshAddr(a)
    ensures env.binary == st.env.binary
    ensures SameLoads(LooseLoad(n, v, d, a), st, lay) <==> Skew(A, n + d, a, env) == 0
  {
    var e := LooseLoad(n, v, d, a);
    LooseLoadAccepted(n, v, d, a);
    env := SkewIff(e, st, lay);
  }

  function Pow2(n: nat): (r: nat)
    ensures r >= 1
  {
    if n == 0 then 1 else 2 * Pow2(n - 1)
  }

  /** Some of the operators compute what they do on integers that do not wrap: products,
      shifts, and the remainder that masking with a row of ones leaves. */
  ghost predicate Integers(env: Env) {
    && (forall x: int, mid: int, y: int :: env.binary(Mul, x, mid, y) == x * y)
    && (forall x: int, mid: int, k: nat :: env.binary(Shl, x, mid, k) == x * Pow2(k))
    && (forall x: nat, mid: int, y: int, k: nat :: y == Pow2(k) - 1 ==> env.binary(And, x, mid, y) == x % Pow2(k))
  }

  /** `(lsma_0 + h op y)`, `(lsma_0 + h) op y`, and `(T*)&(...) + (lsma_0 + h)`. */
  function Inside(h: nat, op: Op, y: nat): Addr { Addr(None, None, Some(Chain(Lit(h), [Term(op, Lit(y))])), []) }
  function Outside(h: nat, op: Op, y: nat): Addr { Addr(None, None, Some(Constant(h)), [Term(op, Lit(y))]) }
  function CastTo(size: nat, h: nat): Addr { Addr(None, Some(size), Some(Constant(h)), []) }

  lemma OneTerm(op: Op, y: nat, env: Env)
    requires !op.Choice?
    ensures Values([Term(op, Lit(y))], env) == [Num(op, 0, y)]
    ensures FreshTerms([Term(op, Lit(y))])
  {
    var t := [Term(op, Lit(y))];
    assert t[1..] == [] && FreshTerms([]);
    assert Values(t[1..], env) == [] && EvalTerm(t[0], env) == Num(op, 0, y);
    assert Values(t, env) == [EvalTerm(t[0], env)] + Values(t[1..], env);
  }

  lemma InsideSkew(l: nat, h: nat, op: Op, y: nat, env: Env)
    requires Level(op) > SUM && !op.Choice?
    ensures var a := Inside(h, op, y);
      && WellTyped(a) && FreshAddr(a)
      && Skew(A, l, a, env) == 2 * (env.binary(op, Word(l + h), 0, y) - env.binary(op, h, 0, y)) - 2 * l
  {
    var a, t := Inside(h, op, y), [Num(op, 0, y)];
    OneTerm(op, y, env);
    assert FreshTerms([]) && Values([], env) == [];
    EvalHere(h, t, 0, env);
    assert t[..0] == [] && t[1..] == [];
    EvalBehind(l, [], Plus(h), t, 0, env);
    PrefixAdds(l, h, [], env);
    assert Products([]) == 0;
  }

  lemma OutsideSkew(l: nat, h: nat, op: Op, y: nat, env: Env)
    requires Level(op) == PRODUCT
    ensures var a := Outside(h, op, y);
      && WellTyped(a) && FreshAddr(a)
      && Skew(A, l, a, env) == 2 * (env.binary(op, Word(l + h), 0, y) - env.binary(op, h, 0, y)) - 2 * l
  {
    var a, s := Outside(h, op, y), [Num(op, 0, y)];
    OneTerm(op, y, env);
    ConstantValue(h, env);
    assert FreshTerms([]) && Values([], env) == [];
    PrefixAdds(l, h, [], env);
    assert s[1..] == [] && Products(s) == 1 && s[..1] == s && s[..0] == [];
    EvalHere(Word(l + h), s, 0, env);
    EvalHere(h, s, 0, env);
  }

  lemma CastSkew(l: nat, size: nat, h: nat, env: Env)
    requires size >= 1
    ensures var a := CastTo(size, h);
      WellTyped(a) && FreshAddr(a) && Skew(A, l, a, env) == size * (Word(l + h) - h) - 2 * l
  {
    var a := CastTo(size, h);
    ConstantValue(h, env);
    assert FreshTerms([]) && Values([], env) == [];
    PrefixAdds(l, h, [], env);
    var none: seq<Num> := [];
    assert Products(none) == 0 && none[..0] == none;
  }

  /** A load with one operator that binds looser than `+` in the parenthesis, or tighter
      behind it, loads the same exactly when the operator passes the index on; one with
      a cast, exactly when the cast keeps the size of an element or the index is 0. */
  lemma InsideIff(n: nat, v: nat, d: nat, h: nat, op: Op, y: nat, st: State, lay: Layout)
    requires Level(op) > SUM && !op.Choice?
    ensures SameLoads(LooseLoad(n, v, d, Inside(h, op, y)), st, lay)
       <==> st.env.binary(op, Word(n + d + h), 0, y) - st.env.binary(op, h, 0, y) == n + d
  {
    InsideSkew(n + d, h, op, y, st.env);
    var env := LooseLoadIff(n, v, d, Inside(h, op, y), st, lay);
    InsideSkew(n + d, h, op, y, env);
  }

  lemma OutsideIff(n: nat, v: nat, d: nat, h: nat, op: Op, y: nat, st: State, lay: Layout)
    requires Level(op) == PRODUCT
    ensures SameLoads(LooseLoad(n, v, d, Outside(h, op, y)), st, lay)
       <==> st.env.binary(op, Word(n + d + h), 0, y) - st.env.binary(op, h, 0, y) == n + d
  {
    OutsideSkew(n + d, h, op, y, st.env);
    var env := LooseLoadIff(n, v, d, Outside(h, op, y), st, lay);
    OutsideSkew(n + d, h, op, y, env);
  }

  lemma CastIff(n: nat, v: nat, d: nat, size: nat, h: nat, st: State, lay: Layout)
    requires size >= 1 && n + d + h < WORD
    ensures SameLoads(LooseLoad(n, v, d, CastTo(size, h)), st, lay) <==> size == 2 || n + d == 0
  {
    CastSkew(n + d, size, h, st.env);
    var env := LooseLoadIff(n, v, d, CastTo(size, h), st, lay);
    CastSkew(n + d, size, h, env);
    WordIff(n + d + h);
    Cancel(size, n + d);
  }

  /** An offset that is below zero by itself wraps in the rewritten kernel, however well
      it goes with the index: `lsma_0 + 4U - 8U` from index 4 on. */
  lemma BelowZeroDiverges(n: nat, v: nat, d: nat, h: nat, y: nat, st: State, lay: Layout)
    requires h < y < WORD
    ensures Spliceable(A, Inside(h, Sub, y))
    ensures SameLoads(LooseLoad(n, v, d, Inside(h, Sub, y)), st, lay) <==> n + d < y - h
  {
    var a := Inside(h, Sub, y);
    OneTerm(Sub, y, st.env);
    assert FreshTerms([]);
    var env := LooseLoadIff(n, v, d, a, st, lay);
    SpliceableSkewsIff(A, n + d, a, env);
    OneTerm(Sub, y, env);
    var t := [Num(Sub, 0, y)];
    EvalHere(h, t, 0, env);
    assert t[..0] == [] && t[1..] == [];
    BelowZero(h, y);
  }

  lemma BelowZero(h: nat, y: nat)
    requires h < y < WORD
    ensures Word(h - y) == WORD - (y - h)
  {
  }

  lemma Cancel(size: nat, l: nat)
    ensures size * l == 2 * l <==> size == 2 || l == 0
  {
    if size > 2 && l > 0 {
      assert size * l >= 3 * l;
    }
  }

  lemma Masked(env: Env, x: nat)
    requires Integers(env)
    ensures env.binary(And, x, 0, 127) == x % 128
  {
    assert Pow2(3) == 8 && Pow2(5) == 32;
    assert Pow2(7) == 128;
  }

  lemma MaskedGrowth(i: nat)
    ensures (i + 64) % 128 - 64 % 128 == i <==> i < 64
  {
  }

  /** Three of them: `lsma_0 + 64U & 127U`, `lsma_0 + 64U << 1U`, `(lsma_0 + 64U) * 2U`. */
  lemma LooseLoadsDiverge(n: nat, v: nat, d: nat, st: State, lay: Layout)
    requires Integers(st.env) && n + d + 64 < WORD
    ensures SameLoads(LooseLoad(n, v, d, Inside(64, And, 127)), st, lay) <==> n + d < 64
    ensures SameLoads(LooseLoad(n, v, d, Inside(64, Shl, 1)), st, lay) <==> n + d == 0
    ensures SameLoads(LooseLoad(n, v, d, Outside(64, Mul, 2)), st, lay) <==> n + d == 0
  {
    WordIff(n + d + 64);
    InsideIff(n, v, d, 64, And, 127, st, lay);
    Masked(st.env, n + d + 64);
    Masked(st.env, 64);
    MaskedGrowth(n + d);
    InsideIff(n, v, d, 64, Shl, 1, st, lay);
    assert Pow2(1) == 2;
    OutsideIff(n, v, d, 64, Mul, 2, st, lay);
  }
}
