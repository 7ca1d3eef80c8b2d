/** Kernels of one small shape, and what the guards of the post-pass make of them. */
module MslExamples {
  import opened Wrappers
  import opened MslAddress
  import opened MslKernel
  import opened MslGuards

  /** What the examples differ in: whether the seed of B stands before the counted span,
      with a write of `v` in its place; a condition above the commit of A; the load. */
  datatype Shape = Shape(early: bool, m: nat, n: nat, v: nat, d: nat, guard: Option<string>, b: Buf, a: Addr)

  function Constant(n: nat): Chain { Chain(Lit(n), []) }
  function Name(x: string): Chain { Chain(Use(Named(x)), []) }

  function Pre(e: Shape): seq<Stmt> {
    if e.early then [Seed(B, Constant(e.m))] else []
  }

  function Mid(e: Shape): Stmt {
    if e.early then Set(Index(B), Constant(e.v)) else Seed(B, Constant(e.v))
  }

  function CommitOfA(e: Shape): Stmt {
    match e.guard
    case None => Commit(A)
    case Some(x) => Guarded(Name(x), Commit(A))
  }

  function Head(e: Shape): seq<Stmt> {
    Pre(e) + ([Seed(A, Constant(e.n))] + [Mid(e)])
  }

  function Early(e: Shape): seq<Stmt> {
    [Step(A, e.d)] + [CommitOfA(e)]
  }

  const LATE: seq<Stmt> := [Step(B, 1)] + [Commit(B)]

  function Body(e: Shape): seq<Stmt> {
    Early(e) + ([LoadIdx(e.b, e.a)] + (LATE + [Break]))
  }

  function Example(e: Shape): Kernel {
    Kernel([], Pre(e), Seed(A, Constant(e.n)), [Mid(e)], Body(e), [Break], [])
  }

  // ---- counts -----------------------------------------------------------------

  function BodyCount(e: Shape, p: Pattern): nat {
    Hit(p, Step(A, e.d)) + Hit(p, Commit(A))
    + (if e.guard.Some? then Hit(p, Guarded(Name(e.guard.value), Commit(A))) else 0) + Hit(p, LoadIdx(e.b, e.a))
    + Hit(p, Step(B, 1)) + Hit(p, Commit(B)) + Hit(p, Break)
  }

  function RegionCount(e: Shape, p: Pattern, body: seq<Stmt>): nat {
    Hit(p, Seed(A, Constant(e.n))) + Hit(p, Mid(e)) + Hit(p, KLoop(body)) + BodyCount(e, p)
  }

  function ProgramCount(e: Shape, p: Pattern, body: seq<Stmt>, tile: seq<Stmt>): nat {
    Hit(p, Loop(tile)) + (if e.early then Hit(p, Seed(B, Constant(e.m))) else 0) + RegionCount(e, p, body)
    + Hit(p, Break)
  }

  lemma CountsPair(s: Stmt, t: Stmt, p: Pattern)
    ensures Count([s] + [t], p) == CountOne(s, p) + CountOne(t, p)
  {
    CountAppends([s], [t], p);
    CountSingle(s, p);
    CountSingle(t, p);
  }

  lemma CommitCount(e: Shape, p: Pattern)
    ensures CountOne(CommitOfA(e), p)
         == Hit(p, Commit(A)) + if e.guard.Some? then Hit(p, Guarded(Name(e.guard.value), Commit(A))) else 0
  {
    match e.guard
    case None =>
    case Some(x) =>
      assert CountOne(Guarded(Name(x), Commit(A)), p) == Hit(p, Guarded(Name(x), Commit(A))) + CountOne(Commit(A), p);
  }

  lemma CountsBody(e: Shape, p: Pattern)
    ensures Count(Body(e), p) == BodyCount(e, p)
  {
    CountsPair(Step(A, e.d), CommitOfA(e), p);
    CommitCount(e, p);
    CountsPair(Step(B, 1), Commit(B), p);
    CountSingle(Break, p);
    CountSingle(LoadIdx(e.b, e.a), p);
    CountAppends(LATE, [Break], p);
    CountAppends([LoadIdx(e.b, e.a)], LATE + [Break], p);
    CountAppends(Early(e), [LoadIdx(e.b, e.a)] + (LATE + [Break]), p);
  }

  lemma CountsExample(e: Shape, p: Pattern)
    ensures Count(Example(e).kbody, p) == BodyCount(e, p)
    ensures Count(Region(Example(e)), p) == RegionCount(e, p, Body(e))
    ensures Count(Program(Example(e)), p) == ProgramCount(e, p, Body(e), TileBody(Example(e)))
  {
    var k := Example(e);
    CountsBody(e, p);
    CountRegion(k, p);
    CountProgram(k, p);
    CountSingle(Mid(e), p);
    CountSingle(Break, p);
    if e.early {
      CountSingle(Seed(B, Constant(e.m)), p);
    }
  }

  lemma TallySeeds(e: Shape, b: Buf, body: seq<Stmt>, tile: seq<Stmt>)
    ensures ProgramCount(e, TheSeed(b), body, tile) == 1
    ensures RegionCount(e, TheSeed(b), body) == if b == B && e.early then 0 else 1
  {
    assert b == A || b == B;
  }

  lemma TallySteps(e: Shape, b: Buf, body: seq<Stmt>, tile: seq<Stmt>)
    ensures ProgramCount(e, TheStep(b), body, tile) == 1 == RegionCount(e, TheStep(b), body)
  {
    assert b == A || b == B;
  }

  lemma TallyCommits(e: Shape, b: Buf, body: seq<Stmt>, tile: seq<Stmt>)
    ensures ProgramCount(e, TheCommit(b), body, tile) == 1 == RegionCount(e, TheCommit(b), body)
  {
    assert b == A || b == B;
  }

  lemma TallyWrites(e: Shape, b: Buf, body: seq<Stmt>)
    ensures RegionCount(e, Writes(Index(b)), body) == 2
    ensures RegionCount(e, Writes(StepTmp(b)), body) == 1
  {
    assert b == A || b == B;
  }

  lemma TallyLoads(e: Shape, body: seq<Stmt>, tile: seq<Stmt>)
    ensures BodyCount(e, OtherLoad()) == 0
    ensures BodyCount(e, IndexLoad()) == 1 == ProgramCount(e, IndexLoad(), body, tile)
    ensures ProgramCount(e, TheKLoop(), body, tile) == 1
    ensures WellTyped(e.a) ==> ProgramCount(e, IllTyped(), body, tile) == 0
    ensures Spliceable(e.b, e.a) ==> ProgramCount(e, Unspliceable(), body, tile) == 0
  {
  }

  lemma FreshConstant(n: nat)
    ensures FreshChain(Constant(n))
  {
    assert FreshTerms([]);
  }

  lemma FreshName(x: string)
    ensures FreshChain(Name(x))
  {
    assert FreshTerms([]);
  }

  lemma TallyFresh(e: Shape, body: seq<Stmt>, tile: seq<Stmt>)
    requires FreshAddr(e.a)
    ensures ProgramCount(e, Introduced(), body, tile) == 0
  {
    FreshConstant(e.n);
    FreshConstant(e.m);
    FreshConstant(e.v);
    if e.guard.Some? {
      FreshName(e.guard.value);
    }
  }

  /** Every count the guards take, and where the sites stand. */
  lemma ExampleSites(e: Shape, b: Buf)
    ensures var k := Example(e);
      && Count(Program(k), TheSeed(b)) == 1 && Count(Region(k), TheSeed(b)) == (if b == B && e.early then 0 else 1)
      && Count(Program(k), TheStep(b)) == 1 == Count(Region(k), TheStep(b))
      && Count(Program(k), TheCommit(b)) == 1 == Count(Region(k), TheCommit(b))
  {
    var body, tile := Body(e), TileBody(Example(e));
    CountsExample(e, TheSeed(b));
    CountsExample(e, TheStep(b));
    CountsExample(e, TheCommit(b));
    TallySeeds(e, b, body, tile);
    TallySteps(e, b, body, tile);
    TallyCommits(e, b, body, tile);
  }

  lemma ExampleWrites(e: Shape, b: Buf)
    ensures Count(Region(Example(e)), Writes(Index(b))) == 2
    ensures Count(Region(Example(e)), Writes(StepTmp(b))) == 1
  {
    CountsExample(e, Writes(Index(b)));
    CountsExample(e, Writes(StepTmp(b)));
    TallyWrites(e, b, Body(e));
  }

  lemma ExampleLoads(e: Shape)
    ensures var k := Example(e);
      && Count(k.kbody, OtherLoad()) == 0 && Count(k.kbody, IndexLoad()) == 1 && Count(Program(k), IndexLoad()) == 1
      && Count(Program(k), TheKLoop()) == 1
      && (WellTyped(e.a) ==> Count(Program(k), IllTyped()) == 0)
      && (Spliceable(e.b, e.a) ==> Count(Program(k), Unspliceable()) == 0)
  {
    CountsExample(e, OtherLoad());
    CountsExample(e, IndexLoad());
    CountsExample(e, TheKLoop());
    CountsExample(e, IllTyped());
    CountsExample(e, Unspliceable());
    TallyLoads(e, Body(e), TileBody(Example(e)));
  }

  lemma ExampleFresh(e: Shape)
    requires FreshAddr(e.a)
    ensures Count(Program(Example(e)), Introduced()) == 0
  {
    CountsExample(e, Introduced());
    TallyFresh(e, Body(e), TileBody(Example(e)));
  }

  /** The lines from the k-loop's header to the commit of A. */
  function Leading(e: Shape): seq<Stmt> {
    [KLoop(Body(e)), Step(A, e.d)]
    + (if e.guard.Some? then [Guarded(Name(e.guard.value), Commit(A))] else []) + [Commit(A)]
  }

  lemma CommitLines(e: Shape)
    ensures LinesOne(CommitOfA(e))
         == (if e.guard.Some? then [Guarded(Name(e.guard.value), Commit(A))] else []) + [Commit(A)]
  {
    match e.guard
    case None =>
    case Some(x) =>
      assert LinesOne(Guarded(Name(x), Commit(A))) == [Guarded(Name(x), Commit(A))] + LinesOne(Commit(A));
  }

  lemma EarlyLines(e: Shape)
    ensures [KLoop(Body(e))] + Lines(Early(e)) == Leading(e)
  {
    LinesAppend([Step(A, e.d)], [CommitOfA(e)]);
    LinesSingle(Step(A, e.d));
    LinesSingle(CommitOfA(e));
    CommitLines(e);
  }

  lemma KLoopLines(e: Shape) returns (rest: seq<Stmt>)
    ensures LinesOne(KLoop(Body(e))) == Leading(e) + rest
  {
    var tail := [LoadIdx(e.b, e.a)] + (LATE + [Break]);
    rest := Lines(tail);
    LinesAppend(Early(e), tail);
    EarlyLines(e);
    LinesOfKLoop(Body(e), Lines(Early(e)), rest);
  }

  lemma LinesOfKLoop(body: seq<Stmt>, a: seq<Stmt>, b: seq<Stmt>)
    requires Lines(body) == a + b
    ensures LinesOne(KLoop(body)) == [KLoop(body)] + a + b
  {
  }

  lemma ExampleProgram(e: Shape)
    ensures var k := Example(e);
      && Program(k) == [Loop(TileBody(k))]
      && TileBody(k) == k.pre + ([k.opening] + k.span) + [KLoop(k.kbody)] + k.post
  {
  }

  lemma ProgramLines(e: Shape) returns (front: seq<Stmt>, rest: seq<Stmt>)
    ensures Lines(Program(Example(e))) == front + Leading(e) + rest
  {
    var k := Example(e);
    var above := k.pre + ([k.opening] + k.span);
    var more := KLoopLines(e);
    LinesAppend(above + [KLoop(k.kbody)], k.post);
    LinesAppend(above, [KLoop(k.kbody)]);
    LinesSingle(KLoop(k.kbody));
    ExampleProgram(e);
    LinesSingle(Loop(TileBody(k)));
    front := [Loop(TileBody(k))] + Lines(above);
    rest := more + Lines(k.post);
  }

  lemma LeadingLocates(t: seq<Stmt>, front: seq<Stmt>, w: seq<Stmt>, rest: seq<Stmt>)
    requires t == front + w + rest && |w| >= 2 && w[0].KLoop? && w[|w| - 1] == Commit(A)
    requires forall m :: 0 < m < |w| ==> !IsHeader(w[m])
    ensures Located(t)
  {
    var i := |front|;
    var j := i + |w| - 1;
    assert t[i] == w[0] && t[j] == w[|w| - 1];
    forall m | i < m < j ensures !IsHeader(t[m]) {
      assert t[m] == w[m - i];
    }
  }

  lemma ExampleLocated(e: Shape)
    ensures Located(Lines(Program(Example(e))))
  {
    var front, rest := ProgramLines(e);
    var w := Leading(e);
    assert w[|w| - 1] == Commit(A) && forall m :: 0 < m < |w| ==> !IsHeader(w[m]);
    LeadingLocates(Lines(Program(Example(e))), front, Leading(e), rest);
  }

  /** Every guard accepts every example. */
  lemma ExampleAccepted(e: Shape)
    requires FreshAddr(e.a)
    ensures Accepts(Example(e))
  {
    ExampleFresh(e);
    ExampleLocated(e);
    ExampleLoads(e);
    forall b: Buf { ExampleSites(e, b); }
    forall b: Buf { ExampleWrites(e, b); }
  }

  lemma ExampleInSpanIff(e: Shape)
    ensures SitesInSpan(Example(e)) <==> !e.early
  {
    ExampleSites(e, B);
    forall b: Buf { ExampleSites(e, b); }
  }

  lemma ExampleCompiles(e: Shape)
    requires WellTyped(e.a)
    ensures Compiles(Example(e))
  {
    var k := Example(e);
    ExampleLoads(e);
    forall j: nat, b | j < |k.kbody| && k.kbody[j] == Commit(b) ensures HasStep(k.kbody[..j], b) {
      var above := k.kbody[..j];
      if j == 1 {
        assert above[0] == Step(A, e.d);
      } else {
        assert j == 4 && above[3] == Step(B, 1);
      }
    }
  }

  lemma NoSitesIn(s: Stmt)
    requires !s.If? && !s.Guarded? && !IsHeader(s) && !IsSite(s)
    ensures NoSites([s])
  {
    forall b: Buf
      ensures Count([s], TheSeed(b)) == 0 && Count([s], TheStep(b)) == 0 && Count([s], TheCommit(b)) == 0
    {
      CountSingle(s, TheSeed(b));
      CountSingle(s, TheStep(b));
      CountSingle(s, TheCommit(b));
    }
  }

  lemma BodyPlaced(e: Shape, s: Stmt)
    requires e.guard.None? && s in Body(e)
    ensures s.Step? || s.Commit? || NoSites([s])
  {
    if s == Break || s == LoadIdx(e.b, e.a) {
      NoSitesIn(s);
    }
  }

  lemma MidPlaced(e: Shape)
    ensures Core(Mid(e)).Seed? || NoSites([Mid(e)])
  {
    if e.early {
      NoSitesIn(Mid(e));
    }
  }

  lemma GuardedIsSite(x: string)
    ensures !NoSites([Guarded(Name(x), Commit(A))])
  {
    var s := Guarded(Name(x), Commit(A));
    CountSingle(s, TheCommit(A));
    assert CountOne(s, TheCommit(A)) == Hit(TheCommit(A), s) + CountOne(Commit(A), TheCommit(A));
  }

  lemma ExamplePlacedIff(e: Shape)
    ensures Placed(Example(e)) <==> e.guard.None?
  {
    MidPlaced(e);
    if e.guard.Some? {
      GuardedIsSite(e.guard.value);
      assert Body(e)[1] == CommitOfA(e);
      assert CommitOfA(e) in Example(e).kbody;
    } else {
      forall s | s in Body(e) ensures s.Step? || s.Commit? || NoSites([s]) {
        BodyPlaced(e, s);
      }
    }
  }
}
