/** The guards of the MSL post-pass on kernels of the `gemm_q8_0` shape, what they
    prove about the pointer walk, and the accepted kernels they let through. */
module MslGuards {
  import opened MslAddress
  import opened MslKernel

  /** A tile loop around a k-loop. `opening` holds the seed of A, which opens the span
      that the write counts cover. */
  datatype Kernel = Kernel(
    before: seq<Stmt>, pre: seq<Stmt>, opening: Stmt, span: seq<Stmt>,
    kbody: seq<Stmt>, post: seq<Stmt>, after: seq<Stmt>)

  /** From the seed of A to the end of the k-loop. */
  function Region(k: Kernel): seq<Stmt> {
    [k.opening] + k.span + [KLoop(k.kbody)]
  }

  function TileBody(k: Kernel): seq<Stmt> {
    k.pre + Region(k) + k.post
  }

  function Program(k: Kernel): seq<Stmt> {
    k.before + [Loop(TileBody(k))] + k.after
  }

  // ---- occurrence counts ------------------------------------------------------

  type Pattern = Stmt -> bool

  /** A write to `x` that is no seed, step or commit. */
  function Stray(x: Var): Pattern { (s: Stmt) => (s.Set? || s.Read?) && s.x == x }

  /** Any write to `x`. */
  function Writes(x: Var): Pattern {
    (s: Stmt) =>
      || ((s.Set? || s.Read?) && s.x == x)
      || ((s.Seed? || s.Commit?) && x == Index(s.buf))
      || (s.Step? && x == StepTmp(s.buf))
  }

  function Moves(b: Buf): Pattern { (s: Stmt) => (s.Seed? || s.Commit?) && s.buf == b }
  function TheSeed(b: Buf): Pattern { (s: Stmt) => s.Seed? && s.buf == b }
  function TheStep(b: Buf): Pattern { (s: Stmt) => s.Step? && s.buf == b }
  function TheCommit(b: Buf): Pattern { (s: Stmt) => s.Commit? && s.buf == b }
  function IndexLoad(): Pattern { (s: Stmt) => s.LoadIdx? }
  function OtherLoad(): Pattern { (s: Stmt) => s.LoadOther? || s.LoadPtr? }
  function TheKLoop(): Pattern { (s: Stmt) => s.KLoop? }

  /** Mentions a name that the pass introduces. */
  function Introduced(): Pattern { (s: Stmt) => MentionsIntroduced(s) }

  /** A load address that Metal rejects. */
  function IllTyped(): Pattern { (s: Stmt) => s.LoadIdx? && !WellTyped(s.at) }

  /** A load whose text does not take the pointer in place of the index. */
  function Unspliceable(): Pattern { (s: Stmt) => s.LoadIdx? && !Spliceable(s.buf, s.at) }

  predicate MentionsIntroduced(s: Stmt) {
    match s
    case Set(x, e) => IsIntroduced(x) || !FreshChain(e)
    case Read(x) => IsIntroduced(x)
    case LoadIdx(_, a) => !FreshAddr(a)
    case LoadOther(e) => !FreshChain(e)
    case Seed(_, e) => !FreshChain(e)
    case If(c, _, _) => !FreshChain(c)
    case Guarded(c, _) => !FreshChain(c)
    case LoadPtr(_, _) => true
    case PtrSeed(_) => true
    case PtrStep(_, _) => true
    case PtrCommit(_) => true
    case _ => false
  }

  function Count(ss: seq<Stmt>, p: Pattern): nat
    decreases ss
  {
    if ss == [] then 0 else CountOne(ss[0], p) + Count(ss[1..], p)
  }

  function CountOne(s: Stmt, p: Pattern): nat
    decreases s
  {
    if s.If? then Hit(p, s) + Count(s.thn, p) + Count(s.els, p)
    else if s.Guarded? then Hit(p, s) + CountOne(s.line, p)
    else if s.Loop? || s.KLoop? then Hit(p, s) + Count(s.body, p)
    else Hit(p, s)
  }

  function Hit(p: Pattern, s: Stmt): nat {
    if p(s) then 1 else 0
  }

  lemma {:induction false} CountAppends(a: seq<Stmt>, b: seq<Stmt>, p: Pattern)
    ensures Count(a + b, p) == Count(a, p) + Count(b, p)
  {
    if a == [] {
      assert a + b == b;
    } else {
      assert (a + b)[0] == a[0] && (a + b)[1..] == a[1..] + b;
      CountAppends(a[1..], b, p);
    }
  }

  lemma {:induction false} CountElement(ss: seq<Stmt>, i: nat, p: Pattern)
    requires i < |ss|
    ensures CountOne(ss[i], p) <= Count(ss, p)
  {
    if i != 0 {
      CountElement(ss[1..], i - 1, p);
    }
  }

  lemma CountSingle(s: Stmt, p: Pattern)
    ensures Count([s], p) == CountOne(s, p)
  {
    assert [s][1..] == [];
  }

  lemma CountRegion(k: Kernel, p: Pattern)
    ensures Count(Region(k), p) == CountOne(k.opening, p) + Count(k.span, p) + CountOne(KLoop(k.kbody), p)
  {
    CountAppends([k.opening] + k.span, [KLoop(k.kbody)], p);
    CountAppends([k.opening], k.span, p);
    CountSingle(KLoop(k.kbody), p);
    CountSingle(k.opening, p);
  }

  lemma CountProgram(k: Kernel, p: Pattern)
    ensures Count(Program(k), p)
         == Count(k.before, p) + CountOne(Loop(TileBody(k)), p) + Count(k.after, p)
    ensures Count(TileBody(k), p) == Count(k.pre, p) + Count(Region(k), p) + Count(k.post, p)
  {
    CountAppends(k.before + [Loop(TileBody(k))], k.after, p);
    CountAppends(k.before, [Loop(TileBody(k))], p);
    assert Count([Loop(TileBody(k))], p) == CountOne(Loop(TileBody(k)), p);
    CountAppends(k.pre + Region(k), k.post, p);
    CountAppends(k.pre, Region(k), p);
  }

  // ---- the guards ---------------------------------------------------------------

  /** The statements in the order of the text. */
  function Lines(ss: seq<Stmt>): seq<Stmt>
    decreases ss
  {
    if ss == [] then [] else LinesOne(ss[0]) + Lines(ss[1..])
  }

  function LinesOne(s: Stmt): seq<Stmt>
    decreases s
  {
    match s
    case If(_, thn, els) => [s] + Lines(thn) + Lines(els)
    case Guarded(_, line) => [s] + LinesOne(line)
    case Loop(body) => [s] + Lines(body)
    case KLoop(body) => [s] + Lines(body)
    case _ => [s]
  }

  lemma {:induction false} LinesAppend(a: seq<Stmt>, b: seq<Stmt>)
    ensures Lines(a + b) == Lines(a) + Lines(b)
  {
    if a == [] {
      assert a + b == b;
    } else {
      assert (a + b)[0] == a[0] && (a + b)[1..] == a[1..] + b;
      LinesAppend(a[1..], b);
    }
  }

  lemma LinesSingle(s: Stmt)
    ensures Lines([s]) == LinesOne(s)
  {
    assert [s][1..] == [];
  }

  predicate IsHeader(s: Stmt) {
    s.Loop? || s.KLoop?
  }

  /** The k-loop is the last `for(;;)` above the commit of A. */
  ghost predicate Located(t: seq<Stmt>) {
    exists i, j :: 0 <= i < j < |t| && t[i].KLoop? && t[j] == Commit(A) && forall m :: i < m < j ==> !IsHeader(t[m])
  }

  /** Everything `postpass_gemm_msl` checks before it accepts the walk. */
  ghost predicate Accepts(k: Kernel) {
    && Core(k.opening).Seed? && Core(k.opening).buf == A
    && Count(Program(k), Introduced()) == 0
    && (forall b :: Count(Program(k), TheSeed(b)) == 1)
    && (forall b :: Count(Program(k), TheStep(b)) == 1)
    && (forall b :: Count(Program(k), TheCommit(b)) == 1)
    && Located(Lines(Program(k)))
    && (forall b :: Count(Region(k), Writes(Index(b))) == 2)
    && (forall b :: Count(Region(k), Writes(StepTmp(b))) == 1)
    && Count(k.kbody, OtherLoad()) == 0
    && Count(k.kbody, IndexLoad()) >= 1
    && Count(Program(k), IndexLoad()) == Count(k.kbody, IndexLoad())
  }

  /** Seeds, steps and commits hold no block of their own, so they show up either
      as direct children or inside some other statement. */
  predicate NoSites(ss: seq<Stmt>) {
    forall b: Buf ::
      Count(ss, TheSeed(b)) == 0 && Count(ss, TheStep(b)) == 0 && Count(ss, TheCommit(b)) == 0
  }

  /** What the Metal compiler promises: addresses have a type, and a commit in the block
      of the k-loop stands below the declaration of its step temporary. One k-loop is
      what being a kernel of this shape means. */
  ghost predicate Compiles(k: Kernel) {
    && Count(Program(k), TheKLoop()) == 1
    && Count(Program(k), IllTyped()) == 0
    && (forall j, b :: 0 <= j < |k.kbody| && k.kbody[j] == Commit(b) ==> HasStep(k.kbody[..j], b))
  }

  /** The sites stand in the blocks that their indentation suggests: seeds in the tile
      loop, if need be below a condition without braces, steps and commits in the k-loop
      and below none. Nothing in the pass ensures this. */
  ghost predicate Placed(k: Kernel) {
    && (forall s :: s in k.span ==> Core(s).Seed? || NoSites([s]))
    && (forall s :: s in k.kbody ==> s.Step? || s.Commit? || NoSites([s]))
  }

  predicate HasStep(ss: seq<Stmt>, b: Buf) {
    exists i :: 0 <= i < |ss| && ss[i].Step? && ss[i].buf == b
  }

  /** The lines the pass rewrites all lie in the span whose writes it counts. */
  ghost predicate SitesInSpan(k: Kernel) {
    && (forall b :: Count(Region(k), TheSeed(b)) == 1)
    && (forall b :: Count(Region(k), TheStep(b)) == 1)
    && (forall b :: Count(Region(k), TheCommit(b)) == 1)
  }

  /** Every write in the span to an index or step temporary is a mirrored one. */
  ghost predicate AllWritesMirrored(k: Kernel) {
    forall b: Buf ::
      Count(Region(k), Stray(Index(b))) == 0 && Count(Region(k), Stray(StepTmp(b))) == 0
  }

  /** Pattern `p` is the disjoint union of `q` and `r`. */
  ghost predicate Splits(p: Pattern, q: Pattern, r: Pattern) {
    forall s: Stmt :: Hit(p, s) == Hit(q, s) + Hit(r, s)
  }

  lemma {:induction false} CountSplits(ss: seq<Stmt>, p: Pattern, q: Pattern, r: Pattern)
    requires Splits(p, q, r)
    ensures Count(ss, p) == Count(ss, q) + Count(ss, r)
    decreases ss
  {
    if ss != [] {
      CountOneSplits(ss[0], p, q, r);
      CountSplits(ss[1..], p, q, r);
    }
  }

  lemma {:induction false} CountOneSplits(s: Stmt, p: Pattern, q: Pattern, r: Pattern)
    requires Splits(p, q, r)
    ensures CountOne(s, p) == CountOne(s, q) + CountOne(s, r)
    decreases s
  {
    assert Hit(p, s) == Hit(q, s) + Hit(r, s);
    if s.If? {
      CountSplits(s.thn, p, q, r);
      CountSplits(s.els, p, q, r);
    } else if s.Guarded? {
      CountOneSplits(s.line, p, q, r);
    } else if s.Loop? || s.KLoop? {
      CountSplits(s.body, p, q, r);
    }
  }

  lemma WritesSplit(ss: seq<Stmt>, b: Buf)
    ensures Count(ss, Writes(Index(b)))
         == Count(ss, Stray(Index(b))) + Count(ss, TheSeed(b)) + Count(ss, TheCommit(b))
    ensures Count(ss, Writes(StepTmp(b))) == Count(ss, Stray(StepTmp(b))) + Count(ss, TheStep(b))
  {
    CountSplits(ss, Writes(Index(b)), Stray(Index(b)), Moves(b));
    CountSplits(ss, Moves(b), TheSeed(b), TheCommit(b));
    CountSplits(ss, Writes(StepTmp(b)), Stray(StepTmp(b)), TheStep(b));
  }

  lemma RegionWithinProgram(k: Kernel, p: Pattern)
    ensures Count(Region(k), p) <= Count(Program(k), p)
  {
    CountProgram(k, p);
  }

  /** The write counts prove every write mirrored exactly when the rewritten lines
      lie inside the counted span: a site outside it leaves room for a write that
      no pointer line follows. */
  lemma MirroredIffSitesInSpan(k: Kernel)
    requires Accepts(k)
    ensures AllWritesMirrored(k) <==> SitesInSpan(k)
  {
    forall b: Buf
      ensures Count(Region(k), Stray(Index(b))) == 2 - Count(Region(k), TheSeed(b)) - Count(Region(k), TheCommit(b))
      ensures Count(Region(k), Stray(StepTmp(b))) == 1 - Count(Region(k), TheStep(b))
      ensures Count(Region(k), TheSeed(b)) <= 1 && Count(Region(k), TheCommit(b)) <= 1
    {
      WritesSplit(Region(k), b);
      RegionWithinProgram(k, TheSeed(b));
      RegionWithinProgram(k, TheCommit(b));
    }
  }

  // ---- from the guards to the flow analysis --------------------------------------

  const FULL: Track := Track({A, B}, {A, B})
  const BOTH: Track := Track({A, B}, {})

  /** What an ordinary statement must not do while the pairs in `lim` are tracked. */
  function Forbidden(lim: Track, loads: bool): Pattern {
    (s: Stmt) =>
      || MentionsIntroduced(s) || IsSite(s) || s.KLoop?
      || (s.LoadIdx? && (!loads || !WellTyped(s.at)))
      || ((s.Set? || s.Read?) && !MayWrite(lim, s.x))
  }

  predicate Clean(lim: Track, loads: bool, ss: seq<Stmt>) {
    Count(ss, Forbidden(lim, loads)) == 0
  }

  /** The pairs tracked after `ss`. */
  function Fold(tr: Track, keep: Track, ss: seq<Stmt>): Track
    decreases |ss|
  {
    if ss == [] then tr else Fold(After(tr, keep, ss[0]), keep, ss[1..])
  }

  lemma {:induction false} CleanFlows(
      lim: Track, tr: Track, keep: Track, loads: bool, ss: seq<Stmt>, inK: bool)
    requires Within(keep, tr) && Within(tr, lim) && Clean(lim, loads, ss)
    requires loads ==> inK && tr.idx == {A, B}
    ensures Flows(tr, keep, ss, inK) && Fold(tr, keep, ss) == tr
    decreases ss, 0
  {
    if ss != [] {
      CleanFlowsOne(lim, tr, loads, ss[0], inK);
      CleanFlows(lim, tr, keep, loads, ss[1..], inK);
    }
  }

  lemma {:induction false} CleanFlowsOne(lim: Track, tr: Track, loads: bool, s: Stmt, inK: bool)
    requires Within(tr, lim) && CountOne(s, Forbidden(lim, loads)) == 0
    requires loads ==> inK && tr.idx == {A, B}
    ensures FlowsOne(tr, s, inK) && !IsSite(Core(s)) && !s.KLoop?
    decreases s, 0
  {
    assert !Forbidden(lim, loads)(s);
    if s.If? {
      CleanFlows(lim, tr, tr, loads, s.thn, inK);
      CleanFlows(lim, tr, tr, loads, s.els, inK);
    } else if s.Guarded? {
      CleanFlowsOne(lim, tr, loads, s.line, inK);
    } else if s.Loop? {
      CleanFlows(lim, tr, tr, loads, s.body, inK);
    } else if s.LoadIdx? {
      assert s.buf == A || s.buf == B;
    }
  }

  lemma {:induction false} FlowsAppend(tr: Track, keep: Track, a: seq<Stmt>, b: seq<Stmt>, inK: bool)
    requires Flows(tr, keep, a, inK) && Flows(Fold(tr, keep, a), keep, b, inK)
    ensures Flows(tr, keep, a + b, inK) && Fold(tr, keep, a + b) == Fold(Fold(tr, keep, a), keep, b)
    decreases |a|
  {
    if a == [] {
      assert a + b == b;
    } else {
      assert (a + b)[0] == a[0] && (a + b)[1..] == a[1..] + b;
      FlowsAppend(After(tr, keep, a[0]), keep, a[1..], b, inK);
    }
  }

  /** A seed, below conditions or not, flows where its names are fresh. */
  lemma {:induction false} SeedFlows(tr: Track, s: Stmt, inK: bool)
    requires Core(s).Seed? && CountOne(s, Introduced()) == 0
    ensures FlowsOne(tr, s, inK)
    decreases s
  {
    assert !MentionsIntroduced(s);
    if s.Guarded? {
      SeedFlows(tr, s.line, inK);
    }
  }

  lemma {:induction false} CountsOfSeed(s: Stmt, b: Buf)
    requires Core(s).Seed?
    ensures CountOne(s, TheSeed(b)) == if Core(s).buf == b then 1 else 0
    decreases s
  {
    if s.Guarded? {
      CountsOfSeed(s.line, b);
    }
  }

  predicate SpanElement(s: Stmt) {
    if Core(s).Seed? then Core(s).buf == B && CountOne(s, Introduced()) == 0
    else CountOne(s, Forbidden(FULL, false)) == 0
  }

  lemma TracksAtMostBoth(tr: Track)
    ensures Within(tr, FULL)
  {
    forall b: Buf ensures b in FULL.idx {
      assert b == A || b == B;
    }
    assert FULL.tmp == FULL.idx;
  }

  lemma {:induction false} SpanFlows(tr: Track, ss: seq<Stmt>)
    requires A in tr.idx && tr.tmp == {}
    requires forall s :: s in ss ==> SpanElement(s)
    ensures Flows(tr, NONE, ss, false)
    ensures Fold(tr, NONE, ss)
         == if exists s :: s in ss && Core(s).Seed? then Track(tr.idx + {B}, {}) else tr
    decreases |ss|
  {
    if ss != [] {
      var s, rest := ss[0], ss[1..];
      assert s in ss && forall x :: x in ss <==> x == s || x in rest;
      if Core(s).Seed? {
        SeedFlows(tr, s, false);
        assert After(tr, NONE, s) == Track(tr.idx + {B}, {});
        SpanFlows(Track(tr.idx + {B}, {}), rest);
        assert tr.idx + {B} + {B} == tr.idx + {B};
      } else {
        TracksAtMostBoth(tr);
        CleanFlowsOne(FULL, tr, false, s, false);
        SpanFlows(tr, rest);
      }
    }
  }

  predicate BodyElement(s: Stmt) {
    s.Step? || s.Commit? || CountOne(s, Forbidden(FULL, true)) == 0
  }

  ghost predicate StepsFirst(tr: Track, ss: seq<Stmt>) {
    forall j :: 0 <= j < |ss| && ss[j].Commit? ==> ss[j].buf in tr.tmp || HasStep(ss[..j], ss[j].buf)
  }

  lemma StepsFirstTail(tr: Track, ss: seq<Stmt>)
    requires ss != [] && StepsFirst(tr, ss)
    ensures StepsFirst(After(tr, BOTH, ss[0]), ss[1..]) || ss[0].KLoop?
  {
    var next := After(tr, BOTH, ss[0]);
    forall j | 0 <= j < |ss[1..]| && ss[1..][j].Commit?
      ensures ss[0].KLoop? || ss[1..][j].buf in next.tmp || HasStep(ss[1..][..j], ss[1..][j].buf)
    {
      var b := ss[j + 1].buf;
      if HasStep(ss[..j + 1], b) {
        var i :| 0 <= i < j + 1 && ss[..j + 1][i].Step? && ss[..j + 1][i].buf == b;
        if i > 0 {
          assert ss[1..][..j][i - 1] == ss[i];
        }
      }
    }
  }

  lemma {:induction false} BodyFlows(tr: Track, ss: seq<Stmt>)
    requires tr.idx == {A, B}
    requires forall s :: s in ss ==> BodyElement(s)
    requires StepsFirst(tr, ss)
    ensures Flows(tr, BOTH, ss, true)
    decreases |ss|
  {
    if ss != [] {
      var s := ss[0];
      if s.Step? {
        assert s.buf == A || s.buf == B;
      } else if s.Commit? {
        assert ss[..0] == [];
        assert s.buf in tr.tmp;
        assert s.buf == A || s.buf == B;
        assert tr.idx + {s.buf} == {A, B};
      } else {
        assert s in ss;
        TracksAtMostBoth(tr);
        CleanFlowsOne(FULL, tr, true, s, true);
      }
      StepsFirstTail(tr, ss);
      assert After(tr, BOTH, s).idx == {A, B};
      BodyFlows(After(tr, BOTH, s), ss[1..]);
    }
  }

  lemma {:induction false} CountCovered(ss: seq<Stmt>, r: Pattern, parts: seq<Pattern>)
    requires forall s :: r(s) ==> exists i :: 0 <= i < |parts| && parts[i](s)
    requires forall i :: 0 <= i < |parts| ==> Count(ss, parts[i]) == 0
    ensures Count(ss, r) == 0
    decreases ss
  {
    if ss != [] {
      forall i | 0 <= i < |parts| ensures CountOne(ss[0], parts[i]) == 0 && Count(ss[1..], parts[i]) == 0 {
        assert Count(ss, parts[i]) == 0;
      }
      CountOneCovered(ss[0], r, parts);
      CountCovered(ss[1..], r, parts);
    }
  }

  lemma {:induction false} CountOneCovered(s: Stmt, r: Pattern, parts: seq<Pattern>)
    requires forall x :: r(x) ==> exists i :: 0 <= i < |parts| && parts[i](x)
    requires forall i :: 0 <= i < |parts| ==> CountOne(s, parts[i]) == 0
    ensures CountOne(s, r) == 0
    decreases s
  {
    forall i | 0 <= i < |parts|
      ensures !parts[i](s)
      ensures s.If? ==> Count(s.thn, parts[i]) == 0 && Count(s.els, parts[i]) == 0
      ensures s.Guarded? ==> CountOne(s.line, parts[i]) == 0
      ensures s.Loop? || s.KLoop? ==> Count(s.body, parts[i]) == 0
    {
      assert CountOne(s, parts[i]) == 0;
    }
    if s.If? {
      CountCovered(s.thn, r, parts);
      CountCovered(s.els, r, parts);
    } else if s.Guarded? {
      CountOneCovered(s.line, r, parts);
    } else if s.Loop? || s.KLoop? {
      CountCovered(s.body, r, parts);
    }
  }

  /** Free of introduced names, ill-typed loads, k-loops and sites. */
  predicate Spotless(ss: seq<Stmt>) {
    && Count(ss, Introduced()) == 0 && Count(ss, IllTyped()) == 0 && Count(ss, TheKLoop()) == 0
    && NoSites(ss)
  }

  predicate NoStray(ss: seq<Stmt>) {
    forall b: Buf :: Count(ss, Stray(Index(b))) == 0 && Count(ss, Stray(StepTmp(b))) == 0
  }

  lemma SitesOf(s: Stmt)
    requires IsSite(s)
    ensures TheSeed(s.buf)(s) || TheStep(s.buf)(s) || TheCommit(s.buf)(s)
    ensures s.buf == A || s.buf == B
  {
  }

  lemma QuietIsClean(ss: seq<Stmt>)
    requires Spotless(ss) && Count(ss, IndexLoad()) == 0
    ensures Clean(NONE, false, ss)
  {
    var parts := [Introduced(), TheKLoop(), IndexLoad(),
                  TheSeed(A), TheSeed(B), TheStep(A), TheStep(B), TheCommit(A), TheCommit(B)];
    forall s | Forbidden(NONE, false)(s) ensures exists i :: 0 <= i < |parts| && parts[i](s) {
      if IsSite(s) {
        SitesOf(s);
        assert parts[3](s) || parts[4](s) || parts[5](s) || parts[6](s) || parts[7](s) || parts[8](s);
      } else {
        assert parts[0](s) || parts[1](s) || parts[2](s);
      }
    }
    CountCovered(ss, Forbidden(NONE, false), parts);
  }

  lemma TrackedIsClean(ss: seq<Stmt>, loads: bool)
    requires Spotless(ss) && NoStray(ss)
    requires loads || Count(ss, IndexLoad()) == 0
    ensures Clean(FULL, loads, ss)
  {
    var parts := [Introduced(), TheKLoop(), if loads then IllTyped() else IndexLoad(),
                  TheSeed(A), TheSeed(B), TheStep(A), TheStep(B), TheCommit(A), TheCommit(B),
                  Stray(Index(A)), Stray(Index(B)), Stray(StepTmp(A)), Stray(StepTmp(B))];
    forall s | Forbidden(FULL, loads)(s) ensures exists i :: 0 <= i < |parts| && parts[i](s) {
      if IsSite(s) {
        SitesOf(s);
        assert parts[3](s) || parts[4](s) || parts[5](s) || parts[6](s) || parts[7](s) || parts[8](s);
      } else if (s.Set? || s.Read?) && !IsIntroduced(s.x) && !MayWrite(FULL, s.x) {
        assert s.x.b == A || s.x.b == B;
        assert parts[9](s) || parts[10](s) || parts[11](s) || parts[12](s);
      } else {
        assert parts[0](s) || parts[1](s) || parts[2](s);
      }
    }
    CountCovered(ss, Forbidden(FULL, loads), parts);
  }

  lemma OutsideCounts(k: Kernel, p: Pattern)
    requires Count(Program(k), p) <= Count(Region(k), p)
    ensures Count(k.before, p) == 0 && Count(k.pre, p) == 0
    ensures Count(k.post, p) == 0 && Count(k.after, p) == 0
  {
    CountProgram(k, p);
  }

  lemma InsideCounts(k: Kernel, p: Pattern)
    ensures Count(k.span, p) + Count(k.kbody, p) <= Count(Region(k), p) <= Count(Program(k), p)
    ensures CountOne(k.opening, p) + Hit(p, KLoop(k.kbody)) + Count(k.span, p) + Count(k.kbody, p)
         == Count(Region(k), p)
  {
    CountRegion(k, p);
    RegionWithinProgram(k, p);
  }

  lemma OutsideIsQuiet(k: Kernel)
    requires Accepts(k) && Compiles(k) && Placed(k) && SitesInSpan(k)
    ensures Clean(NONE, false, k.before) && Clean(NONE, false, k.pre)
    ensures Clean(NONE, false, k.post) && Clean(NONE, false, k.after)
  {
    InsideCounts(k, TheKLoop());
    InsideCounts(k, IndexLoad());
    InsideCounts(k, Introduced());
    InsideCounts(k, IllTyped());
    OutsideCounts(k, TheKLoop());
    OutsideCounts(k, IndexLoad());
    OutsideCounts(k, Introduced());
    OutsideCounts(k, IllTyped());
    forall b: Buf
      ensures Count(k.before, TheSeed(b)) == 0 && Count(k.pre, TheSeed(b)) == 0
      ensures Count(k.post, TheSeed(b)) == 0 && Count(k.after, TheSeed(b)) == 0
      ensures Count(k.before, TheStep(b)) == 0 && Count(k.pre, TheStep(b)) == 0
      ensures Count(k.post, TheStep(b)) == 0 && Count(k.after, TheStep(b)) == 0
      ensures Count(k.before, TheCommit(b)) == 0 && Count(k.pre, TheCommit(b)) == 0
      ensures Count(k.post, TheCommit(b)) == 0 && Count(k.after, TheCommit(b)) == 0
    {
      OutsideCounts(k, TheSeed(b));
      OutsideCounts(k, TheStep(b));
      OutsideCounts(k, TheCommit(b));
    }
    QuietIsClean(k.before);
    QuietIsClean(k.pre);
    QuietIsClean(k.post);
    QuietIsClean(k.after);
  }

  /** Counts over the span and the k-loop body that do not depend on which of
      their direct children are sites. */
  lemma InsideIsTame(k: Kernel)
    requires Accepts(k) && Compiles(k) && Placed(k) && SitesInSpan(k)
    ensures forall part | part in [k.span, k.kbody] ::
      && Count(part, Introduced()) == 0 && Count(part, IllTyped()) == 0 && Count(part, TheKLoop()) == 0
      && NoStray(part)
    ensures Count(k.span, IndexLoad()) == 0 && Count(k.span, TheSeed(A)) == 0
  {
    InsideCounts(k, Introduced());
    InsideCounts(k, IllTyped());
    InsideCounts(k, TheKLoop());
    InsideCounts(k, IndexLoad());
    InsideCounts(k, TheSeed(A));
    CountsOfSeed(k.opening, A);
    MirroredIffSitesInSpan(k);
    forall b: Buf
      ensures Count(k.span, Stray(Index(b))) == 0 && Count(k.span, Stray(StepTmp(b))) == 0
      ensures Count(k.kbody, Stray(Index(b))) == 0 && Count(k.kbody, Stray(StepTmp(b))) == 0
    {
      InsideCounts(k, Stray(Index(b)));
      InsideCounts(k, Stray(StepTmp(b)));
    }
  }

  lemma ElementCounts(ss: seq<Stmt>, i: nat, p: Pattern)
    requires i < |ss| && Count(ss, p) == 0
    ensures Count([ss[i]], p) == 0
  {
    CountElement(ss, i, p);
    CountSingle(ss[i], p);
  }

  lemma ElementIsTracked(ss: seq<Stmt>, s: Stmt, loads: bool)
    requires s in ss && NoSites([s])
    requires Count(ss, Introduced()) == 0 && Count(ss, IllTyped()) == 0 && Count(ss, TheKLoop()) == 0
    requires NoStray(ss) && (loads || Count(ss, IndexLoad()) == 0)
    ensures CountOne(s, Forbidden(FULL, loads)) == 0
  {
    var i :| 0 <= i < |ss| && ss[i] == s;
    ElementCounts(ss, i, Introduced());
    ElementCounts(ss, i, IllTyped());
    ElementCounts(ss, i, TheKLoop());
    if !loads {
      ElementCounts(ss, i, IndexLoad());
    }
    forall b: Buf ensures Count([s], Stray(Index(b))) == 0 && Count([s], Stray(StepTmp(b))) == 0 {
      ElementCounts(ss, i, Stray(Index(b)));
      ElementCounts(ss, i, Stray(StepTmp(b)));
    }
    TrackedIsClean([s], loads);
    CountSingle(s, Forbidden(FULL, loads));
  }

  lemma SpanElements(k: Kernel)
    requires Accepts(k) && Compiles(k) && Placed(k) && SitesInSpan(k)
    ensures forall s :: s in k.span ==> SpanElement(s)
  {
    InsideIsTame(k);
    assert k.span in [k.span, k.kbody];
    forall s | s in k.span ensures SpanElement(s) {
      if Core(s).Seed? {
        var i :| 0 <= i < |k.span| && k.span[i] == s;
        CountElement(k.span, i, TheSeed(A));
        CountsOfSeed(s, A);
        CountElement(k.span, i, Introduced());
      } else {
        ElementIsTracked(k.span, s, false);
      }
    }
  }

  lemma BodyElements(k: Kernel)
    requires Accepts(k) && Compiles(k) && Placed(k) && SitesInSpan(k)
    ensures forall s :: s in k.kbody ==> BodyElement(s)
  {
    InsideIsTame(k);
    assert k.kbody in [k.span, k.kbody];
    forall s | s in k.kbody ensures BodyElement(s) {
      if !s.Step? && !s.Commit? {
        ElementIsTracked(k.kbody, s, true);
      }
    }
  }

  lemma {:induction false} SomeElementCounts(ss: seq<Stmt>, p: Pattern)
    requires Count(ss, p) > 0
    ensures exists s :: s in ss && CountOne(s, p) > 0
  {
    if CountOne(ss[0], p) > 0 {
      assert ss[0] in ss;
    } else {
      SomeElementCounts(ss[1..], p);
      var s :| s in ss[1..] && CountOne(s, p) > 0;
      assert s in ss;
    }
  }

  lemma {:induction false} BodyHasNoSeed(ss: seq<Stmt>, b: Buf)
    requires forall s :: s in ss ==> s.Step? || s.Commit? || NoSites([s])
    ensures Count(ss, TheSeed(b)) == 0
    decreases |ss|
  {
    if ss != [] {
      var s := ss[0];
      assert s in ss && Count([s], TheSeed(b)) == CountOne(s, TheSeed(b));
      BodyHasNoSeed(ss[1..], b);
    }
  }

  lemma SpanHasSeed(ss: seq<Stmt>, b: Buf)
    requires forall s :: s in ss ==> Core(s).Seed? || NoSites([s])
    requires Count(ss, TheSeed(b)) > 0
    ensures exists s :: s in ss && Core(s).Seed?
  {
    SomeElementCounts(ss, TheSeed(b));
    var s :| s in ss && CountOne(s, TheSeed(b)) > 0;
    NoSeedInside(s, b);
  }

  lemma NoSeedInside(s: Stmt, b: Buf)
    ensures NoSites([s]) ==> CountOne(s, TheSeed(b)) == 0
  {
    assert Count([s], TheSeed(b)) == CountOne(s, TheSeed(b)) by {
      assert [s][1..] == [];
    }
  }

  /** The seed of B is a direct child of the span. */
  lemma SeedOfBIsInSpan(k: Kernel)
    requires Accepts(k) && Compiles(k) && Placed(k) && SitesInSpan(k)
    ensures exists s :: s in k.span && Core(s).Seed?
  {
    InsideCounts(k, TheSeed(B));
    CountsOfSeed(k.opening, B);
    BodyHasNoSeed(k.kbody, B);
    SpanHasSeed(k.span, B);
  }

  lemma FlowsSingle(tr: Track, keep: Track, s: Stmt, inK: bool)
    requires Within(keep, tr) && FlowsOne(tr, s, inK) && Within(keep, After(tr, keep, s))
    ensures Flows(tr, keep, [s], inK) && Fold(tr, keep, [s]) == After(tr, keep, s)
  {
    assert [s][0] == s && [s][1..] == [];
  }

  lemma LoopBetween(a: seq<Stmt>, body: seq<Stmt>, c: seq<Stmt>)
    requires Clean(NONE, false, a) && Clean(NONE, false, c) && Flows(NONE, NONE, body, false)
    ensures Flows(NONE, NONE, a + [Loop(body)] + c, false)
  {
    CleanFlows(NONE, NONE, NONE, false, a, false);
    CleanFlows(NONE, NONE, NONE, false, c, false);
    FlowsSingle(NONE, NONE, Loop(body), false);
    FlowsAppend(NONE, NONE, a, [Loop(body)], false);
    FlowsAppend(NONE, NONE, a + [Loop(body)], c, false);
  }

  lemma OpeningFlows(s: Stmt)
    requires Core(s).Seed? && Core(s).buf == A && CountOne(s, Introduced()) == 0
    ensures Flows(NONE, NONE, [s], false) && Fold(NONE, NONE, [s]) == Track({A}, {})
  {
    assert NONE.idx + {A} == {A};
    SeedFlows(NONE, s, false);
    FlowsSingle(NONE, NONE, s, false);
  }

  lemma KLoopFlows(body: seq<Stmt>)
    requires Flows(BOTH, BOTH, body, true)
    ensures Flows(BOTH, NONE, [KLoop(body)], false) && Fold(BOTH, NONE, [KLoop(body)]) == NONE
  {
    FlowsSingle(BOTH, NONE, KLoop(body), false);
  }

  lemma TileBetween(pre: seq<Stmt>, s: Stmt, span: seq<Stmt>, body: seq<Stmt>, post: seq<Stmt>)
    requires Clean(NONE, false, pre) && Clean(NONE, false, post)
    requires Core(s).Seed? && Core(s).buf == A && CountOne(s, Introduced()) == 0
    requires forall x :: x in span ==> SpanElement(x)
    requires exists x :: x in span && Core(x).Seed?
    requires Flows(BOTH, BOTH, body, true)
    ensures Flows(NONE, NONE, pre + ([s] + span + [KLoop(body)]) + post, false)
  {
    CleanFlows(NONE, NONE, NONE, false, pre, false);
    CleanFlows(NONE, NONE, NONE, false, post, false);
    OpeningFlows(s);
    var onlyA := Track({A}, {});
    SpanFlows(onlyA, span);
    assert Fold(onlyA, NONE, span) == BOTH by { assert onlyA.idx + {B} == {A, B}; }
    KLoopFlows(body);
    FlowsAppend(NONE, NONE, [s], span, false);
    FlowsAppend(NONE, NONE, [s] + span, [KLoop(body)], false);
    FlowsAppend(NONE, NONE, pre, [s] + span + [KLoop(body)], false);
    FlowsAppend(NONE, NONE, pre + ([s] + span + [KLoop(body)]), post, false);
  }

  lemma GuardsGiveFlow(k: Kernel)
    requires Accepts(k) && Compiles(k) && Placed(k) && SitesInSpan(k)
    ensures Flows(NONE, NONE, Program(k), false)
  {
    OutsideIsQuiet(k);
    SpanElements(k);
    SeedOfBIsInSpan(k);
    assert Flows(BOTH, BOTH, k.kbody, true) by {
      BodyElements(k);
      BodyFlows(BOTH, k.kbody);
    }
    InsideCounts(k, Introduced());
    TileBetween(k.pre, k.opening, k.span, k.kbody, k.post);
    LoopBetween(k.before, TileBody(k), k.after);
  }
}
