/** Kernels as text: the edits of the pass on the text of a program give the text of the
    rewritten program. How statements are written is left open but for the lines and the
    load addresses that the pass knows. */
module MslRender {
  import opened Wrappers
  import opened Text
  import opened MslAddress
  import opened MslKernel
  import opened MslGuards
  import opened MslText
  import opened MslLines

  /** The lines of a statement that the pass does not know: `test`, `otherwise` and
      `done` around the branches of an `if`, `guard` above the line below a brace-less
      one, `enter` and `leave` around a loop body; a load's line before and behind the
      part of the address that the pass replaces. */
  datatype Writer = Writer(
    expr: Chain -> string, lit: nat -> string, plain: Stmt -> seq<string>,
    test: Chain -> seq<string>, otherwise: seq<string>, done: seq<string>,
    guard: Chain -> seq<string>, enter: seq<string>, leave: seq<string>,
    before: (Buf, Addr) -> string, behind: (Buf, Addr) -> string)

  function SeedOpen(b: Buf): string {
    if b == A then A_SEED else B_SEED
  }

  function StepOpen(b: Buf): string {
    if b == A then A_STEP else B_STEP
  }

  function CommitLine(b: Buf): string {
    if b == A then A_COMMIT else B_COMMIT
  }

  function PtrSeedLine(b: Buf): string {
    if b == A then A_WALK_SEED else B_WALK_SEED
  }

  function PtrStepOpen(b: Buf): string {
    if b == A then A_WALK_STEP else B_WALK_STEP
  }

  function PtrCommitLine(b: Buf): string {
    if b == A then A_WALK_COMMIT else B_WALK_COMMIT
  }

  /** The replaced part of a load's address, with an offset in the parenthesis or none. */
  datatype Form = Form(b: Buf, offset: bool)

  function IndexForm(f: Form): string {
    match f
    case Form(A, false) => "&((_sa)[0]) + (lsma_0)"
    case Form(A, true) => "&((_sa)[0]) + (lsma_0 + "
    case Form(B, false) => "&((_sb)[0]) + (lsmb_0)"
    case Form(B, true) => "&((_sb)[0]) + (lsmb_0 + "
  }

  function PointerForm(f: Form): string {
    match f
    case Form(A, false) => "pa_0"
    case Form(A, true) => "pa_0 + ("
    case Form(B, false) => "pb_0"
    case Form(B, true) => "pb_0 + ("
  }

  function FormOf(b: Buf, a: Addr): Form {
    Form(b, a.offset.Some?)
  }

  function Render(ss: seq<Stmt>, w: Writer): seq<string>
    decreases ss
  {
    if ss == [] then [] else RenderOne(ss[0], w) + Render(ss[1..], w)
  }

  function RenderOne(s: Stmt, w: Writer): seq<string>
    decreases s
  {
    match s
    case If(c, thn, els) => w.test(c) + Render(thn, w) + w.otherwise + Render(els, w) + w.done
    case Guarded(c, line) => w.guard(c) + RenderOne(line, w)
    case Loop(body) => w.enter + Render(body, w) + w.leave
    case KLoop(body) => w.enter + Render(body, w) + w.leave
    case _ => Leaf(s, w)
  }

  function Leaf(s: Stmt, w: Writer): seq<string> {
    match s
    case Seed(b, e) => [SeedOpen(b) + w.expr(e) + ";"]
    case Step(b, n) => [StepOpen(b) + w.lit(n) + ";"]
    case Commit(b) => [CommitLine(b)]
    case PtrSeed(b) => [PtrSeedLine(b)]
    case PtrStep(b, n) => [PtrStepOpen(b) + w.lit(n) + ");"]
    case PtrCommit(b) => [PtrCommitLine(b)]
    case LoadIdx(b, a) => [w.before(b, a) + (IndexForm(FormOf(b, a)) + w.behind(b, a))]
    case LoadPtr(b, a) => [w.before(b, a) + (PointerForm(FormOf(b, a)) + w.behind(b, a))]
    case _ => w.plain(s)
  }

  lemma {:induction false} RenderAppends(a: seq<Stmt>, b: seq<Stmt>, w: Writer)
    ensures Render(a + b, w) == Render(a, w) + Render(b, w)
  {
    if a == [] {
      assert a + b == b;
    } else {
      assert (a + b)[0] == a[0] && (a + b)[1..] == a[1..] + b;
      RenderAppends(a[1..], b, w);
    }
  }

  lemma RenderSingle(s: Stmt, w: Writer)
    ensures Render([s], w) == RenderOne(s, w)
  {
    assert [s][1..] == [];
  }

  // ---- which lines open a site ---------------------------------------------------

  datatype Kind = SeedOf(b: Buf) | StepOf(b: Buf) | CommitOf(b: Buf)

  const KINDS: seq<Kind> := [SeedOf(A), SeedOf(B), StepOf(A), StepOf(B), CommitOf(A), CommitOf(B)]

  function Opener(k: Kind): string {
    match k
    case SeedOf(b) => SeedOpen(b)
    case StepOf(b) => StepOpen(b)
    case CommitOf(b) => CommitLine(b)
  }

  function Sites(k: Kind): Pattern {
    match k
    case SeedOf(b) => TheSeed(b)
    case StepOf(b) => TheStep(b)
    case CommitOf(b) => TheCommit(b)
  }

  function KindOf(s: Stmt): Kind
    requires IsSite(s)
  {
    match s
    case Seed(b, _) => SeedOf(b)
    case Step(b, _) => StepOf(b)
    case Commit(b) => CommitOf(b)
  }

  lemma SitesIff(s: Stmt, k: Kind)
    ensures Sites(k)(s) <==> IsSite(s) && KindOf(s) == k
  {
  }

  /** Where two openers differ. */
  function DifferAt(j: Kind, k: Kind): nat {
    if j.SeedOf? || k.SeedOf? then 8 else if j.StepOf? != k.StepOf? then 12 else if j.StepOf? then 20 else 15
  }

  lemma OpenersDiffer(j: Kind, k: Kind)
    requires j != k
    ensures var d := DifferAt(j, k); d < |Opener(j)| && d < |Opener(k)| && Opener(j)[d] != Opener(k)[d]
  {
    assert j.b == A || j.b == B;
    assert k.b == A || k.b == B;
  }

  lemma OneOpener(l: string, j: Kind, k: Kind)
    requires StartsWith(l, Opener(j))
    ensures StartsWith(l, Opener(k)) <==> j == k
  {
    if j != k {
      OpenersDiffer(j, k);
    }
  }

  predicate Ordinary(l: string) {
    NoBreak(l) && forall k: Kind :: k in KINDS ==> !StartsWith(l, Opener(k))
  }

  predicate AllOrdinary(lines: seq<string>) {
    forall i :: 0 <= i < |lines| ==> Ordinary(lines[i])
  }

  lemma KindsAreAll(k: Kind)
    ensures k in KINDS
  {
    assert k.b == A || k.b == B;
    assert KINDS[0] == SeedOf(A) && KINDS[1] == SeedOf(B) && KINDS[2] == StepOf(A);
    assert KINDS[3] == StepOf(B) && KINDS[4] == CommitOf(A) && KINDS[5] == CommitOf(B);
  }

  ghost predicate OrdinaryLoads(w: Writer) {
    forall b: Buf, a: Addr ::
      && Ordinary(w.before(b, a) + (IndexForm(FormOf(b, a)) + w.behind(b, a)))
      && Ordinary(w.before(b, a) + (PointerForm(FormOf(b, a)) + w.behind(b, a)))
  }

  /** No line but a site's looks like one, and what the pass captures ends at the
      line's semicolon. */
  ghost predicate Tidy(w: Writer) {
    && (forall e: Chain :: NoBreak(w.expr(e)) && ';' !in w.expr(e))
    && (forall n: nat :: CheckStep(w.lit(n)))
    && (forall s: Stmt :: AllOrdinary(w.plain(s)))
    && (forall c: Chain :: AllOrdinary(w.test(c)) && AllOrdinary(w.guard(c)))
    && AllOrdinary(w.otherwise) && AllOrdinary(w.done) && AllOrdinary(w.enter) && AllOrdinary(w.leave)
    && OrdinaryLoads(w)
  }

  function Opens(lines: seq<string>, open: string): nat {
    if lines == [] then 0 else (if StartsWith(lines[0], open) then 1 else 0) + Opens(lines[1..], open)
  }

  lemma {:induction false} OpensAppends(a: seq<string>, b: seq<string>, open: string)
    ensures Opens(a + b, open) == Opens(a, open) + Opens(b, open)
  {
    if a == [] {
      assert a + b == b;
    } else {
      assert (a + b)[0] == a[0] && (a + b)[1..] == a[1..] + b;
      OpensAppends(a[1..], b, open);
    }
  }

  lemma {:induction false} OpensIff(lines: seq<string>, open: string)
    ensures Opens(lines, open) == 0 <==> NoneOpens(lines, open)
  {
    if lines != [] {
      OpensIff(lines[1..], open);
      assert forall i :: 0 < i < |lines| ==> lines[i] == lines[1..][i - 1];
    }
  }

  lemma {:induction false} OneOpens(lines: seq<string>, open: string) returns (i: nat)
    requires Opens(lines, open) > 0
    ensures i < |lines| && StartsWith(lines[i], open)
    ensures Opens(lines[..i], open) == 0 && Opens(lines[i + 1..], open) == Opens(lines, open) - 1
  {
    if StartsWith(lines[0], open) {
      i := 0;
      assert lines[..0] == [];
    } else {
      var j := OneOpens(lines[1..], open);
      i := j + 1;
      assert lines[i + 1..] == lines[1..][j + 1..];
      assert lines[..i] == [lines[0]] + lines[1..][..j];
      OpensAppends([lines[0]], lines[1..][..j], open);
      assert [lines[0]][1..] == [];
    }
  }

  lemma TwoOpen(lines: seq<string>, open: string)
    requires Opens(lines, open) >= 2
    ensures exists i, j :: 0 <= i < j < |lines| && StartsWith(lines[i], open) && StartsWith(lines[j], open)
  {
    var i := OneOpens(lines, open);
    var d := OneOpens(lines[i + 1..], open);
    assert lines[i + 1..][d] == lines[i + 1 + d];
  }

  lemma {:induction false} OrdinaryOpensNothing(lines: seq<string>, k: Kind)
    requires AllOrdinary(lines)
    ensures NoBreaks(lines) && Opens(lines, Opener(k)) == 0
  {
    KindsAreAll(k);
    OpensIff(lines, Opener(k));
  }

  lemma OpensSingle(l: string, open: string)
    ensures Opens([l], open) == if StartsWith(l, open) then 1 else 0
  {
    assert [l][1..] == [];
  }

  lemma LitIsWord(l: string)
    requires CheckStep(l)
    ensures NoBreak(l) && ';' !in l
  {
    var digits := if EndsWith(l, "U") then l[..|l| - 1] else l;
    forall i | 0 <= i < |l| ensures l[i] != '\n' && l[i] != ';' {
      if i < |digits| {
        assert IsDigit(digits[i]);
      } else {
        assert l[|l| - 1..] == "U" && l[i] == l[|l| - 1..][0];
      }
    }
  }

  lemma NoBreakJoins(a: string, b: string)
    requires NoBreak(a) && NoBreak(b)
    ensures NoBreak(a + b)
  {
  }

  lemma ThreeParts(x: string, y: string, z: string)
    requires NoBreak(x) && NoBreak(y) && NoBreak(z)
    ensures NoBreak(x + y + z) && StartsWith(x + y + z, x)
  {
    assert (x + y + z)[..|x|] == x;
  }

  lemma OpenerIsOneLine(k: Kind)
    ensures NoBreak(Opener(k))
  {
    assert k.b == A || k.b == B;
    assert NoBreak(TILE) && NoBreak(INNER);
    NoBreakJoins(TILE, "lsma_0 = ");
    NoBreakJoins(TILE, "uint lsmb_0 = ");
    NoBreakJoins(INNER, "uint lsma_1 = lsma_0 + ");
    NoBreakJoins(INNER, "uint lsmb_1 = lsmb_0 + ");
    NoBreakJoins(INNER, "lsma_0 = lsma_1;");
    NoBreakJoins(INNER, "lsmb_0 = lsmb_1;");
  }

  /** A site is one line that opens its kind alone. */
  lemma SiteLine(s: Stmt, w: Writer, k: Kind)
    requires IsSite(s) && Tidy(w)
    ensures |RenderOne(s, w)| == 1 && NoBreak(RenderOne(s, w)[0])
    ensures StartsWith(RenderOne(s, w)[0], Opener(k)) <==> KindOf(s) == k
  {
    SiteStarts(s, w);
    OneOpener(RenderOne(s, w)[0], KindOf(s), k);
  }

  lemma SiteStarts(s: Stmt, w: Writer)
    requires IsSite(s) && Tidy(w)
    ensures |RenderOne(s, w)| == 1 && NoBreak(RenderOne(s, w)[0]) && StartsWith(RenderOne(s, w)[0], Opener(KindOf(s)))
  {
    OpenerIsOneLine(KindOf(s));
    if s.Seed? {
      ThreeParts(SeedOpen(s.buf), w.expr(s.e), ";");
    } else if s.Step? {
      LitIsWord(w.lit(s.n));
      ThreeParts(StepOpen(s.buf), w.lit(s.n), ";");
    }
  }

  predicate IsPtr(s: Stmt) {
    s.PtrSeed? || s.PtrStep? || s.PtrCommit?
  }

  lemma PointerStepIsOneLine(b: Buf)
    ensures NoBreak(PtrStepOpen(b))
  {
    assert NoBreak(INNER) && NoBreak("threadgroup const half* ") && NoBreak("threadgroup const float* ");
    ThreeParts(INNER, "threadgroup const half* ", "pa_1 = pa_0 + (");
    ThreeParts(INNER, "threadgroup const float* ", "pb_1 = pb_0 + (");
  }

  lemma PtrHasNoBreak(s: Stmt, w: Writer)
    requires IsPtr(s) && Tidy(w)
    ensures |RenderOne(s, w)| == 1 && NoBreak(RenderOne(s, w)[0])
  {
    if s.PtrStep? {
      LitIsWord(w.lit(s.n));
      PointerStepIsOneLine(s.buf);
      ThreeParts(PtrStepOpen(s.buf), w.lit(s.n), ");");
    } else {
      assert s.buf == A || s.buf == B;
    }
  }

  /** The first characters that are no blanks tell pointer lines from sites. */
  lemma PtrOpensNothing(s: Stmt, w: Writer, k: Kind)
    requires IsPtr(s)
    ensures !StartsWith(RenderOne(s, w)[0], Opener(k))
  {
    var l := RenderOne(s, w)[0];
    assert s.buf == A || s.buf == B;
    assert k.b == A || k.b == B;
    if s.PtrSeed? {
      assert l[8] == 'p' != Opener(k)[8];
    } else if s.PtrCommit? {
      assert l[8] == ' ' && l[12] == 'p' && (Opener(k)[8] != ' ' || Opener(k)[12] != 'p');
    } else {
      assert PtrStepOpen(s.buf)[8] == ' ' && PtrStepOpen(s.buf)[12] == 't';
      assert l[8] == ' ' && l[12] == 't' && (Opener(k)[8] != ' ' || Opener(k)[12] != 't');
    }
  }

  lemma OrdinaryIf(l: string)
    requires NoBreak(l) && forall k: Kind :: !StartsWith(l, Opener(k))
    ensures Ordinary(l)
  {
  }

  lemma PtrLineIsOrdinary(s: Stmt, w: Writer)
    requires IsPtr(s) && Tidy(w)
    ensures |RenderOne(s, w)| == 1 && Ordinary(RenderOne(s, w)[0])
  {
    var l := RenderOne(s, w)[0];
    PtrHasNoBreak(s, w);
    forall k: Kind ensures !StartsWith(l, Opener(k)) {
      PtrOpensNothing(s, w, k);
    }
    OrdinaryIf(l);
  }

  predicate IsLeaf(s: Stmt) {
    !s.If? && !s.Guarded? && !s.Loop? && !s.KLoop?
  }

  lemma LeafOpens(s: Stmt, w: Writer, k: Kind)
    requires IsLeaf(s) && Tidy(w)
    ensures NoBreaks(RenderOne(s, w)) && Opens(RenderOne(s, w), Opener(k)) == Hit(Sites(k), s)
  {
    SitesIff(s, k);
    if IsSite(s) {
      SiteLine(s, w, k);
      OpensSingle(RenderOne(s, w)[0], Opener(k));
    } else {
      if IsPtr(s) {
        PtrLineIsOrdinary(s, w);
      }
      OrdinaryOpensNothing(RenderOne(s, w), k);
    }
  }

  predicate Plain(lines: seq<string>, open: string) {
    NoBreaks(lines) && Opens(lines, open) == 0
  }

  /** A statement writes one line that starts with `open` where `p` holds, and else none. */
  ghost predicate Marks(w: Writer, open: string, p: Pattern) {
    && (forall s: Stmt :: IsLeaf(s) ==> NoBreaks(RenderOne(s, w)) && Opens(RenderOne(s, w), open) == Hit(p, s))
    && (forall s: Stmt :: !IsLeaf(s) ==> Hit(p, s) == 0)
    && (forall c: Chain :: Plain(w.test(c), open) && Plain(w.guard(c), open))
    && Plain(w.otherwise, open) && Plain(w.done, open) && Plain(w.enter, open) && Plain(w.leave, open)
  }

  lemma TidyMarks(w: Writer, k: Kind)
    requires Tidy(w)
    ensures Marks(w, Opener(k), Sites(k))
  {
    forall s: Stmt | IsLeaf(s)
      ensures NoBreaks(RenderOne(s, w)) && Opens(RenderOne(s, w), Opener(k)) == Hit(Sites(k), s)
    {
      LeafOpens(s, w, k);
    }
    forall s: Stmt | !IsLeaf(s) ensures Hit(Sites(k), s) == 0 {
      SitesIff(s, k);
    }
    forall c: Chain ensures Plain(w.test(c), Opener(k)) && Plain(w.guard(c), Opener(k)) {
      OrdinaryOpensNothing(w.test(c), k);
      OrdinaryOpensNothing(w.guard(c), k);
    }
    OrdinaryOpensNothing(w.otherwise, k);
    OrdinaryOpensNothing(w.done, k);
    OrdinaryOpensNothing(w.enter, k);
    OrdinaryOpensNothing(w.leave, k);
  }

  lemma OpensThree(a: seq<string>, b: seq<string>, c: seq<string>, open: string)
    requires Plain(a, open) && Plain(c, open) && NoBreaks(b)
    ensures NoBreaks(a + b + c) && Opens(a + b + c, open) == Opens(b, open)
  {
    OpensAppends(a + b, c, open);
    OpensAppends(a, b, open);
  }

  lemma OpensFive(a: seq<string>, b: seq<string>, c: seq<string>, d: seq<string>, e: seq<string>, open: string)
    requires Plain(a, open) && Plain(c, open) && Plain(e, open) && NoBreaks(b) && NoBreaks(d)
    ensures NoBreaks(a + b + c + d + e) && Opens(a + b + c + d + e, open) == Opens(b, open) + Opens(d, open)
  {
    OpensThree(a, b, c, open);
    OpensAppends(a + b + c, d, open);
    OpensAppends(a + b + c + d, e, open);
  }

  /** A text has as many lines that open a site as the program has such sites. */
  lemma {:induction false} RenderCounts(ss: seq<Stmt>, w: Writer, open: string, p: Pattern)
    requires Marks(w, open, p)
    ensures NoBreaks(Render(ss, w)) && Opens(Render(ss, w), open) == Count(ss, p)
    decreases ss
  {
    if ss != [] {
      RenderCountsOne(ss[0], w, open, p);
      RenderCounts(ss[1..], w, open, p);
      OpensAppends(RenderOne(ss[0], w), Render(ss[1..], w), open);
    }
  }

  predicate Counted(s: Stmt, w: Writer, open: string, p: Pattern) {
    NoBreaks(RenderOne(s, w)) && Opens(RenderOne(s, w), open) == CountOne(s, p)
  }

  lemma CountedIf(s: Stmt, w: Writer, open: string, p: Pattern)
    requires s.If? && Marks(w, open, p) && NoBreaks(Render(s.thn, w)) && NoBreaks(Render(s.els, w))
    requires Opens(Render(s.thn, w), open) == Count(s.thn, p) && Opens(Render(s.els, w), open) == Count(s.els, p)
    ensures Counted(s, w, open, p)
  {
    OpensFive(w.test(s.c), Render(s.thn, w), w.otherwise, Render(s.els, w), w.done, open);
  }

  lemma CountedLoop(s: Stmt, w: Writer, open: string, p: Pattern)
    requires (s.Loop? || s.KLoop?) && Marks(w, open, p) && NoBreaks(Render(s.body, w))
    requires Opens(Render(s.body, w), open) == Count(s.body, p)
    ensures Counted(s, w, open, p)
  {
    OpensThree(w.enter, Render(s.body, w), w.leave, open);
  }

  lemma CountedUnder(s: Stmt, w: Writer, open: string, p: Pattern)
    requires s.Guarded? && Marks(w, open, p) && Counted(s.line, w, open, p)
    ensures Counted(s, w, open, p)
  {
    OpensAppends(w.guard(s.c), RenderOne(s.line, w), open);
  }

  lemma {:induction false} RenderCountsOne(s: Stmt, w: Writer, open: string, p: Pattern)
    requires Marks(w, open, p)
    ensures Counted(s, w, open, p)
    decreases s
  {
    if s.If? {
      RenderCounts(s.thn, w, open, p);
      RenderCounts(s.els, w, open, p);
      CountedIf(s, w, open, p);
    } else if s.Guarded? {
      RenderCountsOne(s.line, w, open, p);
      CountedUnder(s, w, open, p);
    } else if s.Loop? || s.KLoop? {
      RenderCounts(s.body, w, open, p);
      CountedLoop(s, w, open, p);
    }
  }
}
