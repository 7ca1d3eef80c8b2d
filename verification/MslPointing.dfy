/** The load rewrite on text, and with it the whole of condition 2: the edits on the text
    of a kernel give the text of the rewritten kernel. */
module MslPointing {
  import opened Wrappers
  import opened Text
  import opened MslAddress
  import opened MslKernel
  import opened MslGuards
  import opened MslText
  import opened MslLines
  import opened MslRender
  import opened MslPlacing

  const FORMS: set<Form> := {Form(A, false), Form(A, true), Form(B, false), Form(B, true)}

  /** The loads whose address is written in one of the forms `fs`, repointed. */
  function Point(ss: seq<Stmt>, fs: set<Form>): seq<Stmt>
    decreases ss
  {
    if ss == [] then [] else [PointOne(ss[0], fs)] + Point(ss[1..], fs)
  }

  function PointOne(s: Stmt, fs: set<Form>): Stmt
    decreases s
  {
    match s
    case LoadIdx(b, a) => if FormOf(b, a) in fs then LoadPtr(b, a) else s
    case If(c, thn, els) => If(c, Point(thn, fs), Point(els, fs))
    case Guarded(c, line) => Guarded(c, PointOne(line, fs))
    case Loop(body) => Loop(Point(body, fs))
    case KLoop(body) => KLoop(Point(body, fs))
    case _ => s
  }

  lemma {:induction false} PointAppends(a: seq<Stmt>, b: seq<Stmt>, fs: set<Form>)
    ensures Point(a + b, fs) == Point(a, fs) + Point(b, fs)
  {
    if a == [] {
      assert a + b == b;
    } else {
      assert (a + b)[0] == a[0] && (a + b)[1..] == a[1..] + b;
      PointAppends(a[1..], b, fs);
    }
  }

  lemma PointSingle(s: Stmt, fs: set<Form>)
    ensures Point([s], fs) == [PointOne(s, fs)]
  {
    assert [s][1..] == [];
  }

  /** Form by form. */
  lemma {:induction false} PointAgain(ss: seq<Stmt>, fs: set<Form>, f: Form)
    ensures Point(Point(ss, fs), {f}) == Point(ss, fs + {f})
    decreases ss
  {
    if ss != [] {
      PointAgainOne(ss[0], fs, f);
      PointAgain(ss[1..], fs, f);
      assert ([PointOne(ss[0], fs)] + Point(ss[1..], fs))[1..] == Point(ss[1..], fs);
    }
  }

  lemma {:induction false} PointAgainOne(s: Stmt, fs: set<Form>, f: Form)
    ensures PointOne(PointOne(s, fs), {f}) == PointOne(s, fs + {f})
    decreases s
  {
    if s.If? {
      PointAgain(s.thn, fs, f);
      PointAgain(s.els, fs, f);
    } else if s.Guarded? {
      PointAgainOne(s.line, fs, f);
    } else if s.Loop? || s.KLoop? {
      PointAgain(s.body, fs, f);
    }
  }

  lemma {:induction false} PointNone(ss: seq<Stmt>)
    ensures Point(ss, {}) == ss
    decreases ss
  {
    if ss != [] {
      PointNoneOne(ss[0]);
      PointNone(ss[1..]);
    }
  }

  lemma {:induction false} PointNoneOne(s: Stmt)
    ensures PointOne(s, {}) == s
    decreases s
  {
    if s.If? {
      PointNone(s.thn);
      PointNone(s.els);
    } else if s.Guarded? {
      PointNoneOne(s.line);
    } else if s.Loop? || s.KLoop? {
      PointNone(s.body);
    }
  }

  // ---- one form, in the text ----------------------------------------------------------

  /** No address in index form is written in it. */
  predicate Free(l: string) {
    && Absent(l, IndexForm(Form(A, false))) && Absent(l, IndexForm(Form(A, true)))
    && Absent(l, IndexForm(Form(B, false))) && Absent(l, IndexForm(Form(B, true)))
  }

  predicate AllFree(lines: seq<string>) {
    forall i :: 0 <= i < |lines| ==> Free(lines[i])
  }

  lemma FreeOf(l: string, f: Form)
    requires Free(l)
    ensures Absent(l, IndexForm(f))
  {
    assert f.b == A || f.b == B;
    assert f == Form(f.b, false) || f == Form(f.b, true);
  }

  /** Index forms are written in loads only, once in each. */
  ghost predicate Unmarked(w: Writer) {
    && (forall e: Chain :: Free(w.expr(e)))
    && (forall s: Stmt :: AllFree(w.plain(s)))
    && (forall c: Chain :: AllFree(w.test(c)) && AllFree(w.guard(c)))
    && AllFree(w.otherwise) && AllFree(w.done) && AllFree(w.enter) && AllFree(w.leave)
    && (forall b: Buf, a: Addr :: Free(w.before(b, a)) && Free(w.behind(b, a)))
  }

  lemma FormChars(f: Form)
    ensures var p := IndexForm(f);
      && |p| > 21 && p[0] == '&' && NoBreak(p)
      && forall d :: 0 < d < |p| ==> p[d] != '&' && p[d] != ';' && p[d] != 'p'
  {
    assert f.b == A || f.b == B;
    assert f == Form(f.b, false) || f == Form(f.b, true);
  }

  /** Where two forms differ. */
  lemma FormsDiffer(f: Form, g: Form)
    requires f != g
    ensures var d := if f.b == g.b then 21 else 5;
      d < |IndexForm(f)| && d < |IndexForm(g)| && IndexForm(f)[d] != IndexForm(g)[d]
  {
    assert f.b == A || f.b == B;
    assert g.b == A || g.b == B;
    assert f == Form(f.b, false) || f == Form(f.b, true);
    assert g == Form(g.b, false) || g == Form(g.b, true);
  }

  lemma NoAmpersand(s: string, p: string)
    requires p != "" && p[0] == '&' && '&' !in s
    ensures Absent(s, p)
  {
    forall j | 0 <= j < |s| ensures !OccursAt(s, p, j) {
      OccursChars(s, p, j);
      assert s[j + 0] != p[0];
    }
  }

  lemma JoinsAbsent(a: string, b: string, p: string)
    requires p != "" && Absent(a, p) && Absent(b, p) && (b == "" || forall d :: 0 < d < |p| ==> p[d] != b[0])
    ensures Absent(a + b, p)
  {
    ApartByHead(a, b, p);
    AbsentBoth(a, b, p);
  }

  /** Nothing of a form crosses from text without `&` into other text. */
  lemma BehindPlain(x: string, m: string, p: string)
    requires p != "" && p[0] == '&' && '&' !in x && Absent(m, p)
    ensures Absent(x + m, p)
  {
    forall j | 0 <= j < |x + m| ensures !OccursAt(x + m, p, j) {
      if j < |x| {
        OccursChars(x + m, p, j);
        assert (x + m)[j + 0] == x[j] != p[0];
      } else {
        OccursShifted(x, m, p, j);
      }
    }
  }

  lemma SiteIsFree(s: Stmt, w: Writer, f: Form)
    requires (IsSite(s) || IsPtr(s)) && Tidy(w) && Unmarked(w)
    ensures |RenderOne(s, w)| == 1 && Absent(RenderOne(s, w)[0], IndexForm(f))
  {
    var p := IndexForm(f);
    FormChars(f);
    if s.Seed? {
      FreeOf(w.expr(s.e), f);
      SeedIsPlain(s.buf);
      BehindPlain(SeedOpen(s.buf), w.expr(s.e), p);
      NoAmpersand(";", p);
      JoinsAbsent(SeedOpen(s.buf) + w.expr(s.e), ";", p);
    } else {
      OthersArePlain(s, w);
      NoAmpersand(RenderOne(s, w)[0], p);
    }
  }

  lemma SeedIsPlain(b: Buf)
    ensures '&' !in SeedOpen(b)
  {
    assert b == A || b == B;
  }

  lemma LitIsPlain(l: string)
    requires CheckStep(l)
    ensures '&' !in l
  {
    var digits := if EndsWith(l, "U") then l[..|l| - 1] else l;
    forall i | 0 <= i < |l| ensures l[i] != '&' {
      if i < |digits| {
        assert IsDigit(digits[i]);
      } else {
        assert l[|l| - 1..] == "U" && l[i] == l[|l| - 1..][0];
      }
    }
  }

  lemma PlainThree(x: string, y: string, z: string)
    requires '&' !in x && '&' !in y && '&' !in z
    ensures '&' !in x + y + z
  {
  }

  lemma OthersArePlain(s: Stmt, w: Writer)
    requires (IsSite(s) || IsPtr(s)) && !s.Seed? && Tidy(w)
    ensures |RenderOne(s, w)| == 1 && '&' !in RenderOne(s, w)[0]
  {
    if s.Step? {
      LitIsPlain(w.lit(s.n));
      StepIsPlain(s.buf);
      PlainThree(StepOpen(s.buf), w.lit(s.n), ";");
    } else if s.PtrStep? {
      LitIsPlain(w.lit(s.n));
      PtrStepIsPlain(s.buf);
      PlainThree(PtrStepOpen(s.buf), w.lit(s.n), ");");
    } else {
      assert s.buf == A || s.buf == B;
    }
  }

  lemma StepIsPlain(b: Buf)
    ensures '&' !in StepOpen(b)
  {
    assert b == A || b == B;
  }

  lemma PtrStepIsPlain(b: Buf)
    ensures '&' !in PtrStepOpen(b)
  {
    PlainThree(INNER, "threadgroup const half* ", "pa_1 = pa_0 + (");
    PlainThree(INNER, "threadgroup const float* ", "pb_1 = pb_0 + (");
  }

  /** The first occurrence is the form itself, if it is the one sought. */
  lemma FormReplaced(g: Form, rest: string, f: Form)
    requires Absent(rest, IndexForm(f))
    ensures Replace(IndexForm(g) + rest, IndexForm(f), PointerForm(f))
         == (if g == f then PointerForm(f) else IndexForm(g)) + rest
  {
    var p := IndexForm(f);
    FormChars(f);
    FormChars(g);
    if g == f {
      ReplaceHead(p, PointerForm(f), rest);
      ReplaceNothing(rest, p, PointerForm(f));
    } else {
      OtherFormStays(g, rest, f);
      ReplaceNothing(IndexForm(g) + rest, p, PointerForm(f));
    }
  }

  lemma OtherFormStays(g: Form, rest: string, f: Form)
    requires g != f && Absent(rest, IndexForm(f))
    ensures Absent(IndexForm(g) + rest, IndexForm(f))
  {
    var p, q := IndexForm(f), IndexForm(g);
    FormChars(f);
    FormChars(g);
    FormsDiffer(f, g);
    forall j | 0 <= j < |q + rest| ensures !OccursAt(q + rest, p, j) {
      if j < |q| {
        OccursChars(q + rest, p, j);
        var d := if f.b == g.b then 21 else 5;
        assert j == 0 ==> (q + rest)[j + d] == q[d] != p[d];
        assert j > 0 ==> (q + rest)[j + 0] == q[j] != p[0];
      } else {
        OccursShifted(q, rest, p, j);
      }
    }
  }

  lemma LoadLine(x: string, g: Form, y: string, f: Form)
    requires Absent(x, IndexForm(f)) && Absent(y, IndexForm(f))
    ensures Replace(x + (IndexForm(g) + y), IndexForm(f), PointerForm(f))
         == x + ((if g == f then PointerForm(f) else IndexForm(g)) + y)
  {
    FormChars(f);
    FormChars(g);
    ApartByHead(x, IndexForm(g) + y, IndexForm(f));
    ReplaceSplits(x, IndexForm(g) + y, IndexForm(f), PointerForm(f));
    ReplaceNothing(x, IndexForm(f), PointerForm(f));
    FormReplaced(g, y, f);
  }

  lemma PointedLine(x: string, g: Form, y: string, f: Form)
    requires Absent(x, IndexForm(f)) && Absent(y, IndexForm(f))
    ensures Absent(x + (PointerForm(g) + y), IndexForm(f))
  {
    FormChars(f);
    assert g.b == A || g.b == B;
    assert g == Form(g.b, false) || g == Form(g.b, true);
    assert PointerForm(g)[0] == 'p' && '&' !in PointerForm(g);
    BehindPlain(PointerForm(g), y, IndexForm(f));
    JoinsAbsent(x, PointerForm(g) + y, IndexForm(f));
  }

  lemma {:induction false} EachAppends(a: seq<string>, b: seq<string>, p: string, w: string)
    requires p != ""
    ensures ReplaceEach(a + b, p, w) == ReplaceEach(a, p, w) + ReplaceEach(b, p, w)
  {
    if a == [] {
      assert a + b == b;
    } else {
      assert (a + b)[0] == a[0] && (a + b)[1..] == a[1..] + b;
      EachAppends(a[1..], b, p, w);
    }
  }

  lemma {:induction false} EachFree(lines: seq<string>, f: Form)
    requires AllFree(lines) && IndexForm(f) != ""
    ensures ReplaceEach(lines, IndexForm(f), PointerForm(f)) == lines
  {
    if lines != [] {
      FreeOf(lines[0], f);
      ReplaceNothing(lines[0], IndexForm(f), PointerForm(f));
      EachFree(lines[1..], f);
    }
  }

  /** Replaces one form in each line. */
  function Pointed(lines: seq<string>, f: Form): seq<string> {
    FormChars(f);
    ReplaceEach(lines, IndexForm(f), PointerForm(f))
  }

  lemma PointedThree(a: seq<string>, b: seq<string>, c: seq<string>, f: Form)
    requires AllFree(a) && AllFree(c)
    ensures Pointed(a + b + c, f) == a + Pointed(b, f) + c
  {
    FormChars(f);
    EachAppends(a + b, c, IndexForm(f), PointerForm(f));
    EachAppends(a, b, IndexForm(f), PointerForm(f));
    EachFree(a, f);
    EachFree(c, f);
  }

  lemma PointedFive(a: seq<string>, b: seq<string>, c: seq<string>, d: seq<string>, e: seq<string>, f: Form)
    requires AllFree(a) && AllFree(c) && AllFree(e)
    ensures Pointed(a + b + c + d + e, f) == a + Pointed(b, f) + c + Pointed(d, f) + e
  {
    FormChars(f);
    PointedThree(a, b, c, f);
    EachAppends(a + b + c, d, IndexForm(f), PointerForm(f));
    EachAppends(a + b + c + d, e, IndexForm(f), PointerForm(f));
    EachFree(e, f);
  }

  lemma PointedSingle(l: string, f: Form)
    ensures IndexForm(f) != "" && Pointed([l], f) == [Replace(l, IndexForm(f), PointerForm(f))]
  {
    FormChars(f);
    EachSingle(l, IndexForm(f), PointerForm(f));
  }

  lemma EachSingle(l: string, p: string, w: string)
    requires p != ""
    ensures ReplaceEach([l], p, w) == [Replace(l, p, w)]
  {
    assert [l][1..] == [];
    assert ReplaceEach([], p, w) == [];
  }

  lemma LeafPointed(s: Stmt, w: Writer, f: Form)
    requires IsLeaf(s) && Tidy(w) && Unmarked(w)
    ensures Pointed(RenderOne(s, w), f) == RenderOne(PointOne(s, {f}), w)
  {
    FormChars(f);
    if s.LoadIdx? {
      FreeOf(w.before(s.buf, s.at), f);
      FreeOf(w.behind(s.buf, s.at), f);
      LoadLine(w.before(s.buf, s.at), FormOf(s.buf, s.at), w.behind(s.buf, s.at), f);
      PointedSingle(RenderOne(s, w)[0], f);
    } else if s.LoadPtr? {
      FreeOf(w.before(s.buf, s.at), f);
      FreeOf(w.behind(s.buf, s.at), f);
      PointedLine(w.before(s.buf, s.at), FormOf(s.buf, s.at), w.behind(s.buf, s.at), f);
      StaysAsIs(RenderOne(s, w)[0], f);
    } else if IsSite(s) || IsPtr(s) {
      SiteIsFree(s, w, f);
      StaysAsIs(RenderOne(s, w)[0], f);
    } else {
      EachFree(w.plain(s), f);
    }
  }

  lemma StaysAsIs(l: string, f: Form)
    requires Absent(l, IndexForm(f))
    ensures Pointed([l], f) == [l]
  {
    PointedSingle(l, f);
    ReplaceNothing(l, IndexForm(f), PointerForm(f));
  }

  lemma {:induction false} RenderPointed(ss: seq<Stmt>, w: Writer, f: Form)
    requires Tidy(w) && Unmarked(w)
    ensures Pointed(Render(ss, w), f) == Render(Point(ss, {f}), w)
    decreases ss
  {
    if ss != [] {
      FormChars(f);
      RenderPointedOne(ss[0], w, f);
      RenderPointed(ss[1..], w, f);
      EachAppends(RenderOne(ss[0], w), Render(ss[1..], w), IndexForm(f), PointerForm(f));
      assert ([PointOne(ss[0], {f})] + Point(ss[1..], {f}))[1..] == Point(ss[1..], {f});
    }
  }

  predicate IsPointed(s: Stmt, w: Writer, f: Form) {
    Pointed(RenderOne(s, w), f) == RenderOne(PointOne(s, {f}), w)
  }

  lemma IfPointed(s: Stmt, w: Writer, f: Form)
    requires s.If? && Unmarked(w)
    requires Pointed(Render(s.thn, w), f) == Render(Point(s.thn, {f}), w)
    requires Pointed(Render(s.els, w), f) == Render(Point(s.els, {f}), w)
    ensures IsPointed(s, w, f)
  {
    PointedFive(w.test(s.c), Render(s.thn, w), w.otherwise, Render(s.els, w), w.done, f);
  }

  lemma LoopPointed(s: Stmt, w: Writer, f: Form)
    requires (s.Loop? || s.KLoop?) && Unmarked(w) && Pointed(Render(s.body, w), f) == Render(Point(s.body, {f}), w)
    ensures IsPointed(s, w, f)
  {
    PointedThree(w.enter, Render(s.body, w), w.leave, f);
  }

  lemma UnderPointed(s: Stmt, w: Writer, f: Form)
    requires s.Guarded? && Unmarked(w) && IsPointed(s.line, w, f)
    ensures IsPointed(s, w, f)
  {
    PointedTwo(w.guard(s.c), RenderOne(s.line, w), f);
  }

  lemma {:induction false} RenderPointedOne(s: Stmt, w: Writer, f: Form)
    requires Tidy(w) && Unmarked(w)
    ensures IsPointed(s, w, f)
    decreases s
  {
    if s.If? {
      RenderPointed(s.thn, w, f);
      RenderPointed(s.els, w, f);
      IfPointed(s, w, f);
    } else if s.Guarded? {
      RenderPointedOne(s.line, w, f);
      UnderPointed(s, w, f);
    } else if s.Loop? || s.KLoop? {
      RenderPointed(s.body, w, f);
      LoopPointed(s, w, f);
    } else {
      LeafPointed(s, w, f);
    }
  }

  lemma PointedTwo(a: seq<string>, b: seq<string>, f: Form)
    requires AllFree(a)
    ensures Pointed(a + b, f) == a + Pointed(b, f)
  {
    FormChars(f);
    EachAppends(a, b, IndexForm(f), PointerForm(f));
    EachFree(a, f);
  }

  /** One `replace` on the text of a program repoints the loads of one form. */
  lemma FormIsRendered(ss: seq<Stmt>, fs: set<Form>, w: Writer, f: Form)
    requires Tidy(w) && Unmarked(w)
    ensures IndexForm(f) != ""
    ensures Replace(Join(Render(Point(ss, fs), w)), IndexForm(f), PointerForm(f))
         == Join(Render(Point(ss, fs + {f}), w))
  {
    FormChars(f);
    ReplaceLines(Render(Point(ss, fs), w), IndexForm(f), PointerForm(f));
    RenderPointed(Point(ss, fs), w, f);
    PointAgain(ss, fs, f);
  }

  /** The load rewrite on the text of a program gives the text of the program with all
      its loads repointed. */
  lemma LoadsAreRendered(ss: seq<Stmt>, w: Writer)
    requires Tidy(w) && Unmarked(w)
    ensures PointLoads(Join(Render(ss, w))) == Join(Render(Point(ss, FORMS), w))
  {
    var f1, f2, f3, f4 := Form(A, false), Form(A, true), Form(B, false), Form(B, true);
    PointNone(ss);
    FormIsRendered(ss, {}, w, f1);
    FormIsRendered(ss, {} + {f1}, w, f2);
    FormIsRendered(ss, {} + {f1} + {f2}, w, f3);
    FormIsRendered(ss, {} + {f1} + {f2} + {f3}, w, f4);
    assert {} + {f1} + {f2} + {f3} + {f4} == FORMS;
    FourReplaces(Join(Render(ss, w)));
  }

  lemma FourReplaces(t: string)
    ensures IndexForm(Form(A, false)) != "" && IndexForm(Form(A, true)) != ""
    ensures IndexForm(Form(B, false)) != "" && IndexForm(Form(B, true)) != ""
    ensures PointLoads(t) == Replace(Replace(Replace(Replace(t,
        IndexForm(Form(A, false)), PointerForm(Form(A, false))),
        IndexForm(Form(A, true)), PointerForm(Form(A, true))),
        IndexForm(Form(B, false)), PointerForm(Form(B, false))),
        IndexForm(Form(B, true)), PointerForm(Form(B, true)))
  {
  }

  /** A plain writer that meets both conditions. */
  const PLAINLY: Writer := Writer(
    e => "0", n => "1", s => ["x"], c => ["x"], ["x"], ["x"], c => ["x"], ["x"], ["x"], (b, a) => "", (b, a) => "")

  lemma ShortIsOrdinary(l: string)
    requires NoBreak(l) && (l == "x" || (l != "" && l[0] != ' '))
    ensures Ordinary(l)
  {
    forall k: Kind ensures !StartsWith(l, Opener(k)) {
      assert k.b == A || k.b == B;
      assert |Opener(k)| > 1 && Opener(k)[0] == ' ';
    }
    OrdinaryIf(l);
  }

  lemma ShortIsFree(l: string)
    requires |l| <= 1
    ensures Free(l)
  {
    FormChars(Form(A, false));
    FormChars(Form(A, true));
    FormChars(Form(B, false));
    FormChars(Form(B, true));
  }

  lemma FormIsOrdinary(f: Form)
    ensures Ordinary("" + (IndexForm(f) + "")) && Ordinary("" + (PointerForm(f) + ""))
  {
    FormChars(f);
    assert f.b == A || f.b == B;
    assert f == Form(f.b, false) || f == Form(f.b, true);
    assert "" + (IndexForm(f) + "") == IndexForm(f) && "" + (PointerForm(f) + "") == PointerForm(f);
    ShortIsOrdinary(IndexForm(f));
    ShortIsOrdinary(PointerForm(f));
  }

  lemma OneIsStep()
    ensures CheckStep("1") && NoBreak("0") && ';' !in "0"
  {
    assert !EndsWith("1", "U") && AllDigits("1");
  }

  lemma PlainlyLoads()
    ensures OrdinaryLoads(PLAINLY)
  {
    forall b: Buf, a: Addr
      ensures Ordinary(PLAINLY.before(b, a) + (IndexForm(FormOf(b, a)) + PLAINLY.behind(b, a)))
      ensures Ordinary(PLAINLY.before(b, a) + (PointerForm(FormOf(b, a)) + PLAINLY.behind(b, a)))
    {
      FormIsOrdinary(FormOf(b, a));
    }
  }

  lemma OneLineTidy(w: Writer, l: string, text: string, lit: string)
    requires Ordinary(l) && OrdinaryLoads(w) && CheckStep(lit) && NoBreak(text) && ';' !in text
    requires forall e: Chain :: w.expr(e) == text
    requires forall n: nat :: w.lit(n) == lit
    requires forall s: Stmt :: w.plain(s) == [l]
    requires forall c: Chain :: w.test(c) == [l] == w.guard(c)
    requires w.otherwise == w.done == w.enter == w.leave == [l]
    ensures Tidy(w)
  {
    assert AllOrdinary([l]);
  }

  lemma PlainlyIsTidy()
    ensures Tidy(PLAINLY)
  {
    ShortIsOrdinary("x");
    OneIsStep();
    PlainlyLoads();
    OneLineTidy(PLAINLY, "x", "0", "1");
  }

  lemma PlainlyIsUnmarked()
    ensures Unmarked(PLAINLY)
  {
    ShortIsFree("x");
    ShortIsFree("0");
    ShortIsFree("");
  }

  // ---- the rewrite of programs ------------------------------------------------------------

  lemma EveryKind(k: Kind)
    ensures k in EVERY
  {
    assert k.b == A || k.b == B;
  }

  lemma EveryForm(f: Form)
    ensures f in FORMS
  {
    assert f.b == A || f.b == B;
    assert f == Form(f.b, false) || f == Form(f.b, true);
  }

  /** Inside the k-loop the rewrite is both edits. */
  lemma {:induction false} RewriteIsBoth(ss: seq<Stmt>)
    ensures Rewrite(ss, true) == Point(Place(ss, EVERY), FORMS)
    decreases ss
  {
    if ss != [] {
      RewriteIsBothOne(ss[0]);
      RewriteIsBoth(ss[1..]);
      PointAppends(PlaceOne(ss[0], EVERY), Place(ss[1..], EVERY), FORMS);
    }
  }

  lemma {:induction false} RewriteIsBothOne(s: Stmt)
    ensures RewriteOne(s, true) == Point(PlaceOne(s, EVERY), FORMS)
    decreases s
  {
    if s.If? {
      RewriteIsBoth(s.thn);
      RewriteIsBoth(s.els);
      PointSingle(PlaceOne(s, EVERY)[0], FORMS);
    } else if s.Loop? || s.KLoop? {
      RewriteIsBoth(s.body);
      PointSingle(PlaceOne(s, EVERY)[0], FORMS);
    } else if s.Guarded? {
      RewriteIsBothOne(s.line);
      PointGuarded(s.c, PlaceOne(s.line, EVERY));
    } else if IsSite(s) {
      EveryKind(KindOf(s));
      assert [s, Inserted(s)] == [s] + [Inserted(s)];
      PointAppends([s], [Inserted(s)], FORMS);
      PointSingle(s, FORMS);
      PointSingle(Inserted(s), FORMS);
    } else {
      PointSingle(s, FORMS);
      if s.LoadIdx? {
        EveryForm(FormOf(s.buf, s.at));
      }
    }
  }

  lemma PointGuarded(c: Chain, lines: seq<Stmt>)
    requires lines != []
    ensures Point([Guarded(c, lines[0])] + lines[1..], FORMS)
         == var pointed := Point(lines, FORMS); [Guarded(c, pointed[0])] + pointed[1..]
  {
    PointAppends([Guarded(c, lines[0])], lines[1..], FORMS);
    PointSingle(Guarded(c, lines[0]), FORMS);
    assert ([PointOne(lines[0], FORMS)] + Point(lines[1..], FORMS))[1..] == Point(lines[1..], FORMS);
  }

  /** Outside it is the pointer lines alone. */
  lemma {:induction false} RewriteIsPlace(ss: seq<Stmt>)
    requires Count(ss, TheKLoop()) == 0
    ensures Rewrite(ss, false) == Place(ss, EVERY)
    decreases ss
  {
    if ss != [] {
      RewriteIsPlaceOne(ss[0]);
      RewriteIsPlace(ss[1..]);
    }
  }

  lemma {:induction false} RewriteIsPlaceOne(s: Stmt)
    requires CountOne(s, TheKLoop()) == 0
    ensures RewriteOne(s, false) == PlaceOne(s, EVERY)
    decreases s
  {
    assert !TheKLoop()(s);
    if s.If? {
      RewriteIsPlace(s.thn);
      RewriteIsPlace(s.els);
    } else if s.Loop? {
      RewriteIsPlace(s.body);
    } else if s.Guarded? {
      RewriteIsPlaceOne(s.line);
    } else if IsSite(s) {
      EveryKind(KindOf(s));
    }
  }

  // ---- kernels ------------------------------------------------------------------------------

  /** The program of a kernel around its k-loop, which becomes `loop`. */
  function Around(k: Kernel, loop: seq<Stmt>): seq<Stmt> {
    Place(k.before, EVERY)
    + [Loop(Place(k.pre + [k.opening] + k.span, EVERY) + loop + Place(k.post, EVERY))]
    + Place(k.after, EVERY)
  }

  lemma PlaceKernel(k: Kernel)
    ensures Place(Program(k), EVERY) == Around(k, Place([KLoop(k.kbody)], EVERY))
  {
    var head := k.pre + [k.opening] + k.span;
    assert TileBody(k) == head + [KLoop(k.kbody)] + k.post;
    PlaceAppends(k.before + [Loop(TileBody(k))], k.after, EVERY);
    PlaceAppends(k.before, [Loop(TileBody(k))], EVERY);
    PlaceSingle(Loop(TileBody(k)), EVERY);
    PlaceAppends(head + [KLoop(k.kbody)], k.post, EVERY);
    PlaceAppends(head, [KLoop(k.kbody)], EVERY);
  }

  lemma RewriteKernel(k: Kernel)
    requires Count(Program(k), TheKLoop()) == 1
    ensures Rewrite(Program(k), false) == Around(k, Rewrite([KLoop(k.kbody)], false))
  {
    var head := k.pre + [k.opening] + k.span;
    assert TileBody(k) == head + [KLoop(k.kbody)] + k.post;
    NoKLoopAround(k);
    RewriteIsPlace(k.before);
    RewriteIsPlace(head);
    RewriteIsPlace(k.post);
    RewriteIsPlace(k.after);
    RewriteAppends(k.before + [Loop(TileBody(k))], k.after, false);
    RewriteAppends(k.before, [Loop(TileBody(k))], false);
    RewriteSingle(Loop(TileBody(k)), false);
    RewriteAppends(head + [KLoop(k.kbody)], k.post, false);
    RewriteAppends(head, [KLoop(k.kbody)], false);
  }

  lemma NoKLoopAround(k: Kernel)
    requires Count(Program(k), TheKLoop()) == 1
    ensures Count(k.before, TheKLoop()) == 0 && Count(k.pre + [k.opening] + k.span, TheKLoop()) == 0
    ensures Count(k.post, TheKLoop()) == 0 && Count(k.after, TheKLoop()) == 0
  {
    var p := TheKLoop();
    CountProgram(k, p);
    CountRegion(k, p);
    CountAppends(k.pre + [k.opening], k.span, p);
    CountAppends(k.pre, [k.opening], p);
    CountSingle(k.opening, p);
  }

  /** The lines above and below the k-loop. */
  function Above(k: Kernel, w: Writer): seq<string> {
    Render(Place(k.before, EVERY), w) + w.enter + Render(Place(k.pre + [k.opening] + k.span, EVERY), w)
  }

  function Below(k: Kernel, w: Writer): seq<string> {
    Render(Place(k.post, EVERY), w) + w.leave + Render(Place(k.after, EVERY), w)
  }

  lemma AroundText(k: Kernel, loop: seq<Stmt>, w: Writer)
    ensures Render(Around(k, loop), w) == Above(k, w) + Render(loop, w) + Below(k, w)
  {
    var a, z := Place(k.before, EVERY), Place(k.after, EVERY);
    var head, post := Place(k.pre + [k.opening] + k.span, EVERY), Place(k.post, EVERY);
    RenderAppends(a + [Loop(head + loop + post)], z, w);
    RenderAppends(a, [Loop(head + loop + post)], w);
    RenderSingle(Loop(head + loop + post), w);
    RenderAppends(head + loop, post, w);
    RenderAppends(head, loop, w);
    Flatten(Render(a, w), w.enter, Render(head, w), Render(loop, w), Render(post, w), w.leave, Render(z, w));
  }

  lemma Flatten(
      a: seq<string>, b: seq<string>, c: seq<string>, d: seq<string>, e: seq<string>, f: seq<string>, g: seq<string>)
    ensures a + (b + (c + d + e) + f) + g == (a + b + c) + d + (e + f + g)
  {
  }

  lemma JoinAround(front: string, a: seq<string>, m: seq<string>, b: seq<string>)
    ensures front + Join(a + m + b) == front + Join(a) + Join(m) + Join(b)
  {
    JoinAppends(a + m, b);
    JoinAppends(a, m);
    FourParts(front, Join(a), Join(m), Join(b));
  }

  lemma FourParts(a: string, b: string, c: string, d: string)
    ensures a + (b + c + d) == a + b + c + d
  {
  }

  /** The k-loop's text after the pointer lines are placed. */
  function LoopText(k: Kernel, w: Writer): string {
    Join(Render(Place([KLoop(k.kbody)], EVERY), w))
  }

  /** Condition 2 on the text of a kernel: the pointer lines can be placed exactly if
      each site stands there once, and repointing the loads in the text of the k-loop
      then gives the text of the rewritten kernel. */
  lemma RewriteIsRendered(front: string, k: Kernel, w: Writer)
    requires Tidy(w) && Unmarked(w) && FrontClear(front) && Count(Program(k), TheKLoop()) == 1
    ensures var placed := PlacePointers(front + Join(Render(Program(k), w)));
      && (placed.Ok? <==> forall kind: Kind :: Count(Program(k), Sites(kind)) == 1)
      && (placed.Ok? ==>
            && placed.value == front + Join(Above(k, w)) + LoopText(k, w) + Join(Below(k, w))
            && front + Join(Above(k, w)) + PointLoads(LoopText(k, w)) + Join(Below(k, w))
               == front + Join(Render(Rewrite(Program(k), false), w)))
  {
    var loop := [KLoop(k.kbody)];
    PointersAreRendered(front, Program(k), w);
    PlaceKernel(k);
    AroundText(k, Place(loop, EVERY), w);
    JoinAround(front, Above(k, w), Render(Place(loop, EVERY), w), Below(k, w));
    LoadsAreRendered(Place(loop, EVERY), w);
    LoopIsBoth(k.kbody);
    RewriteKernel(k);
    AroundText(k, Rewrite(loop, false), w);
    JoinAround(front, Above(k, w), Render(Rewrite(loop, false), w), Below(k, w));
  }

  lemma LoopIsBoth(body: seq<Stmt>)
    ensures Rewrite([KLoop(body)], false) == Point(Place([KLoop(body)], EVERY), FORMS)
  {
    RewriteIsBoth(body);
    RewriteSingle(KLoop(body), false);
    PlaceSingle(KLoop(body), EVERY);
    PointSingle(KLoop(Place(body, EVERY)), FORMS);
  }
}
