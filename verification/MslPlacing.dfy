/** The pointer lines on text: the pass places them in the text of a program exactly
    where the program has one site of each kind, and what it gives is the text of the
    program with the lines below the sites. */
module MslPlacing {
  import opened Wrappers
  import opened Text
  import opened MslAddress
  import opened MslKernel
  import opened MslGuards
  import opened MslText
  import opened MslLines
  import opened MslRender

  // ---- pointer lines ----------------------------------------------------------------

  /** The pointer lines of the kinds in `ks`, below their sites. */
  function Place(ss: seq<Stmt>, ks: set<Kind>): seq<Stmt>
    decreases ss
  {
    if ss == [] then [] else PlaceOne(ss[0], ks) + Place(ss[1..], ks)
  }

  function PlaceOne(s: Stmt, ks: set<Kind>): (r: seq<Stmt>)
    ensures r != []
    decreases s
  {
    match s
    case If(c, thn, els) => [If(c, Place(thn, ks), Place(els, ks))]
    case Guarded(c, line) =>
      var lines := PlaceOne(line, ks);
      [Guarded(c, lines[0])] + lines[1..]
    case Loop(body) => [Loop(Place(body, ks))]
    case KLoop(body) => [KLoop(Place(body, ks))]
    case _ => if IsSite(s) && KindOf(s) in ks then [s, Inserted(s)] else [s]
  }

  lemma {:induction false} PlaceAppends(a: seq<Stmt>, b: seq<Stmt>, ks: set<Kind>)
    ensures Place(a + b, ks) == Place(a, ks) + Place(b, ks)
  {
    if a == [] {
      assert a + b == b;
    } else {
      assert (a + b)[0] == a[0] && (a + b)[1..] == a[1..] + b;
      PlaceAppends(a[1..], b, ks);
    }
  }

  lemma PlaceSingle(s: Stmt, ks: set<Kind>)
    ensures Place([s], ks) == PlaceOne(s, ks)
  {
    assert [s][1..] == [];
  }

  /** Kind by kind. */
  lemma {:induction false} PlaceAgain(ss: seq<Stmt>, ks: set<Kind>, k: Kind)
    requires k !in ks
    ensures Place(Place(ss, ks), {k}) == Place(ss, ks + {k})
    decreases ss
  {
    if ss != [] {
      PlaceAgainOne(ss[0], ks, k);
      PlaceAgain(ss[1..], ks, k);
      PlaceAppends(PlaceOne(ss[0], ks), Place(ss[1..], ks), {k});
    }
  }

  lemma {:induction false} PlaceAgainOne(s: Stmt, ks: set<Kind>, k: Kind)
    requires k !in ks
    ensures Place(PlaceOne(s, ks), {k}) == PlaceOne(s, ks + {k})
    decreases s
  {
    if s.If? {
      PlaceAgain(s.thn, ks, k);
      PlaceAgain(s.els, ks, k);
      PlaceSingle(PlaceOne(s, ks)[0], {k});
    } else if s.Loop? || s.KLoop? {
      PlaceAgain(s.body, ks, k);
      PlaceSingle(PlaceOne(s, ks)[0], {k});
    } else if s.Guarded? {
      PlaceAgainOne(s.line, ks, k);
      PlaceGuarded(s.c, PlaceOne(s.line, ks), {k});
    } else if IsSite(s) && KindOf(s) in ks {
      PlaceAppends([s], [Inserted(s)], {k});
      PlaceSingle(s, {k});
      PlaceSingle(Inserted(s), {k});
      assert [s] + [Inserted(s)] == [s, Inserted(s)];
    } else {
      PlaceSingle(s, {k});
    }
  }

  lemma PlaceGuarded(c: Chain, lines: seq<Stmt>, ks: set<Kind>)
    requires lines != []
    ensures Place([Guarded(c, lines[0])] + lines[1..], ks)
         == var placed := Place(lines, ks); [Guarded(c, placed[0])] + placed[1..]
  {
    PlaceAppends([Guarded(c, lines[0])], lines[1..], ks);
    PlaceSingle(Guarded(c, lines[0]), ks);
    FirstOfJoined(PlaceOne(lines[0], ks), Place(lines[1..], ks), c);
  }

  lemma FirstOfJoined(first: seq<Stmt>, rest: seq<Stmt>, c: Chain)
    requires first != []
    ensures [Guarded(c, first[0])] + first[1..] + rest == [Guarded(c, (first + rest)[0])] + (first + rest)[1..]
  {
  }

  /** Pointer lines are no sites. */
  lemma {:induction false} PlaceKeepsCounts(ss: seq<Stmt>, ks: set<Kind>, k: Kind)
    ensures Count(Place(ss, ks), Sites(k)) == Count(ss, Sites(k))
    decreases ss
  {
    if ss != [] {
      PlaceKeepsCountsOne(ss[0], ks, k);
      PlaceKeepsCounts(ss[1..], ks, k);
      CountAppends(PlaceOne(ss[0], ks), Place(ss[1..], ks), Sites(k));
    }
  }

  lemma CountGuarded(c: Chain, lines: seq<Stmt>, k: Kind)
    requires lines != []
    ensures Count([Guarded(c, lines[0])] + lines[1..], Sites(k)) == Count(lines, Sites(k))
  {
    assert lines == [lines[0]] + lines[1..];
    CountAppends([lines[0]], lines[1..], Sites(k));
    CountAppends([Guarded(c, lines[0])], lines[1..], Sites(k));
    CountSingle(lines[0], Sites(k));
    CountSingle(Guarded(c, lines[0]), Sites(k));
    SitesIff(Guarded(c, lines[0]), k);
  }

  lemma CountIf(c: Chain, thn: seq<Stmt>, els: seq<Stmt>, k: Kind)
    ensures Count([If(c, thn, els)], Sites(k)) == CountOne(If(c, thn, els), Sites(k))
    ensures CountOne(If(c, thn, els), Sites(k)) == Count(thn, Sites(k)) + Count(els, Sites(k))
  {
    SitesIff(If(c, thn, els), k);
    CountSingle(If(c, thn, els), Sites(k));
  }

  lemma CountLoop(s: Stmt, k: Kind)
    requires s.Loop? || s.KLoop?
    ensures Count([s], Sites(k)) == CountOne(s, Sites(k)) == Count(s.body, Sites(k))
  {
    SitesIff(s, k);
    CountSingle(s, Sites(k));
  }

  lemma CountUnder(s: Stmt, k: Kind)
    requires s.Guarded?
    ensures CountOne(s, Sites(k)) == CountOne(s.line, Sites(k))
  {
    SitesIff(s, k);
  }

  lemma CountSite(s: Stmt, k: Kind)
    requires IsSite(s)
    ensures Count([s, Inserted(s)], Sites(k)) == CountOne(s, Sites(k))
  {
    assert [s] + [Inserted(s)] == [s, Inserted(s)];
    CountAppends([s], [Inserted(s)], Sites(k));
    CountSingle(s, Sites(k));
    CountSingle(Inserted(s), Sites(k));
    SitesIff(Inserted(s), k);
  }

  lemma {:induction false} PlaceKeepsCountsOne(s: Stmt, ks: set<Kind>, k: Kind)
    ensures Count(PlaceOne(s, ks), Sites(k)) == CountOne(s, Sites(k))
    decreases s
  {
    if s.If? {
      PlaceKeepsCounts(s.thn, ks, k);
      PlaceKeepsCounts(s.els, ks, k);
      CountIf(s.c, s.thn, s.els, k);
      CountIf(s.c, Place(s.thn, ks), Place(s.els, ks), k);
    } else if s.Loop? || s.KLoop? {
      PlaceKeepsCounts(s.body, ks, k);
      CountLoop(s, k);
      CountLoop(PlaceOne(s, ks)[0], k);
    } else if s.Guarded? {
      PlaceKeepsCountsOne(s.line, ks, k);
      CountUnder(s, k);
      CountGuarded(s.c, PlaceOne(s.line, ks), k);
    } else if IsSite(s) && KindOf(s) in ks {
      CountSite(s, k);
    } else {
      CountSingle(s, Sites(k));
    }
  }

  /** Where the program has no such site, nothing is placed. */
  lemma {:induction false} PlaceNothing(ss: seq<Stmt>, k: Kind)
    requires Count(ss, Sites(k)) == 0
    ensures Place(ss, {k}) == ss
    decreases ss
  {
    if ss != [] {
      PlaceNothingOne(ss[0], k);
      PlaceNothing(ss[1..], k);
    }
  }

  lemma {:induction false} PlaceNothingOne(s: Stmt, k: Kind)
    requires CountOne(s, Sites(k)) == 0
    ensures PlaceOne(s, {k}) == [s]
    decreases s
  {
    SitesIff(s, k);
    if s.If? {
      PlaceNothing(s.thn, k);
      PlaceNothing(s.els, k);
    } else if s.Loop? || s.KLoop? {
      PlaceNothing(s.body, k);
    } else if s.Guarded? {
      PlaceNothingOne(s.line, k);
    }
  }

  /** The text around the only site of a kind, without and with its pointer line. */
  ghost predicate SplitsAt(s: Stmt, w: Writer, a: seq<string>, b: seq<string>, t: seq<string>, u: seq<string>) {
    IsSite(s) && t == a + RenderOne(s, w) + b && u == a + (RenderOne(s, w) + RenderOne(Inserted(s), w)) + b
  }

  lemma Surround(
      s: Stmt, w: Writer, a: seq<string>, b: seq<string>, t: seq<string>, u: seq<string>, x: seq<string>, y: seq<string>)
    requires SplitsAt(s, w, a, b, t, u)
    ensures SplitsAt(s, w, x + a, b + y, x + t + y, x + u + y)
  {
    var l, m := RenderOne(s, w), RenderOne(Inserted(s), w);
    assert x + (a + l + b) + y == (x + a) + l + (b + y);
    assert x + (a + (l + m) + b) + y == (x + a) + (l + m) + (b + y);
  }

  lemma {:induction false} SplitText(ss: seq<Stmt>, w: Writer, k: Kind)
    returns (s: Stmt, a: seq<string>, b: seq<string>)
    requires Count(ss, Sites(k)) == 1
    ensures IsSite(s) && KindOf(s) == k && SplitsAt(s, w, a, b, Render(ss, w), Render(Place(ss, {k}), w))
    decreases ss
  {
    var head, rest := ss[0], ss[1..];
    RenderAppends(PlaceOne(head, {k}), Place(rest, {k}), w);
    if CountOne(head, Sites(k)) == 1 {
      PlaceNothing(rest, k);
      s, a, b := SplitTextOne(head, w, k);
      Surround(s, w, a, b, RenderOne(head, w), Render(PlaceOne(head, {k}), w), [], Render(rest, w));
      NoneAround(RenderOne(head, w), Render(rest, w));
      NoneAround(Render(PlaceOne(head, {k}), w), Render(rest, w));
      a, b := [] + a, b + Render(rest, w);
    } else {
      PlaceNothingOne(head, k);
      RenderSingle(head, w);
      s, a, b := SplitText(rest, w, k);
      Surround(s, w, a, b, Render(rest, w), Render(Place(rest, {k}), w), RenderOne(head, w), []);
      NoneBehind(RenderOne(head, w), Render(rest, w));
      NoneBehind(RenderOne(head, w), Render(Place(rest, {k}), w));
      a, b := RenderOne(head, w) + a, b + [];
    }
  }

  lemma NoneAround(t: seq<string>, y: seq<string>)
    ensures [] + t + y == t + y
  {
    assert [] + t == t;
  }

  lemma NoneBehind(x: seq<string>, t: seq<string>)
    ensures x + t + [] == x + t
  {
  }

  lemma {:induction false} SplitTextOne(p: Stmt, w: Writer, k: Kind)
    returns (s: Stmt, a: seq<string>, b: seq<string>)
    requires CountOne(p, Sites(k)) == 1
    ensures IsSite(s) && KindOf(s) == k && SplitsAt(s, w, a, b, RenderOne(p, w), Render(PlaceOne(p, {k}), w))
    decreases p
  {
    SitesIff(p, k);
    if p.If? {
      s, a, b := SplitIf(p, w, k);
    } else if p.Loop? || p.KLoop? {
      s, a, b := SplitText(p.body, w, k);
      Surround(s, w, a, b, Render(p.body, w), Render(Place(p.body, {k}), w), w.enter, w.leave);
      a, b := w.enter + a, b + w.leave;
      RenderSingle(PlaceOne(p, {k})[0], w);
    } else if p.Guarded? {
      s, a, b := SplitTextOne(p.line, w, k);
      SurroundGuarded(s, w, a, b, p, k);
      a, b := w.guard(p.c) + a, b + [];
    } else {
      s, a, b := p, [], [];
      SplitSite(p, w);
    }
  }

  lemma SurroundGuarded(s: Stmt, w: Writer, a: seq<string>, b: seq<string>, p: Stmt, k: Kind)
    requires p.Guarded? && SplitsAt(s, w, a, b, RenderOne(p.line, w), Render(PlaceOne(p.line, {k}), w))
    ensures SplitsAt(s, w, w.guard(p.c) + a, b + [], RenderOne(p, w), Render(PlaceOne(p, {k}), w))
  {
    var t, u := RenderOne(p.line, w), Render(PlaceOne(p.line, {k}), w);
    Surround(s, w, a, b, t, u, w.guard(p.c), []);
    GuardedText(p.c, PlaceOne(p.line, {k}), w);
    NoneBehind(w.guard(p.c), t);
    NoneBehind(w.guard(p.c), u);
  }

  lemma SplitSite(p: Stmt, w: Writer)
    requires IsSite(p)
    ensures SplitsAt(p, w, [], [], RenderOne(p, w), Render([p, Inserted(p)], w))
  {
    assert [p] + [Inserted(p)] == [p, Inserted(p)];
    RenderAppends([p], [Inserted(p)], w);
    RenderSingle(p, w);
    RenderSingle(Inserted(p), w);
    Unwrapped(RenderOne(p, w));
    Unwrapped(RenderOne(p, w) + RenderOne(Inserted(p), w));
  }

  lemma Unwrapped(t: seq<string>)
    ensures [] + t + [] == t
  {
  }

  lemma GuardedText(c: Chain, lines: seq<Stmt>, w: Writer)
    requires lines != []
    ensures Render([Guarded(c, lines[0])] + lines[1..], w) == w.guard(c) + Render(lines, w)
  {
    RenderAppends([Guarded(c, lines[0])], lines[1..], w);
    RenderSingle(Guarded(c, lines[0]), w);
    ThreeLists(w.guard(c), RenderOne(lines[0], w), Render(lines[1..], w));
  }

  lemma ThreeLists(x: seq<string>, y: seq<string>, z: seq<string>)
    ensures x + y + z == x + (y + z)
  {
  }

  lemma {:induction false} SplitIf(p: Stmt, w: Writer, k: Kind)
    returns (s: Stmt, a: seq<string>, b: seq<string>)
    requires p.If? && CountOne(p, Sites(k)) == 1 && !Sites(k)(p)
    ensures IsSite(s) && KindOf(s) == k && SplitsAt(s, w, a, b, RenderOne(p, w), Render(PlaceOne(p, {k}), w))
    decreases p, 0
  {
    RenderSingle(PlaceOne(p, {k})[0], w);
    if Count(p.thn, Sites(k)) == 1 {
      PlaceNothing(p.els, k);
      s, a, b := SplitText(p.thn, w, k);
      var x, y := w.test(p.c), w.otherwise + Render(p.els, w) + w.done;
      Surround(s, w, a, b, Render(p.thn, w), Render(Place(p.thn, {k}), w), x, y);
      IfAround(w.test(p.c), Render(p.thn, w), w.otherwise, Render(p.els, w), w.done);
      IfAround(w.test(p.c), Render(Place(p.thn, {k}), w), w.otherwise, Render(p.els, w), w.done);
      a, b := x + a, b + y;
    } else {
      PlaceNothing(p.thn, k);
      s, a, b := SplitText(p.els, w, k);
      var x, y := w.test(p.c) + Render(p.thn, w) + w.otherwise, w.done;
      Surround(s, w, a, b, Render(p.els, w), Render(Place(p.els, {k}), w), x, y);
      a, b := x + a, b + y;
    }
  }

  lemma IfAround(x: seq<string>, t: seq<string>, m: seq<string>, e: seq<string>, z: seq<string>)
    ensures x + t + (m + e + z) == x + t + m + e + z
  {
  }

  // ---- one kind, in the text ------------------------------------------------------------

  /** What is placed below a site: all of the line, or all before the literal of a step. */
  function Extra(k: Kind): string {
    match k
    case SeedOf(b) => PtrSeedLine(b)
    case StepOf(b) => PtrStepOpen(b)
    case CommitOf(b) => PtrCommitLine(b)
  }

  function PlaceBy(t: string, k: Kind, open: string, extra: string): Result<string, string>
    requires open != ""
  {
    match k
    case SeedOf(_) => PlaceSeed(t, open, extra)
    case StepOf(_) => PlaceStep(t, open, extra)
    case CommitOf(_) => InsertAfter(t, open, extra)
  }

  function PlaceText(t: string, k: Kind): Result<string, string> {
    PlaceBy(t, k, "\n" + Opener(k), "\n" + Extra(k))
  }

  lemma LongerOpensLess(lines: seq<string>, open: string, l: string)
    requires NoneOpens(lines, open) && StartsWith(l, open)
    ensures NoneOpens(lines, l)
  {
  }

  lemma LongerIsAbsent(s: string, open: string, l: string)
    requires Absent(s, "\n" + open) && StartsWith(l, open)
    ensures Absent(s, "\n" + l)
  {
    forall j | 0 <= j < |s| ensures !OccursAt(s, "\n" + l, j) {
      ShorterOccurs(s, open, l, j);
    }
  }

  lemma ShorterOccurs(s: string, open: string, l: string, j: int)
    requires StartsWith(l, open)
    ensures OccursAt(s, "\n" + l, j) ==> OccursAt(s, "\n" + open, j)
  {
    var x, y := "\n" + open, "\n" + l;
    assert y[..|x|] == x;
    if OccursAt(s, y, j) {
      assert s[j..j + |y|][..|x|] == s[j..j + |x|];
    }
  }

  lemma LineBelow(front: string, a: seq<string>, l: string, m: string, b: seq<string>, open: string)
    requires NoBreaks(a) && NoBreaks(b) && NoBreak(l) && NoneOpens(a, open) && NoneOpens(b, open)
    requires Absent(front, "\n" + open) && StartsWith(l, open)
    ensures InsertAfter(front + Join(a + [l] + b), "\n" + l, "\n" + m) == Ok(front + Join(a + [l, m] + b))
  {
    LongerOpensLess(a, open, l);
    LongerOpensLess(b, open, l);
    LongerIsAbsent(front, open, l);
    InsertsBelow(front, a, l, b, m);
  }

  /** What the pass captures leads it to the whole line. */
  lemma SeedBelow(front: string, a: seq<string>, open: string, mid: string, extra: string, b: seq<string>)
    requires NoBreaks(a) && NoBreaks(b) && NoBreak(open) && NoBreak(mid) && ';' !in mid
    requires Absent(front, "\n" + open) && NoneOpens(a, open) && NoneOpens(b, open)
    ensures PlaceSeed(front + Join(a + [open + mid + ";"] + b), "\n" + open, "\n" + extra)
         == Ok(front + Join(a + ([open + mid + ";"] + [extra]) + b))
  {
    assert [open + mid + ";"] + [extra] == [open + mid + ";", extra];
    CapturesLine(front, a, open, mid, b);
    Prepend(open, mid, ";");
    ThreeParts(open, mid, ";");
    LineBelow(front, a, open + mid + ";", extra, b, open);
  }

  lemma StepBelow(front: string, a: seq<string>, open: string, mid: string, extra: string, b: seq<string>)
    requires NoBreaks(a) && NoBreaks(b) && NoBreak(open) && CheckStep(mid)
    requires Absent(front, "\n" + open) && NoneOpens(a, open) && NoneOpens(b, open)
    ensures PlaceStep(front + Join(a + [open + mid + ";"] + b), "\n" + open, "\n" + extra)
         == Ok(front + Join(a + ([open + mid + ";"] + [extra + mid + ");"]) + b))
  {
    assert [open + mid + ";"] + [extra + mid + ");"] == [open + mid + ";", extra + mid + ");"];
    LitIsWord(mid);
    CapturesLine(front, a, open, mid, b);
    Prepend(open, mid, ";");
    Prepend(extra, mid, ");");
    ThreeParts(open, mid, ";");
    LineBelow(front, a, open + mid + ";", extra + mid + ");", b, open);
  }

  lemma CommitBelow(front: string, a: seq<string>, l: string, m: string, b: seq<string>)
    requires NoBreaks(a) && NoBreaks(b) && NoBreak(l) && NoneOpens(a, l) && NoneOpens(b, l)
    requires Absent(front, "\n" + l)
    ensures InsertAfter(front + Join(a + [l] + b), "\n" + l, "\n" + m) == Ok(front + Join(a + ([l] + [m]) + b))
  {
    assert [l] + [m] == [l, m];
    InsertsBelow(front, a, l, b, m);
  }

  ghost predicate Sole(front: string, a: seq<string>, b: seq<string>, open: string) {
    && NoBreak(open) && NoBreaks(a) && NoBreaks(b) && Absent(front, "\n" + open)
    && NoneOpens(a, open) && NoneOpens(b, open)
  }

  predicate Captured(k: Kind, mid: string) {
    match k
    case SeedOf(_) => NoBreak(mid) && ';' !in mid
    case StepOf(_) => CheckStep(mid)
    case CommitOf(_) => true
  }

  function LineBy(k: Kind, open: string, mid: string): string {
    if k.CommitOf? then open else open + mid + ";"
  }

  function ExtraBy(k: Kind, extra: string, mid: string): string {
    if k.StepOf? then extra + mid + ");" else extra
  }

  lemma PlacesBy(front: string, a: seq<string>, k: Kind, open: string, extra: string, mid: string, b: seq<string>)
    requires Sole(front, a, b, open) && Captured(k, mid)
    ensures PlaceBy(front + Join(a + [LineBy(k, open, mid)] + b), k, "\n" + open, "\n" + extra)
         == Ok(front + Join(a + ([LineBy(k, open, mid)] + [ExtraBy(k, extra, mid)]) + b))
  {
    match k
    case SeedOf(_) => SeedBelow(front, a, open, mid, extra, b);
    case StepOf(_) => StepBelow(front, a, open, mid, extra, b);
    case CommitOf(_) => CommitBelow(front, a, open, extra, b);
  }

  function Mid(s: Stmt, w: Writer): string {
    match s
    case Seed(_, e) => w.expr(e)
    case Step(_, n) => w.lit(n)
    case _ => ""
  }

  lemma SiteText(s: Stmt, w: Writer)
    requires IsSite(s)
    ensures var k := KindOf(s);
      && RenderOne(s, w) == [LineBy(k, Opener(k), Mid(s, w))]
      && RenderOne(Inserted(s), w) == [ExtraBy(k, Extra(k), Mid(s, w))]
  {
  }

  lemma PlacesBelow(front: string, a: seq<string>, s: Stmt, b: seq<string>, w: Writer)
    requires IsSite(s) && Captured(KindOf(s), Mid(s, w)) && Sole(front, a, b, Opener(KindOf(s)))
    ensures PlaceText(front + Join(a + RenderOne(s, w) + b), KindOf(s))
         == Ok(front + Join(a + (RenderOne(s, w) + RenderOne(Inserted(s), w)) + b))
  {
    var k := KindOf(s);
    SiteText(s, w);
    PlacesBy(front, a, k, Opener(k), Extra(k), Mid(s, w), b);
  }

  lemma Prepend(x: string, y: string, z: string)
    ensures "\n" + (x + y + z) == "\n" + x + y + z
  {
  }

  predicate FrontClear(front: string) {
    forall k: Kind :: k in KINDS ==> Absent(front, "\n" + Opener(k))
  }

  /** The pass finds the only site of a kind, or declines. */
  lemma PlaceTextIff(front: string, ss: seq<Stmt>, w: Writer, k: Kind)
    requires Tidy(w) && FrontClear(front)
    ensures var r := PlaceText(front + Join(Render(ss, w)), k);
      if Count(ss, Sites(k)) == 1 then r == Ok(front + Join(Render(Place(ss, {k}), w))) else r.Err?
  {
    var lines := Render(ss, w);
    KindsAreAll(k);
    TidyMarks(w, k);
    RenderCounts(ss, w, Opener(k), Sites(k));
    OpenerIsOneLine(k);
    if Count(ss, Sites(k)) == 1 {
      var s, a, b := SplitText(ss, w, k);
      NoOtherOpens(a, RenderOne(s, w), b, s, w);
      PlacesBelow(front, a, s, b, w);
    } else {
      OpensIff(lines, Opener(k));
      if Count(ss, Sites(k)) >= 2 {
        TwoOpen(lines, Opener(k));
      }
      AnchorNotSole(front, lines, Opener(k));
    }
  }

  lemma NoOtherOpens(a: seq<string>, m: seq<string>, b: seq<string>, s: Stmt, w: Writer)
    requires IsSite(s) && Tidy(w) && m == RenderOne(s, w) && NoBreaks(a + m + b)
    requires Opens(a + m + b, Opener(KindOf(s))) == 1
    ensures NoBreaks(a) && NoBreaks(b) && NoneOpens(a, Opener(KindOf(s))) && NoneOpens(b, Opener(KindOf(s)))
  {
    var open := Opener(KindOf(s));
    SiteLine(s, w, KindOf(s));
    OpensAppends(a + m, b, open);
    OpensAppends(a, m, open);
    OpensSingle(m[0], open);
    OpensIff(a, open);
    OpensIff(b, open);
    assert forall i :: 0 <= i < |a| ==> a[i] == (a + m + b)[i];
    assert forall i :: 0 <= i < |b| ==> b[i] == (a + m + b)[|a| + |m| + i];
  }

  // ---- all kinds -----------------------------------------------------------------------

  const EVERY: set<Kind> := {SeedOf(A), SeedOf(B), StepOf(A), StepOf(B), CommitOf(A), CommitOf(B)}

  /** Kind after kind, in the order of the pass, from the `n`-th on. */
  function PlaceTexts(t: string, n: nat): Result<string, string>
    requires n <= 6
    decreases 6 - n
  {
    if n == 6 then Ok(t)
    else
      match PlaceText(t, KINDS[n])
      case Err(e) => Err(e)
      case Ok(u) => PlaceTexts(u, n + 1)
  }

  lemma SeedsThen(t: string)
    ensures PlaceTexts(t, 0) == match PlaceSeeds(t) case Err(e) => Err(e) case Ok(u) => PlaceTexts(u, 2)
  {
    TwoTexts(t, 0);
  }

  lemma StepsThen(t: string)
    ensures PlaceTexts(t, 2) == match PlaceSteps(t) case Err(e) => Err(e) case Ok(u) => PlaceTexts(u, 4)
  {
    TwoTexts(t, 2);
  }

  lemma CommitsThen(t: string)
    ensures PlaceTexts(t, 4) == PlaceCommits(t)
  {
    TwoTexts(t, 4);
  }

  lemma TwoTexts(t: string, n: nat)
    requires n <= 4
    ensures PlaceTexts(t, n)
         == match PlaceText(t, KINDS[n]) case Err(e) => Err(e) case Ok(u) =>
              match PlaceText(u, KINDS[n + 1]) case Err(e) => Err(e) case Ok(v) => PlaceTexts(v, n + 2)
  {
  }

  lemma PlacePointersIsInOrder(t: string)
    ensures PlacePointers(t) == PlaceTexts(t, 0)
  {
    SeedsThen(t);
    match PlaceSeeds(t)
    case Err(_) =>
    case Ok(u) =>
      StepsThen(u);
      match PlaceSteps(u)
      case Err(_) =>
      case Ok(v) => CommitsThen(v);
  }

  function First(n: nat): set<Kind>
    requires n <= 6
  {
    if n == 0 then {} else First(n - 1) + {KINDS[n - 1]}
  }

  lemma FirstIsEarlier(n: nat, m: nat)
    requires n <= m < 6
    ensures KINDS[m] !in First(n)
  {
    assert forall i, j :: 0 <= i < j < 6 ==> KINDS[i] != KINDS[j];
    if n > 0 {
      FirstIsEarlier(n - 1, m);
    }
  }

  /** One kind more. */
  lemma PlaceNext(front: string, ss: seq<Stmt>, w: Writer, n: nat)
    requires Tidy(w) && FrontClear(front) && n < 6
    ensures var r := PlaceText(front + Join(Render(Place(ss, First(n)), w)), KINDS[n]);
      if Count(ss, Sites(KINDS[n])) == 1 then r == Ok(front + Join(Render(Place(ss, First(n + 1)), w))) else r.Err?
  {
    PlaceTextIff(front, Place(ss, First(n)), w, KINDS[n]);
    PlaceKeepsCounts(ss, First(n), KINDS[n]);
    FirstIsEarlier(n, n);
    PlaceAgain(ss, First(n), KINDS[n]);
  }

  predicate OneEach(ss: seq<Stmt>, n: nat) {
    forall i :: n <= i < 6 ==> Count(ss, Sites(KINDS[i])) == 1
  }

  lemma {:induction false} PlaceTextsIff(front: string, ss: seq<Stmt>, w: Writer, n: nat)
    requires Tidy(w) && FrontClear(front) && n <= 6
    ensures var r := PlaceTexts(front + Join(Render(Place(ss, First(n)), w)), n);
      if OneEach(ss, n) then r == Ok(front + Join(Render(Place(ss, First(6)), w))) else r.Err?
    decreases 6 - n
  {
    if n < 6 {
      PlaceNext(front, ss, w, n);
      PlaceTextsIff(front, ss, w, n + 1);
      OneMore(ss, n);
    }
  }

  lemma OneMore(ss: seq<Stmt>, n: nat)
    requires n < 6
    ensures OneEach(ss, n) <==> Count(ss, Sites(KINDS[n])) == 1 && OneEach(ss, n + 1)
  {
  }

  lemma {:induction false} PlaceNone(ss: seq<Stmt>)
    ensures Place(ss, {}) == ss
    decreases ss
  {
    if ss != [] {
      PlaceNoneOne(ss[0]);
      PlaceNone(ss[1..]);
    }
  }

  lemma {:induction false} PlaceNoneOne(s: Stmt)
    ensures PlaceOne(s, {}) == [s]
    decreases s
  {
    if s.If? {
      PlaceNone(s.thn);
      PlaceNone(s.els);
    } else if s.Loop? || s.KLoop? {
      PlaceNone(s.body);
    } else if s.Guarded? {
      PlaceNoneOne(s.line);
    }
  }

  /** The pass places its pointer lines in the text of a program exactly where the
      program has one site of each kind, and gives the text of the program with them. */
  lemma PointersAreRendered(front: string, ss: seq<Stmt>, w: Writer)
    requires Tidy(w) && FrontClear(front)
    ensures PlacePointers(front + Join(Render(ss, w))).Ok? <==> forall k: Kind :: Count(ss, Sites(k)) == 1
    ensures PlacePointers(front + Join(Render(ss, w))).Ok? ==>
      PlacePointers(front + Join(Render(ss, w))) == Ok(front + Join(Render(Place(ss, EVERY), w)))
  {
    PlaceNone(ss);
    PlacePointersIsInOrder(front + Join(Render(ss, w)));
    PlaceTextsIff(front, ss, w, 0);
    FirstIsEvery();
    if OneEach(ss, 0) {
      forall k: Kind ensures Count(ss, Sites(k)) == 1 {
        KindsAreAll(k);
      }
    }
  }

  lemma FirstIsEvery()
    ensures First(6) == EVERY
  {
    assert First(1) == {SeedOf(A)};
    assert First(2) == {SeedOf(A), SeedOf(B)};
    assert First(3) == {SeedOf(A), SeedOf(B), StepOf(A)};
    assert First(4) == {SeedOf(A), SeedOf(B), StepOf(A), StepOf(B)};
    assert First(5) == {SeedOf(A), SeedOf(B), StepOf(A), StepOf(B), CommitOf(A)};
  }
}
