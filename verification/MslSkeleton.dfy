/** What pointing the loads cannot disturb: the header of the k-loop, its step and its
    braces, in any text whatever. */
module MslSkeleton {
  import opened Wrappers
  import opened Text
  import opened MslScan
  import opened MslText
  import opened MslLines

  // ---- a replacement that keeps clear of a pattern -------------------------------------

  /** No occurrence of `p` can overlap one of `x`. */
  predicate Survives(x: string, p: string) {
    x != "" && p != "" && p[0] !in x && x[0] !in p
  }

  /** And putting `w` somewhere cannot bring `x` about. */
  predicate NeverArises(x: string, w: string) {
    x != "" && w != "" && w[0] !in x && x[0] !in w
  }

  lemma ApartByTail(x: string, b: string, p: string)
    requires p != "" && p[0] !in x
    ensures Apart(x, b, p) && Absent(x, p)
  {
    forall j | 0 <= j < |x| ensures !OccursAt(x + b, p, j) && !OccursAt(x, p, j) {
      OccursChars(x + b, p, j);
      OccursChars(x, p, j);
      assert (x + b)[j] == x[j] && x[j] in x;
    }
  }

  /** A pattern kept clear of stays where it is, between the two halves replaced. */
  lemma KeepsAround(a: string, x: string, b: string, p: string, w: string)
    requires Survives(x, p)
    ensures Replace(a + (x + b), p, w) == Replace(a, p, w) + (x + Replace(b, p, w))
  {
    ApartByHead(a, x + b, p);
    ReplaceSplits(a, x + b, p, w);
    ApartByTail(x, b, p);
    ReplaceSplits(x, b, p, w);
    ReplaceNothing(x, p, w);
  }

  lemma OccurrenceSplits(s: string, x: string, k: nat)
    requires OccursAt(s, x, k)
    ensures s == s[..k] + (x + s[k + |x|..])
  {
  }

  lemma OccursBetween(a: string, x: string, b: string)
    ensures OccursAt(a + (x + b), x, |a|)
  {
    assert (a + (x + b))[|a|..|a| + |x|] == x;
  }

  /** An occurrence is still there, behind what was before it. */
  lemma OccurrenceStays(s: string, x: string, p: string, w: string, k: nat)
    requires Survives(x, p) && OccursAt(s, x, k)
    ensures OccursAt(Replace(s, p, w), x, |Replace(s[..k], p, w)|)
  {
    OccurrenceSplits(s, x, k);
    KeepsAround(s[..k], x, s[k + |x|..], p, w);
    OccursBetween(Replace(s[..k], p, w), x, Replace(s[k + |x|..], p, w));
  }

  lemma OverlapShares(a: string, w: string, r: string, x: string, j: nat)
    requires w != "" && x != "" && OccursAt(a + w + r, x, j)
    ensures j <= |a| < j + |x| ==> w[0] in x
    ensures |a| < j < |a| + |w| ==> x[0] in w
  {
    OccursChars(a + w + r, x, j);
    assert j <= |a| < j + |x| ==> x[|a| - j] == (a + w + r)[|a|] == w[0];
    assert |a| < j < |a| + |w| ==> x[0] == (a + w + r)[j] == w[j - |a|];
  }

  /** Where a pattern can stand around a text that cannot be part of it. */
  lemma NotAround(a: string, w: string, r: string, x: string, j: nat)
    requires NeverArises(x, w) && OccursAt(a + w + r, x, j)
    ensures j + |x| <= |a| || |a| + |w| <= j
  {
    OverlapShares(a, w, r, x, j);
  }

  lemma OccursInFront(a: string, b: string, x: string, j: nat)
    requires j + |x| <= |a|
    ensures OccursAt(a + b, x, j) <==> OccursAt(a, x, j)
  {
    assert (a + b)[j..j + |x|] == a[j..j + |x|];
  }

  lemma PrefixStays(a: string, b: string, p: string, w: string, k: nat)
    requires p != "" && k <= |a| && forall j :: 0 <= j < |a| ==> !OccursAt(a + b, p, j)
    ensures Replace((a + b)[..k], p, w) == a[..k]
  {
    assert (a + b)[..k] == a[..k] && a + b == a[..k] + (a[k..] + b);
    forall j | 0 <= j < k ensures !OccursAt(a[..k], p, j) {
      if j + |p| <= k {
        OccursInFront(a[..k], a[k..] + b, p, j);
      }
    }
    ReplaceNothing(a[..k], p, w);
  }

  lemma PrefixReplaces(a: string, b: string, p: string, w: string, k: nat)
    requires p != "" && k <= |b| && forall j :: 0 <= j < |a| ==> !OccursAt(a + (p + b), p, j)
    ensures (a + (p + b))[..|a| + |p| + k] == a + (p + b[..k])
    ensures Replace(a + (p + b[..k]), p, w) == a + w + Replace(b[..k], p, w)
  {
    var c := a + (p + b[..k]);
    assert a + (p + b) == c + b[k..];
    forall j | 0 <= j < |a| ensures !OccursAt(c, p, j) {
      OccursInFront(c, b[k..], p, j);
    }
    ReplaceFirst(a, b[..k], p, w);
  }

  /** A pattern found afterwards was there before, behind what became the text before it. */
  lemma {:induction false} OccurrenceWasThere(s: string, x: string, p: string, w: string, j: nat) returns (k: nat)
    requires p != "" && NeverArises(x, w) && OccursAt(Replace(s, p, w), x, j)
    ensures OccursAt(s, x, k) && Replace(s, p, w)[..j] == Replace(s[..k], p, w)
    decreases |s|
  {
    if Absent(s, p) {
      ReplaceNothing(s, p, w);
      assert s + "" == s;
      PrefixStays(s, "", p, w, j);
      k := j;
    } else {
      var a, b := CutAtFirst(s, p);
      var r := Replace(b, p, w);
      ReplaceFirst(a, b, p, w);
      NotAround(a, w, r, x, j);
      if j + |x| <= |a| {
        Regroup(a, w, r);
        k := WasInFront(a, p + b, w + r, x, p, w, j);
      } else {
        OccursShifted(a + w, r, x, j);
        var m := OccurrenceWasThere(b, x, p, w, j - |a + w|);
        k := WasBehind(a, b, x, p, w, j, m);
      }
    }
  }

  lemma WasInFront(a: string, b: string, r: string, x: string, p: string, w: string, j: nat) returns (k: nat)
    requires p != "" && (forall i :: 0 <= i < |a| ==> !OccursAt(a + b, p, i))
    requires j + |x| <= |a| && OccursAt(a + r, x, j)
    ensures OccursAt(a + b, x, k) && (a + r)[..j] == Replace((a + b)[..k], p, w)
  {
    k := j;
    OccursInFront(a, r, x, j);
    OccursInFront(a, b, x, j);
    PrefixStays(a, b, p, w, j);
    assert (a + r)[..j] == a[..j];
  }

  lemma WasBehind(a: string, b: string, x: string, p: string, w: string, j: nat, m: nat) returns (k: nat)
    requires p != "" && (forall i :: 0 <= i < |a| ==> !OccursAt(a + (p + b), p, i))
    requires |a + w| <= j <= |a + w| + |Replace(b, p, w)|
    requires OccursAt(b, x, m) && Replace(b, p, w)[..j - |a + w|] == Replace(b[..m], p, w)
    ensures OccursAt(a + (p + b), x, k)
    ensures (a + w + Replace(b, p, w))[..j] == Replace((a + (p + b))[..k], p, w)
  {
    k := |a| + |p| + m;
    assert a + (p + b) == (a + p) + b;
    OccursShifted(a + p, b, x, k);
    PrefixReplaces(a, b, p, w, m);
    assert (a + w + Replace(b, p, w))[..j] == a + w + Replace(b, p, w)[..j - |a + w|];
  }

  // ---- braces ---------------------------------------------------------------------------

  /** Opening braces less closing ones. */
  function Level(s: string): int {
    if s == "" then 0
    else Level(s[..|s| - 1]) + (if s[|s| - 1] == '{' then 1 else if s[|s| - 1] == '}' then -1 else 0)
  }

  lemma {:induction false} LevelAdds(a: string, b: string)
    ensures Level(a + b) == Level(a) + Level(b)
    decreases |b|
  {
    if b == "" {
      assert a + b == a;
    } else {
      assert (a + b)[..|a + b| - 1] == a + b[..|b| - 1];
      LevelAdds(a, b[..|b| - 1]);
    }
  }

  lemma {:induction false} DepthIsLevel(s: string, from: nat, upto: nat)
    requires from <= upto <= |s|
    ensures Depth(s, '{', '}', from, upto) == Level(s[from..upto])
    decreases upto
  {
    if from < upto {
      DepthIsLevel(s, from, upto - 1);
      assert s[from..upto][..upto - 1 - from] == s[from..upto - 1];
    }
  }

  predicate NoBraces(s: string) {
    '{' !in s && '}' !in s
  }

  lemma {:induction false} LevelOfPlain(s: string)
    requires NoBraces(s)
    ensures Level(s) == 0
  {
    if s != "" {
      LevelOfPlain(s[..|s| - 1]);
    }
  }

  /** Every brace has its partner. */
  ghost predicate Balanced(s: string) {
    Level(s) == 0 && forall m :: 0 <= m <= |s| ==> Level(s[..m]) >= 0
  }

  /** Replacing texts without braces, the level behind any prefix is one that was
      there before. */
  lemma {:induction false} LevelWasThere(s: string, p: string, w: string, j: nat) returns (k: nat)
    requires p != "" && NoBraces(p) && NoBraces(w) && j <= |Replace(s, p, w)|
    ensures k <= |s| && Level(Replace(s, p, w)[..j]) == Level(s[..k])
    ensures Level(Replace(s, p, w)) == Level(s)
    decreases |s|
  {
    if Absent(s, p) {
      ReplaceNothing(s, p, w);
      k := j;
    } else {
      var a, b := CutAtFirst(s, p);
      ReplaceFirst(a, b, p, w);
      var m := LevelWasThere(b, p, w, if j < |a + w| then 0 else j - |a + w|);
      k := LevelBehind(a, p, b, w, Replace(b, p, w), j, m);
    }
  }

  lemma LevelBehind(a: string, p: string, b: string, w: string, r: string, j: nat, m: nat) returns (k: nat)
    requires NoBraces(p) && NoBraces(w) && Level(r) == Level(b) && j <= |a + w + r| && m <= |b|
    requires j >= |a + w| ==> Level(r[..j - |a + w|]) == Level(b[..m])
    ensures k <= |a + (p + b)| && Level((a + w + r)[..j]) == Level((a + (p + b))[..k])
    ensures Level(a + w + r) == Level(a + (p + b))
  {
    Regroup(a, p, b);
    LevelsWithout(a, p, b);
    LevelsWithout(a, w, r);
    if j < |a + w| {
      k := if j < |a| then j else |a|;
      LevelInside(a, w, r, j);
      FrontCut(a, p + b, k);
    } else {
      k := |a| + |p| + m;
      Cut(a, w, r, j);
      Cut(a, p, b, k);
      LevelsWithout(a, w, r[..j - |a + w|]);
      LevelsWithout(a, p, b[..m]);
    }
  }

  lemma LevelsWithout(a: string, m: string, b: string)
    requires NoBraces(m)
    ensures Level(a + m + b) == Level(a) + Level(b)
  {
    LevelOfPlain(m);
    LevelsAround(a, m, b);
  }

  lemma FrontCut(a: string, b: string, k: nat)
    requires k <= |a|
    ensures (a + b)[..k] == a[..k]
  {
  }

  lemma Cut(a: string, m: string, b: string, j: nat)
    requires |a + m| <= j <= |a + m + b|
    ensures (a + m + b)[..j] == a + m + b[..j - |a + m|]
  {
  }

  lemma Regroup(a: string, m: string, b: string)
    ensures a + (m + b) == a + m + b
  {
  }

  lemma LevelsAround(a: string, m: string, b: string)
    ensures Level(a + m + b) == Level(a) + Level(m) + Level(b)
  {
    LevelAdds(a + m, b);
    LevelAdds(a, m);
  }

  lemma LevelInside(a: string, w: string, r: string, j: nat)
    requires NoBraces(w) && j < |a| + |w|
    ensures Level((a + w + r)[..j]) == Level(a[..if j < |a| then j else |a|])
  {
    if j < |a| {
      assert (a + w + r)[..j] == a[..j];
    } else {
      assert (a + w + r)[..j] == a + w[..j - |a|] && a[..|a|] == a;
      LevelAdds(a, w[..j - |a|]);
      LevelOfPlain(w[..j - |a|]);
    }
  }

  lemma BalanceStays(s: string, p: string, w: string)
    requires p != "" && NoBraces(p) && NoBraces(w) && Balanced(s)
    ensures Balanced(Replace(s, p, w))
  {
    forall j | 0 <= j <= |Replace(s, p, w)| ensures Level(Replace(s, p, w)[..j]) >= 0 {
      var k := LevelWasThere(s, p, w, j);
    }
    var k := LevelWasThere(s, p, w, 0);
  }

  // ---- the text of a loop --------------------------------------------------------------

  /** Each header behind the first one has the step somewhere before it. */
  ghost predicate StepFirst(b: string) {
    forall k: nat :: k > 0 && OccursAt(b, HEADER, k) ==> HasStep(b[..k])
  }

  ghost predicate HasStep(b: string) {
    exists i: nat :: OccursAt(b, STEP_ANCHOR, i)
  }

  /** A header, and behind it one block that ends the text. */
  ghost predicate IsLoop(b: string, between: string, inner: string) {
    && HEADER <= b && StepFirst(b)
    && b == between + ("{" + (inner + "}"))
    && '{' !in between && Balanced(inner)
  }

  /** A replacement inside a line, of text that has nothing to do with loops. */
  predicate Foreign(p: string, w: string) {
    && p != "" && w != "" && p[0] == '&' && w[0] == 'p'
    && '\n' !in p && 'f' !in p && '{' !in p && '}' !in p
    && '\n' !in w && 'f' !in w && '{' !in w && '}' !in w
  }

  lemma ForeignIsClear(p: string, w: string)
    requires Foreign(p, w)
    ensures Survives(HEADER, p) && NeverArises(HEADER, w) && Survives(STEP_ANCHOR, p)
    ensures Survives("{", p) && NeverArises("{", w) && Survives("}", p)
  {
  }

  lemma StepStays(b: string, p: string, w: string)
    requires Foreign(p, w) && HasStep(b)
    ensures HasStep(Replace(b, p, w))
  {
    ForeignIsClear(p, w);
    var i: nat :| OccursAt(b, STEP_ANCHOR, i);
    OccurrenceStays(b, STEP_ANCHOR, p, w, i);
  }

  lemma StepFirstStays(b: string, p: string, w: string)
    requires Foreign(p, w) && StepFirst(b)
    ensures StepFirst(Replace(b, p, w))
  {
    ForeignIsClear(p, w);
    var r := Replace(b, p, w);
    forall j: nat | j > 0 && OccursAt(r, HEADER, j) ensures HasStep(r[..j]) {
      var k := OccurrenceWasThere(b, HEADER, p, w, j);
      EmptyPrefix(b, k, p, w);
      StepStays(b[..k], p, w);
    }
  }

  lemma EmptyReplaces(p: string, w: string)
    requires p != ""
    ensures Replace("", p, w) == ""
  {
  }

  lemma EmptyPrefix(b: string, k: nat, p: string, w: string)
    requires p != "" && k <= |b|
    ensures k == 0 ==> Replace(b[..k], p, w) == ""
  {
    if k == 0 {
      assert b[..k] == "";
      EmptyReplaces(p, w);
    }
  }

  lemma CharWasThere(s: string, c: char, p: string, w: string)
    requires p != "" && NeverArises([c], w) && c in Replace(s, p, w)
    ensures c in s
  {
    var r := Replace(s, p, w);
    var j: nat :| j < |r| && r[j] == c;
    assert r[j..j + 1] == [c];
    var k := OccurrenceWasThere(s, [c], p, w, j);
    assert s[k..k + 1][0] == s[k];
  }

  lemma CharStays(s: string, c: char, p: string, w: string)
    requires p != "" && c !in s && NeverArises([c], w)
    ensures c !in Replace(s, p, w)
  {
    if c in Replace(s, p, w) {
      CharWasThere(s, c, p, w);
    }
  }

  lemma HeaderLeads(b: string, p: string, w: string)
    requires Foreign(p, w) && HEADER <= b
    ensures HEADER <= Replace(b, p, w)
  {
    ForeignIsClear(p, w);
    var rest := b[|HEADER|..];
    assert b == "" + (HEADER + rest);
    KeepsAround("", HEADER, rest, p, w);
    EmptyReplaces(p, w);
    assert "" + (HEADER + Replace(rest, p, w)) == HEADER + Replace(rest, p, w);
  }

  lemma LoopStays(b: string, between: string, inner: string, p: string, w: string)
    requires Foreign(p, w) && IsLoop(b, between, inner)
    ensures IsLoop(Replace(b, p, w), Replace(between, p, w), Replace(inner, p, w))
  {
    ForeignIsClear(p, w);
    HeaderLeads(b, p, w);
    StepFirstStays(b, p, w);
    KeepsAround(between, "{", inner + "}", p, w);
    KeepsAround(inner, "}", "", p, w);
    EmptyReplaces(p, w);
    assert inner + "}" == inner + ("}" + "") && "}" + "" == "}";
    CharStays(between, '{', p, w);
    BalanceStays(inner, p, w);
  }

  // ---- the four replacements -----------------------------------------------------------

  lemma AFormIsForeign()
    ensures Foreign("&((_sa)[0]) + (lsma_0)", "pa_0")
  {
  }

  lemma AOffsetIsForeign()
    ensures Foreign("&((_sa)[0]) + (lsma_0 + ", "pa_0 + (")
  {
  }

  lemma BFormIsForeign()
    ensures Foreign("&((_sb)[0]) + (lsmb_0)", "pb_0")
  {
  }

  lemma BOffsetIsForeign()
    ensures Foreign("&((_sb)[0]) + (lsmb_0 + ", "pb_0 + (")
  {
  }

  ghost predicate SomeLoop(b: string) {
    exists between: string, inner: string :: IsLoop(b, between, inner)
  }

  lemma OneForm(b: string, p: string, w: string)
    requires Foreign(p, w)
    ensures SomeLoop(b) ==> SomeLoop(Replace(b, p, w))
    ensures HasStep(b) ==> HasStep(Replace(b, p, w))
  {
    if SomeLoop(b) {
      var between: string, inner: string :| IsLoop(b, between, inner);
      LoopStays(b, between, inner, p, w);
    }
    if HasStep(b) {
      StepStays(b, p, w);
    }
  }

  lemma FourForms(b: string, p0: string, w0: string, p1: string, w1: string,
                  p2: string, w2: string, p3: string, w3: string)
    requires Foreign(p0, w0) && Foreign(p1, w1) && Foreign(p2, w2) && Foreign(p3, w3)
    ensures var r := Replace(Replace(Replace(Replace(b, p0, w0), p1, w1), p2, w2), p3, w3);
      (SomeLoop(b) ==> SomeLoop(r)) && (HasStep(b) ==> HasStep(r))
  {
    var r0 := Replace(b, p0, w0);
    var r1 := Replace(r0, p1, w1);
    var r2 := Replace(r1, p2, w2);
    OneForm(b, p0, w0);
    OneForm(r0, p1, w1);
    OneForm(r1, p2, w2);
    OneForm(r2, p3, w3);
  }

  /** Pointing the loads of a loop leaves a loop, with its step. */
  lemma PointedIsLoop(b: string)
    ensures SomeLoop(b) ==> SomeLoop(PointLoads(b))
    ensures HasStep(b) ==> HasStep(PointLoads(b))
  {
    AFormIsForeign();
    AOffsetIsForeign();
    BFormIsForeign();
    BOffsetIsForeign();
    FourForms(b, "&((_sa)[0]) + (lsma_0)", "pa_0", "&((_sa)[0]) + (lsma_0 + ", "pa_0 + (",
              "&((_sb)[0]) + (lsmb_0)", "pb_0", "&((_sb)[0]) + (lsmb_0 + ", "pb_0 + (");
  }

  // ---- the loop in its shader ------------------------------------------------------------

  lemma AnchorChars()
    ensures STEP_ANCHOR[0] == '\n' && HEADER[0] == 'f' && SEED_ANCHOR[0] == '\n'
    ensures 'f' !in STEP_ANCHOR && '\n' !in HEADER && '}' !in STEP_ANCHOR && '}' !in HEADER && 'f' !in SEED_ANCHOR
    ensures forall d :: 0 < d < |SEED_ANCHOR| ==> SEED_ANCHOR[d] != '\n'
    ensures |SEED_ANCHOR| > 9 && SEED_ANCHOR[9] == 'l'
  {
  }

  lemma CharInside(s: string, x: string, i: nat, k: nat)
    requires OccursAt(s, x, i) && i <= k < i + |x|
    ensures s[k] in x && s[k] == x[k - i]
  {
    OccursChars(s, x, i);
    assert x[k - i] == s[k];
  }

  lemma NotAcross(s: string, x: string, i: nat, k: nat)
    requires OccursAt(s, x, i) && k < |s| && s[k] !in x
    ensures k < i || i + |x| <= k
  {
    if i <= k < i + |x| {
      CharInside(s, x, i, k);
    }
  }

  lemma NoOverlap(s: string, i: nat, k: nat)
    requires OccursAt(s, STEP_ANCHOR, i) && OccursAt(s, HEADER, k)
    ensures i + |STEP_ANCHOR| <= k || k + |HEADER| <= i
  {
    AnchorChars();
    CharInside(s, STEP_ANCHOR, i, i);
    CharInside(s, HEADER, k, k);
    NotAcross(s, STEP_ANCHOR, i, k);
    NotAcross(s, HEADER, k, i);
  }

  lemma BlankAt(t: string, a: nat, b: nat, l: nat)
    requires a <= l < b <= |t| && AllWhitespace(t[a..b])
    ensures IsWhitespace(t[l])
  {
    assert t[a..b][l - a] == t[l];
  }

  lemma SeedEndsLine(t: string, seedAt: nat, lineAt: nat, forAt: nat)
    requires OccursAt(t, SEED_ANCHOR, seedAt) && seedAt < lineAt <= forAt < |t|
    requires t[lineAt - 1] == '\n' && t[forAt] == 'f' && AllWhitespace(t[lineAt..forAt])
    ensures seedAt + |SEED_ANCHOR| < lineAt
  {
    AnchorChars();
    OccursChars(t, SEED_ANCHOR, seedAt);
    NotAcross(t, SEED_ANCHOR, seedAt, forAt);
    CharInside(t, SEED_ANCHOR, seedAt, seedAt + 9);
    if lineAt == seedAt + 1 {
      BlankAt(t, lineAt, forAt, seedAt + 9);
    } else if lineAt - 1 < seedAt + |SEED_ANCHOR| {
      CharInside(t, SEED_ANCHOR, seedAt, lineAt - 1);
    }
  }

  /** The seed is on a line of its own, above the header's. */
  lemma SeedAboveHeader(t: string, h: Header)
    requires IsHeader(t, h)
    ensures h.seedAt + |SEED_ANCHOR| < h.lineAt
  {
    CharInside(t, "\n", h.lineAt - 1, h.lineAt - 1);
    var step: nat :| FirstAt(t, STEP_ANCHOR, step) && LastWithin(t, HEADER, h.forAt, step);
    CharInside(t, HEADER, h.forAt, h.forAt);
    SeedEndsLine(t, h.seedAt, h.lineAt, h.forAt);
  }

  lemma SliceOccurs(t: string, from: nat, upto: nat, x: string, i: nat)
    requires from <= i && i + |x| <= upto <= |t|
    ensures OccursAt(t[from..upto], x, i - from) <==> OccursAt(t, x, i)
  {
    var inside, outside := t[from..upto][i - from..i - from + |x|], t[i..i + |x|];
    assert forall k :: 0 <= k < |x| ==> inside[k] == outside[k];
    assert inside == outside;
  }

  lemma HeaderOccurs(t: string, h: Header)
    requires IsHeader(t, h)
    ensures OccursAt(t, HEADER, h.forAt)
  {
  }

  lemma BlockShape(t: string, from: nat, open: nat, end: nat)
    requires from <= open && open + 2 <= end <= |t| && t[open] == '{' && t[end - 1] == '}'
    ensures t[from..end] == t[from..open] + ("{" + (t[open + 1..end - 1] + "}"))
  {
  }

  /** The text of a k-loop, header to block end, is a loop. */
  lemma KLoopIsLoop(t: string, h: Header, end: nat)
    requires IsHeader(t, h) && BlockFrom(t, h.forAt, end) && h.forAt <= end <= |t|
    ensures SomeLoop(t[h.forAt..end]) && h.forAt + |HEADER| < end && t[end - 1] == '}'
  {
    var open := Find(t, "{", h.forAt).value;
    OpenBehindHeader(t, h);
    HeaderOccurs(t, h);
    SliceOccurs(t, h.forAt, end, HEADER, h.forAt);
    KLoopStepsFirst(t, h, end);
    BlockIsBalanced(t, open, end);
    NoneBeforeFind(t, h.forAt, open);
    BlockShape(t, h.forAt, open, end);
    assert IsLoop(t[h.forAt..end], t[h.forAt..open], t[open + 1..end - 1]);
  }

  lemma NoneBeforeFind(t: string, from: nat, open: nat)
    requires from <= |t| && Find(t, "{", from) == Some(open)
    ensures from <= open < |t| && t[open] == '{' && '{' !in t[from..open]
  {
    CharInside(t, "{", open, open);
    forall k | from <= k < open ensures t[k] != '{' {
      assert !OccursAt(t, "{", k);
      assert t[k..k + 1] == [t[k]];
    }
  }

  lemma OpenBehindHeader(t: string, h: Header)
    requires IsHeader(t, h) && Find(t, "{", h.forAt).Some?
    ensures h.forAt + |HEADER| <= Find(t, "{", h.forAt).value
  {
    var open := Find(t, "{", h.forAt).value;
    var step: nat :| FirstAt(t, STEP_ANCHOR, step) && LastWithin(t, HEADER, h.forAt, step);
    CharInside(t, "{", open, open);
    assert '{' !in HEADER;
    NotAcross(t, HEADER, h.forAt, open);
  }

  lemma BlockIsBalanced(t: string, open: nat, end: nat)
    requires IsBlock(t, open, end)
    ensures open + 2 <= end && t[end - 1] == '}' && Balanced(t[open + 1..end - 1])
  {
    assert Depth(t, '{', '}', open, open + 1) == 1;
    var inner := t[open + 1..end - 1];
    forall m | 0 <= m <= |inner| ensures Level(inner[..m]) == Depth(t, '{', '}', open, open + 1 + m) - 1 {
      LevelBehindBrace(t, open, open + 1 + m);
      assert inner[..m] == t[open + 1..open + 1 + m];
    }
    assert inner[..|inner|] == inner;
  }

  lemma LevelBehindBrace(t: string, open: nat, upto: nat)
    requires open < upto <= |t| && t[open] == '{'
    ensures Depth(t, '{', '}', open, upto) == 1 + Level(t[open + 1..upto])
  {
    DepthIsLevel(t, open, upto);
    assert t[open..upto] == "{" + t[open + 1..upto];
    LevelAdds("{", t[open + 1..upto]);
    assert "{"[..0] == "";
  }

  lemma KLoopStepsFirst(t: string, h: Header, end: nat)
    requires IsHeader(t, h) && h.forAt <= end <= |t|
    ensures StepFirst(t[h.forAt..end])
  {
    var b := t[h.forAt..end];
    forall k: nat | k > 0 && OccursAt(b, HEADER, k) ensures HasStep(b[..k]) {
      var at := h.forAt + k;
      SliceOccurs(t, h.forAt, end, HEADER, at);
      var step := StepBeforeHeader(t, h, at);
      assert b[..k] == t[h.forAt..at];
      SliceOccurs(t, h.forAt, at, STEP_ANCHOR, step);
      assert OccursAt(b[..k], STEP_ANCHOR, step - h.forAt);
    }
  }

  /** A header behind the k-loop's has the step before it. */
  lemma StepBeforeHeader(t: string, h: Header, at: nat) returns (step: nat)
    requires IsHeader(t, h) && OccursAt(t, HEADER, at) && at > h.forAt
    ensures OccursAt(t, STEP_ANCHOR, step) && h.forAt + |HEADER| <= step && step + |STEP_ANCHOR| <= at
  {
    step :| FirstAt(t, STEP_ANCHOR, step) && LastWithin(t, HEADER, h.forAt, step);
    NoOverlap(t, step, at);
  }

  // ---- the loop stays where it is ------------------------------------------------------------

  /** A shader with the loop `b` at `|a|`, and what is known of its surroundings. */
  ghost predicate Around(a: string, b: string, c: string, h: Header) {
    IsHeader(a + b + c, h) && h.forAt == |a|
  }

  lemma LoopParts(a: string, c: string, between: string, inner: string, s: string)
    requires s == a + (between + ("{" + (inner + "}"))) + c
    ensures var open := |a| + |between|;
      && open + 2 + |inner| <= |s| && s[open] == '{' && s[open + 1 + |inner|] == '}'
      && s[|a|..open] == between && s[open + 1..open + 1 + |inner|] == inner
  {
  }

  lemma BalancedBlock(s: string, open: nat, inner: string)
    requires open + 2 + |inner| <= |s| && s[open] == '{' && s[open + 1 + |inner|] == '}'
    requires s[open + 1..open + 1 + |inner|] == inner && Balanced(inner)
    ensures IsBlock(s, open, open + 2 + |inner|)
  {
    var end := open + 2 + |inner|;
    forall m | open < m < end ensures Depth(s, '{', '}', open, m) > 0 {
      LevelBehindBrace(s, open, m);
      assert s[open + 1..m] == inner[..m - open - 1];
    }
    LevelBehindBrace(s, open, end - 1);
    assert inner[..|inner|] == inner;
  }

  lemma Middle(a: string, r: string, c: string)
    ensures (a + r + c)[|a|..|a| + |r|] == r
  {
  }

  /** The text `r` stands at `at`, up to the end of the block that opens in it. */
  ghost predicate BlockAt(s: string, at: nat, r: string) {
    BlockFrom(s, at, at + |r|) && at + |r| <= |s| && s[at..at + |r|] == r
  }

  lemma BlockOfLoop(s: string, a: string, b: string, c: string, between: string, inner: string)
    requires s == a + b + c && IsLoop(b, between, inner)
    ensures BlockAt(s, |a|, b)
  {
    var open := |a| + |between|;
    Middle(a, b, c);
    LoopParts(a, c, between, inner, s);
    FindOpens(s, |a|, open);
    BalancedBlock(s, open, inner);
  }

  lemma FindOpens(s: string, from: nat, open: nat)
    requires from <= open < |s| && s[open] == '{' && '{' !in s[from..open]
    ensures Find(s, "{", from) == Some(open)
  {
    assert s[open..open + 1] == "{" && OccursAt(s, "{", open);
    forall k | from <= k < open ensures !OccursAt(s, "{", k) {
      assert s[from..open][k - from] == s[k] && s[k] != '{';
      assert s[k..k + 1] == [s[k]] && "{"[0] == '{';
    }
  }

  lemma LastChar(b: string, between: string, inner: string)
    requires IsLoop(b, between, inner)
    ensures b != "" && b[|b| - 1] == '}' && OccursAt(b, HEADER, 0)
  {
    assert b == (between + "{" + inner) + "}";
  }

  lemma HasStepAround(a: string, m: string, c: string, upto: nat) returns (i: nat)
    requires upto <= |m| && HasStep(m[..upto])
    ensures OccursAt(a + m + c, STEP_ANCHOR, i) && |a| <= i && i + |STEP_ANCHOR| <= |a| + upto
  {
    var k: nat :| OccursAt(m[..upto], STEP_ANCHOR, k);
    i := |a| + k;
    var s := a + m + c;
    assert s[|a|..|a| + upto] == m[..upto];
    SliceOccurs(s, |a|, |a| + upto, STEP_ANCHOR, i);
  }

  lemma OccursBehind(a: string, c: string, x: string, i: nat)
    requires |a| <= i
    ensures OccursAt(a + c, x, i) <==> OccursAt(c, x, i - |a|)
  {
    OccursShifted(a, c, x, i);
  }

  /** The step stays, wherever it is: in the loop or behind it. */
  lemma StepAround(a: string, b: string, c: string, r: string, step: nat) returns (i: nat)
    requires HasStep(b) ==> HasStep(r)
    requires b != "" && b[|b| - 1] == '}' && |a| <= step && OccursAt(a + b + c, STEP_ANCHOR, step)
    ensures OccursAt(a + r + c, STEP_ANCHOR, i) && |a| <= i
    ensures i + |STEP_ANCHOR| <= |a| + |r| || (|a| + |b| <= step && i == step - |b| + |r|)
  {
    var t := a + b + c;
    AnchorChars();
    var last := |a| + |b| - 1;
    assert t[last] == '}';
    NotAcross(t, STEP_ANCHOR, step, last);
    if step + |STEP_ANCHOR| <= last {
      assert t[|a|..|a| + |b|] == b;
      SliceOccurs(t, |a|, |a| + |b|, STEP_ANCHOR, step);
      assert OccursAt(b, STEP_ANCHOR, step - |a|);
      assert r[..|r|] == r;
      i := HasStepAround(a, r, c, |r|);
    } else {
      i := step - |b| + |r|;
      OccursBehind(a + b, c, STEP_ANCHOR, step);
      OccursBehind(a + r, c, STEP_ANCHOR, i);
    }
  }

  /** Each header behind the loop's own has the step before it, afterwards as before. */
  lemma StepStaysFirst(a: string, b: string, c: string, r: string, h: Header, j: nat) returns (i: nat)
    requires IsHeader(a + b + c, h) && h.forAt == |a|
    requires b != "" && b[|b| - 1] == '}' && r != "" && r[|r| - 1] == '}'
    requires StepFirst(r) && (HasStep(b) ==> HasStep(r))
    requires OccursAt(a + r + c, HEADER, j) && j > |a|
    ensures OccursAt(a + r + c, STEP_ANCHOR, i) && i < j
  {
    var u := a + r + c;
    var last := |a| + |r| - 1;
    AnchorChars();
    assert u[last] == '}';
    NotAcross(u, HEADER, j, last);
    if j + |HEADER| <= last {
      assert u[|a|..|a| + |r|] == r;
      SliceOccurs(u, |a|, |a| + |r|, HEADER, j);
      i := HasStepAround(a, r, c, j - |a|);
    } else {
      var at := j - |r| + |b|;
      OccursBehind(a + r, c, HEADER, j);
      OccursBehind(a + b, c, HEADER, at);
      var step := StepBeforeHeader(a + b + c, h, at);
      i := StepAround(a, b, c, r, step);
    }
  }

  lemma FrontOccurs(a: string, x: string, y: string, p: string, j: nat)
    requires j + |p| <= |a|
    ensures OccursAt(a + x, p, j) <==> OccursAt(a + y, p, j)
  {
    OccursInFront(a, x, p, j);
    OccursInFront(a, y, p, j);
  }

  lemma SeedStays(a: string, x: string, y: string, h: Header)
    requires IsHeader(a + x, h) && h.forAt == |a|
    ensures FirstAt(a + y, SEED_ANCHOR, h.seedAt)
  {
    SeedAboveHeader(a + x, h);
    FrontOccurs(a, x, y, SEED_ANCHOR, h.seedAt);
    forall j: nat | j < h.seedAt ensures !OccursAt(a + y, SEED_ANCHOR, j) {
      FrontOccurs(a, x, y, SEED_ANCHOR, j);
    }
  }

  lemma LineStays(a: string, x: string, y: string, h: Header)
    requires IsHeader(a + x, h) && h.forAt == |a|
    ensures LastWithin(a + y, "\n", h.lineAt - 1, h.forAt) && AllWhitespace((a + y)[h.lineAt..h.forAt])
  {
    FrontOccurs(a, x, y, "\n", h.lineAt - 1);
    forall j: nat | h.lineAt - 1 < j <= h.forAt - 1 ensures !OccursAt(a + y, "\n", j) {
      FrontOccurs(a, x, y, "\n", j);
    }
    assert (a + y)[h.lineAt..h.forAt] == a[h.lineAt..] == (a + x)[h.lineAt..h.forAt];
  }

  /** No step comes before the header. */
  lemma NoStepAbove(a: string, x: string, y: string, h: Header, i: nat)
    requires IsHeader(a + x, h) && h.forAt == |a|
    requires OccursAt(a + y, HEADER, |a|) && OccursAt(a + y, STEP_ANCHOR, i)
    ensures |a| + |HEADER| <= i
  {
    NoOverlap(a + y, i, |a|);
    if i + |STEP_ANCHOR| <= |a| {
      FrontOccurs(a, x, y, STEP_ANCHOR, i);
      NotFirst(a + x, h, i);
    }
  }

  lemma NotFirst(t: string, h: Header, i: nat)
    requires IsHeader(t, h) && OccursAt(t, STEP_ANCHOR, i)
    ensures h.forAt < i
  {
    var step: nat :| FirstAt(t, STEP_ANCHOR, step) && LastWithin(t, HEADER, h.forAt, step);
    assert step <= i;
  }

  lemma SomeStep(a: string, b: string, c: string, r: string, h: Header) returns (i: nat)
    requires IsHeader(a + b + c, h) && h.forAt == |a|
    requires b != "" && b[|b| - 1] == '}' && (HasStep(b) ==> HasStep(r))
    ensures OccursAt(a + r + c, STEP_ANCHOR, i)
  {
    var t := a + b + c;
    var step: nat :| FirstAt(t, STEP_ANCHOR, step) && LastWithin(t, HEADER, h.forAt, step);
    i := StepAround(a, b, c, r, step);
  }

  lemma HeaderInside(a: string, r: string, c: string)
    requires HEADER <= r
    ensures OccursAt(a + r + c, HEADER, |a|)
  {
    var x := r[|HEADER|..];
    assert r == HEADER + x && a + (HEADER + x) + c == a + (HEADER + (x + c));
    OccursBetween(a, HEADER, x + c);
  }

  lemma FirstOf(s: string, x: string, i: nat) returns (first: nat)
    requires OccursAt(s, x, i)
    ensures FirstAt(s, x, first)
  {
    first := Find(s, x, 0).value;
  }

  /** The first step of the new text, and the header right before it. */
  lemma StepFollows(a: string, b: string, c: string, r: string, h: Header) returns (step: nat)
    requires IsHeader(a + b + c, h) && h.forAt == |a|
    requires b != "" && b[|b| - 1] == '}' && r != "" && r[|r| - 1] == '}' && HEADER <= r
    requires StepFirst(r) && (HasStep(b) ==> HasStep(r))
    ensures FirstAt(a + r + c, STEP_ANCHOR, step) && LastWithin(a + r + c, HEADER, |a|, step)
  {
    var some := SomeStep(a, b, c, r, h);
    step := FirstOf(a + r + c, STEP_ANCHOR, some);
    HeaderInside(a, r, c);
    Regroup(a, b, c);
    Regroup(a, r, c);
    NoStepAbove(a, b + c, r + c, h, step);
    forall j: nat | |a| < j <= step - |HEADER| ensures !OccursAt(a + r + c, HEADER, j) {
      if OccursAt(a + r + c, HEADER, j) {
        var i := StepStaysFirst(a, b, c, r, h, j);
      }
    }
  }

  lemma HeaderAround(t: string, a: string, b: string, c: string, r: string, h: Header)
    requires t == a + b + c && IsHeader(t, h) && h.forAt == |a|
    requires b != "" && b[|b| - 1] == '}' && r != "" && r[|r| - 1] == '}' && HEADER <= r
    requires StepFirst(r) && (HasStep(b) ==> HasStep(r))
    ensures IsHeader(a + r + c, h)
  {
    assert a + b + c == a + (b + c) && a + r + c == a + (r + c);
    SeedStays(a, b + c, r + c, h);
    LineStays(a, b + c, r + c, h);
    var step := StepFollows(a, b, c, r, h);
  }

  lemma Parts(t: string, from: nat, upto: nat)
    requires from <= upto <= |t|
    ensures t == t[..from] + t[from..upto] + t[upto..]
  {
  }

  /** The k-loop of `u` has the text `r`. */
  ghost predicate HasLoop(u: string, h: Header, r: string) {
    IsHeader(u, h) && BlockAt(u, h.forAt, r)
  }

  /** Another loop, with the step if that was in the old one, in the place of a k-loop. */
  lemma LoopInPlace(t: string, a: string, b: string, c: string, h: Header, r: string, between: string, inner: string)
    requires t == a + b + c && IsHeader(t, h) && h.forAt == |a|
    requires b != "" && b[|b| - 1] == '}'
    requires IsLoop(r, between, inner) && (HasStep(b) ==> HasStep(r))
    ensures HasLoop(a + r + c, h, r)
  {
    LastChar(r, between, inner);
    HeaderAround(t, a, b, c, r, h);
    BlockOfLoop(a + r + c, a, r, c, between, inner);
  }

  lemma PointedInPlace(t: string, a: string, b: string, c: string, h: Header, r: string)
    requires t == a + b + c && IsHeader(t, h) && h.forAt == |a|
    requires b != "" && b[|b| - 1] == '}' && SomeLoop(b) && r == PointLoads(b)
    ensures HasLoop(a + r + c, h, r)
  {
    PointedIsLoop(b);
    var between: string, inner: string :| IsLoop(r, between, inner);
    LoopInPlace(t, a, b, c, h, r, between, inner);
  }

  lemma LoopOfKLoop(t: string, h: Header, end: nat)
    requires IsHeader(t, h) && BlockFrom(t, h.forAt, end) && h.forAt <= end <= |t|
    ensures var b := t[h.forAt..end]; SomeLoop(b) && b != "" && b[|b| - 1] == '}'
  {
    KLoopIsLoop(t, h, end);
  }

  /** Pointing the loads leaves the k-loop where it is: the same header, and the block
      behind it is the one whose loads were pointed. */
  lemma LoopStaysInPlace(t: string, h: Header, end: nat, u: string)
    requires LoadsPointed(t, h, end, u)
    ensures HasLoop(u, h, PointLoads(t[h.forAt..end]))
  {
    Parts(t, h.forAt, end);
    LoopOfKLoop(t, h, end);
    PointedInPlace(t, t[..h.forAt], t[h.forAt..end], t[end..], h, PointLoads(t[h.forAt..end]));
  }
}
