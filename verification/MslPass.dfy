/** The pass as a whole: what it emits, and what is true of the emitted text. */
module MslPass {
  import opened Wrappers
  import opened Text
  import opened MslScan
  import opened MslText
  import opened MslLines
  import opened MslSkeleton

  // ---- the line above the loop -----------------------------------------------------------

  /** The line that goes above the header, indented like it. */
  function UnrollLine(indent: string, n: nat): string {
    indent + "#pragma unroll(" + Show(n) + ")\n"
  }

  /** One line, and a directive. */
  predicate IsDirective(line: string, indent: string) {
    && |line| > |indent| + 1 && line[..|indent|] == indent && line[|indent|] == '#'
    && line[|line| - 1] == '\n' && '\n' !in line[..|line| - 1]
  }

  lemma UnrollLineIsDirective(indent: string, n: nat)
    requires AllWhitespace(indent) && '\n' !in indent
    ensures IsDirective(UnrollLine(indent, n), indent)
  {
    ShowIsDecimal(n);
    var line := UnrollLine(indent, n);
    var head := indent + "#pragma unroll(" + Show(n) + ")";
    assert line == head + "\n" && line[..|line| - 1] == head;
  }

  lemma StepNeedsP(s: string, i: nat, upto: nat)
    requires OccursAt(s, STEP_ANCHOR, i) && i < upto <= |s| && AllWhitespace(s[i + 1..upto])
    ensures upto <= i + 13
  {
    CharInside(s, STEP_ANCHOR, i, i + 13);
    assert STEP_ANCHOR[13] == 'p';
    if i + 13 < upto {
      BlankAt(s, i + 1, upto, i + 13);
    }
  }

  /** `x` ends a line and `y` starts with the blanks before a header. */
  predicate AtHeader(x: string, y: string, indent: string) {
    && x != "" && x[|x| - 1] == '\n'
    && AllWhitespace(indent) && '\n' !in indent && indent <= y && OccursAt(y, HEADER, |indent|)
  }

  lemma HeaderStartsLine(u: string, h: Header)
    requires IsHeader(u, h) && h.forAt <= |u|
    ensures AtHeader(u[..h.lineAt], u[h.lineAt..], u[h.lineAt..h.forAt])
  {
    HeaderOccurs(u, h);
    CharInside(u, "\n", h.lineAt - 1, h.lineAt - 1);
    var indent := u[h.lineAt..h.forAt];
    forall k | 0 <= k < |indent| ensures indent[k] != '\n' {
      assert !OccursAt(u, "\n", h.lineAt + k);
      assert u[h.lineAt + k..h.lineAt + k + 1] == [indent[k]];
    }
    SliceOccurs(u, h.lineAt, |u|, HEADER, h.forAt);
    assert u[h.lineAt..|u|] == u[h.lineAt..];
  }

  lemma NoBreakInside(x: string, line: string, y: string, i: nat)
    requires line != "" && '\n' !in line[..|line| - 1] && |x| <= i < |x + line| - 1
    ensures (x + (line + y))[i] != '\n'
  {
    assert (x + (line + y))[i] == line[..|line| - 1][i - |x|];
  }

  lemma StepBeforeLine(s: string, x: string, indent: string, i: nat)
    requires OccursAt(s, STEP_ANCHOR, i) && i < |x| <= |s| && s[|x| - 1] == '\n'
    requires AllWhitespace(indent) && |x| + |indent| < |s|
    requires s[|x|..|x| + |indent|] == indent && s[|x| + |indent|] == '#'
    ensures i + |STEP_ANCHOR| <= |x|
  {
    assert '#' !in STEP_ANCHOR;
    NotAcross(s, STEP_ANCHOR, i, |x| + |indent|);
    if |x| < i + |STEP_ANCHOR| {
      StepAtBreak(s, i, |x| - 1);
      StepNeedsP(s, i, |x| + |indent|);
    }
  }

  lemma StepBehindLine(s: string, indent: string, i: nat)
    requires AllWhitespace(indent) && i + 1 + |indent| <= |s|
    requires s[i + 1..i + 1 + |indent|] == indent && OccursAt(s, HEADER, i + 1 + |indent|)
    ensures !OccursAt(s, STEP_ANCHOR, i)
  {
    if OccursAt(s, STEP_ANCHOR, i) {
      NoOverlap(s, i, i + 1 + |indent|);
      StepNeedsP(s, i, i + 1 + |indent|);
    }
  }

  lemma AroundLine(x: string, y: string, indent: string, line: string)
    requires AtHeader(x, y, indent) && IsDirective(line, indent)
    ensures var s, k := x + (line + y), |x| + |line|;
      && s[|x| - 1] == '\n' && |x| + |indent| < |s| && s[|x|..|x| + |indent|] == indent && s[|x| + |indent|] == '#'
      && k + |indent| <= |s| && s[k..k + |indent|] == indent && OccursAt(s, HEADER, k + |indent|)
  {
    assert x + (line + y) == (x + line) + y;
    OccursShifted(x + line, y, HEADER, |x| + |line| + |indent|);
  }

  /** A step does not reach into the line put in. */
  lemma NoStepAtLine(x: string, y: string, indent: string, line: string, i: nat)
    requires AtHeader(x, y, indent) && IsDirective(line, indent) && OccursAt(x + (line + y), STEP_ANCHOR, i)
    ensures i + |STEP_ANCHOR| <= |x| || |x + line| <= i
  {
    var s := x + (line + y);
    AnchorChars();
    CharInside(s, STEP_ANCHOR, i, i);
    AroundLine(x, y, indent, line);
    if i < |x| {
      StepBeforeLine(s, x, indent, i);
    } else if |x| <= i < |x + line| - 1 {
      NoBreakInside(x, line, y, i);
    } else if i == |x + line| - 1 {
      StepBehindLine(s, indent, i);
    }
  }

  /** Only the first character of a step is a line break. */
  lemma StepAtBreak(s: string, i: nat, k: nat)
    requires OccursAt(s, STEP_ANCHOR, i) && i <= k < i + |STEP_ANCHOR| && s[k] == '\n'
    ensures i == k
  {
    CharInside(s, STEP_ANCHOR, i, k);
    assert forall d :: 0 < d < |STEP_ANCHOR| ==> STEP_ANCHOR[d] != '\n';
  }

  // ---- the loop below the line ------------------------------------------------------------

  /** The header, further down by one line. */
  function Below(h: Header, n: nat): Header {
    Header(h.seedAt, h.lineAt + n, h.forAt + n)
  }

  lemma BehindLine(x: string, line: string, y: string, p: string, i: nat)
    requires |x| <= i
    ensures OccursAt(x + (line + y), p, i + |line|) <==> OccursAt(x + y, p, i)
  {
    assert x + (line + y) == (x + line) + y;
    OccursShifted(x + line, y, p, i + |line|);
    OccursShifted(x, y, p, i);
  }

  lemma SeedAboveLine(x: string, line: string, y: string, h: Header)
    requires IsHeader(x + y, h) && h.lineAt == |x|
    ensures FirstAt(x + (line + y), SEED_ANCHOR, h.seedAt)
  {
    SeedAboveHeader(x + y, h);
    FrontOccurs(x, y, line + y, SEED_ANCHOR, h.seedAt);
    forall j: nat | j < h.seedAt ensures !OccursAt(x + (line + y), SEED_ANCHOR, j) {
      FrontOccurs(x, y, line + y, SEED_ANCHOR, j);
    }
  }

  lemma StepBelowLine(x: string, line: string, y: string, indent: string, h: Header, step: nat)
    requires AtHeader(x, y, indent) && IsDirective(line, indent) && h.lineAt == |x| <= h.forAt
    requires FirstAt(x + y, STEP_ANCHOR, step) && LastWithin(x + y, HEADER, h.forAt, step)
    ensures FirstAt(x + (line + y), STEP_ANCHOR, step + |line|)
    ensures LastWithin(x + (line + y), HEADER, h.forAt + |line|, step + |line|)
  {
    var s := x + (line + y);
    BehindLine(x, line, y, STEP_ANCHOR, step);
    forall i: nat | i < step + |line| ensures !OccursAt(s, STEP_ANCHOR, i) {
      if OccursAt(s, STEP_ANCHOR, i) {
        NoStepAtLine(x, y, indent, line, i);
        if i + |STEP_ANCHOR| <= |x| {
          FrontOccurs(x, line + y, y, STEP_ANCHOR, i);
        } else {
          BehindLine(x, line, y, STEP_ANCHOR, i - |line|);
        }
      }
    }
    BehindLine(x, line, y, HEADER, h.forAt);
    forall j: nat | h.forAt + |line| < j <= step + |line| - |HEADER| ensures !OccursAt(s, HEADER, j) {
      BehindLine(x, line, y, HEADER, j - |line|);
    }
  }

  lemma BreakBelowLine(x: string, line: string, y: string, h: Header)
    requires line != "" && line[|line| - 1] == '\n' && h.lineAt == |x| && h.lineAt <= h.forAt
    requires h.lineAt > 0 && LastWithin(x + y, "\n", h.lineAt - 1, h.forAt)
    ensures LastWithin(x + (line + y), "\n", h.lineAt + |line| - 1, h.forAt + |line|)
  {
    var s, at := x + (line + y), h.lineAt + |line| - 1;
    assert s[at] == '\n' && s[at..at + 1] == "\n";
    forall j: nat | at < j <= h.forAt + |line| - 1 ensures !OccursAt(s, "\n", j) {
      BehindLine(x, line, y, "\n", j - |line|);
    }
  }

  lemma StepUnderLine(u: string, x: string, line: string, y: string, indent: string, h: Header) returns (step: nat)
    requires u == x + y && IsHeader(u, h) && h.lineAt == |x| <= h.forAt
    requires AtHeader(x, y, indent) && IsDirective(line, indent)
    ensures FirstAt(x + (line + y), STEP_ANCHOR, step)
    ensures LastWithin(x + (line + y), HEADER, h.forAt + |line|, step)
  {
    var before: nat :| FirstAt(u, STEP_ANCHOR, before) && LastWithin(u, HEADER, h.forAt, before);
    StepBelowLine(x, line, y, indent, h, before);
    step := before + |line|;
  }

  lemma BreakUnderLine(u: string, x: string, line: string, y: string, h: Header)
    requires u == x + y && IsHeader(u, h) && h.lineAt == |x| <= h.forAt
    requires line != "" && line[|line| - 1] == '\n'
    ensures LastWithin(x + (line + y), "\n", h.lineAt + |line| - 1, h.forAt + |line|)
  {
    BreakBelowLine(x, line, y, h);
  }

  lemma SeedOverLine(u: string, x: string, line: string, y: string, h: Header)
    requires u == x + y && IsHeader(u, h) && h.lineAt == |x|
    ensures FirstAt(x + (line + y), SEED_ANCHOR, h.seedAt) && h.seedAt < h.lineAt
  {
    SeedAboveLine(x, line, y, h);
  }

  lemma HeaderBelowLine(u: string, s: string, x: string, line: string, y: string, indent: string, h: Header)
    requires u == x + y && s == x + (line + y)
    requires IsHeader(u, h) && h.lineAt == |x| <= h.forAt <= |u| && indent == u[h.lineAt..h.forAt]
    requires AtHeader(x, y, indent) && IsDirective(line, indent)
    ensures IsHeader(s, Below(h, |line|))
  {
    SeedOverLine(u, x, line, y, h);
    var step := StepUnderLine(u, x, line, y, indent, h);
    BreakUnderLine(u, x, line, y, h);
    AroundLine(x, y, indent, line);
    HeaderFrom(s, Below(h, |line|), step, indent);
  }

  lemma HeaderFrom(s: string, g: Header, step: nat, indent: string)
    requires FirstAt(s, SEED_ANCHOR, g.seedAt)
    requires FirstAt(s, STEP_ANCHOR, step) && LastWithin(s, HEADER, g.forAt, step)
    requires g.seedAt < g.lineAt <= g.forAt <= |s| && LastWithin(s, "\n", g.lineAt - 1, g.forAt)
    requires s[g.lineAt..g.forAt] == indent && AllWhitespace(indent)
    ensures IsHeader(s, g)
  {
  }

  lemma Rejoin(x: string, line: string, indent: string, r: string, c: string)
    ensures x + (line + (indent + r + c)) == (x + line + indent) + r + c
    ensures x + (indent + r + c) == (x + indent) + r + c
  {
  }

  lemma BlockIn(s: string, at: nat, a: string, r: string, c: string)
    requires s == a + r + c && at == |a| && SomeLoop(r)
    ensures BlockAt(s, at, r)
  {
    var between: string, inner: string :| IsLoop(r, between, inner);
    BlockOfLoop(s, a, r, c, between, inner);
  }

  lemma LoopText(u: string, h: Header, r: string)
    requires HasLoop(u, h, r)
    ensures SomeLoop(r)
  {
    KLoopIsLoop(u, h, h.forAt + |r|);
  }

  lemma TextFrom(u: string, at: nat, from: nat, r: string)
    requires at <= from && from + |r| <= |u| && u[from..from + |r|] == r
    ensures u[at..] == u[at..from] + r + u[from + |r|..]
  {
  }

  lemma PartsBelowLine(u: string, s: string, at: nat, from: nat, line: string, r: string) returns (a: string, c: string)
    requires at <= from && from + |r| <= |u| && u[from..from + |r|] == r
    requires s == u[..at] + (line + u[at..])
    ensures s == a + r + c && |a| == from + |line|
  {
    TextFrom(u, at, from, r);
    Rejoin(u[..at], line, u[at..from], r, u[from + |r|..]);
    a, c := u[..at] + line + u[at..from], u[from + |r|..];
  }

  /** Below the line the block is the same. */
  lemma BlockBelowLine(u: string, s: string, at: nat, line: string, h: Header, r: string)
    requires HasLoop(u, h, r) && h.lineAt <= h.forAt <= |u| && s == u[..h.lineAt] + (line + u[h.lineAt..])
    requires at == h.forAt + |line|
    ensures BlockAt(s, at, r)
  {
    LoopText(u, h, r);
    var a, c := PartsBelowLine(u, s, h.lineAt, h.forAt, line, r);
    BlockIn(s, at, a, r, c);
  }

  // ---- nothing stale comes about --------------------------------------------------------------

  /** A pattern without a line break occurs on one side of a break or on the other. */
  lemma OnOneSide(a: string, b: string, p: string, i: nat)
    requires '\n' !in p && OccursAt(a + ("\n" + b), p, i)
    ensures (i + |p| <= |a| && OccursAt(a, p, i)) || (|a| < i && OccursAt(b, p, i - |a| - 1))
      || p == ""
  {
    var s := a + ("\n" + b);
    assert s[|a|] == '\n';
    NotAcross(s, p, i, |a|);
    if i + |p| <= |a| {
      OccursInFront(a, "\n" + b, p, i);
    } else if |a| < i {
      assert s == (a + "\n") + b;
      OccursShifted(a + "\n", b, p, i);
    }
  }

  lemma AbsentAround(a: string, b: string, p: string)
    requires p != "" && '\n' !in p && Absent(a, p) && Absent(b, p)
    ensures Absent(a + ("\n" + b), p)
  {
    forall i | 0 <= i < |a + ("\n" + b)| ensures !OccursAt(a + ("\n" + b), p, i) {
      if OccursAt(a + ("\n" + b), p, i) {
        OnOneSide(a, b, p, i);
        NotBefore(a, p, i);
        NotBefore(b, p, i - |a| - 1);
      }
    }
  }

  lemma AbsentByChar(s: string, p: string, c: char)
    requires c in p && c !in s
    ensures Absent(s, p)
  {
    forall i | 0 <= i < |s| ensures !OccursAt(s, p, i) {
      if OccursAt(s, p, i) {
        OccursChars(s, p, i);
      }
    }
  }

  lemma AbsentInParts(x: string, y: string, p: string)
    requires p != "" && Absent(x + y, p)
    ensures Absent(x, p) && Absent(y, p)
  {
    forall i | 0 <= i < |x| ensures !OccursAt(x, p, i) {
      if i + |p| <= |x| {
        OccursInFront(x, y, p, i);
      }
    }
    forall i | 0 <= i < |y| ensures !OccursAt(y, p, i) {
      OccursShifted(x, y, p, |x| + i);
    }
  }

  /** No pattern with an underscore comes in with the marker and the line. */
  lemma StillAbsent(x0: string, l0: string, y: string, p: string)
    requires '_' in p && '\n' !in p && '_' !in l0 && Absent(x0 + "\n" + y, p)
    ensures Absent(MARKER + ("\n" + (x0 + ("\n" + (l0 + ("\n" + y))))), p)
  {
    AbsentInParts(x0 + "\n", y, p);
    AbsentInParts(x0, "\n", p);
    AbsentByChar(l0, p, '_');
    MarkerChars();
    AbsentByChar(MARKER, p, '_');
    AbsentAround(l0, y, p);
    AbsentAround(x0, l0 + ("\n" + y), p);
    AbsentAround(MARKER, x0 + ("\n" + (l0 + ("\n" + y))), p);
  }

  lemma MarkerChars()
    ensures '_' !in MARKER
  {
  }

  lemma StaleIff(t: string)
    ensures !Stale(t) <==> Absent(t, "(_sa)[0]) + (lsma") && Absent(t, "(_sb)[0]) + (lsmb")
  {
    FindIffPresent(t, "(_sa)[0]) + (lsma");
    FindIffPresent(t, "(_sb)[0]) + (lsmb");
  }

  lemma FindIffPresent(t: string, p: string)
    requires p != ""
    ensures Find(t, p, 0) == None <==> Absent(t, p)
  {
    if Absent(t, p) && Find(t, p, 0).Some? {
      NotBefore(t, p, Find(t, p, 0).value);
    }
  }

  lemma NoUnderscore(indent: string, n: nat)
    requires AllWhitespace(indent)
    ensures '_' !in indent + "#pragma unroll(" + Show(n) + ")"
  {
    ShowIsDecimal(n);
    assert '_' !in "#pragma unroll(" && '_' !in ")";
  }

  // ---- the pass ------------------------------------------------------------------------------------

  /** `out` is `u` with the unroll line put in above the header, and the marker line
      above all. */
  ghost predicate Emits(u: string, h: Header, n: nat, out: string) {
    && h.lineAt <= h.forAt <= |u|
    && out == MARKER + "\n"
              + (u[..h.lineAt] + (u[h.lineAt..h.forAt] + "#pragma unroll(" + Show(n) + ")\n" + u[h.lineAt..]))
  }

  function UnderMarker(out: string): string {
    if |out| > |MARKER| then out[|MARKER| + 1..] else ""
  }

  /** The k-loop found in the text reads pointers only, and right above it stands the line
      that unrolls it by its own trip count. */
  ghost predicate PointedLoop(s: string) {
    exists h: Header, r: string, n: nat ::
      && HasLoop(s, h, r) && LoadsUsePointers(r) && !ContainsWord(r, "_sa") && !ContainsWord(r, "_sb")
      && TripCount(r) == Some(n) && 1 <= n <= MAX_UNROLL
      && h.lineAt <= h.forAt <= |s|
      && EndsWith(s[..h.lineAt], s[h.lineAt..h.forAt] + "#pragma unroll(" + Show(n) + ")\n")
  }

  /** What the pass makes of a text that it has to rewrite. */
  ghost predicate Rewrites(src: string, out: string) {
    && !AlreadyNamed(src) && !Collides(src)
    && Splice(src).Ok?
    && exists u: string, h: Header, end: nat, stop: nat, n: nat ::
         LoadsPointed(Splice(src).value, h, end, u) && Unrollable(u, h, stop, n) && Emits(u, h, n, out)
  }

  lemma DirectiveAbove(s: string, x: string, line: string, y: string, indent: string)
    requires s == x + (line + y) && indent <= y
    ensures s[..|x| + |line|] == x + line && EndsWith(x + line, line)
    ensures |x| + |line| + |indent| <= |s| && s[|x| + |line|..|x| + |line| + |indent|] == indent
  {
  }

  lemma HeaderEmitted(u: string, s: string, h: Header, line: string, indent: string)
    requires IsHeader(u, h) && h.lineAt <= h.forAt <= |u| && indent == u[h.lineAt..h.forAt]
    requires s == u[..h.lineAt] + (line + u[h.lineAt..]) && IsDirective(line, indent)
    ensures IsHeader(s, Below(h, |line|))
  {
    HeaderStartsLine(u, h);
    HeaderBelowLine(u, s, u[..h.lineAt], line, u[h.lineAt..], indent, h);
  }

  lemma LoopEmitted(u: string, s: string, h: Header, g: Header, r: string, line: string, indent: string)
    requires HasLoop(u, h, r) && h.lineAt <= h.forAt <= |u| && indent == u[h.lineAt..h.forAt]
    requires s == u[..h.lineAt] + (line + u[h.lineAt..]) && IsDirective(line, indent) && g == Below(h, |line|)
    ensures HasLoop(s, g, r)
  {
    HeaderEmitted(u, s, h, line, indent);
    BlockBelowLine(u, s, g.forAt, line, h, r);
  }

  lemma LineEmitted(u: string, s: string, h: Header, g: Header, line: string, indent: string)
    requires h.lineAt <= h.forAt <= |u| && indent == u[h.lineAt..h.forAt]
    requires s == u[..h.lineAt] + (line + u[h.lineAt..]) && g == Below(h, |line|)
    ensures g.lineAt <= g.forAt <= |s| && s[g.lineAt..g.forAt] == indent && EndsWith(s[..g.lineAt], line)
  {
    DirectiveAbove(s, u[..h.lineAt], line, u[h.lineAt..], indent);
  }

  /** The loop in the emitted text. */
  lemma EmittedLoop(u: string, h: Header, r: string, n: nat, s: string, line: string)
    requires HasLoop(u, h, r) && LoadsUsePointers(r) && !NamesScratch(r) && h.lineAt <= h.forAt <= |u|
    requires TripCount(r) == Some(n) && 1 <= n <= MAX_UNROLL
    requires line == UnrollLine(u[h.lineAt..h.forAt], n) && s == u[..h.lineAt] + (line + u[h.lineAt..])
    ensures PointedLoop(s)
  {
    var g, indent := Below(h, |line|), u[h.lineAt..h.forAt];
    LineIsBlank(u, h);
    UnrollLineIsDirective(indent, n);
    LoopEmitted(u, s, h, g, r, line, indent);
    LineEmitted(u, s, h, g, line, indent);
    ShownLoop(s, g, r, indent, n);
  }

  lemma ShownLoop(s: string, h: Header, r: string, indent: string, n: nat)
    requires HasLoop(s, h, r) && LoadsUsePointers(r) && !NamesScratch(r)
    requires TripCount(r) == Some(n) && 1 <= n <= MAX_UNROLL
    requires h.lineAt <= h.forAt <= |s|
    requires s[h.lineAt..h.forAt] == indent && EndsWith(s[..h.lineAt], UnrollLine(indent, n))
    ensures PointedLoop(s)
  {
  }

  lemma EmittedLines(u: string, at: nat, upto: nat, n: nat) returns (x0: string)
    requires 0 < at <= upto <= |u| && u[at - 1] == '\n'
    ensures u == x0 + "\n" + u[at..]
    ensures var l0 := u[at..upto] + "#pragma unroll(" + Show(n) + ")";
      MARKER + "\n" + (u[..at] + (u[at..upto] + "#pragma unroll(" + Show(n) + ")\n" + u[at..]))
      == MARKER + ("\n" + (x0 + ("\n" + (l0 + ("\n" + u[at..])))))
  {
    x0 := u[..at - 1];
    LinesJoin(MARKER, x0, u[at..upto] + "#pragma unroll(" + Show(n) + ")", u[at..]);
    assert u[..at] == x0 + "\n";
    assert u[at..upto] + "#pragma unroll(" + Show(n) + ")\n"
        == u[at..upto] + "#pragma unroll(" + Show(n) + ")" + "\n";
  }

  lemma LinesJoin(m: string, x0: string, l0: string, y: string)
    ensures m + "\n" + ((x0 + "\n") + (l0 + "\n" + y)) == m + ("\n" + (x0 + ("\n" + (l0 + ("\n" + y)))))
  {
  }

  lemma LineIsBlank(u: string, h: Header)
    requires IsHeader(u, h) && h.lineAt <= h.forAt <= |u|
    ensures AllWhitespace(u[h.lineAt..h.forAt]) && '\n' !in u[h.lineAt..h.forAt]
    ensures h.lineAt > 0 && u[h.lineAt - 1] == '\n'
  {
    CharInside(u, "\n", h.lineAt - 1, h.lineAt - 1);
    HeaderStartsLine(u, h);
  }

  /** No load in index form comes about. */
  lemma EmittedIsFresh(u: string, h: Header, n: nat, out: string)
    requires IsHeader(u, h) && !Stale(u) && Emits(u, h, n, out)
    ensures !Stale(out)
  {
    LineIsBlank(u, h);
    var x0 := EmittedLines(u, h.lineAt, h.forAt, n);
    NoUnderscore(u[h.lineAt..h.forAt], n);
    FreshParts(u, x0, u[h.lineAt..h.forAt] + "#pragma unroll(" + Show(n) + ")", u[h.lineAt..], out);
  }

  lemma FreshParts(u: string, x0: string, l0: string, y: string, out: string)
    requires u == x0 + "\n" + y && out == MARKER + ("\n" + (x0 + ("\n" + (l0 + ("\n" + y)))))
    requires '_' !in l0 && !Stale(u)
    ensures !Stale(out)
  {
    StaleIff(u);
    StaleIff(out);
    StillAbsent(x0, l0, y, "(_sa)[0]) + (lsma");
    StillAbsent(x0, l0, y, "(_sb)[0]) + (lsmb");
  }

  lemma LoopWasPointed(t: string, h: Header, end: nat, u: string, stop: nat, n: nat) returns (r: string)
    requires LoadsPointed(t, h, end, u) && Unrollable(u, h, stop, n)
    ensures HasLoop(u, h, r) && LoadsUsePointers(r) && !NamesScratch(r) && TripCount(r) == Some(n)
  {
    LoopStaysInPlace(t, h, end, u);
    r := PointLoads(t[h.forAt..end]);
    SameBlock(u, h, r, stop);
  }

  lemma SameBlock(u: string, h: Header, r: string, stop: nat)
    requires HasLoop(u, h, r) && BlockFrom(u, h.forAt, stop) && h.forAt <= stop <= |u|
    ensures u[h.forAt..stop] == r
  {
    KLoopIsUnique(u, h, h.forAt + |r|, h, stop);
  }

  lemma UnderneathIs(out: string, s: string)
    requires out == MARKER + "\n" + s
    ensures UnderMarker(out) == s
  {
  }

  lemma EmittedIsMarked(s: string)
    ensures Marked(MARKER + "\n" + s)
  {
    MarkerIsOneLine();
    FirstLineOf(MARKER, s);
  }

  /** The emitted text: marked, no load in it addresses through the index, and the k-loop
      that is found in it reads pointers only, below its own unroll line. */
  lemma EmittedIsSound(t: string, u: string, h: Header, end: nat, stop: nat, n: nat, out: string)
    requires LoadsPointed(t, h, end, u) && Unrollable(u, h, stop, n) && Emits(u, h, n, out)
    ensures Marked(out) && !Stale(out) && PointedLoop(UnderMarker(out))
  {
    var line := UnrollLine(u[h.lineAt..h.forAt], n);
    var s := u[..h.lineAt] + (line + u[h.lineAt..]);
    EmittedIsFresh(u, h, n, out);
    UnderneathIs(out, s);
    EmittedIsMarked(s);
    var r := LoopWasPointed(t, h, end, u, stop, n);
    EmittedLoop(u, h, r, n, s, line);
  }

  lemma SameHeader(u: string, h: Header, g: Header)
    requires IsHeader(u, h) && IsHeader(u, g)
    ensures h == g
  {
    HeaderIsFound(u, h);
    HeaderIsFound(u, g);
  }

  lemma SameIndent(t: string, u: string, at: nat, upto: nat, end: nat, r: string)
    requires at <= upto <= end <= |t| && u == t[..upto] + r + t[end..]
    ensures t[at..upto] == u[at..upto]
  {
  }

  /** The header that the last part of the pass finds again is the one it had before. */
  lemma HeaderIsFoundAgain(t: string, h: Header, end: nat, u: string, g: Header, stop: nat, n: nat)
    requires LoadsPointed(t, h, end, u) && Unrollable(u, g, stop, n)
    ensures g == h && t[h.lineAt..h.forAt] == u[h.lineAt..h.forAt]
  {
    var r := PointLoads(t[h.forAt..end]);
    LoopStaysInPlace(t, h, end, u);
    SameHeader(u, h, g);
    SameIndent(t, u, h.lineAt, h.forAt, end, r);
  }

  /** What is emitted for a finish. */
  lemma FinishIsEmitted(src: string, t: string, f: Finish, indent: string, out: string)
    requires !AlreadyNamed(src) && !Collides(src) && Splice(src) == Ok(t)
    requires LoadsPointed(t, f.before, f.beforeEnd, f.pointed) && Unrollable(f.pointed, f.after, f.afterEnd, f.trips)
    requires indent == t[f.before.lineAt..f.before.forAt]
    requires out == MARKER + "\n" + (f.pointed[..f.after.lineAt]
                 + (indent + "#pragma unroll(" + Show(f.trips) + ")\n" + f.pointed[f.after.lineAt..]))
    ensures Rewrites(src, out) && Marked(out) && !Stale(out) && PointedLoop(UnderMarker(out))
  {
    HeaderIsFoundAgain(t, f.before, f.beforeEnd, f.pointed, f.after, f.afterEnd, f.trips);
    EmittedIsRewrite(src, t, f.pointed, f.after, f.beforeEnd, f.afterEnd, f.trips, out);
  }

  lemma EmittedIsRewrite(src: string, t: string, u: string, h: Header, end: nat, stop: nat, n: nat, out: string)
    requires !AlreadyNamed(src) && !Collides(src) && Splice(src) == Ok(t)
    requires LoadsPointed(t, h, end, u) && Unrollable(u, h, stop, n) && Emits(u, h, n, out)
    ensures Rewrites(src, out) && Marked(out) && !Stale(out) && PointedLoop(UnderMarker(out))
  {
    EmittedIsSound(t, u, h, end, stop, n, out);
  }

  lemma PartsFinish(t: string, h: Header, end: nat, u: string, stop: nat, n: nat)
    requires LoadsPointed(t, h, end, u) && Unrollable(u, h, stop, n)
    ensures Finishes(t, Finish(h, end, u, h, stop, n))
  {
  }

  lemma RewriteIsFinish(src: string, t: string, out: string) returns (f: Finish)
    requires Splice(src) == Ok(t) && Rewrites(src, out)
    ensures Finishes(t, f)
  {
    var u: string, h: Header, end: nat, stop: nat, n: nat :|
      LoadsPointed(t, h, end, u) && Unrollable(u, h, stop, n) && Emits(u, h, n, out);
    f := Finish(h, end, u, h, stop, n);
    PartsFinish(t, h, end, u, stop, n);
  }

  lemma NoFinishNoRewrite(src: string, t: string)
    requires Splice(src) == Ok(t) && forall f: Finish :: !Finishes(t, f)
    ensures forall out: string :: !Rewrites(src, out)
  {
    forall out: string ensures !Rewrites(src, out) {
      if Rewrites(src, out) {
        var f := RewriteIsFinish(src, t, out);
      }
    }
  }

  /** `postpass_gemm_msl`. Output is marked and marked input comes back as it is, so
      a second application changes nothing; anything else is rewritten, or declined
      exactly when it cannot be. An older artifact, which holds names of ours under
      another marker, is among the declined. Of the emitted text itself: no load in it
      addresses through the index, and the k-loop found in it reads pointers only,
      below a line that unrolls it by its own trip count. */
  method Postpass(src: string) returns (r: Result<string, string>)
    ensures Marked(src) ==> r == Ok(src)
    ensures !Marked(src) && r.Ok? ==> Rewrites(src, r.value)
    ensures !Marked(src) && r.Ok? ==> !Stale(r.value) && PointedLoop(UnderMarker(r.value))
    ensures r.Err? ==> !Marked(src) && forall out: string :: !Rewrites(src, out)
    ensures r.Ok? ==> Marked(r.value)
  {
    if Marked(src) {
      return Ok(src);
    }
    var clear := Preflight(src);
    if !clear {
      return Err("generated MSL already holds what this pass introduces");
    }
    var t :- Splice(src);
    var finished := FinishPass(t);
    if finished.Err? {
      NoFinishNoRewrite(src, t);
      return Err(finished.error);
    }
    var f := finished.value;
    var indent := t[f.before.lineAt..f.before.forAt];
    var before, after := f.pointed[..f.after.lineAt], f.pointed[f.after.lineAt..];
    var out := MARKER + "\n" + (before + (indent + "#pragma unroll(" + Show(f.trips) + ")\n" + after));
    FinishIsEmitted(src, t, f, indent, out);
    return Ok(out);
  }
}
