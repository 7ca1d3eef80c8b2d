/** Meaning preservation of the pointer walk: for accepted kernels, what the
    rewritten program loads against what the source program loads. */
module MslPointerWalk {
  import opened Wrappers
  import opened MslAddress
  import opened MslKernel
  import opened MslGuards

  /** The addresses of a load trace, in order. */
  function Addresses(t: seq<Event>): (r: seq<(Option<Buf>, int)>)
    ensures |r| == |t|
  {
    seq(|t|, i requires 0 <= i < |t| => (t[i].buf, t[i].addr))
  }

  function Source(k: Kernel, fuel: nat, st: State, lay: Layout): Outcome {
    Exec(fuel, Program(k), st, lay)
  }

  function Rewritten(k: Kernel, fuel: nat, st: State, lay: Layout): Outcome {
    Exec(fuel, Rewrite(Program(k), false), st, lay)
  }

  /** Run for run, the rewritten kernel issues the source's loads in the same
      order on the same buffers, each moved by exactly the skew of its text, and
      leaves every source variable and all remaining input alike. */
  lemma WalkMirrorsIndex(k: Kernel, fuel: nat, st: State, lay: Layout)
    requires Accepts(k) && Compiles(k) && Placed(k) && SitesInSpan(k)
    ensures var s, w := Source(k, fuel, st, lay), Rewritten(k, fuel, st, lay);
            && w.sig == s.sig && Agree(s.st, w.st)
            && |w.trace| == |s.trace|
            && forall i :: 0 <= i < |s.trace| ==>
                 w.trace[i].buf == s.trace[i].buf && w.trace[i].addr == s.trace[i].addr - s.trace[i].skew
  {
    GuardsGiveFlow(k);
    Simulates(fuel, Program(k), NONE, NONE, false, st, st, lay);
  }

  /** So the load addresses agree on a run exactly when every load of that run has
      no skew. */
  lemma SameLoadsIff(k: Kernel, fuel: nat, st: State, lay: Layout)
    requires Accepts(k) && Compiles(k) && Placed(k) && SitesInSpan(k)
    ensures Addresses(Rewritten(k, fuel, st, lay).trace) == Addresses(Source(k, fuel, st, lay).trace)
       <==> forall i :: 0 <= i < |Source(k, fuel, st, lay).trace| ==> Source(k, fuel, st, lay).trace[i].skew == 0
  {
    WalkMirrorsIndex(k, fuel, st, lay);
    var s, w := Source(k, fuel, st, lay).trace, Rewritten(k, fuel, st, lay).trace;
    if Addresses(w) == Addresses(s) {
      forall i | 0 <= i < |s| ensures s[i].skew == 0 {
        assert Addresses(w)[i] == Addresses(s)[i];
      }
    }
  }

  // ---- loads that take the pointer -------------------------------------------------

  /** Loads are skewed just where their index wraps. */
  predicate SkewedByWrap(t: seq<Event>) {
    forall i :: 0 <= i < |t| ==> (t[i].skew == 0 <==> t[i].fits)
  }

  predicate Straight(ss: seq<Stmt>) {
    Count(ss, Unspliceable()) == 0 && Count(ss, IllTyped()) == 0
  }

  predicate StraightOne(s: Stmt) {
    CountOne(s, Unspliceable()) == 0 && CountOne(s, IllTyped()) == 0
  }

  lemma SkewOfStraightLoad(b: Buf, a: Addr, st: State, lay: Layout)
    requires WellTyped(a) && Spliceable(b, a)
    ensures var e := IndexEvent(b, a, st, lay); e.skew == 0 <==> e.fits
  {
    SpliceableSkewsIff(b, Get(st.env, Index(b)), a, st.env);
  }

  lemma {:induction false} StraightRuns(fuel: nat, ss: seq<Stmt>, st: State, lay: Layout)
    requires Straight(ss)
    ensures SkewedByWrap(Exec(fuel, ss, st, lay).trace)
    decreases fuel, ss, 0
  {
    if ss != [] {
      StraightRunsOne(fuel, ss[0], st, lay);
      var r := ExecOne(fuel, ss[0], st, lay);
      if r.sig == Next {
        StraightRuns(fuel, ss[1..], r.st, lay);
      }
    }
  }

  lemma {:induction false} StraightRunsOne(fuel: nat, s: Stmt, st: State, lay: Layout)
    requires StraightOne(s)
    ensures SkewedByWrap(ExecOne(fuel, s, st, lay).trace)
    decreases fuel, s, 0
  {
    if s.If? {
      StraightRuns(fuel, s.thn, st, lay);
      StraightRuns(fuel, s.els, st, lay);
    } else if s.Guarded? {
      StraightRunsOne(fuel, s.line, st, lay);
      GuardRuns(fuel, s.c, s.line, st, lay);
    } else if s.Loop? || s.KLoop? {
      StraightRunsLoop(fuel, s.body, st, lay);
    } else if s.LoadIdx? {
      StraightLoads(fuel, s, st, lay);
    } else {
      OthersStraight(fuel, s, st, lay);
    }
  }

  lemma OthersStraight(fuel: nat, s: Stmt, st: State, lay: Layout)
    requires !s.If? && !s.Guarded? && !s.Loop? && !s.KLoop? && !s.LoadIdx?
    ensures SkewedByWrap(ExecOne(fuel, s, st, lay).trace)
  {
  }

  lemma StraightLoads(fuel: nat, s: Stmt, st: State, lay: Layout)
    requires s.LoadIdx? && StraightOne(s)
    ensures SkewedByWrap(ExecOne(fuel, s, st, lay).trace)
  {
    assert !Unspliceable()(s) && !IllTyped()(s);
    SkewOfStraightLoad(s.buf, s.at, st, lay);
    IndexTrace(s.buf, s.at, st, lay);
  }

  lemma {:induction false} StraightRunsLoop(fuel: nat, body: seq<Stmt>, st: State, lay: Layout)
    requires Straight(body)
    ensures SkewedByWrap(ExecLoop(fuel, body, st, lay).trace)
    decreases fuel, body, 1
  {
    if fuel != 0 {
      StraightRuns(fuel - 1, body, st, lay);
      var r := Exec(fuel - 1, body, st, lay);
      if r.sig == Next || r.sig == Continued {
        StraightRunsLoop(fuel - 1, body, r.st, lay);
      }
    }
  }

  /** Meaning preservation: an accepted kernel whose sites stand where their indentation
      suggests and in the counted span, and whose load texts take the pointer in place of
      the index, loads the same addresses in the same order exactly when no load's index
      and offset wrap, for any number of tiles, loop turns and values in memory, and
      whatever its other operators compute. */
  lemma MeaningPreserved(k: Kernel, fuel: nat, st: State, lay: Layout)
    requires Accepts(k) && Compiles(k) && Placed(k) && SitesInSpan(k)
    requires Count(Program(k), Unspliceable()) == 0
    ensures Addresses(Rewritten(k, fuel, st, lay).trace) == Addresses(Source(k, fuel, st, lay).trace)
       <==> forall i :: 0 <= i < |Source(k, fuel, st, lay).trace| ==> Source(k, fuel, st, lay).trace[i].fits
    ensures Rewritten(k, fuel, st, lay).sig == Source(k, fuel, st, lay).sig
  {
    StraightRuns(fuel, Program(k), st, lay);
    SameLoadsIff(k, fuel, st, lay);
    WalkMirrorsIndex(k, fuel, st, lay);
  }
}
