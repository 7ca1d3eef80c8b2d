/** Greedy byte-pair encoding, as the reference encoder of the tokenizer comparison
    script runs it: repeatedly merge the leftmost adjacent pair of least rank. */
module Bpe {
  import opened Wrappers
  import opened Utf8

  type Token = seq<Byte>
  type Ranks = map<(Token, Token), nat>

  // ---- one step ---------------------------------------------------------------------------

  function RankAt(t: seq<Token>, ranks: Ranks, i: nat): Option<nat>
    requires i + 1 < |t|
  {
    if (t[i], t[i + 1]) in ranks then Some(ranks[(t[i], t[i + 1])]) else None
  }

  /** The pair at `i` has a rank, none of the first `n` pairs has a lesser one, and
      none to its left an equal one. */
  predicate IsBest(t: seq<Token>, ranks: Ranks, n: nat, i: nat)
    requires n < |t| || n == 0
  {
    && i < n && RankAt(t, ranks, i).Some?
    && forall j :: 0 <= j < n && RankAt(t, ranks, j).Some? ==>
         && RankAt(t, ranks, i).value <= RankAt(t, ranks, j).value
         && (j < i ==> RankAt(t, ranks, i).value < RankAt(t, ranks, j).value)
  }

  predicate NoneRanked(t: seq<Token>, ranks: Ranks, n: nat)
    requires n < |t| || n == 0
  {
    forall j :: 0 <= j < n ==> RankAt(t, ranks, j).None?
  }

  /** The choice among the first `n` pairs. */
  function Best(t: seq<Token>, ranks: Ranks, n: nat): (r: Option<nat>)
    requires n < |t| || n == 0
    ensures r.Some? ==> IsBest(t, ranks, n, r.value)
    ensures r.None? ==> NoneRanked(t, ranks, n)
  {
    if n == 0 then None
    else
      var r := Best(t, ranks, n - 1);
      var rank := RankAt(t, ranks, n - 1);
      if rank.Some? && (r.None? || rank.value < RankAt(t, ranks, r.value).value) then Some(n - 1) else r
  }

  lemma BestIsUnique(t: seq<Token>, ranks: Ranks, n: nat, i: nat)
    requires n < |t| || n == 0
    requires IsBest(t, ranks, n, i)
    ensures Best(t, ranks, n) == Some(i)
  {
    var r := Best(t, ranks, n);
    assert r.Some?;
    assert !(i < r.value) && !(r.value < i);
  }

  function Merged(t: seq<Token>, i: nat): (r: seq<Token>)
    requires i + 1 < |t|
    ensures |r| == |t| - 1
  {
    t[..i] + [t[i] + t[i + 1]] + t[i + 2..]
  }

  function Last(t: seq<Token>): nat {
    if t == [] then 0 else |t| - 1
  }

  /** The whole run. */
  function Greedy(t: seq<Token>, ranks: Ranks): seq<Token>
    decreases |t|
  {
    match Best(t, ranks, Last(t))
    case None => t
    case Some(i) => Greedy(Merged(t, i), ranks)
  }

  /** The ranks the run applies, in order. */
  function AppliedRanks(t: seq<Token>, ranks: Ranks): seq<nat>
    decreases |t|
  {
    match Best(t, ranks, Last(t))
    case None => []
    case Some(i) => [RankAt(t, ranks, i).value] + AppliedRanks(Merged(t, i), ranks)
  }

  function Concat(t: seq<Token>): seq<Byte> {
    if t == [] then [] else t[0] + Concat(t[1..])
  }

  function Singles(b: seq<Byte>): (t: seq<Token>)
    ensures |t| == |b| && forall i :: 0 <= i < |b| ==> t[i] == [b[i]]
  {
    seq(|b|, i requires 0 <= i < |b| => [b[i]])
  }

  // ---- the encoder ------------------------------------------------------------------------

  function IdOf(ids: map<Token, nat>, t: Token): nat {
    if t in ids then ids[t] else 0
  }

  function IdsOf(t: seq<Token>, ids: map<Token, nat>): (r: seq<nat>)
    ensures |r| == |t| && forall i :: 0 <= i < |t| ==> r[i] == IdOf(ids, t[i])
  {
    seq(|t|, i requires 0 <= i < |t| => IdOf(ids, t[i]))
  }

  /** One scan over the pairs. */
  method ScanBest(tokens: seq<Token>, ranks: Ranks) returns (best: Option<nat>)
    requires |tokens| >= 2
    ensures best.Some? ==> IsBest(tokens, ranks, |tokens| - 1, best.value)
    ensures best.None? ==> NoneRanked(tokens, ranks, |tokens| - 1)
  {
    best := None;
    var bestRank := 0;
    for i := 0 to |tokens| - 1
      invariant best.Some? ==> IsBest(tokens, ranks, i, best.value)
      invariant best.Some? ==> bestRank == RankAt(tokens, ranks, best.value).value
      invariant best.None? ==> NoneRanked(tokens, ranks, i)
    {
      var rank := RankAt(tokens, ranks, i);
      if rank.Some? && (best.None? || rank.value < bestRank) {
        bestRank := rank.value;
        best := Some(i);
      }
    }
  }

  /** `bpe_encode`. */
  method BpeEncode(text: string, ids: map<Token, nat>, ranks: Ranks) returns (out: seq<nat>)
    ensures out == IdsOf(Greedy(Singles(Encode(text)), ranks), ids)
  {
    if text == "" {
      return [];
    }
    var tokens := Singles(Encode(text));
    ghost var all := Greedy(tokens, ranks);
    while |tokens| >= 2
      invariant Greedy(tokens, ranks) == all
      decreases |tokens|
    {
      var best := ScanBest(tokens, ranks);
      if best.None? {
        break;
      }
      GreedyStep(tokens, ranks, best.value);
      var merged := tokens[best.value] + tokens[best.value + 1];
      tokens := tokens[..best.value] + [merged] + tokens[best.value + 2..];
    }
    assert Greedy(tokens, ranks) == tokens;
    return IdsOf(tokens, ids);
  }

  lemma GreedyStep(t: seq<Token>, ranks: Ranks, i: nat)
    requires |t| >= 2 && IsBest(t, ranks, |t| - 1, i)
    ensures Greedy(t, ranks) == Greedy(Merged(t, i), ranks)
  {
    BestIsUnique(t, ranks, |t| - 1, i);
  }

  // ---- what every run keeps -----------------------------------------------------------------

  lemma {:induction false} ConcatAppends(a: seq<Token>, b: seq<Token>)
    ensures Concat(a + b) == Concat(a) + Concat(b)
  {
    if a == [] {
      assert a + b == b;
    } else {
      assert (a + b)[0] == a[0] && (a + b)[1..] == a[1..] + b;
      ConcatAppends(a[1..], b);
    }
  }

  lemma JoinKeepsBytes(a: seq<Token>, x: Token, y: Token, b: seq<Token>)
    ensures Concat(a + [x + y] + b) == Concat(a + [x] + [y] + b)
  {
    ConcatAppends(a + [x + y], b);
    ConcatAppends(a, [x + y]);
    ConcatAppends(a + [x] + [y], b);
    ConcatAppends(a + [x], [y]);
    ConcatAppends(a, [x]);
    ConcatOne(x);
    ConcatOne(y);
    ConcatOne(x + y);
  }

  lemma ConcatOne(x: Token)
    ensures Concat([x]) == x
  {
    assert [x][1..] == [];
  }

  lemma SplitAround(t: seq<Token>, i: nat)
    requires i + 1 < |t|
    ensures t == t[..i] + [t[i]] + [t[i + 1]] + t[i + 2..]
  {
  }

  lemma MergeKeepsBytes(t: seq<Token>, i: nat)
    requires i + 1 < |t|
    ensures Concat(Merged(t, i)) == Concat(t)
  {
    SplitAround(t, i);
    JoinKeepsBytes(t[..i], t[i], t[i + 1], t[i + 2..]);
  }

  /** A run never changes the bytes and stops at a list without a ranked pair. */
  lemma {:induction false} GreedyKeepsBytes(t: seq<Token>, ranks: Ranks)
    ensures Concat(Greedy(t, ranks)) == Concat(t)
    ensures NoneRanked(Greedy(t, ranks), ranks, Last(Greedy(t, ranks)))
    decreases |t|
  {
    match Best(t, ranks, Last(t))
    case None =>
    case Some(i) =>
      MergeKeepsBytes(t, i);
      GreedyKeepsBytes(Merged(t, i), ranks);
  }

  lemma {:induction false} SinglesConcat(b: seq<Byte>)
    ensures Concat(Singles(b)) == b
  {
    if b != [] {
      assert Singles(b)[1..] == Singles(b[1..]);
      SinglesConcat(b[1..]);
    }
  }

  // ---- rank order -------------------------------------------------------------------------------

  /** `c` is ranked before `r`. */
  predicate RankedBelow(ranks: Ranks, c: (Token, Token), r: nat) {
    c in ranks && ranks[c] < r
  }

  /** Rule `q` can come to stand next to a token that rule `p` has just built: `q` takes
      the token as its left (right) half, and the pair that stood there before did not
      go first. */
  predicate Meets(ranks: Ranks, p: (Token, Token), q: (Token, Token))
    requires p in ranks
  {
    || (q.0 == p.0 + p.1 && !RankedBelow(ranks, (p.1, q.1), ranks[p]))
    || (q.1 == p.0 + p.1 && !RankedBelow(ranks, (q.0, p.0), ranks[p] + 1))
  }

  /** No rule meets one of lesser rank. */
  ghost predicate Ordered(ranks: Ranks) {
    forall p, q :: p in ranks && q in ranks && Meets(ranks, p, q) ==> ranks[p] <= ranks[q]
  }

  /** Every rule meets only rules of greater rank. */
  ghost predicate StrictlyOrdered(ranks: Ranks) {
    forall p, q :: p in ranks && q in ranks && Meets(ranks, p, q) ==> ranks[p] < ranks[q]
  }

  /** A rule that uses a merged token ranks after every rule that builds it, as in a
      table written down in the order of its training. */
  ghost predicate BuildBeforeUse(ranks: Ranks) {
    forall p, q :: p in ranks && q in ranks && (q.0 == p.0 + p.1 || q.1 == p.0 + p.1) ==> ranks[p] < ranks[q]
  }

  /** That order is enough, and more than is needed. */
  lemma BuildBeforeUseIsStrict(ranks: Ranks, a: Byte, b: Byte, c: Byte)
    requires a != b && b != c && a != c
    ensures BuildBeforeUse(ranks) ==> StrictlyOrdered(ranks)
    ensures var table: Ranks := map[([b], [c]) := 0, ([a, b], [c]) := 1, ([a], [b]) := 2];
      StrictlyOrdered(table) && !BuildBeforeUse(table)
  {
    var table: Ranks := map[([b], [c]) := 0, ([a, b], [c]) := 1, ([a], [b]) := 2];
    assert ([a], [b]) in table && ([a, b], [c]) in table && [a] + [b] == [a, b];
    forall p, q | p in table && q in table && Meets(table, p, q) ensures table[p] < table[q] {
      assert RankedBelow(table, ([b], [c]), 2);
      assert |p.0 + p.1| == |p.0| + |p.1|;
    }
  }

  /** Every ranked pair has rank at least `r`. */
  predicate AtLeast(t: seq<Token>, ranks: Ranks, r: nat) {
    forall j :: 0 <= j < |t| - 1 && RankAt(t, ranks, j).Some? ==> r <= RankAt(t, ranks, j).value
  }

  /** No pair that starts in the first `n` tokens has rank `r`. */
  predicate Clear(t: seq<Token>, ranks: Ranks, r: nat, n: nat) {
    forall j :: 0 <= j < n && j + 1 < |t| ==> RankAt(t, ranks, j) != Some(r)
  }

  /** The pair at `i` has the least rank, and none to its left has the same. */
  predicate IsNext(t: seq<Token>, ranks: Ranks, i: nat) {
    && i + 1 < |t| && RankAt(t, ranks, i).Some?
    && AtLeast(t, ranks, RankAt(t, ranks, i).value) && Clear(t, ranks, RankAt(t, ranks, i).value, i)
  }

  /** Where the list changes, the merged rule meets the new pair. */
  lemma MergeMeets(t: seq<Token>, ranks: Ranks, i: nat, j: nat)
    requires IsNext(t, ranks, i) && (j == i || j + 1 == i) && j + 1 < |Merged(t, i)|
    ensures Meets(ranks, (t[i], t[i + 1]), (Merged(t, i)[j], Merged(t, i)[j + 1]))
  {
    if j == i {
      assert Merged(t, i)[i + 1] == t[i + 2];
      assert RankAt(t, ranks, i + 1).Some? ==> RankAt(t, ranks, i).value <= RankAt(t, ranks, i + 1).value;
    } else {
      assert Merged(t, i)[j] == t[j];
      assert RankAt(t, ranks, j).Some? ==> RankAt(t, ranks, i).value < RankAt(t, ranks, j).value;
    }
  }

  lemma MergeAway(t: seq<Token>, ranks: Ranks, i: nat, j: nat)
    requires i + 1 < |t| && j + 1 < |Merged(t, i)| && j != i && j + 1 != i
    ensures j + 1 < i ==> RankAt(Merged(t, i), ranks, j) == RankAt(t, ranks, j)
    ensures j > i ==> RankAt(Merged(t, i), ranks, j) == RankAt(t, ranks, j + 1)
  {
  }

  /** A merge brings no lesser rank. */
  lemma MergeRaises(t: seq<Token>, ranks: Ranks, i: nat)
    requires Ordered(ranks) && IsNext(t, ranks, i)
    ensures AtLeast(Merged(t, i), ranks, RankAt(t, ranks, i).value)
  {
    var m, r := Merged(t, i), RankAt(t, ranks, i).value;
    forall j | 0 <= j < |m| - 1 && RankAt(m, ranks, j).Some? ensures r <= RankAt(m, ranks, j).value {
      if j == i || j + 1 == i {
        MergeMeets(t, ranks, i, j);
      } else {
        MergeAway(t, ranks, i, j);
      }
    }
  }

  /** Where the order is strict, what was clear stays clear, the merged token included. */
  lemma MergeClears(t: seq<Token>, ranks: Ranks, i: nat)
    requires StrictlyOrdered(ranks) && IsNext(t, ranks, i)
    ensures Clear(Merged(t, i), ranks, RankAt(t, ranks, i).value, i + 1)
  {
    var m, r := Merged(t, i), RankAt(t, ranks, i).value;
    forall j | 0 <= j < i + 1 && j + 1 < |m| ensures RankAt(m, ranks, j) != Some(r) {
      if j == i || j + 1 == i {
        MergeMeets(t, ranks, i, j);
      } else {
        MergeAway(t, ranks, i, j);
      }
    }
  }

  lemma BestIsNext(t: seq<Token>, ranks: Ranks, i: nat)
    requires Best(t, ranks, Last(t)) == Some(i)
    ensures IsNext(t, ranks, i)
  {
  }

  ghost predicate NeverDecrease(s: seq<nat>) {
    forall j, k :: 0 <= j < k < |s| ==> s[j] <= s[k]
  }

  lemma {:induction false} RanksFrom(t: seq<Token>, ranks: Ranks, r: nat)
    requires Ordered(ranks) && AtLeast(t, ranks, r)
    ensures forall k :: 0 <= k < |AppliedRanks(t, ranks)| ==> r <= AppliedRanks(t, ranks)[k]
    ensures NeverDecrease(AppliedRanks(t, ranks))
    decreases |t|
  {
    match Best(t, ranks, Last(t))
    case None =>
    case Some(i) =>
      BestIsNext(t, ranks, i);
      MergeRaises(t, ranks, i);
      RanksFrom(Merged(t, i), ranks, RankAt(t, ranks, i).value);
  }

  // ---- three tokens -----------------------------------------------------------------------------

  /** Where `q` meets `p`, on three tokens: `p` stands left or right, and goes first. */
  function MeetingList(ranks: Ranks, p: (Token, Token), q: (Token, Token)): seq<Token>
    requires p in ranks
  {
    if q.0 == p.0 + p.1 && !RankedBelow(ranks, (p.1, q.1), ranks[p]) then [p.0, p.1, q.1] else [q.0, p.0, p.1]
  }

  function MeetingAt(ranks: Ranks, p: (Token, Token), q: (Token, Token)): nat
    requires p in ranks
  {
    if q.0 == p.0 + p.1 && !RankedBelow(ranks, (p.1, q.1), ranks[p]) then 0 else 1
  }

  /** The run on them applies `p`, then `q`. */
  lemma MeetingRun(ranks: Ranks, p: (Token, Token), q: (Token, Token))
    requires p in ranks && q in ranks && Meets(ranks, p, q)
    ensures var t := MeetingList(ranks, p, q);
      && AppliedRanks(t, ranks) == [ranks[p], ranks[q]] && |Greedy(t, ranks)| == 1
      && Merged(t, MeetingAt(ranks, p, q)) == [q.0, q.1]
  {
    var t, i := MeetingList(ranks, p, q), MeetingAt(ranks, p, q);
    assert IsBest(t, ranks, 2, i);
    BestIsUnique(t, ranks, 2, i);
    var u := [q.0, q.1];
    assert Merged(t, i) == u;
    assert IsBest(u, ranks, 1, 0);
    BestIsUnique(u, ranks, 1, 0);
    assert |Merged(u, 0)| == 1 && Greedy(u, ranks) == Greedy(Merged(u, 0), ranks) == Merged(u, 0);
    assert AppliedRanks(u, ranks) == [ranks[q]] + AppliedRanks(Merged(u, 0), ranks) == [ranks[q]];
    assert Greedy(t, ranks) == Greedy(u, ranks);
    assert AppliedRanks(t, ranks) == [ranks[p]] + AppliedRanks(u, ranks);
  }

  /** The ranks applied never decrease, on any list of tokens, exactly when no rule
      meets one of lesser rank. */
  lemma RanksNeverDecreaseIff(ranks: Ranks)
    ensures Ordered(ranks) <==> forall t :: NeverDecrease(AppliedRanks(t, ranks))
  {
    if Ordered(ranks) {
      forall t ensures NeverDecrease(AppliedRanks(t, ranks)) {
        RanksFrom(t, ranks, 0);
      }
    } else {
      var p, q :| p in ranks && q in ranks && Meets(ranks, p, q) && ranks[p] > ranks[q];
      MeetingRun(ranks, p, q);
      assert AppliedRanks(MeetingList(ranks, p, q), ranks)[0] > AppliedRanks(MeetingList(ranks, p, q), ranks)[1];
    }
  }

  // ---- rule by rule --------------------------------------------------------------------------------

  /** One left-to-right pass over `rest` that merges every pair of rank `r` it meets,
      behind what is already done. */
  function PassFrom(done: seq<Token>, rest: seq<Token>, ranks: Ranks, r: nat): seq<Token>
    decreases |rest|
  {
    if |rest| < 2 then done + rest
    else if RankAt(rest, ranks, 0) == Some(r) then PassFrom(done + [rest[0] + rest[1]], rest[2..], ranks, r)
    else PassFrom(done + [rest[0]], rest[1..], ranks, r)
  }

  function Pass(t: seq<Token>, ranks: Ranks, r: nat): seq<Token> {
    PassFrom([], t, ranks, r)
  }

  /** Passes for the ranks from `r` up to `bound`. */
  function Passes(t: seq<Token>, ranks: Ranks, r: nat, bound: nat): seq<Token>
    decreases bound - r
  {
    if r >= bound then t else Passes(Pass(t, ranks, r), ranks, r + 1, bound)
  }

  /** A pair of the least rank with nothing of that rank before it is the one that
      is merged next, and the list after it is as clear. */
  lemma NextOfRank(front: seq<Token>, x: Token, y: Token, back: seq<Token>, ranks: Ranks, r: nat)
    requires StrictlyOrdered(ranks) && (x, y) in ranks && ranks[(x, y)] == r
    requires var t := front + [x] + [y] + back; AtLeast(t, ranks, r) && Clear(t, ranks, r, |front|)
    ensures var m := front + [x + y] + back;
      && Greedy(front + [x] + [y] + back, ranks) == Greedy(m, ranks)
      && AtLeast(m, ranks, r) && Clear(m, ranks, r, |front| + 1)
  {
    var t, i := front + [x] + [y] + back, |front|;
    assert t[i] == x && t[i + 1] == y && t[..i] == front && t[i + 2..] == back;
    GreedyStep(t, ranks, i);
    MergeRaises(t, ranks, i);
    MergeClears(t, ranks, i);
  }

  lemma ClearOneMore(front: seq<Token>, rest: seq<Token>, ranks: Ranks, r: nat)
    requires |rest| >= 2 && RankAt(rest, ranks, 0) != Some(r)
    requires Clear(front + rest, ranks, r, |front|)
    ensures Clear(front + rest, ranks, r, |front| + 1)
  {
    assert RankAt(front + rest, ranks, |front|) == RankAt(rest, ranks, 0);
  }

  /** With `front` already done, the greedy run comes to the same as after a pass over
      the rest: it works through the pairs of least rank from left to right. */
  lemma {:induction false} GreedyWorksThroughPass(front: seq<Token>, rest: seq<Token>, ranks: Ranks, r: nat)
    requires StrictlyOrdered(ranks)
    requires AtLeast(front + rest, ranks, r) && Clear(front + rest, ranks, r, |front|)
    ensures var t := PassFrom(front, rest, ranks, r);
      Greedy(front + rest, ranks) == Greedy(t, ranks) && AtLeast(t, ranks, r + 1)
    decreases |rest|
  {
    if |rest| >= 2 {
      var x, y, back := rest[0], rest[1], rest[2..];
      if RankAt(rest, ranks, 0) == Some(r) {
        assert front + rest == front + [x] + [y] + back;
        NextOfRank(front, x, y, back, ranks, r);
        GreedyWorksThroughPass(front + [x + y], back, ranks, r);
      } else {
        ClearOneMore(front, rest, ranks, r);
        assert front + [x] + rest[1..] == front + rest;
        GreedyWorksThroughPass(front + [x], rest[1..], ranks, r);
      }
    }
  }

  ghost predicate Bounded(ranks: Ranks, bound: nat) {
    forall p :: p in ranks ==> ranks[p] < bound
  }

  lemma NoneLeft(t: seq<Token>, ranks: Ranks, r: nat, bound: nat)
    requires Bounded(ranks, bound) && AtLeast(t, ranks, r) && bound <= r
    ensures NoneRanked(t, ranks, Last(t))
  {
  }

  lemma {:induction false} GreedyIsPassesFrom(t: seq<Token>, ranks: Ranks, r: nat, bound: nat)
    requires StrictlyOrdered(ranks) && Bounded(ranks, bound) && AtLeast(t, ranks, r)
    ensures Greedy(t, ranks) == Passes(t, ranks, r, bound)
    decreases bound - r
  {
    if r >= bound {
      NoneLeft(t, ranks, r, bound);
    } else {
      assert [] + t == t;
      GreedyWorksThroughPass([], t, ranks, r);
      GreedyIsPassesFrom(Pass(t, ranks, r), ranks, r + 1, bound);
    }
  }

  /** A pass of a rank that no pair has changes nothing. */
  lemma {:induction false} IdlePass(front: seq<Token>, rest: seq<Token>, ranks: Ranks, r: nat)
    requires Clear(rest, ranks, r, |rest|)
    ensures PassFrom(front, rest, ranks, r) == front + rest
    decreases |rest|
  {
    if |rest| >= 2 {
      forall j | 0 <= j && j + 1 < |rest[1..]| ensures RankAt(rest[1..], ranks, j) != Some(r) {
        assert RankAt(rest[1..], ranks, j) == RankAt(rest, ranks, j + 1);
      }
      IdlePass(front + [rest[0]], rest[1..], ranks, r);
      assert front + [rest[0]] + rest[1..] == front + rest;
    }
  }

  lemma {:induction false} IdlePasses(t: seq<Token>, ranks: Ranks, r: nat, n: nat, bound: nat)
    requires r <= n <= bound && forall s: nat :: r <= s < n ==> Clear(t, ranks, s, |t|)
    ensures Passes(t, ranks, r, bound) == Passes(t, ranks, n, bound)
    decreases n - r
  {
    if r < n {
      IdlePass([], t, ranks, r);
      assert [] + t == t;
      IdlePasses(t, ranks, r + 1, n, bound);
    }
  }

  /** The pass of `p` leaves the pair of `q`, whose own pass is over where it has no
      greater rank. */
  lemma MeetingPasses(ranks: Ranks, p: (Token, Token), q: (Token, Token), bound: nat)
    requires p in ranks && q in ranks && Meets(ranks, p, q) && ranks[q] <= ranks[p] && Bounded(ranks, bound)
    ensures |Passes(MeetingList(ranks, p, q), ranks, 0, bound)| == 2
  {
    var t, r := MeetingList(ranks, p, q), ranks[p];
    IdlePasses(t, ranks, 0, r, bound);
    MeetingPass(ranks, p, q);
    IdlePasses([q.0, q.1], ranks, r + 1, bound, bound);
  }

  lemma MeetingPass(ranks: Ranks, p: (Token, Token), q: (Token, Token))
    requires p in ranks && Meets(ranks, p, q)
    ensures Pass(MeetingList(ranks, p, q), ranks, ranks[p]) == [q.0, q.1]
  {
    var t, r := MeetingList(ranks, p, q), ranks[p];
    if MeetingAt(ranks, p, q) == 0 {
      assert t[2..] == [q.1];
      assert PassFrom([p.0 + p.1], [q.1], ranks, r) == [p.0 + p.1] + [q.1];
      assert [] + [t[0] + t[1]] == [p.0 + p.1];
    } else {
      var u := [p.0, p.1];
      assert t[1..] == u && RankAt(u, ranks, 0) == Some(r) && u[2..] == [];
      assert [] + [t[0]] == [q.0];
      assert PassFrom([q.0], u, ranks, r) == PassFrom([q.0] + [p.0 + p.1], [], ranks, r) == [q.0, q.1];
    }
  }

  /** The greedy run is the rule-by-rule encoder, one left-to-right pass per rule in
      rank order, on every list of tokens exactly when rules meet only rules of greater
      rank. */
  lemma GreedyIsRuleByRuleIff(ranks: Ranks, bound: nat)
    requires Bounded(ranks, bound)
    ensures StrictlyOrdered(ranks) <==> forall t :: Greedy(t, ranks) == Passes(t, ranks, 0, bound)
  {
    if StrictlyOrdered(ranks) {
      forall t ensures Greedy(t, ranks) == Passes(t, ranks, 0, bound) {
        GreedyIsPassesFrom(t, ranks, 0, bound);
      }
    } else {
      var p, q :| p in ranks && q in ranks && Meets(ranks, p, q) && ranks[p] >= ranks[q];
      MeetingRun(ranks, p, q);
      MeetingPasses(ranks, p, q, bound);
    }
  }
}
