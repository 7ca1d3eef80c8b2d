/** Conversation histories and the two ways `cera-cli` drops old turns from them:
    in place, one pair at a time, and by index arithmetic in one go. */
module ChatHistory {
  datatype Role = System | User | Assistant | Tool
  datatype Message = Message(role: Role, content: string)

  /** An attachment; only its identity matters. */
  type Image = nat

  /** Index of the first entry that truncation may touch. */
  function Start(h: seq<Message>): nat {
    if h != [] && h[0].role == System then 1 else 0
  }

  /** `s` without the `n` entries at `at`. */
  function Without<T>(s: seq<T>, at: nat, n: nat): (r: seq<T>)
    requires at + n <= |s|
    ensures |r| == |s| - n
  {
    s[..at] + s[at + n..]
  }

  /** How many entries one `truncate_oldest_turn_pair` removes; none means it
      refuses. */
  function OldestPair(h: seq<Message>): (n: nat)
    ensures Start(h) + n <= |h|
    ensures n == 0 || Start(h) + n < |h|
  {
    var start := Start(h);
    if |h| <= start + 1 then 0
    else if |h| - 1 > start + 1 && h[start + 1].role == Assistant then 2
    else 1
  }

  /** The worker's per-turn copy of the conversation. */
  class TurnCopy {
    var history: seq<Message>
    var images: seq<seq<Image>>

    constructor (h: seq<Message>, i: seq<seq<Image>>)
      ensures history == h && images == i
    {
      history := h;
      images := i;
    }

    /** `truncate_oldest_turn_pair`: removes the oldest pair from both lists, and
        refuses exactly when nothing older than the last entry is left. */
    method TruncateOldestTurnPair() returns (dropped: bool)
      requires |history| == |images|
      modifies this
      ensures |history| == |images|
      ensures dropped <==> |old(history)| > Start(old(history)) + 1
      ensures dropped ==> |history| < |old(history)|
      ensures history == Without(old(history), Start(old(history)), OldestPair(old(history)))
      ensures images == Without(old(images), Start(old(history)), OldestPair(old(history)))
    {
      var start := if |history| > 0 && history[0].role == System then 1 else 0;
      if |history| <= start + 1 {
        return false;
      }
      history := history[..start] + history[start + 1..];
      images := images[..start] + images[start + 1..];
      if |history| > start + 1 && history[start].role == Assistant {
        history := history[..start] + history[start + 1..];
        images := images[..start] + images[start + 1..];
      }
      return true;
    }
  }

  // ---- dropping n pairs: one by one, and by index ------------------------------

  /** `n` truncations in a row, stopping at the first refusal. */
  function TruncateTimes(h: seq<Message>, n: nat): (r: (seq<Message>, nat))
    ensures r.1 <= n
  {
    if n == 0 || OldestPair(h) == 0 then (h, 0)
    else
      var r := TruncateTimes(Without(h, Start(h), OldestPair(h)), n - 1);
      (r.0, r.1 + 1)
  }

  /** Where the index walk of `simulate_truncate_oldest_turn_pairs` ends when it
      may still drop `n` pairs from `end` on, and how many it drops. */
  function Walk(h: seq<Message>, end: nat, n: nat): (r: (nat, nat))
    requires end <= |h|
    ensures end <= r.0 <= |h| && r.1 <= n
    decreases n
  {
    if n == 0 || |h| <= end + 1 then (end, 0)
    else
      var next := if h[end + 1].role == Assistant then end + 2 else end + 1;
      var r := Walk(h, next, n - 1);
      (r.0, r.1 + 1)
  }

  /** `simulate_truncate_oldest_turn_pairs`: the kept prefix, the end of the
      dropped range, and the number of pairs dropped. */
  method SimulateTruncateOldestTurnPairs(h: seq<Message>, nPairs: nat)
    returns (start: nat, end: nat, applied: nat)
    ensures start == Start(h) <= end <= |h|
    ensures (end, applied) == Walk(h, Start(h), nPairs)
  {
    start := if |h| > 0 && h[0].role == System then 1 else 0;
    end := start;
    applied := 0;
    while applied < nPairs
      invariant applied <= nPairs && start <= end <= |h|
      invariant Walk(h, start, nPairs)
             == (Walk(h, end, nPairs - applied).0, applied + Walk(h, end, nPairs - applied).1)
    {
      if |h| <= end + 1 {
        break;
      }
      end := end + 1;
      if end < |h| && h[end].role == Assistant {
        end := end + 1;
      }
      applied := applied + 1;
    }
  }

  /** The entries the index walk keeps. */
  function Kept(h: seq<Message>, n: nat): seq<Message> {
    h[..Start(h)] + h[Walk(h, Start(h), n).0..]
  }

  /** No system message is among the entries that the index walk drops. */
  predicate SystemStays(h: seq<Message>, n: nat) {
    Start(h) == 1 || forall i :: 0 <= i < Walk(h, 0, n).0 ==> h[i].role != System
  }

  /** The index walk drops everything. */
  predicate WalkSwallowsTail(h: seq<Message>, n: nat) {
    var w := Walk(h, Start(h), n);
    w.1 > 0 && w.0 == |h|
  }

  /** Two lists that agree from `start` on, up to a shift by `d`, are walked alike. */
  lemma {:induction false} WalkAlong(h: seq<Message>, g: seq<Message>, start: nat, d: nat, end: nat, n: nat)
    requires start + d <= end <= |h| && |g| + d == |h|
    requires forall i :: start <= i < |g| ==> g[i] == h[i + d]
    ensures Walk(g, end - d, n) == (Walk(h, end, n).0 - d, Walk(h, end, n).1)
    decreases n
  {
    if n != 0 && |h| > end + 1 {
      assert g[end + 1 - d] == h[end + 1];
      WalkAlong(h, g, start, d, if h[end + 1].role == Assistant then end + 2 else end + 1, n - 1);
    }
  }

  /** Walking on from `end` is walking the list whose dropped range is gone. */
  lemma WalkShifts(h: seq<Message>, start: nat, end: nat, n: nat)
    requires start <= end <= |h|
    ensures var g := h[..start] + h[end..];
            var w := Walk(h, end, n);
            Walk(g, start, n) == (w.0 - (end - start), w.1)
  {
    WalkAlong(h, h[..start] + h[end..], start, end - start, end, n);
  }

  lemma WithoutKeepsStart(h: seq<Message>, k: nat)
    requires Start(h) + k < |h| && (Start(h) == 1 || h[k].role != System)
    ensures Start(Without(h, Start(h), k)) == Start(h)
  {
  }

  lemma KeptShifts(h: seq<Message>, start: nat, k: nat, w: nat)
    requires start + k <= w <= |h|
    ensures var g := Without(h, start, k); g[..start] + g[w - k..] == h[..start] + h[w..]
  {
    var g := Without(h, start, k);
    assert g[..start] == h[..start] && g[w - k..] == h[w..];
  }

  lemma StepWalks(h: seq<Message>, n: nat, k: nat)
    requires n > 0 && |h| > Start(h) + 1 && k == OldestPair(h)
    requires !(|h| == Start(h) + 2 && h[Start(h) + 1].role == Assistant)
    ensures 0 < k && Start(h) + k < |h|
    ensures var g := Without(h, Start(h), k);
      && Walk(h, Start(h), n).1 == Walk(g, Start(h), n - 1).1 + 1
      && Walk(h, Start(h), n).0 == Walk(g, Start(h), n - 1).0 + k
  {
    WalkShifts(h, Start(h), Start(h) + k, n - 1);
  }

  /** One step of both, when the index walk stays clear of the tail and no system
      message comes to lead. */
  lemma StepTogether(h: seq<Message>, n: nat)
    requires n > 0 && |h| > Start(h) + 1
    requires Start(Without(h, Start(h), OldestPair(h))) == Start(h)
    requires !(|h| == Start(h) + 2 && h[Start(h) + 1].role == Assistant)
    ensures var g := Without(h, Start(h), OldestPair(h));
      && |g| > Start(h)
      && Walk(h, Start(h), n).1 == Walk(g, Start(g), n - 1).1 + 1
      && Walk(h, Start(h), n).0 == Walk(g, Start(g), n - 1).0 + OldestPair(h)
      && Kept(h, n) == Kept(g, n - 1)
  {
    var k := OldestPair(h);
    StepWalks(h, n, k);
    KeptShifts(h, Start(h), k, Walk(h, Start(h), n).0);
  }

  /** One step of both, when a finished turn is all there is: in place its reply
      survives, by index nothing does. */
  lemma StepApart(h: seq<Message>, n: nat)
    requires n > 0 && |h| == Start(h) + 2 && h[Start(h) + 1].role == Assistant
    ensures Walk(h, Start(h), n) == (|h|, 1)
    ensures TruncateTimes(h, n).1 == 1 && TruncateTimes(h, n).0 != Kept(h, n)
  {
    var g := Without(h, Start(h), OldestPair(h));
    assert |g| == Start(h) + 1 && OldestPair(g) == 0;
    assert TruncateTimes(g, n - 1) == (g, 0);
    assert |Kept(h, n)| == Start(h);
  }

  lemma SwallowTogether(h: seq<Message>, n: nat, g: seq<Message>)
    requires n > 0 && |h| >= |g| > Start(g)
    requires Walk(h, Start(h), n).1 == Walk(g, Start(g), n - 1).1 + 1
    requires Walk(h, Start(h), n).0 == Walk(g, Start(g), n - 1).0 + (|h| - |g|)
    ensures WalkSwallowsTail(h, n) <==> WalkSwallowsTail(g, n - 1)
  {
  }

  lemma StaysAfterStep(h: seq<Message>, n: nat, g: seq<Message>, k: nat)
    requires SystemStays(h, n) && Start(h) == Start(g) && Start(h) + k < |h| && g == Without(h, Start(h), k)
    requires n > 0 && Walk(h, Start(h), n).0 == Walk(g, Start(g), n - 1).0 + k
    ensures SystemStays(g, n - 1)
  {
    if Start(h) == 0 {
      assert g == h[k..];
      assert forall i :: 0 <= i < |g| ==> g[i] == h[i + k];
    }
  }

  lemma WalkStopsAtSystem(h: seq<Message>, n: nat, k: nat)
    requires n > 0 && |h| > 1 && Start(h) == 0 && SystemStays(h, n) && k == OldestPair(h)
    requires !(|h| == 2 && h[1].role == Assistant) && k < |h| && h[k].role == System
    ensures Walk(h, 0, n) == (k, 1) && Walk(h[k..], 0, n - 1).1 == 0
  {
    StepWalks(h, n, k);
    WithoutFront(h, k);
    assert !(k < Walk(h, 0, n).0);
    WalkStays(h[k..], 0, n - 1);
  }

  /** A system message comes to lead: both must be done. */
  lemma StepToSystem(h: seq<Message>, n: nat)
    requires n > 0 && |h| > Start(h) + 1 && SystemStays(h, n)
    requires !(|h| == Start(h) + 2 && h[Start(h) + 1].role == Assistant)
    requires Start(Without(h, Start(h), OldestPair(h))) != Start(h)
    ensures TruncateTimes(h, n) == (Kept(h, n), 1)
    ensures Walk(h, Start(h), n) == (OldestPair(h), 1) && OldestPair(h) < |h|
  {
    var k := OldestPair(h);
    if Start(h) == 1 || h[k].role != System {
      WithoutKeepsStart(h, k);
      assert false;
    }
    WithoutFront(h, k);
    WalkStopsAtSystem(h, n, k);
    StuckAtSystem(h[k..], n - 1);
    assert Kept(h, n) == h[k..];
  }

  lemma StuckAtSystem(g: seq<Message>, n: nat)
    requires Start(g) == 1 && Walk(g, 0, n).1 == 0
    ensures TruncateTimes(g, n) == (g, 0)
  {
  }

  /** Where no system message is dropped, the counts agree, and the kept entries
      agree exactly when the index walk stops short of the tail. */
  lemma {:induction false} WalkAgreesIff(h: seq<Message>, n: nat)
    requires SystemStays(h, n)
    ensures TruncateTimes(h, n).1 == Walk(h, Start(h), n).1
    ensures TruncateTimes(h, n).0 == Kept(h, n) <==> !WalkSwallowsTail(h, n)
    decreases n
  {
    var start := Start(h);
    if n == 0 || |h| <= start + 1 {
      assert Kept(h, n) == h;
    } else if |h| == start + 2 && h[start + 1].role == Assistant {
      StepApart(h, n);
    } else {
      var g := Without(h, start, OldestPair(h));
      if Start(g) != start {
        StepToSystem(h, n);
      } else {
        StepTogether(h, n);
        SwallowTogether(h, n, g);
        StaysAfterStep(h, n, g, OldestPair(h));
        WalkAgreesIff(g, n - 1);
      }
    }
  }

  // ---- what a caller can check ---------------------------------------------------

  /** How many assistant replies in a row end with entry `i`; the first entry that
      may be dropped is never counted. */
  function Replies(h: seq<Message>, i: nat): nat
    requires i < |h|
  {
    if i <= Start(h) || h[i].role != Assistant then 0 else 1 + Replies(h, i - 1)
  }

  /** Entries from `i` on that open a turn: all that are not replies, and every
      other one of several replies in a row. */
  function Turns(h: seq<Message>, i: nat): nat
    requires i <= |h|
    decreases |h| - i
  {
    if i == |h| then 0 else (if Replies(h, i) % 2 == 0 then 1 else 0) + Turns(h, i + 1)
  }

  /** The last entry is the reply of a turn. */
  predicate EndsInReply(h: seq<Message>) {
    |h| > Start(h) && Replies(h, |h| - 1) % 2 == 1
  }

  lemma WalkStays(h: seq<Message>, end: nat, n: nat)
    requires end <= |h|
    ensures Walk(h, end, n).1 == 0 <==> Walk(h, end, n).0 == end
  {
  }

  /** The walk goes from turn to turn. */
  lemma {:induction false} WalkTakesTurns(h: seq<Message>, end: nat, n: nat)
    requires Start(h) <= end < |h| && Replies(h, end) % 2 == 0
    ensures Walk(h, end, n).0 == |h| <==> EndsInReply(h) && n >= Turns(h, end)
    decreases n
  {
    if n == 0 || |h| <= end + 1 {
      assert Turns(h, end) >= 1;
    } else {
      var next := if h[end + 1].role == Assistant then end + 2 else end + 1;
      assert Turns(h, end) == 1 + Turns(h, next);
      if next < |h| {
        WalkTakesTurns(h, next, n - 1);
      }
    }
  }

  /** Everything is dropped exactly when the last entry closes a turn and there are
      no more turns than pairs to drop. */
  lemma SwallowsIff(h: seq<Message>, n: nat)
    ensures WalkSwallowsTail(h, n) <==> EndsInReply(h) && n >= Turns(h, Start(h))
  {
    if |h| > Start(h) {
      WalkTakesTurns(h, Start(h), n);
      WalkStays(h, Start(h), n);
    }
  }

  predicate IsFirstSystem(h: seq<Message>, s: nat) {
    s < |h| && h[s].role == System && forall i :: 0 <= i < s ==> h[i].role != System
  }

  /** One truncation in place keeps the first system message: it leads already, or
      stands behind what goes. */
  lemma TruncationKeepsFirst(h: seq<Message>, s: nat) returns (t: nat)
    requires IsFirstSystem(h, s)
    ensures var g := Without(h, Start(h), OldestPair(h)); IsFirstSystem(g, t) && g[t] == h[s]
  {
    t := if s == 0 then 0 else s - OldestPair(h);
  }

  lemma {:induction false} FirstSystemIsKept(h: seq<Message>, n: nat, s: nat)
    requires IsFirstSystem(h, s)
    ensures h[s] in TruncateTimes(h, n).0
    decreases n
  {
    if n != 0 && OldestPair(h) != 0 {
      var t := TruncationKeepsFirst(h, s);
      FirstSystemIsKept(Without(h, Start(h), OldestPair(h)), n - 1, t);
    }
  }

  lemma WithoutFront(h: seq<Message>, k: nat)
    requires k <= |h|
    ensures Without(h, 0, k) == h[k..]
  {
  }

  /** No system message occurs a second time. */
  predicate SystemsDiffer(h: seq<Message>) {
    forall i, j :: 0 <= i < j < |h| && h[i].role == System ==> h[i] != h[j]
  }

  lemma FirstSystem(h: seq<Message>, e: nat) returns (s: nat)
    requires e <= |h| && exists i :: 0 <= i < e && h[i].role == System
    ensures s < e && IsFirstSystem(h, s)
  {
    s := 0;
    while h[s].role != System
      invariant s < e && forall i :: 0 <= i < s ==> h[i].role != System
      decreases e - s
    {
      s := s + 1;
    }
  }

  /** In place the first system message stays; the index walk drops it. */
  lemma StraySystemDisagrees(h: seq<Message>, n: nat)
    requires SystemsDiffer(h) && !SystemStays(h, n)
    ensures TruncateTimes(h, n).0 != Kept(h, n)
  {
    var w := Walk(h, 0, n).0;
    var s := FirstSystem(h, w);
    FirstSystemIsKept(h, n, s);
    WithoutFront(h, w);
    assert Kept(h, n) == h[w..];
    assert h[s] !in h[w..];
  }

  /** The two agree exactly when the walk drops no system message and, if the last
      entry is a reply, there are more turns than pairs to drop. */
  lemma SimulationAgreesIff(h: seq<Message>, n: nat)
    requires SystemsDiffer(h)
    ensures TruncateTimes(h, n) == (Kept(h, n), Walk(h, Start(h), n).1)
       <==> SystemStays(h, n) && (EndsInReply(h) ==> n < Turns(h, Start(h)))
  {
    SwallowsIff(h, n);
    if SystemStays(h, n) {
      WalkAgreesIff(h, n);
    } else {
      StraySystemDisagrees(h, n);
    }
  }

  /** A history that ends in anything but an assistant reply is never swallowed. */
  lemma {:induction false} OpenTailIsKept(h: seq<Message>, end: nat, n: nat)
    requires end < |h| && h[|h| - 1].role != Assistant
    ensures Walk(h, end, n).0 < |h|
    decreases n
  {
    if n != 0 && |h| > end + 1 {
      OpenTailIsKept(h, if h[end + 1].role == Assistant then end + 2 else end + 1, n - 1);
    }
  }

  /** The smallest disagreement: a finished turn with nothing after it. */
  lemma SimulationDisagrees(question: string, answer: string)
    ensures var h := [Message(User, question), Message(Assistant, answer)];
      && WalkSwallowsTail(h, 1) && Kept(h, 1) == []
      && TruncateTimes(h, 1) == ([Message(Assistant, answer)], 1)
  {
    var h := [Message(User, question), Message(Assistant, answer)];
    assert Walk(h, 2, 0) == (2, 0);
    var g := Without(h, 0, 1);
    assert g == [Message(Assistant, answer)];
    assert TruncateTimes(g, 0) == (g, 0);
    assert Walk(h, 0, 1) == (2, 1);
  }

  // ---- alternating conversations -------------------------------------------------

  /** (user assistant)*, and one more user entry when `open`. */
  predicate Alternates(t: seq<Message>, open: bool) {
    if t == [] then !open
    else if |t| == 1 then open && t[0].role == User
    else t[0].role == User && t[1].role == Assistant && Alternates(t[2..], open)
  }

  /** system?, (user assistant)*, and one more user entry when `open`. */
  predicate Conversation(h: seq<Message>, open: bool) {
    Alternates(h[Start(h)..], open)
  }

  /** Complete user+assistant pairs. */
  function Pairs(h: seq<Message>): nat {
    (|h| - Start(h)) / 2
  }

  /** The conversation without its `n` oldest pairs; the same cut on the
      attachments. */
  function DropPairs<T>(s: seq<T>, start: nat, n: nat): seq<T>
    requires start + 2 * n <= |s|
  {
    Without(s, start, 2 * n)
  }

  lemma {:induction false} AlternatesRoles(t: seq<Message>, open: bool)
    requires Alternates(t, open)
    ensures |t| % 2 == if open then 1 else 0
    ensures forall i :: 0 <= i < |t| ==> t[i].role == if i % 2 == 0 then User else Assistant
    decreases |t|
  {
    if |t| >= 2 {
      AlternatesRoles(t[2..], open);
      forall i | 0 <= i < |t| ensures t[i].role == if i % 2 == 0 then User else Assistant {
        if i >= 2 {
          assert t[i] == t[2..][i - 2];
        }
      }
    }
  }

  lemma {:induction false} RolesAlternate(t: seq<Message>, open: bool)
    requires |t| % 2 == if open then 1 else 0
    requires forall i :: 0 <= i < |t| ==> t[i].role == if i % 2 == 0 then User else Assistant
    ensures Alternates(t, open)
    decreases |t|
  {
    if |t| >= 2 {
      forall i | 0 <= i < |t[2..]| ensures t[2..][i].role == if i % 2 == 0 then User else Assistant {
        assert t[2..][i] == t[i + 2];
      }
      RolesAlternate(t[2..], open);
    }
  }

  /** Roles of a conversation by position. */
  lemma ConversationRoles(h: seq<Message>, open: bool)
    ensures Conversation(h, open) <==>
      && (|h| - Start(h)) % 2 == (if open then 1 else 0)
      && forall i :: Start(h) <= i < |h| ==> h[i].role == if (i - Start(h)) % 2 == 0 then User else Assistant
  {
    var s := Start(h);
    var t := h[s..];
    if Conversation(h, open) {
      AlternatesRoles(t, open);
      forall i | s <= i < |h| ensures h[i].role == if (i - s) % 2 == 0 then User else Assistant {
        assert h[i] == t[i - s];
      }
    }
    if && (|h| - s) % 2 == (if open then 1 else 0)
       && forall i :: s <= i < |h| ==> h[i].role == if (i - s) % 2 == 0 then User else Assistant {
      RolesAlternate(t, open);
    }
  }

  /** In an open conversation the walk drops whole pairs and never falls short of
      the count while there are that many pairs. */
  lemma {:induction false} WalkDropsPairs(h: seq<Message>, end: nat, n: nat)
    requires Conversation(h, true)
    requires Start(h) <= end && (end - Start(h)) % 2 == 0 && end + 2 * n < |h|
    ensures Walk(h, end, n) == (end + 2 * n, n)
    decreases n
  {
    if n != 0 {
      ConversationRoles(h, true);
      WalkDropsPairs(h, end + 2, n - 1);
    }
  }

  /** One in-place truncation of an open conversation drops one whole pair, and
      is refused exactly when only the current user turn is left. */
  lemma TruncateDropsPair(h: seq<Message>)
    requires Conversation(h, true)
    ensures |h| > Start(h) + 1 <==> Pairs(h) > 0
    ensures Pairs(h) > 0 ==> OldestPair(h) == 2
    ensures Pairs(h) == 0 ==> OldestPair(h) == 0
  {
    ConversationRoles(h, true);
  }

  lemma {:induction false} AlternatesDrop(t: seq<Message>, n: nat, open: bool)
    requires Alternates(t, open) && 2 * n <= |t|
    ensures Alternates(t[2 * n..], open)
    decreases n
  {
    if n == 0 {
      assert t[0..] == t;
    } else {
      AlternatesDrop(t[2..], n - 1, open);
      assert t[2..][2 * (n - 1)..] == t[2 * n..];
    }
  }

  lemma HeadIsUser(t: seq<Message>, open: bool)
    requires Alternates(t, open) && t != []
    ensures t[0].role == User
  {
  }

  lemma DropPairsConversation(h: seq<Message>, n: nat, open: bool)
    requires Conversation(h, open) && n <= Pairs(h)
    ensures var g := DropPairs(h, Start(h), n);
      Conversation(g, open) && Start(g) == Start(h) && Pairs(g) == Pairs(h) - n
  {
    var s := Start(h);
    var g, u := DropPairs(h, s, n), h[s..][2 * n..];
    AlternatesDrop(h[s..], n, open);
    assert g[s..] == u;
    if s == 1 {
      assert g[0] == h[0];
    } else if g != [] {
      assert g == u;
      HeadIsUser(u, open);
    }
    assert Start(g) == s;
  }

  lemma DropPairsAdd<T>(s: seq<T>, start: nat, m: nat, n: nat)
    requires start + 2 * (m + n) <= |s|
    ensures DropPairs(DropPairs(s, start, m), start, n) == DropPairs(s, start, m + n)
  {
  }

  lemma {:induction false} RepliesByPosition(h: seq<Message>, open: bool, i: nat)
    requires Conversation(h, open) && Start(h) <= i < |h|
    ensures Replies(h, i) == (i - Start(h)) % 2
  {
    ConversationRoles(h, open);
  }

  lemma {:induction false} TurnsByPosition(h: seq<Message>, open: bool, i: nat)
    requires Conversation(h, open) && Start(h) <= i <= |h|
    ensures Turns(h, i) == (|h| - Start(h) + 1) / 2 - (i - Start(h) + 1) / 2
    decreases |h| - i
  {
    if i < |h| {
      RepliesByPosition(h, open, i);
      TurnsByPosition(h, open, i + 1);
      HalfStep(i - Start(h));
    }
  }

  lemma HalfStep(d: nat)
    ensures (d + 2) / 2 - (d + 1) / 2 == if d % 2 == 0 then 1 else 0
  {
  }

  /** In a conversation: with an open turn at the end, as at every dispatch, they
      agree for every number of pairs; without one, exactly until the last pair. */
  lemma ConversationAgreesIff(h: seq<Message>, open: bool, n: nat)
    requires Conversation(h, open)
    ensures TruncateTimes(h, n) == (Kept(h, n), Walk(h, Start(h), n).1)
       <==> open || Pairs(h) == 0 || n < Pairs(h)
  {
    ConversationStays(h, open, n);
    WalkAgreesIff(h, n);
    SwallowsIff(h, n);
    ConversationEnds(h, open);
    TurnsByPosition(h, open, Start(h));
  }

  lemma ConversationStays(h: seq<Message>, open: bool, n: nat)
    requires Conversation(h, open)
    ensures SystemStays(h, n)
  {
    ConversationRoles(h, open);
  }

  lemma ConversationEnds(h: seq<Message>, open: bool)
    requires Conversation(h, open)
    ensures EndsInReply(h) <==> !open && Pairs(h) > 0
    ensures (|h| - Start(h)) % 2 == if open then 1 else 0
  {
    ConversationRoles(h, open);
    if |h| > Start(h) {
      RepliesByPosition(h, open, |h| - 1);
    }
  }
}
