/** The tokenizer's tables as they are read from the model file, and the round trip
    through them. */
module BpeTables {
  import opened Wrappers
  import opened Utf8
  import opened Bpe

  // ---- token texts ------------------------------------------------------------------------

  function HexDigit(c: char): Option<nat> {
    if '0' <= c <= '9' then Some((c as int) - 48)
    else if 'A' <= c <= 'F' then Some((c as int) - 55)
    else if 'a' <= c <= 'f' then Some((c as int) - 87)
    else None
  }

  /** The byte that `<0xHH>` stands for. */
  function ByteEscape(s: string): (r: Option<Byte>) {
    if |s| == 6 && s[0] == '<' && s[1] == '0' && s[2] == 'x' && s[5] == '>'
       && HexDigit(s[3]).Some? && HexDigit(s[4]).Some?
    then Some(HexDigit(s[3]).value * 16 + HexDigit(s[4]).value)
    else None
  }

  function Replace(s: string, from: char, with: char): (r: string)
    ensures |r| == |s| && forall i :: 0 <= i < |s| ==> r[i] == if s[i] == from then with else s[i]
  {
    seq(|s|, i requires 0 <= i < |s| => if s[i] == from then with else s[i])
  }

  const LOWER_ONE_EIGHTH_BLOCK: char := 0x2581 as char

  /** `unescape_token`. */
  function UnescapeToken(s: string): Token {
    var b := ByteEscape(s);
    if b.Some? then [b.value] else Encode(Replace(s, LOWER_ONE_EIGHTH_BLOCK, ' '))
  }

  const UPPER: string := "0123456789ABCDEF"
  const LOWER: string := "0123456789abcdef"

  lemma HexDigitOf(d: nat)
    requires d < 16
    ensures HexDigit(UPPER[d]) == Some(d) && HexDigit(LOWER[d]) == Some(d)
  {
  }

  /** `<0xHH>` is the byte with these two digits, in either case of letters. */
  lemma EscapeIsOneByte(high: nat, low: nat)
    requires high < 16 && low < 16
    ensures UnescapeToken("<0x" + [UPPER[high], UPPER[low]] + ">") == [high * 16 + low]
    ensures UnescapeToken("<0x" + [LOWER[high], LOWER[low]] + ">") == [high * 16 + low]
  {
    HexDigitOf(high);
    HexDigitOf(low);
  }

  /** A word behind the block sign is the word behind a space. */
  lemma BlockIsSpace(word: string)
    requires LOWER_ONE_EIGHTH_BLOCK !in word
    ensures UnescapeToken([LOWER_ONE_EIGHTH_BLOCK] + word) == Encode(" " + word)
  {
    assert Replace([LOWER_ONE_EIGHTH_BLOCK] + word, LOWER_ONE_EIGHTH_BLOCK, ' ') == " " + word;
  }

  // ---- vocabulary ---------------------------------------------------------------------------

  /** Every token has an id, ids are indices, and an id leads back to its token: the
      last one where a token occurs twice. */
  ghost predicate Tables(vocab: seq<Token>, ids: map<Token, nat>) {
    && (forall i :: 0 <= i < |vocab| ==> vocab[i] in ids)
    && (forall t :: t in ids ==> ids[t] < |vocab| && vocab[ids[t]] == t)
    && (forall i :: 0 <= i < |vocab| ==> i <= ids[vocab[i]])
  }

  method LoadVocab(raw: seq<string>) returns (vocab: seq<Token>, ids: map<Token, nat>)
    ensures |vocab| == |raw| && forall i :: 0 <= i < |raw| ==> vocab[i] == UnescapeToken(raw[i])
    ensures Tables(vocab, ids)
  {
    vocab, ids := [], map[];
    for i := 0 to |raw|
      invariant |vocab| == i && forall k :: 0 <= k < i ==> vocab[k] == UnescapeToken(raw[k])
      invariant Tables(vocab, ids)
    {
      var b := UnescapeToken(raw[i]);
      vocab := vocab + [b];
      ids := ids[b := i];
    }
  }

  // ---- merges ---------------------------------------------------------------------------------

  function SpaceFrom(s: string, from: nat): (i: nat)
    requires from <= |s|
    ensures from <= i <= |s|
    ensures forall j :: from <= j < i ==> s[j] != ' '
    ensures i < |s| ==> s[i] == ' '
    decreases |s| - from
  {
    if from == |s| || s[from] == ' ' then from else SpaceFrom(s, from + 1)
  }

  /** A merge line is two tokens around its first space; without one it is no rule. */
  function MergeRule(line: string): Option<(Token, Token)> {
    var i := SpaceFrom(line, 0);
    if i == |line| then None else Some((UnescapeToken(line[..i]), UnescapeToken(line[i + 1..])))
  }

  /** What a merge line says: the token before its first space, and the one behind it. */
  lemma MergeLineIsTwoTokens(left: string, right: string)
    requires ' ' !in left
    ensures MergeRule(left + " " + right) == Some((UnescapeToken(left), UnescapeToken(right)))
    ensures MergeRule(left) == None
  {
    var line := left + " " + right;
    assert line[|left|] == ' ' && forall j :: 0 <= j < |left| ==> line[j] == left[j];
    assert line[..|left|] == left && line[|left| + 1..] == right;
  }

  type Rule = Option<(Token, Token)>

  function Rules(lines: seq<string>): (r: seq<Rule>)
    ensures |r| == |lines| && forall i :: 0 <= i < |lines| ==> r[i] == MergeRule(lines[i])
  {
    seq(|lines|, i requires 0 <= i < |lines| => MergeRule(lines[i]))
  }

  /** The rank of a rule is the number of the last of the first `n` lines that states
      it; lines that state none still count. */
  ghost predicate RanksOf(rules: seq<Rule>, n: nat, ranks: Ranks)
    requires n <= |rules|
  {
    && (forall i :: 0 <= i < n && rules[i].Some? ==> rules[i].value in ranks && i <= ranks[rules[i].value])
    && (forall p :: p in ranks ==> ranks[p] < n && rules[ranks[p]] == Some(p))
  }

  lemma OneMoreRule(rules: seq<Rule>, n: nat, ranks: Ranks)
    requires n < |rules| && RanksOf(rules, n, ranks)
    ensures RanksOf(rules, n + 1, if rules[n].Some? then ranks[rules[n].value := n] else ranks)
  {
  }

  method LoadMerges(lines: seq<string>) returns (ranks: Ranks)
    ensures RanksOf(Rules(lines), |lines|, ranks)
  {
    ranks := map[];
    ghost var rules := Rules(lines);
    for rank := 0 to |lines|
      invariant RanksOf(rules, rank, ranks)
    {
      OneMoreRule(rules, rank, ranks);
      var rule := MergeRule(lines[rank]);
      if rule.Some? {
        ranks := ranks[rule.value := rank];
      }
    }
  }

  /** Loaded ranks are bounded and no two rules share one. */
  lemma LoadedRanksAreDistinct(rules: seq<Rule>, ranks: Ranks)
    requires RanksOf(rules, |rules|, ranks)
    ensures Bounded(ranks, |rules|)
    ensures forall p, q :: p in ranks && q in ranks && ranks[p] == ranks[q] ==> p == q
  {
    forall p, q | p in ranks && q in ranks && ranks[p] == ranks[q] ensures p == q {
      assert rules[ranks[p]] == Some(p) && rules[ranks[q]] == Some(q);
    }
  }

  // ---- round trip --------------------------------------------------------------------------------

  /** The bytes that a list of ids stands for. */
  function Bytes(out: seq<nat>, vocab: seq<Token>): seq<Byte>
    requires forall i :: 0 <= i < |out| ==> out[i] < |vocab|
  {
    if out == [] then [] else vocab[out[0]] + Bytes(out[1..], vocab)
  }

  /** One token's id leads back to it exactly when the table has it. */
  lemma IdLeadsBackIff(t: Token, vocab: seq<Token>, ids: map<Token, nat>)
    requires Tables(vocab, ids) && vocab != []
    ensures IdOf(ids, t) < |vocab|
    ensures vocab[IdOf(ids, t)] == t <==> t in ids
  {
    if t !in ids {
      assert vocab[0] in ids;
    }
  }

  predicate AllIn(t: seq<Token>, ids: map<Token, nat>) {
    forall i :: 0 <= i < |t| ==> t[i] in ids
  }

  /** Every byte and every merge result is in the table. */
  ghost predicate Closed(ids: map<Token, nat>, ranks: Ranks) {
    && (forall b: Byte :: [b] in ids)
    && (forall p :: p in ranks ==> p.0 + p.1 in ids)
  }

  lemma MergeStaysInTable(t: seq<Token>, i: nat, ids: map<Token, nat>, ranks: Ranks)
    requires Closed(ids, ranks) && AllIn(t, ids) && i + 1 < |t| && RankAt(t, ranks, i).Some?
    ensures AllIn(Merged(t, i), ids)
  {
    assert (t[i], t[i + 1]).0 + (t[i], t[i + 1]).1 in ids;
  }

  lemma {:induction false} GreedyStaysInTable(t: seq<Token>, ids: map<Token, nat>, ranks: Ranks)
    requires Closed(ids, ranks) && AllIn(t, ids)
    ensures AllIn(Greedy(t, ranks), ids)
    decreases |t|
  {
    match Best(t, ranks, Last(t))
    case None =>
    case Some(i) =>
      MergeStaysInTable(t, i, ids, ranks);
      GreedyStaysInTable(Merged(t, i), ids, ranks);
  }

  lemma {:induction false} IdsLeadBack(t: seq<Token>, vocab: seq<Token>, ids: map<Token, nat>)
    requires Tables(vocab, ids) && AllIn(t, ids)
    ensures forall i :: 0 <= i < |t| ==> IdsOf(t, ids)[i] < |vocab|
    ensures Bytes(IdsOf(t, ids), vocab) == Concat(t)
  {
    if t != [] {
      assert t[0] in ids;
      assert IdsOf(t, ids)[1..] == IdsOf(t[1..], ids);
      IdsLeadBack(t[1..], vocab, ids);
    }
  }

  /** With a closed table, the encoded ids of any text stand for its UTF-8 bytes, and
      decode to the text. */
  lemma EncodeRoundTrip(text: string, vocab: seq<Token>, ids: map<Token, nat>, ranks: Ranks)
    requires Tables(vocab, ids) && Closed(ids, ranks)
    ensures var out := IdsOf(Greedy(Singles(Encode(text)), ranks), ids);
      && (forall i :: 0 <= i < |out| ==> out[i] < |vocab|)
      && Bytes(out, vocab) == Encode(text)
      && Utf8.Decode(Bytes(out, vocab)) == Some(text)
  {
    var t := Singles(Encode(text));
    GreedyStaysInTable(t, ids, ranks);
    IdsLeadBack(Greedy(t, ranks), vocab, ids);
    GreedyKeepsBytes(t, ranks);
    SinglesConcat(Encode(text));
    DecodeEncode(text);
  }
}
