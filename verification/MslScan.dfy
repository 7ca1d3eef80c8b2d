/** The text scanners of `cera/build_support/msl_postpass.rs`: whole-identifier
    search, write counting, block matching, k-loop location and the reader that
    checks every matrix load. Offsets count characters. */
module MslScan {
  import opened Wrappers
  import opened Text

  /** Identifiers that may carry the address of a rewritten load. */
  const INDUCTION: seq<string> := ["pa_0", "pa_1", "pb_0", "pb_1"]

  /** Substring of every matrix-load wrapper's name. */
  const LOAD_CALL: string := "simdgroup_load"

  predicate IsWord(c: char) {
    'a' <= c <= 'z' || 'A' <= c <= 'Z' || '0' <= c <= '9' || c == '_'
  }

  predicate AllWord(s: string) {
    forall i :: 0 <= i < |s| ==> IsWord(s[i])
  }

  // ---- whole identifiers ---------------------------------------------------

  predicate AtBoundary(s: string, needle: string, i: nat) {
    && i + |needle| <= |s|
    && (i == 0 || !IsWord(s[i - 1]))
    && (i + |needle| == |s| || !IsWord(s[i + |needle|]))
  }

  function Boundary(s: string, needle: string): nat -> bool {
    (i: nat) => AtBoundary(s, needle, i)
  }

  /** `pp_word_matches`: the boundary filter over the non-overlapping scan. */
  function WordMatches(s: string, needle: string): seq<nat>
    requires needle != ""
  {
    Filter(MatchIndices(s, needle, 0), Boundary(s, needle))
  }

  /** `pp_contains_word`. */
  predicate ContainsWord(s: string, needle: string)
    requires needle != ""
  {
    WordMatches(s, needle) != []
  }

  /** `pp_count_words`. */
  function CountWords(s: string, needle: string): nat
    requires needle != ""
  {
    |WordMatches(s, needle)|
  }

  lemma InsideIsNoBoundary(s: string, needle: string, i: nat, j: nat)
    requires AllWord(needle) && OccursAt(s, needle, i) && i < j < i + |needle|
    ensures !AtBoundary(s, needle, j)
  {
    assert s[j - 1] == s[i..i + |needle|][j - 1 - i];
  }

  /** Two overlapping occurrences put a word character of the first one right
      before the second, so the second is no whole identifier. */
  lemma WordsNeverOverlap(s: string, needle: string, keep: nat -> bool)
    requires AllWord(needle)
    requires forall i: nat :: keep(i) ==> AtBoundary(s, needle, i)
    ensures NeverOverlapped(s, needle, keep)
  {
    forall i: nat, j: nat | OccursAt(s, needle, i) && OccursAt(s, needle, j) && keep(j) && i < j
      ensures i + |needle| <= j
    {
      if j < i + |needle| {
        InsideIsNoBoundary(s, needle, i, j);
      }
    }
  }

  /** No whole identifier is hidden by a rejected match: the filtered scan is
      the ordered list of all whole-identifier occurrences. */
  lemma WordScanIsExact(s: string, needle: string)
    requires needle != "" && AllWord(needle)
    ensures WordMatches(s, needle) == AllMatches(s, needle, Boundary(s, needle), 0)
  {
    WordsNeverOverlap(s, needle, Boundary(s, needle));
    ScanIsComplete(s, needle, Boundary(s, needle), 0);
  }

  /** `pp_count_words` counts every whole-identifier occurrence. */
  lemma CountWordsIsExact(s: string, needle: string)
    requires needle != "" && AllWord(needle)
    ensures CountWords(s, needle) == |AllMatches(s, needle, Boundary(s, needle), 0)|
  {
    WordScanIsExact(s, needle);
  }

  lemma ContainsWordIff(s: string, needle: string)
    requires needle != "" && AllWord(needle)
    ensures ContainsWord(s, needle) <==> exists i: nat :: OccursAt(s, needle, i) && AtBoundary(s, needle, i)
  {
    WordScanIsExact(s, needle);
    AllMatchesIsExact(s, needle, Boundary(s, needle), 0);
    if ContainsWord(s, needle) {
      var i := AllMatches(s, needle, Boundary(s, needle), 0)[0];
      assert OccursAt(s, needle, i) && Boundary(s, needle)(i);
    }
    if i: nat :| OccursAt(s, needle, i) && AtBoundary(s, needle, i) {
      assert Boundary(s, needle)(i);
    }
  }

  // ---- counting writes -----------------------------------------------------

  /** The branch structure of the second filter in `pp_write_count`, on the
      trimmed text before and after the identifier. */
  predicate LooksWritten(before: string, after: string) {
    if EndsWith(before, "++") || EndsWith(before, "--") then true
    else if StartsWith(after, "++") || StartsWith(after, "--") then true
    else if |after| >= 2 && after[0] == '=' && after[1] == '=' then false
    else if |after| >= 1 && after[0] == '=' then true
    else if |after| >= 2 && after[1] == '=' && after[0] in "+-*/%&|^" then true
    else if |after| >= 2 && ((after[0] == '<' && after[1] == '<') || (after[0] == '>' && after[1] == '>')) then
      StartsWith(after[2..], "=")
    else false
  }

  function LooksWrittenAt(region: string, ident: string): nat -> bool {
    (i: nat) =>
      && i + |ident| <= |region|
      && LooksWritten(TrimEnd(region[..i]), TrimStart(region[i + |ident|..]))
  }

  /** `pp_write_count`. */
  function WriteCount(region: string, ident: string): nat
    requires ident != ""
  {
    |Filter(WordMatches(region, ident), LooksWrittenAt(region, ident))|
  }

  /** Reference: what the C-family grammar calls a write through the bare name. */
  predicate WriteForm(before: string, after: string) {
    || EndsWith(before, "++") || EndsWith(before, "--")
    || StartsWith(after, "++") || StartsWith(after, "--")
    || (StartsWith(after, "=") && !StartsWith(after, "=="))
    || CompoundAssign(after)
  }

  predicate CompoundAssign(after: string) {
    || StartsWith(after, "+=") || StartsWith(after, "-=") || StartsWith(after, "*=")
    || StartsWith(after, "/=") || StartsWith(after, "%=") || StartsWith(after, "&=")
    || StartsWith(after, "|=") || StartsWith(after, "^=")
    || StartsWith(after, "<<=") || StartsWith(after, ">>=")
  }

  predicate IsWriteAt(region: string, ident: string, i: nat) {
    && AtBoundary(region, ident, i)
    && WriteForm(TrimEnd(region[..i]), TrimStart(region[i + |ident|..]))
  }

  function WriteAt(region: string, ident: string): nat -> bool {
    (i: nat) => IsWriteAt(region, ident, i)
  }

  lemma CompoundAssignIff(t: string)
    ensures CompoundAssign(t)
       <==> || (|t| >= 2 && t[1] == '=' && t[0] in "+-*/%&|^")
            || (|t| >= 3 && t[0] == t[1] && t[0] in "<>" && t[2] == '=')
  {
    if |t| >= 2 {
      assert t[..2] == [t[0], t[1]];
    }
    if |t| >= 3 {
      assert t[..3] == [t[0], t[1], t[2]];
    }
  }

  lemma LooksWrittenIff(before: string, after: string)
    ensures LooksWritten(before, after) <==> WriteForm(before, after)
  {
    CompoundAssignIff(after);
    assert StartsWith(after, "==") <==> |after| >= 2 && after[0] == '=' && after[1] == '=';
    assert StartsWith(after, "=") <==> |after| >= 1 && after[0] == '=';
    assert |after| >= 2 ==> (StartsWith(after[2..], "=") <==> |after| >= 3 && after[2] == '=');
  }

  lemma WriteAtSplits(region: string, ident: string, i: nat)
    requires i + |ident| <= |region|
    ensures WriteAt(region, ident)(i) <==> Boundary(region, ident)(i) && LooksWrittenAt(region, ident)(i)
  {
    LooksWrittenIff(TrimEnd(region[..i]), TrimStart(region[i + |ident|..]));
  }

  lemma {:induction false} FilterTwice(xs: seq<nat>, p: nat -> bool, q: nat -> bool, both: nat -> bool)
    requires forall i :: 0 <= i < |xs| ==> (both(xs[i]) <==> p(xs[i]) && q(xs[i]))
    ensures Filter(Filter(xs, p), q) == Filter(xs, both)
  {
    if xs != [] {
      FilterTwice(xs[1..], p, q, both);
      if p(xs[0]) {
        assert ([xs[0]] + Filter(xs[1..], p))[1..] == Filter(xs[1..], p);
      }
    }
  }

  /** The count is the number of whole-identifier occurrences, overlapping
      search included, that stand in one of the listed write forms. */
  lemma WriteCountIsExact(region: string, ident: string)
    requires ident != "" && AllWord(ident)
    ensures WriteCount(region, ident) == |AllMatches(region, ident, WriteAt(region, ident), 0)|
  {
    var xs := MatchIndices(region, ident, 0);
    MatchIndicesOccur(region, ident, 0);
    forall k | 0 <= k < |xs|
      ensures WriteAt(region, ident)(xs[k])
         <==> Boundary(region, ident)(xs[k]) && LooksWrittenAt(region, ident)(xs[k])
    {
      WriteAtSplits(region, ident, xs[k]);
    }
    FilterTwice(xs, Boundary(region, ident), LooksWrittenAt(region, ident), WriteAt(region, ident));
    WordsNeverOverlap(region, ident, WriteAt(region, ident));
    ScanIsComplete(region, ident, WriteAt(region, ident), 0);
  }

  // ---- bracket depth -------------------------------------------------------

  /** Openers minus closers in `s[from..upto]`. */
  function Depth(s: string, open: char, close: char, from: nat, upto: nat): int
    requires from <= upto <= |s|
    decreases upto
  {
    if from == upto then 0
    else Depth(s, open, close, from, upto - 1)
         + (if s[upto - 1] == open then 1 else if s[upto - 1] == close then -1 else 0)
  }

  /** `s[open..end]` is a brace block: it starts at a `{`, closes exactly at
      `end`, and stays inside the block on every proper prefix. */
  ghost predicate IsBlock(s: string, open: nat, end: nat) {
    && open < end <= |s|
    && s[open] == '{'
    && Depth(s, '{', '}', open, end) == 0
    && forall m :: open < m < end ==> Depth(s, '{', '}', open, m) > 0
  }

  lemma BlockIsUnique(s: string, open: nat, e1: nat, e2: nat)
    requires IsBlock(s, open, e1) && IsBlock(s, open, e2)
    ensures e1 == e2
  {
    var shorter := if e1 < e2 then e1 else e2;
    assert Depth(s, '{', '}', open, shorter) == 0;
  }

  /** The block opened by the first `{` at or after `from` ends at `end`. */
  ghost predicate BlockFrom(s: string, from: nat, end: nat) {
    && from <= |s|
    && Find(s, "{", from).Some?
    && IsBlock(s, Find(s, "{", from).value, end)
  }

  /** `pp_block_end`: succeeds exactly when a balanced block exists, with its end. */
  method BlockEnd(s: string, from: nat) returns (r: Result<nat, string>)
    requires from <= |s|
    ensures r.Ok? ==> BlockFrom(s, from, r.value)
    ensures r.Err? <==> !exists e: nat :: BlockFrom(s, from, e)
  {
    var at := Find(s, "{", from);
    if at.None? {
      return Err("no block after the k-loop header");
    }
    var open := at.value;
    assert s[open..open + 1] == "{";
    var depth: nat := 0;
    var i := open;
    while i < |s|
      invariant open <= i <= |s|
      invariant depth == Depth(s, '{', '}', open, i)
      invariant i == open ==> depth == 0
      invariant forall m :: open < m <= i ==> Depth(s, '{', '}', open, m) > 0
    {
      if s[i] == '{' {
        depth := depth + 1;
      } else if s[i] == '}' {
        depth := depth - 1;
        if depth == 0 {
          assert BlockFrom(s, from, i + 1);
          return Ok(i + 1);
        }
      }
      i := i + 1;
    }
    return Err("unbalanced braces in the k-loop");
  }

  const SEED_ANCHOR: string := "\n        lsma_0 = "
  const STEP_ANCHOR: string := "\n            pa_0 = pa_1;"
  const HEADER: string := "for(;;)"

  datatype Header = Header(seedAt: nat, lineAt: nat, forAt: nat)

  ghost predicate FirstAt(t: string, needle: string, i: nat) {
    OccursAt(t, needle, i) && forall j :: 0 <= j < i ==> !OccursAt(t, needle, j)
  }

  /** The last occurrence of `needle` inside `t[..limit]`. */
  ghost predicate LastWithin(t: string, needle: string, i: nat, limit: nat) {
    && OccursAt(t, needle, i) && i + |needle| <= limit
    && forall j :: i < j <= limit - |needle| ==> !OccursAt(t, needle, j)
  }

  /** What a k-loop header is, said about the text alone: the seed line comes
      first, the header is the last one before the pointer step, and nothing but
      whitespace precedes it on its line. */
  ghost predicate IsHeader(t: string, h: Header) {
    && FirstAt(t, SEED_ANCHOR, h.seedAt)
    && (exists step: nat :: FirstAt(t, STEP_ANCHOR, step) && LastWithin(t, HEADER, h.forAt, step))
    && h.seedAt < h.lineAt <= h.forAt
    && LastWithin(t, "\n", h.lineAt - 1, h.forAt)
    && AllWhitespace(t[h.lineAt..h.forAt])
  }

  /** `pp_locate_k_loop` up to the block: an expression over immutable text. */
  function LocateHeader(t: string): (r: Result<Header, string>) {
    match (Find(t, SEED_ANCHOR, 0), Find(t, STEP_ANCHOR, 0))
    case (None, _) => Err("k-loop index seed missing")
    case (_, None) => Err("k-loop anchor missing")
    case (Some(seed), Some(step)) =>
      match FindLast(t, HEADER, step)
      case None => Err("no for(;;) precedes the k-loop step")
      case Some(forAt) =>
        if forAt < seed then
          Err("the nearest for(;;) before the k-loop step sits before the index seed")
        else
          var newline := FindLast(t, "\n", forAt);
          var lineAt := if newline.None? then 0 else newline.value + 1;
          if !AllWhitespace(t[lineAt..forAt]) then Err("for(;;) is not first on its line")
          else Ok(Header(seed, lineAt, forAt))
  }

  lemma FirstIsFound(t: string, needle: string, i: nat)
    requires FirstAt(t, needle, i)
    ensures Find(t, needle, 0) == Some(i)
  {
  }

  lemma LastIsFound(t: string, needle: string, i: nat, limit: nat)
    requires limit <= |t| && LastWithin(t, needle, i, limit)
    ensures FindLast(t, needle, limit) == Some(i)
  {
  }

  lemma LocateFrom(t: string, seed: nat, step: nat, forAt: nat, newline: nat)
    requires Find(t, SEED_ANCHOR, 0) == Some(seed) && Find(t, STEP_ANCHOR, 0) == Some(step)
    requires FindLast(t, HEADER, step) == Some(forAt) && FindLast(t, "\n", forAt) == Some(newline)
    requires seed <= forAt && AllWhitespace(t[newline + 1..forAt])
    ensures LocateHeader(t) == Ok(Header(seed, newline + 1, forAt))
  {
  }

  lemma HeaderIsFound(t: string, h: Header)
    requires IsHeader(t, h)
    ensures LocateHeader(t) == Ok(h)
  {
    var step: nat :| FirstAt(t, STEP_ANCHOR, step) && LastWithin(t, HEADER, h.forAt, step);
    FirstIsFound(t, SEED_ANCHOR, h.seedAt);
    FirstIsFound(t, STEP_ANCHOR, step);
    LastIsFound(t, HEADER, h.forAt, step);
    LastIsFound(t, "\n", h.lineAt - 1, h.forAt);
    LocateFrom(t, h.seedAt, step, h.forAt, h.lineAt - 1);
  }

  lemma SeedStartsLine(t: string, seed: nat)
    requires OccursAt(t, SEED_ANCHOR, seed)
    ensures OccursAt(t, "\n", seed)
  {
    assert t[seed..seed + |SEED_ANCHOR|][0] == '\n';
  }

  lemma HeaderStartsWithF(t: string, at: nat)
    requires OccursAt(t, HEADER, at)
    ensures t[at] == 'f'
  {
    assert t[at..at + |HEADER|][0] == 'f';
  }

  /** A header at or after the seed line is on a later line. */
  lemma HeaderAfterSeed(t: string, seed: nat, forAt: nat)
    requires OccursAt(t, SEED_ANCHOR, seed) && OccursAt(t, HEADER, forAt) && seed <= forAt
    ensures FindLast(t, "\n", forAt).Some? && seed <= FindLast(t, "\n", forAt).value < forAt
    ensures LastWithin(t, "\n", FindLast(t, "\n", forAt).value, forAt)
  {
    SeedStartsLine(t, seed);
    HeaderStartsWithF(t, forAt);
    assert t[seed..seed + 1] == "\n" && seed != forAt;
  }

  lemma FoundIsHeader(t: string)
    requires LocateHeader(t).Ok?
    ensures IsHeader(t, LocateHeader(t).value)
  {
    var h := LocateHeader(t).value;
    var step := Find(t, STEP_ANCHOR, 0).value;
    assert FirstAt(t, STEP_ANCHOR, step) && LastWithin(t, HEADER, h.forAt, step);
    HeaderAfterSeed(t, h.seedAt, h.forAt);
  }

  /** `pp_locate_k_loop`: it succeeds exactly on text that has a k-loop header
      followed by a balanced block, and returns that header and block end. */
  method LocateKLoop(t: string) returns (r: Result<(Header, nat), string>)
    ensures r.Ok? ==> IsHeader(t, r.value.0) && BlockFrom(t, r.value.0.forAt, r.value.1)
    ensures r.Ok? ==> r.value.0.seedAt < r.value.0.lineAt <= r.value.0.forAt < r.value.1 <= |t|
    ensures r.Err? ==> forall h: Header, end: nat :: !(IsHeader(t, h) && BlockFrom(t, h.forAt, end))
  {
    var found := LocateHeader(t);
    if found.Err? {
      forall h: Header, end: nat ensures !(IsHeader(t, h) && BlockFrom(t, h.forAt, end)) {
        if IsHeader(t, h) {
          HeaderIsFound(t, h);
        }
      }
      return Err(found.error);
    }
    FoundIsHeader(t);
    var end := BlockEnd(t, found.value.forAt);
    if end.Err? {
      forall h: Header, e: nat ensures !(IsHeader(t, h) && BlockFrom(t, h.forAt, e)) {
        if IsHeader(t, h) {
          HeaderIsFound(t, h);
        }
      }
      return Err(end.error);
    }
    return Ok((found.value, end.value));
  }

  // ---- reading the loads ---------------------------------------------------

  /** A needle whose first character occurs nowhere else in it cannot overlap
      itself, so the non-overlapping scan sees every occurrence. */
  lemma DistinctHeadScan(s: string, needle: string)
    requires needle != "" && forall k :: 0 < k < |needle| ==> needle[k] != needle[0]
    ensures forall i: nat :: OccursAt(s, needle, i) <==> i in MatchIndices(s, needle, 0)
  {
    var all := (i: nat) => true;
    forall i: nat, j: nat | OccursAt(s, needle, i) && OccursAt(s, needle, j) && all(j) && i < j
      ensures i + |needle| <= j
    {
      if j < i + |needle| {
        HeadOfOccurrence(s, needle, i, j);
      }
    }
    ScanIsComplete(s, needle, all, 0);
    FilterAll(MatchIndices(s, needle, 0), all);
    AllMatchesIsExact(s, needle, all, 0);
  }

  lemma HeadOfOccurrence(s: string, needle: string, i: nat, j: nat)
    requires OccursAt(s, needle, i) && OccursAt(s, needle, j) && i < j < i + |needle|
    ensures needle[j - i] == needle[0]
  {
    assert s[i..i + |needle|][j - i] == s[j] == s[j..j + |needle|][0];
  }

  lemma {:induction false} FilterAll(xs: seq<nat>, keep: nat -> bool)
    requires forall i :: 0 <= i < |xs| ==> keep(xs[i])
    ensures Filter(xs, keep) == xs
  {
    if xs != [] {
      FilterAll(xs[1..], keep);
    }
  }

  ghost predicate WordAt(s: string, p: string, i: nat) {
    OccursAt(s, p, i) && AtBoundary(s, p, i)
  }

  lemma WordInsideMargins(a: string, m: string, b: string, p: string, i: nat)
    requires AllWhitespace(a) && AllWhitespace(b)
    requires p != "" && AllWord(p) && WordAt(a + m + b, p, i)
    ensures |a| <= i && WordAt(m, p, i - |a|)
  {
    var x := a + m + b;
    assert IsWord(x[i..i + |p|][0]) && IsWord(x[i..i + |p|][|p| - 1]);
    assert forall k :: 0 <= k < |a| ==> x[k] == a[k] && !IsWord(x[k]);
    assert forall k :: |a| + |m| <= k < |x| ==> x[k] == b[k - |a| - |m|] && !IsWord(x[k]);
    assert |a| <= i && i + |p| - 1 < |a| + |m|;
    assert m[i - |a|..i - |a| + |p|] == x[i..i + |p|];
  }

  lemma WordPastMargins(a: string, m: string, b: string, p: string, i: nat)
    requires AllWhitespace(a) && AllWhitespace(b)
    requires WordAt(m, p, i)
    ensures WordAt(a + m + b, p, |a| + i)
  {
    var x := a + m + b;
    assert x[|a| + i..|a| + i + |p|] == m[i..i + |p|];
  }

  lemma WordsSurviveMargins(a: string, m: string, b: string, p: string)
    requires AllWhitespace(a) && AllWhitespace(b)
    requires p != "" && AllWord(p)
    ensures ContainsWord(a + m + b, p) <==> ContainsWord(m, p)
  {
    ContainsWordIff(a + m + b, p);
    ContainsWordIff(m, p);
    if ContainsWord(a + m + b, p) {
      var i: nat :| OccursAt(a + m + b, p, i) && AtBoundary(a + m + b, p, i);
      WordInsideMargins(a, m, b, p, i);
    }
    if ContainsWord(m, p) {
      var i: nat :| OccursAt(m, p, i) && AtBoundary(m, p, i);
      WordPastMargins(a, m, b, p, i);
    }
  }

  lemma TrimKeepsWords(x: string, p: string)
    requires p != "" && AllWord(p)
    ensures ContainsWord(Trim(x), p) <==> ContainsWord(x, p)
  {
    var y := TrimStart(x);
    var z := TrimEnd(y);
    TrimStartIsSuffix(x);
    TrimEndIsPrefix(y);
    assert x == x[..|x| - |y|] + z + y[|z|..];
    WordsSurviveMargins(x[..|x| - |y|], z, y[|z|..], p);
  }

  /** First offset at or after `i` that is not a word character. */
  function NameEnd(s: string, i: nat): (j: nat)
    requires i <= |s|
    ensures i <= j <= |s|
    ensures forall k :: i <= k < j ==> IsWord(s[k])
    ensures j < |s| ==> !IsWord(s[j])
    decreases |s| - i
  {
    if i < |s| && IsWord(s[i]) then NameEnd(s, i + 1) else i
  }

  /** `open` follows the template arguments that start at `n`, if there are any. */
  ghost predicate TemplateSpan(s: string, n: nat, open: nat) {
    if n < |s| && s[n] == '<' then
      && n < open <= |s|
      && Depth(s, '<', '>', n, open) == 0
      && forall m :: n < m < open ==> Depth(s, '<', '>', n, m) > 0
    else
      open == n
  }

  /** At `k` the argument list that starts at `start` reaches a comma or the
      call's own closing parenthesis. */
  predicate EndsArg(s: string, start: nat, k: nat) {
    start <= k < |s| && (s[k] == ',' || s[k] == ')') && Depth(s, '(', ')', start, k) == 0
  }

  /** `s[start..end]` is the first argument of the load whose name occurs at `at`. */
  ghost predicate IsFirstArg(s: string, at: nat, start: nat, end: nat) {
    && at + |LOAD_CALL| <= |s|
    && 0 < start <= |s|
    && TemplateSpan(s, NameEnd(s, at + |LOAD_CALL|), start - 1)
    && s[start - 1] == '('
    && EndsArg(s, start, end)
    && forall k :: start <= k < end ==> !EndsArg(s, start, k)
  }

  predicate NamesInduction(text: string) {
    exists k :: 0 <= k < |INDUCTION| && ContainsWord(text, INDUCTION[k])
  }

  /** An induction pointer stands in the text as a whole identifier. */
  ghost predicate NamesPointer(text: string) {
    exists k: nat, i: nat :: k < |INDUCTION| && WordAt(text, INDUCTION[k], i)
  }

  ghost predicate ReadsPointer(s: string, at: nat) {
    exists start: nat, end: nat :: IsFirstArg(s, at, start, end) && NamesPointer(s[start..end])
  }

  ghost predicate LoadsUsePointers(body: string) {
    && (exists at: nat :: OccursAt(body, LOAD_CALL, at))
    && forall at: nat :: OccursAt(body, LOAD_CALL, at) ==> ReadsPointer(body, at)
  }

  /** The first loop of `pp_check_loads_use_pointers`: step over template
      arguments, or report the end of the text when they never close. */
  method SkipTemplate(s: string, n: nat) returns (i: nat)
    requires n <= |s|
    ensures n <= i <= |s|
    ensures i < |s| ==> TemplateSpan(s, n, i)
    ensures i == |s| ==> forall open :: TemplateSpan(s, n, open) ==> open == |s|
  {
    i := n;
    var depth: nat := 0;
    while i < |s|
      invariant n <= i <= |s|
      invariant depth == Depth(s, '<', '>', n, i)
      invariant depth == 0 <==> i == n
      invariant i > n ==> s[n] == '<'
      invariant forall m :: n < m <= i ==> Depth(s, '<', '>', n, m) > 0
    {
      if s[i] == '<' {
        depth := depth + 1;
      } else if s[i] == '>' && depth > 0 {
        depth := depth - 1;
        if depth == 0 {
          i := i + 1;
          return;
        }
      } else if depth == 0 {
        return;
      }
      i := i + 1;
    }
  }

  /** The second loop: the first top-level comma, or the call's own paren. */
  method FindArgEnd(s: string, start: nat) returns (end: Option<nat>)
    requires start <= |s|
    ensures end.Some? ==> EndsArg(s, start, end.value) && forall k :: start <= k < end.value ==> !EndsArg(s, start, k)
    ensures end.None? ==> forall k :: !EndsArg(s, start, k)
  {
    var i := start;
    var depth: nat := 0;
    while i < |s|
      invariant start <= i <= |s|
      invariant depth == Depth(s, '(', ')', start, i)
      invariant forall k :: start <= k < i ==> !EndsArg(s, start, k)
    {
      if depth == 0 && (s[i] == ',' || s[i] == ')') {
        return Some(i);
      }
      if s[i] == '(' {
        depth := depth + 1;
      } else if s[i] == ')' {
        depth := depth - 1;
      }
      i := i + 1;
    }
    return None;
  }

  lemma FirstArgIsUnique(s: string, at: nat, a: nat, b: nat, c: nat, d: nat)
    requires IsFirstArg(s, at, a, b) && IsFirstArg(s, at, c, d)
    ensures a == c && b == d
  {
    var n := NameEnd(s, at + |LOAD_CALL|);
    if n < |s| && s[n] == '<' {
      var shorter := if a < c then a else c;
      assert Depth(s, '<', '>', n, shorter - 1) == 0;
    }
  }

  /** One turn of the outer loop: the load at `at`, read or refused. */
  method CheckOneLoad(s: string, at: nat) returns (r: Result<(), string>)
    requires OccursAt(s, LOAD_CALL, at)
    ensures r.Ok? <==> ReadsPointer(s, at)
  {
    var n := NameEnd(s, at + |LOAD_CALL|);
    var i := SkipTemplate(s, n);
    if i == |s| || s[i] != '(' {
      return Err("a matrix load is not a call this pass can read");
    }
    var end := FindArgEnd(s, i + 1);
    if end.None? {
      return Err("a matrix load's argument list is unterminated");
    }
    var text := s[i + 1..end.value];
    TrimmedArgument(s, at, i + 1, end.value);
    if !NamesInduction(Trim(text)) {
      return Err("a matrix load reads an address that is not the pointer walk");
    }
    return Ok(());
  }

  /** The trimmed first argument names an induction pointer exactly when the load
      reads one. */
  lemma TrimmedArgument(s: string, at: nat, start: nat, end: nat)
    requires IsFirstArg(s, at, start, end)
    ensures NamesInduction(Trim(s[start..end])) <==> ReadsPointer(s, at)
  {
    TrimKeepsInduction(s[start..end]);
    if a: nat, b: nat :| IsFirstArg(s, at, a, b) && NamesPointer(s[a..b]) {
      FirstArgIsUnique(s, at, start, end, a, b);
    }
  }

  lemma InductionIsWords()
    ensures forall k :: 0 <= k < |INDUCTION| ==> INDUCTION[k] != "" && AllWord(INDUCTION[k])
  {
    assert |INDUCTION| == 4;
    assert INDUCTION[0] == "pa_0" && INDUCTION[1] == "pa_1" && INDUCTION[2] == "pb_0" && INDUCTION[3] == "pb_1";
  }

  lemma LoadCallScan(body: string)
    ensures forall at: nat :: OccursAt(body, LOAD_CALL, at) <==> at in MatchIndices(body, LOAD_CALL, 0)
  {
    DistinctHeadScan(body, LOAD_CALL);
  }

  lemma TrimKeepsInduction(text: string)
    ensures NamesInduction(Trim(text)) <==> NamesPointer(text)
  {
    InductionIsWords();
    forall k: nat | k < |INDUCTION|
      ensures ContainsWord(Trim(text), INDUCTION[k]) <==> exists i: nat :: WordAt(text, INDUCTION[k], i)
    {
      TrimmedWord(text, INDUCTION[k]);
    }
  }

  lemma TrimmedWord(text: string, p: string)
    requires p != "" && AllWord(p)
    ensures ContainsWord(Trim(text), p) <==> exists i: nat :: WordAt(text, p, i)
  {
    TrimKeepsWords(text, p);
    ContainsWordIff(text, p);
    if i: nat :| WordAt(text, p, i) {
      assert OccursAt(text, p, i) && AtBoundary(text, p, i);
    }
    if ContainsWord(text, p) {
      var i: nat :| OccursAt(text, p, i) && AtBoundary(text, p, i);
      assert WordAt(text, p, i);
    }
  }

  /** The first `n` of the offsets found all satisfy `p`. */
  ghost predicate AllHold(p: nat -> bool, hits: seq<nat>, n: nat)
    requires n <= |hits|
  {
    n == 0 || (p(hits[n - 1]) && AllHold(p, hits, n - 1))
  }

  lemma {:induction false} AllHoldIff(p: nat -> bool, hits: seq<nat>, n: nat)
    requires n <= |hits|
    ensures AllHold(p, hits, n) <==> forall j :: 0 <= j < n ==> p(hits[j])
  {
    if n > 0 {
      AllHoldIff(p, hits, n - 1);
    }
  }

  ghost function Reads(body: string): nat -> bool {
    (at: nat) => ReadsPointer(body, at)
  }

  lemma HitsDecide(p: nat -> bool, found: nat -> bool, hits: seq<nat>)
    requires forall at: nat :: found(at) <==> at in hits
    ensures (exists at: nat :: found(at)) && (forall at: nat :: found(at) ==> p(at))
       <==> hits != [] && AllHold(p, hits, |hits|)
  {
    AllHoldIff(p, hits, |hits|);
    if hits != [] {
      assert hits[0] in hits && found(hits[0]);
    }
    forall j | 0 <= j < |hits| ensures found(hits[j]) {
      assert hits[j] in hits;
    }
  }

  lemma LoadsByHits(body: string, hits: seq<nat>)
    requires forall at: nat :: OccursAt(body, LOAD_CALL, at) <==> at in hits
    ensures LoadsUsePointers(body) <==> hits != [] && AllHold(Reads(body), hits, |hits|)
  {
    var found := (at: nat) => OccursAt(body, LOAD_CALL, at);
    HitsDecide(Reads(body), found, hits);
    assert forall at: nat :: found(at) <==> OccursAt(body, LOAD_CALL, at);
    assert forall at: nat :: Reads(body)(at) <==> ReadsPointer(body, at);
  }

  /** The outer loop over the load calls found in the body. */
  method CheckEachLoad(body: string, hits: seq<nat>, ghost p: nat -> bool) returns (r: Result<(), string>)
    requires forall k :: 0 <= k < |hits| ==> OccursAt(body, LOAD_CALL, hits[k])
    requires forall at: nat {:trigger ReadsPointer(body, at)} :: p(at) <==> ReadsPointer(body, at)
    ensures r.Ok? <==> hits != [] && AllHold(p, hits, |hits|)
  {
    var seen := 0;
    while seen < |hits|
      invariant 0 <= seen <= |hits|
      invariant AllHold(p, hits, seen)
    {
      r := CheckOneLoad(body, hits[seen]);
      assert r.Ok? <==> p(hits[seen]);
      if r.Err? {
        AllHoldIff(p, hits, |hits|);
        return;
      }
      seen := seen + 1;
    }
    if seen == 0 {
      return Err("the k-loop body has no matrix load, so nothing proves the loads were repointed");
    }
    return Ok(());
  }

  /** `pp_check_loads_use_pointers`: accepts exactly the bodies that hold a matrix
      load and whose every matrix load names an induction pointer in its first
      argument. No depth underflows and no index leaves the text. */
  method CheckLoadsUsePointers(body: string) returns (r: Result<(), string>)
    ensures r.Ok? <==> LoadsUsePointers(body)
  {
    var hits := MatchIndices(body, LOAD_CALL, 0);
    MatchIndicesOccur(body, LOAD_CALL, 0);
    r := CheckEachLoad(body, hits, Reads(body));
    LoadCallScan(body);
    LoadsByHits(body, hits);
  }
}
