/** The parts of Rust's `str` API that the modelled code leans on. A Dafny
    `string` is a sequence of Unicode scalar values, which is what a Rust
    `str` decodes to. */
module Text {
  import opened Wrappers

  /** `char::is_whitespace`: the Unicode White_Space property. */
  predicate IsWhitespace(c: char) {
    || 0x09 as char <= c <= 0x0D as char
    || c == ' '
    || c == 0x85 as char
    || c == 0xA0 as char
    || c == 0x1680 as char
    || 0x2000 as char <= c <= 0x200A as char
    || c == 0x2028 as char
    || c == 0x2029 as char
    || c == 0x202F as char
    || c == 0x205F as char
    || c == 0x3000 as char
  }

  predicate AllWhitespace(s: string) {
    forall i :: 0 <= i < |s| ==> IsWhitespace(s[i])
  }

  /** `str::trim_start`. */
  function TrimStart(s: string): string {
    if s == "" || !IsWhitespace(s[0]) then s else TrimStart(s[1..])
  }

  /** What is left is the longest suffix that does not start with a blank. */
  lemma {:induction false} TrimStartIsSuffix(s: string)
    ensures var r := TrimStart(s);
      && |r| <= |s| && r == s[|s| - |r|..]
      && AllWhitespace(s[..|s| - |r|])
      && (r != "" ==> !IsWhitespace(r[0]))
  {
    if s != "" && IsWhitespace(s[0]) {
      TrimStartIsSuffix(s[1..]);
    }
  }

  /** `str::trim_end`. */
  function TrimEnd(s: string): string {
    if s == "" || !IsWhitespace(s[|s| - 1]) then s else TrimEnd(s[..|s| - 1])
  }

  /** What is left is the longest prefix that does not end with a blank. */
  lemma {:induction false} TrimEndIsPrefix(s: string)
    ensures var r := TrimEnd(s);
      && |r| <= |s| && r == s[..|r|]
      && AllWhitespace(s[|r|..])
      && (r != "" ==> !IsWhitespace(r[|r| - 1]))
  {
    if s == "" || !IsWhitespace(s[|s| - 1]) {
      assert s[..|s|] == s && s[|s|..] == "";
    } else {
      var init := s[..|s| - 1];
      TrimEndIsPrefix(init);
      var r := TrimEnd(init);
      assert s[|r|..] == init[|r|..] + [s[|s| - 1]];
    }
  }

  /** `str::trim`. */
  function Trim(s: string): string {
    TrimEnd(TrimStart(s))
  }

  /** Nothing to trim, and not empty. */
  predicate Solid(s: string) {
    s != "" && !IsWhitespace(s[0]) && !IsWhitespace(s[|s| - 1])
  }

  lemma {:induction false} TrimStartStrips(blank: string, s: string)
    requires AllWhitespace(blank) && s != "" && !IsWhitespace(s[0])
    ensures TrimStart(blank + s) == s
  {
    if blank == "" {
      assert blank + s == s;
    } else {
      assert (blank + s)[0] == blank[0] && (blank + s)[1..] == blank[1..] + s;
      TrimStartStrips(blank[1..], s);
    }
  }

  lemma {:induction false} TrimEndStrips(s: string, blank: string)
    requires AllWhitespace(blank) && s != "" && !IsWhitespace(s[|s| - 1])
    ensures TrimEnd(s + blank) == s
  {
    if blank == "" {
      assert s + blank == s;
    } else {
      var n := |blank| - 1;
      assert (s + blank)[|s| + n] == blank[n] && (s + blank)[..|s| + n] == s + blank[..n];
      TrimEndStrips(s, blank[..n]);
    }
  }

  lemma TrimStrips(before: string, s: string, after: string)
    requires AllWhitespace(before) && Solid(s) && AllWhitespace(after)
    ensures Trim(before + s + after) == s
  {
    assert before + s + after == before + (s + after);
    assert (s + after)[0] == s[0];
    TrimStartStrips(before, s + after);
    TrimEndStrips(s, after);
  }

  function LowerAscii(c: char): char {
    if 'A' <= c <= 'Z' then ((c as int) + 32) as char else c
  }

  predicate StartsWith(s: string, prefix: string) {
    prefix <= s
  }

  predicate EndsWith(s: string, suffix: string) {
    |suffix| <= |s| && s[|s| - |suffix|..] == suffix
  }

  /** `needle` occurs in `s` at offset `i`. */
  predicate OccursAt(s: string, needle: string, i: int) {
    0 <= i && i + |needle| <= |s| && s[i..i + |needle|] == needle
  }

  /** `str::find` from an offset: the first occurrence at or after `from`. */
  function Find(s: string, needle: string, from: nat): (r: Option<nat>)
    ensures r.Some? ==> from <= r.value && OccursAt(s, needle, r.value)
    ensures r.Some? ==> forall j :: from <= j < r.value ==> !OccursAt(s, needle, j)
    ensures r.None? ==> forall j :: from <= j ==> !OccursAt(s, needle, j)
    decreases |s| - from
  {
    if from + |needle| > |s| then None
    else if OccursAt(s, needle, from) then Some(from)
    else Find(s, needle, from + 1)
  }

  /** `str::rfind` below an offset: the last occurrence ending at or before `to`. */
  function FindLast(s: string, needle: string, to: nat): (r: Option<nat>)
    requires to <= |s|
    ensures r.Some? ==> r.value + |needle| <= to && OccursAt(s, needle, r.value)
    ensures r.Some? ==> forall j :: r.value < j <= to - |needle| ==> !OccursAt(s, needle, j)
    ensures r.None? ==> forall j :: 0 <= j <= to - |needle| ==> !OccursAt(s, needle, j)
  {
    if to < |needle| then None
    else if OccursAt(s, needle, to - |needle|) then Some(to - |needle|)
    else FindLast(s, needle, to - 1)
  }

  /** `str::match_indices`: non-overlapping occurrences, scanned left to right. */
  function MatchIndices(s: string, needle: string, from: nat): seq<nat>
    requires needle != ""
    decreases |s| - from
  {
    match Find(s, needle, from)
    case None => []
    case Some(i) => [i] + MatchIndices(s, needle, i + |needle|)
  }

  /** Every occurrence that also satisfies `keep`, overlapping ones included, in
      increasing order: the reference the non-overlapping scan is compared with. */
  function AllMatches(s: string, needle: string, keep: nat -> bool, from: nat): seq<nat>
    decreases |s| - from
  {
    if from + |needle| > |s| then []
    else if OccursAt(s, needle, from) && keep(from) then [from] + AllMatches(s, needle, keep, from + 1)
    else AllMatches(s, needle, keep, from + 1)
  }

  lemma MatchFirst(s: string, needle: string, from: nat, i: nat)
    requires needle != "" && Find(s, needle, from) == Some(i)
    ensures MatchIndices(s, needle, from) == [i] + MatchIndices(s, needle, i + |needle|)
  {
  }

  predicate Occurrences(s: string, needle: string, from: nat, r: seq<nat>) {
    forall k :: 0 <= k < |r| ==> from <= r[k] && OccursAt(s, needle, r[k])
  }

  lemma OneMoreOccurrence(s: string, needle: string, from: nat, i: nat, rest: seq<nat>)
    requires from <= i && OccursAt(s, needle, i) && Occurrences(s, needle, i + |needle|, rest)
    ensures Occurrences(s, needle, from, [i] + rest)
  {
  }

  lemma {:induction false} MatchIndicesOccur(s: string, needle: string, from: nat)
    requires needle != ""
    ensures Occurrences(s, needle, from, MatchIndices(s, needle, from))
    decreases |s| - from
  {
    match Find(s, needle, from)
    case None =>
    case Some(i) =>
      MatchIndicesOccur(s, needle, i + |needle|);
      OneMoreOccurrence(s, needle, from, i, MatchIndices(s, needle, i + |needle|));
  }

  /** The reference lists exactly the kept occurrences, each once. */
  lemma {:induction false} AllMatchesIsExact(s: string, needle: string, keep: nat -> bool, from: nat)
    ensures var r := AllMatches(s, needle, keep, from);
      && (forall k :: 0 <= k < |r| ==> from <= r[k] && OccursAt(s, needle, r[k]) && keep(r[k]))
      && (forall j, k :: 0 <= j < k < |r| ==> r[j] < r[k])
      && (forall i :: from <= i && OccursAt(s, needle, i) && keep(i) ==> i in r)
    decreases |s| - from
  {
    if from + |needle| <= |s| {
      AllMatchesIsExact(s, needle, keep, from + 1);
      var r, rest := AllMatches(s, needle, keep, from), AllMatches(s, needle, keep, from + 1);
      forall i | from <= i && OccursAt(s, needle, i) && keep(i) ensures i in r {
        if i == from {
          assert r[0] == from;
        } else {
          assert i in rest;
        }
      }
    }
  }

  function Filter(xs: seq<nat>, keep: nat -> bool): (r: seq<nat>) {
    if xs == [] then []
    else if keep(xs[0]) then [xs[0]] + Filter(xs[1..], keep)
    else Filter(xs[1..], keep)
  }

  lemma FilterFirst(x: nat, xs: seq<nat>, keep: nat -> bool)
    ensures Filter([x] + xs, keep) == if keep(x) then [x] + Filter(xs, keep) else Filter(xs, keep)
  {
    assert ([x] + xs)[1..] == xs;
  }

  /** A kept occurrence is never hidden behind an earlier, overlapping one. */
  ghost predicate NeverOverlapped(s: string, needle: string, keep: nat -> bool) {
    forall i: nat, j: nat ::
      OccursAt(s, needle, i) && OccursAt(s, needle, j) && keep(j) && i < j ==> i + |needle| <= j
  }

  lemma {:induction false} AllMatchesSkip(s: string, needle: string, keep: nat -> bool, from: nat, stop: nat)
    requires from <= stop
    requires forall j :: from <= j < stop ==> !(OccursAt(s, needle, j) && keep(j))
    ensures AllMatches(s, needle, keep, from) == AllMatches(s, needle, keep, stop)
    decreases stop - from
  {
    if from < stop {
      AllMatchesSkip(s, needle, keep, from + 1, stop);
    }
  }

  lemma AllMatchesFirst(s: string, needle: string, keep: nat -> bool, i: nat)
    requires OccursAt(s, needle, i)
    ensures AllMatches(s, needle, keep, i)
         == if keep(i) then [i] + AllMatches(s, needle, keep, i + 1) else AllMatches(s, needle, keep, i + 1)
  {
  }

  lemma NoneAhead(s: string, needle: string, keep: nat -> bool, from: nat)
    requires Find(s, needle, from) == None
    ensures AllMatches(s, needle, keep, from) == []
  {
    AllMatchesSkip(s, needle, keep, from, if from <= |s| then |s| + 1 else from);
  }

  lemma FirstAhead(s: string, needle: string, keep: nat -> bool, from: nat, i: nat)
    requires Find(s, needle, from) == Some(i)
    ensures OccursAt(s, needle, i) && AllMatches(s, needle, keep, from) == AllMatches(s, needle, keep, i)
  {
    AllMatchesSkip(s, needle, keep, from, i);
  }

  lemma NoneInside(s: string, needle: string, keep: nat -> bool, i: nat)
    requires needle != "" && NeverOverlapped(s, needle, keep) && OccursAt(s, needle, i)
    ensures AllMatches(s, needle, keep, i + 1) == AllMatches(s, needle, keep, i + |needle|)
  {
    AllMatchesSkip(s, needle, keep, i + 1, i + |needle|);
  }

  lemma ScanStep(s: string, needle: string, keep: nat -> bool, from: nat, i: nat)
    requires needle != "" && NeverOverlapped(s, needle, keep) && Find(s, needle, from) == Some(i)
    requires Filter(MatchIndices(s, needle, i + |needle|), keep) == AllMatches(s, needle, keep, i + |needle|)
    ensures Filter(MatchIndices(s, needle, from), keep) == AllMatches(s, needle, keep, from)
  {
    FirstAhead(s, needle, keep, from, i);
    NoneInside(s, needle, keep, i);
    MatchFirst(s, needle, from, i);
    AllMatchesFirst(s, needle, keep, i);
    FilterFirst(i, MatchIndices(s, needle, i + |needle|), keep);
  }

  /** Where kept occurrences are never overlapped, filtering the non-overlapping
      scan loses none of them. */
  lemma {:induction false} ScanIsComplete(s: string, needle: string, keep: nat -> bool, from: nat)
    requires needle != ""
    requires NeverOverlapped(s, needle, keep)
    ensures Filter(MatchIndices(s, needle, from), keep) == AllMatches(s, needle, keep, from)
    decreases |s| - from
  {
    match Find(s, needle, from)
    case None =>
      NoneAhead(s, needle, keep, from);
    case Some(i) =>
      ScanIsComplete(s, needle, keep, i + |needle|);
      ScanStep(s, needle, keep, from, i);
  }
}
