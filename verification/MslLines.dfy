/** Swaps, captures and replacements on a text of whole lines: they work line by line. */
module MslLines {
  import opened Wrappers
  import opened Text
  import opened MslText

  predicate NoBreak(s: string) {
    forall i :: 0 <= i < |s| ==> s[i] != '\n'
  }

  predicate NoBreaks(lines: seq<string>) {
    forall i :: 0 <= i < |lines| ==> NoBreak(lines[i])
  }

  /** Each line with the break before it. */
  function Join(lines: seq<string>): string {
    if lines == [] then "" else "\n" + lines[0] + Join(lines[1..])
  }

  lemma {:induction false} JoinAppends(a: seq<string>, b: seq<string>)
    ensures Join(a + b) == Join(a) + Join(b)
  {
    if a == [] {
      assert a + b == b;
    } else {
      assert (a + b)[0] == a[0] && (a + b)[1..] == a[1..] + b;
      JoinAppends(a[1..], b);
    }
  }

  lemma JoinSingle(l: string)
    ensures Join([l]) == "\n" + l
  {
    assert [l][1..] == [];
    assert Join([]) == "";
  }

  // ---- anchors at the start of a line ----------------------------------------------

  /** No line of `lines` starts with `open`. */
  predicate NoneOpens(lines: seq<string>, open: string) {
    forall i :: 0 <= i < |lines| ==> !StartsWith(lines[i], open)
  }

  predicate Absent(s: string, needle: string) {
    forall j :: 0 <= j < |s| ==> !OccursAt(s, needle, j)
  }

  lemma OccursChars(s: string, needle: string, j: int)
    ensures OccursAt(s, needle, j) ==> forall d :: 0 <= d < |needle| ==> needle[d] == s[j + d]
  {
    if OccursAt(s, needle, j) {
      var part := s[j..j + |needle|];
      assert forall d :: 0 <= d < |needle| ==> part[d] == s[j + d];
    }
  }

  lemma JoinStarts(lines: seq<string>)
    ensures Join(lines) == "" || Join(lines)[0] == '\n'
  {
  }

  /** Nothing starts in `a` and ends in `b`. */
  predicate Apart(a: string, b: string, needle: string) {
    forall j :: 0 <= j < |a| && |a| < j + |needle| ==> !OccursAt(a + b, needle, j)
  }

  lemma ApartByHead(a: string, b: string, needle: string)
    requires needle != "" && (b == "" || forall d :: 0 < d < |needle| ==> needle[d] != b[0])
    ensures Apart(a, b, needle)
  {
    forall j | 0 <= j < |a| && |a| < j + |needle| ensures !OccursAt(a + b, needle, j) {
      OccursChars(a + b, needle, j);
      if b != "" {
        assert needle[|a| - j] != b[0] == (a + b)[|a|];
      }
    }
  }

  lemma OccursInPart(a: string, b: string, needle: string, j: int)
    requires needle != "" && Apart(a, b, needle)
    ensures OccursAt(a + b, needle, j) <==> OccursAt(a, needle, j) || OccursAt(b, needle, j - |a|)
  {
    if 0 <= j && j + |needle| <= |a| {
      assert (a + b)[j..j + |needle|] == a[j..j + |needle|];
    }
    if |a| <= j && j + |needle| <= |a + b| {
      assert (a + b)[j..j + |needle|] == b[j - |a|..j - |a| + |needle|];
    }
  }

  /** An anchor occurs at the starts of lines only. */
  lemma LineOpens(l: string, open: string, j: int)
    requires NoBreak(l)
    ensures OccursAt("\n" + l, "\n" + open, j) ==> j == 0 && StartsWith(l, open)
  {
    var t, needle := "\n" + l, "\n" + open;
    OccursChars(t, needle, j);
    assert forall k :: 1 <= k < |t| ==> t[k] == l[k - 1];
    assert needle[0] == '\n';
    if |open| <= |l| {
      assert t[0..|needle|] == "\n" + l[..|open|];
      assert ("\n" + l[..|open|])[1..] == l[..|open|] && needle[1..] == open;
    }
  }

  lemma {:induction false} AnchorAbsent(lines: seq<string>, open: string)
    requires NoBreak(open) && NoBreaks(lines) && NoneOpens(lines, open)
    ensures Absent(Join(lines), "\n" + open)
  {
    if lines != [] {
      var l, rest, needle := lines[0], Join(lines[1..]), "\n" + open;
      AnchorAbsent(lines[1..], open);
      AnchorApart("\n" + l, lines[1..], open);
      forall j | 0 <= j < |"\n" + l + rest| ensures !OccursAt("\n" + l + rest, needle, j) {
        OccursInPart("\n" + l, rest, needle, j);
        LineOpens(l, open, j);
        NotBefore(rest, needle, j - |"\n" + l|);
      }
    }
  }

  lemma NotBefore(s: string, needle: string, j: int)
    requires needle != "" && Absent(s, needle)
    ensures !OccursAt(s, needle, j)
  {
  }

  lemma AnchorApart(a: string, lines: seq<string>, open: string)
    requires NoBreak(open)
    ensures Apart(a, Join(lines), "\n" + open)
  {
    JoinStarts(lines);
    ApartByHead(a, Join(lines), "\n" + open);
  }

  /** Around the only line that starts with the anchor, it is unique. */
  lemma AnchorIsSole(front: string, a: seq<string>, l: string, b: seq<string>, open: string)
    requires NoBreak(open) && NoBreaks(a) && NoBreaks(b) && NoBreak(l)
    requires Absent(front, "\n" + open) && NoneOpens(a, open) && NoneOpens(b, open) && StartsWith(l, open)
    ensures SoleAt(front + Join(a) + ("\n" + l + Join(b)), "\n" + open, |front + Join(a)|)
  {
    var needle, x, y := "\n" + open, front + Join(a), "\n" + l + Join(b);
    AnchorAbsent(a, open);
    AnchorAbsent(b, open);
    AnchorApart(front, a, open);
    AnchorApart("\n" + l, b, open);
    ApartByHead(x, y, needle);
    forall j: int | j != |x| ensures !OccursAt(x + y, needle, j) {
      OccursInPart(x, y, needle, j);
      OccursInPart(front, Join(a), needle, j);
      OccursInPart("\n" + l, Join(b), needle, j - |x|);
      LineOpens(l, open, j - |x|);
      NotBefore(front, needle, j);
      NotBefore(Join(a), needle, j - |front|);
      NotBefore(Join(b), needle, j - |x| - |"\n" + l|);
    }
    assert y[..|needle|] == "\n" + l[..|open|];
    OccursInPart(x, y, needle, |x|);
  }

  /** A whole-line anchor with a line put below it. */
  lemma InsertsBelow(front: string, a: seq<string>, l: string, b: seq<string>, extra: string)
    requires NoBreaks(a) && NoBreaks(b) && NoBreak(l)
    requires Absent(front, "\n" + l) && NoneOpens(a, l) && NoneOpens(b, l)
    ensures InsertAfter(front + Join(a + [l] + b), "\n" + l, "\n" + extra) == Ok(front + Join(a + [l, extra] + b))
  {
    JoinThree(front, a, l, b);
    AnchorIsSole(front, a, l, b, l);
    SwapAround(front + Join(a), "\n" + l, Join(b), "\n" + l + ("\n" + extra));
    JoinFour(front, a, l, extra, b);
  }

  lemma SwapAround(x: string, m: string, y: string, with: string)
    requires m != "" && SoleAt(x + (m + y), m, |x|)
    ensures Swap(x + (m + y), m, with) == Ok(x + with + y)
  {
    SwapIsLocal(x + (m + y), m, with);
    CutAround(x, m, y);
  }

  lemma CutAround(x: string, m: string, y: string)
    ensures (x + (m + y))[..|x|] == x && (x + (m + y))[|x| + |m|..] == y
  {
  }

  lemma JoinThree(front: string, a: seq<string>, l: string, b: seq<string>)
    ensures front + Join(a + [l] + b) == front + Join(a) + ("\n" + l + Join(b))
  {
    JoinAppends(a + [l], b);
    JoinAppends(a, [l]);
    JoinSingle(l);
    Associate(front, Join(a), "\n" + l, Join(b));
  }

  lemma JoinFour(front: string, a: seq<string>, l: string, m: string, b: seq<string>)
    ensures front + Join(a + [l, m] + b) == front + Join(a) + ("\n" + l + ("\n" + m)) + Join(b)
  {
    assert a + [l, m] + b == (a + [l]) + [m] + b;
    JoinThree(front, a + [l], m, b);
    JoinAppends(a, [l]);
    JoinSingle(l);
    Associate(front, Join(a), "\n" + l, "\n" + m + Join(b));
    Regroup(front + Join(a), "\n" + l, "\n" + m, Join(b));
  }

  lemma Associate(a: string, b: string, c: string, d: string)
    ensures a + (b + c + d) == a + b + (c + d) && a + (b + c) == a + b + c
  {
  }

  lemma Regroup(x: string, b: string, c: string, d: string)
    ensures x + b + (c + d) == x + (b + c) + d
  {
  }

  /** What follows the anchor on its line, up to the closer at the end of the line. */
  lemma CapturesLine(front: string, a: seq<string>, open: string, mid: string, b: seq<string>)
    requires NoBreaks(a) && NoBreaks(b) && NoBreak(open) && NoBreak(mid)
    requires forall i :: 0 <= i < |mid| ==> mid[i] != ';'
    requires Absent(front, "\n" + open) && NoneOpens(a, open) && NoneOpens(b, open)
    ensures Between(front + Join(a + [open + mid + ";"] + b), "\n" + open, ";") == Ok(mid)
  {
    var l := open + mid + ";";
    JoinThree(front, a, l, b);
    assert l[..|open|] == open;
    AnchorIsSole(front, a, l, b, open);
    Spread(front + Join(a), open, mid, Join(b));
    CapturesAround(front + Join(a), "\n" + open, mid, Join(b));
  }

  lemma Spread(x: string, open: string, mid: string, y: string)
    ensures x + ("\n" + (open + mid + ";") + y) == x + ("\n" + open + (mid + (";" + y)))
  {
  }

  lemma CapturesAround(x: string, m: string, mid: string, y: string)
    requires m != "" && ';' !in mid && SoleAt(x + (m + (mid + (";" + y))), m, |x|)
    ensures Between(x + (m + (mid + (";" + y))), m, ";") == Ok(mid)
  {
    var t, from := x + (m + (mid + (";" + y))), |x| + |m|;
    var end := from + |mid|;
    CutAround(x, m, mid + (";" + y));
    assert t[from..] == mid + (";" + y);
    assert t[from..end] == t[from..][..|mid|] == mid && t[end] == t[from..][|mid|] == ';';
    assert forall j :: from <= j < end ==> t[j] == t[from..][j - from] == mid[j - from];
    CaptureIsFound(t, m, ";", |x|, end, mid);
  }

  /** Two lines that start with the anchor, or none, and it is not unique. */
  lemma AnchorNotSole(front: string, lines: seq<string>, open: string)
    requires NoBreak(open) && NoBreaks(lines) && Absent(front, "\n" + open)
    requires NoneOpens(lines, open)
      || exists i, j :: 0 <= i < j < |lines| && StartsWith(lines[i], open) && StartsWith(lines[j], open)
    ensures |MatchIndices(front + Join(lines), "\n" + open, 0)| != 1
  {
    var t, needle := front + Join(lines), "\n" + open;
    OneMatchIff(t, needle);
    if k: nat :| SoleAt(t, needle, k) {
      if NoneOpens(lines, open) {
        AnchorAbsent(lines, open);
        JoinStarts(lines);
        ApartByHead(front, Join(lines), needle);
        OccursInPart(front, Join(lines), needle, k);
        assert false;
      } else {
        var i, j :| 0 <= i < j < |lines| && StartsWith(lines[i], open) && StartsWith(lines[j], open);
        var p := AnchorAt(front, lines, open, i);
        var q := AnchorAt(front, lines, open, j);
        JoinGrows(lines, i, j);
        TwoAreNotOne(t, needle, p, q, k);
      }
    }
  }

  lemma TwoAreNotOne(t: string, needle: string, p: nat, q: nat, k: nat)
    requires OccursAt(t, needle, p) && OccursAt(t, needle, q) && p + |needle| <= q
    ensures !SoleAt(t, needle, k)
  {
  }

  lemma AnchorAt(front: string, lines: seq<string>, open: string, i: nat) returns (p: nat)
    requires i < |lines| && StartsWith(lines[i], open)
    ensures p == |front| + |Join(lines[..i])| && OccursAt(front + Join(lines), "\n" + open, p)
  {
    p := |front| + |Join(lines[..i])|;
    var l, b := lines[i], lines[i + 1..];
    assert lines == lines[..i] + [l] + b;
    JoinThree(front, lines[..i], l, b);
    var x := front + Join(lines[..i]);
    assert (x + ("\n" + l + Join(b)))[p..p + 1 + |open|] == "\n" + l[..|open|];
  }

  lemma JoinGrows(lines: seq<string>, i: nat, j: nat)
    requires i < j < |lines|
    ensures |Join(lines[..i])| + 1 + |lines[i]| <= |Join(lines[..j])|
  {
    assert lines[..j] == lines[..i] + [lines[i]] + lines[i + 1..j];
    JoinThree("", lines[..i], lines[i], lines[i + 1..j]);
  }

  // ---- replacing --------------------------------------------------------------------

  lemma FirstIs(s: string, p: string, i: nat)
    requires OccursAt(s, p, i) && forall j :: 0 <= j < i ==> !OccursAt(s, p, j)
    ensures Find(s, p, 0) == Some(i)
  {
  }

  lemma ReplaceNothing(s: string, p: string, w: string)
    requires p != "" && Absent(s, p)
    ensures Replace(s, p, w) == s
  {
    assert Find(s, p, 0) == None;
  }

  /** The first occurrence and what is around it. */
  lemma ReplaceFirst(a: string, b: string, p: string, w: string)
    requires p != "" && forall j :: 0 <= j < |a| ==> !OccursAt(a + (p + b), p, j)
    ensures Replace(a + (p + b), p, w) == a + w + Replace(b, p, w)
  {
    CutAround(a, p, b);
    assert (a + (p + b))[|a|..|a| + |p|] == p;
    FirstIs(a + (p + b), p, |a|);
  }

  lemma CutAtFirst(s: string, p: string) returns (a: string, b: string)
    requires !Absent(s, p) && p != ""
    ensures s == a + (p + b) && |b| < |s| && forall j :: 0 <= j < |a| ==> !OccursAt(s, p, j)
  {
    var i := Find(s, p, 0).value;
    a, b := s[..i], s[i + |p|..];
    assert s[i..i + |p|] == p;
  }

  /** Replacing works on two parts by itself where nothing lies across. */
  lemma {:induction false} ReplaceSplits(a: string, b: string, p: string, w: string)
    requires p != "" && Apart(a, b, p)
    ensures Replace(a + b, p, w) == Replace(a, p, w) + Replace(b, p, w)
    decreases |a|
  {
    if Absent(a, p) {
      ReplaceNothing(a, p, w);
      SplitsBehind(a, b, p, w);
    } else {
      var x, y := CutAtFirst(a, p);
      NoneBefore(x, p + y, b, p);
      ReplaceFirst(x, y, p, w);
      Regroup3(x + w, Replace(y, p, w), Replace(b, p, w), x, p, y, b);
      ReplaceFirst(x, y + b, p, w);
      ApartRest(x + p, y, b, p);
      ReplaceSplits(y, b, p, w);
    }
  }

  lemma Regroup3(s: string, t: string, u: string, x: string, p: string, y: string, b: string)
    ensures s + (t + u) == s + t + u && x + (p + y) + b == x + (p + (y + b)) && x + (p + y) == x + p + y
  {
  }

  lemma NoneBefore(x: string, m: string, b: string, p: string)
    requires p != "" && Apart(x + m, b, p) && forall j :: 0 <= j < |x| ==> !OccursAt(x + m, p, j)
    ensures forall j :: 0 <= j < |x| ==> !OccursAt(x + m + b, p, j)
  {
    forall j | 0 <= j < |x| ensures !OccursAt(x + m + b, p, j) {
      OccursInPart(x + m, b, p, j);
    }
  }

  lemma ApartRest(x: string, y: string, b: string, p: string)
    requires Apart(x + y, b, p)
    ensures Apart(y, b, p)
  {
    forall j | 0 <= j < |y| && |y| < j + |p| ensures !OccursAt(y + b, p, j) {
      assert x + y + b == x + (y + b);
      OccursShifted(x, y + b, p, |x| + j);
    }
  }

  lemma OccursShifted(a: string, b: string, p: string, j: int)
    requires j >= |a|
    ensures OccursAt(a + b, p, j) <==> OccursAt(b, p, j - |a|)
  {
    if j + |p| <= |a + b| {
      assert (a + b)[j..j + |p|] == b[j - |a|..j - |a| + |p|];
    }
  }

  lemma SplitsBehind(a: string, b: string, p: string, w: string)
    requires p != "" && Absent(a, p) && Apart(a, b, p)
    ensures Replace(a + b, p, w) == a + Replace(b, p, w)
  {
    if Absent(b, p) {
      ReplaceNothing(b, p, w);
      AbsentBoth(a, b, p);
      ReplaceNothing(a + b, p, w);
    } else {
      var x, y := CutAtFirst(b, p);
      NoneBeforeBoth(a, x, p + y, p);
      FirstBehind(a, x, y, p, w);
    }
  }

  lemma FirstBehind(a: string, x: string, y: string, p: string, w: string)
    requires p != "" && forall j :: 0 <= j < |x| ==> !OccursAt(x + (p + y), p, j)
    requires forall j :: 0 <= j < |a + x| ==> !OccursAt((a + x) + (p + y), p, j)
    ensures Replace(a + (x + (p + y)), p, w) == a + Replace(x + (p + y), p, w)
  {
    ReplaceFirst(x, y, p, w);
    ReplaceFirst(a + x, y, p, w);
    Associate(a, x, w, Replace(y, p, w));
    Regroup3(a, x, p + y, "", "", "", "");
    Regroup3(a, x + w, Replace(y, p, w), "", "", "", "");
  }

  lemma AbsentBoth(a: string, b: string, p: string)
    requires p != "" && Absent(a, p) && Absent(b, p) && Apart(a, b, p)
    ensures Absent(a + b, p)
  {
    forall j | 0 <= j < |a + b| ensures !OccursAt(a + b, p, j) {
      OccursInPart(a, b, p, j);
      NotBefore(a, p, j);
      NotBefore(b, p, j - |a|);
    }
  }

  lemma NoneBeforeBoth(a: string, x: string, m: string, p: string)
    requires p != "" && Absent(a, p) && Apart(a, x + m, p) && forall j :: 0 <= j < |x| ==> !OccursAt(x + m, p, j)
    ensures forall j :: 0 <= j < |a + x| ==> !OccursAt((a + x) + m, p, j)
  {
    assert (a + x) + m == a + (x + m);
    forall j | 0 <= j < |a + x| ensures !OccursAt((a + x) + m, p, j) {
      OccursInPart(a, x + m, p, j);
      NotBefore(a, p, j);
    }
  }

  lemma ReplaceHead(p: string, w: string, rest: string)
    requires p != ""
    ensures Replace(p + rest, p, w) == w + Replace(rest, p, w)
  {
    assert "" + (p + rest) == p + rest && "" + w == w;
    ReplaceFirst("", rest, p, w);
  }

  function ReplaceEach(lines: seq<string>, p: string, w: string): seq<string>
    requires p != ""
  {
    if lines == [] then [] else [Replace(lines[0], p, w)] + ReplaceEach(lines[1..], p, w)
  }

  /** A pattern without a break is replaced line by line. */
  lemma {:induction false} ReplaceLines(lines: seq<string>, p: string, w: string)
    requires p != "" && NoBreak(p)
    ensures Replace(Join(lines), p, w) == Join(ReplaceEach(lines, p, w))
  {
    if lines == [] {
      ReplaceNothing("", p, w);
    } else {
      var l, rest := lines[0], Join(lines[1..]);
      JoinStarts(lines[1..]);
      ApartByHead("\n" + l, rest, p);
      ReplaceSplits("\n" + l, rest, p, w);
      ReplaceLines(lines[1..], p, w);
      BreakStays(l, p, w);
      var each := ReplaceEach(lines[1..], p, w);
      assert ([Replace(l, p, w)] + each)[1..] == each;
    }
  }

  lemma BreakStays(l: string, p: string, w: string)
    requires p != "" && NoBreak(p)
    ensures Replace("\n" + l, p, w) == "\n" + Replace(l, p, w)
  {
    OccursChars("\n" + l, p, 0);
    OccursChars("\n", p, 0);
    assert p[0] != '\n' && ("\n" + l)[0] == '\n';
    ReplaceSplits("\n", l, p, w);
    ReplaceNothing("\n", p, w);
  }
}
