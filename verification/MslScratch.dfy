/** What the scratch move leaves in the shader. */
module MslScratch {
  import opened Wrappers
  import opened Text
  import opened MslScan
  import opened MslText
  import opened MslLines

  /** A line of code that a dereferenced field can neither overlap nor be in. */
  predicate Plain(x: string) {
    |x| > 1 && x[0] == ' ' && x[|x| - 1] == ';' && '&' !in x
  }

  predicate IsDereference(p: string) {
    '&' in p && ' ' !in p && ';' !in p
  }

  lemma NoDereferenceIn(x: string, b: string, p: string)
    requires Plain(x) && IsDereference(p)
    ensures Apart(x, b, p) && Absent(x, p)
  {
    forall j | 0 <= j < |x| ensures (|x| < j + |p| ==> !OccursAt(x + b, p, j)) && !OccursAt(x, p, j) {
      OccursChars(x, p, j);
      if OccursAt(x + b, p, j) && |x| < j + |p| {
        LastIsIn(x, b, p, j);
      }
    }
  }

  lemma LastIsIn(x: string, b: string, p: string, j: nat)
    requires x != "" && j < |x| < j + |p| && OccursAt(x + b, p, j)
    ensures x[|x| - 1] in p
  {
    OccursChars(x + b, p, j);
    assert p[|x| - 1 - j] == (x + b)[|x| - 1];
  }

  lemma PlainStays(s: string, x: string, p: string, w: string, i: nat) returns (k: nat)
    requires Plain(x) && IsDereference(p) && OccursAt(s, x, i)
    ensures OccursAt(Replace(s, p, w), x, k)
  {
    var a, b := s[..i], s[i + |x|..];
    assert s == a + (x + b);
    ApartByHead(a, x + b, p);
    ReplaceSplits(a, x + b, p, w);
    NoDereferenceIn(x, b, p);
    ReplaceSplits(x, b, p, w);
    ReplaceNothing(x, p, w);
    k := |Replace(a, p, w)|;
    var after := Replace(b, p, w);
    assert (Replace(a, p, w) + (x + after))[k..k + |x|] == x;
  }

  lemma NamingKeepsPlain(t: string, x: string, i: nat) returns (k: nat)
    requires Plain(x) && OccursAt(t, x, i)
    ensures OccursAt(NameSlices(t), x, k)
  {
    var p0, p1 := "(*(((&kernelContext_0)->sa_0)))", "(*(&kernelContext_0)->sa_0)";
    var p2, p3 := "(*(((&kernelContext_0)->sb_0)))", "(*(&kernelContext_0)->sb_0)";
    AWrapped();
    APlain();
    BWrapped();
    BPlain();
    var t0 := Replace(t, p0, "(_sa)");
    var t1 := Replace(t0, p1, "(_sa)");
    var t2 := Replace(t1, p2, "(_sb)");
    k := PlainStays(t, x, p0, "(_sa)", i);
    k := PlainStays(t0, x, p1, "(_sa)", k);
    k := PlainStays(t1, x, p2, "(_sb)", k);
    k := PlainStays(t2, x, p3, "(_sb)", k);
  }

  lemma AWrapped()
    ensures IsDereference("(*(((&kernelContext_0)->sa_0)))")
  {
    assert "(*(((&kernelContext_0)->sa_0)))"[5] == '&';
  }

  lemma APlain()
    ensures IsDereference("(*(&kernelContext_0)->sa_0)")
  {
    assert "(*(&kernelContext_0)->sa_0)"[3] == '&';
  }

  lemma BWrapped()
    ensures IsDereference("(*(((&kernelContext_0)->sb_0)))")
  {
    assert "(*(((&kernelContext_0)->sb_0)))"[5] == '&';
  }

  lemma BPlain()
    ensures IsDereference("(*(&kernelContext_0)->sb_0)")
  {
    assert "(*(&kernelContext_0)->sb_0)"[3] == '&';
  }

  lemma BindingChars()
    ensures "    threadgroup float* _sb = "[0] == ' ' && '&' !in "    threadgroup float* _sb = "
    ensures '&' !in "(threadgroup float*)(shmem_p_0 + " && '&' !in ");"
  {
  }

  lemma PlainAround(front: string, cast: string, digits: string)
    requires front != "" && front[0] == ' ' && '&' !in front && '&' !in cast && AllDigits(digits) && '&' !in ");"
    ensures Plain(front + (cast + digits + ");"))
  {
  }

  lemma BindingIsPlain(offset: nat)
    ensures Plain(BBinding(offset))
  {
    BindingChars();
    ShowIsDecimal(offset);
    PlainAround("    threadgroup float* _sb = ", "(threadgroup float*)(shmem_p_0 + ", Show(offset));
  }

  lemma SwappedIn(u: string, anchor: string, x: string, more: string, v: string) returns (i: nat)
    requires anchor != "" && Swap(u, anchor, x + more) == Ok(v)
    ensures OccursAt(v, x, i)
  {
    SwapIsLocal(u, anchor, x + more);
    i :| SoleAt(u, anchor, i);
    assert v[i..i + |x|] == x;
  }

  lemma BindingIsSwappedIn(t: string, offset: nat, v: string) returns (i: nat)
    requires BindSlices(t, offset) == Ok(v)
    ensures OccursAt(v, BBinding(offset), i)
  {
    var saBind := LineContaining(t, "->sa_0 = &sa_1;").value;
    var sbBind := LineContaining(t, "->sb_0 = &sb_1;").value;
    var u := Swap(t, saBind, A_BINDING + A_BOUND).value;
    i := SwappedIn(u, sbBind, BBinding(offset), B_BOUND, v);
  }

  // ---- the swaps of the move ----------------------------------------------------------------

  /** The sole occurrence of `l` gave way to `w`. */
  ghost predicate Swapped(s: string, l: string, w: string, t: string) {
    exists i: nat :: SoleAt(s, l, i) && t == s[..i] + w + s[i + |l|..]
  }

  ghost predicate Holds(line: string, needle: string) {
    exists i: nat :: OccursAt(line, needle, i)
  }

  /** `l` is the one line with `needle` in it. */
  ghost predicate OnlyLine(s: string, needle: string, l: string) {
    var lines := LinesFrom(s, 0);
    exists k: nat :: k < |lines| && lines[k] == l
      && forall j: nat :: j < |lines| ==> (Holds(lines[j], needle) <==> j == k)
  }

  lemma SwapSwaps(s: string, l: string, w: string, t: string)
    requires l != "" && Swap(s, l, w) == Ok(t)
    ensures Swapped(s, l, w, t)
  {
    OneMatchIff(s, l);
    var i: nat :| SoleAt(s, l, i);
    SwapAt(s, l, w, i);
  }

  lemma FindIffHolds(line: string, needle: string)
    ensures Find(line, needle, 0).Some? <==> Holds(line, needle)
  {
  }

  lemma {:induction false} NoneHolds(lines: seq<string>, needle: string)
    requires Containing(lines, needle) == []
    ensures forall j: nat :: j < |lines| ==> !Holds(lines[j], needle)
  {
    if lines != [] {
      FindIffHolds(lines[0], needle);
      NoneHolds(lines[1..], needle);
    }
  }

  lemma ContainingFirst(lines: seq<string>, needle: string, l: string)
    requires lines != [] && Containing(lines, needle) == [l]
    ensures Holds(lines[0], needle) ==> lines[0] == l && Containing(lines[1..], needle) == []
    ensures !Holds(lines[0], needle) ==> Containing(lines[1..], needle) == [l]
  {
    FindIffHolds(lines[0], needle);
    var rest := Containing(lines[1..], needle);
    assert ([lines[0]] + rest)[0] == lines[0] && ([lines[0]] + rest)[1..] == rest;
  }

  lemma OneMoreLine(first: string, rest: seq<string>, needle: string, m: nat)
    requires !Holds(first, needle) && m < |rest|
    requires forall j: nat :: j < |rest| ==> (Holds(rest[j], needle) <==> j == m)
    ensures forall j: nat :: j < |[first] + rest| ==> (Holds(([first] + rest)[j], needle) <==> j == m + 1)
  {
    forall j: nat | j < |[first] + rest| ensures Holds(([first] + rest)[j], needle) <==> j == m + 1 {
      if j > 0 {
        assert ([first] + rest)[j] == rest[j - 1];
      }
    }
  }

  lemma FirstLineOnly(first: string, rest: seq<string>, needle: string)
    requires Holds(first, needle) && forall j: nat :: j < |rest| ==> !Holds(rest[j], needle)
    ensures forall j: nat :: j < |[first] + rest| ==> (Holds(([first] + rest)[j], needle) <==> j == 0)
  {
    forall j: nat | j < |[first] + rest| ensures Holds(([first] + rest)[j], needle) <==> j == 0 {
      if j > 0 {
        assert ([first] + rest)[j] == rest[j - 1];
      }
    }
  }

  lemma {:induction false} OneHolds(lines: seq<string>, needle: string, l: string) returns (k: nat)
    requires Containing(lines, needle) == [l]
    ensures k < |lines| && lines[k] == l
    ensures forall j: nat :: j < |lines| ==> (Holds(lines[j], needle) <==> j == k)
  {
    ContainingFirst(lines, needle, l);
    assert lines == [lines[0]] + lines[1..];
    if Holds(lines[0], needle) {
      k := 0;
      NoneHolds(lines[1..], needle);
      FirstLineOnly(lines[0], lines[1..], needle);
    } else {
      var m := OneHolds(lines[1..], needle, l);
      k := m + 1;
      OneMoreLine(lines[0], lines[1..], needle, m);
    }
  }

  lemma LineIsOnly(s: string, needle: string, l: string)
    requires needle != "" && LineContaining(s, needle) == Ok(l)
    ensures OnlyLine(s, needle, l)
  {
    var hits := Containing(LinesFrom(s, 0), needle);
    assert hits == [l];
    var k := OneHolds(LinesFrom(s, 0), needle, l);
  }

  /** Each field is declared anew, as a plain pointer. */
  ghost predicate Retyped(src: string, saField: string, sbField: string, u: string, t: string) {
    && OnlyLine(src, "threadgroup* sa_0;", saField) && OnlyLine(src, "threadgroup* sb_0;", sbField)
    && Swapped(src, saField, "    threadgroup half* sa_0;", u)
    && Swapped(u, sbField, "    threadgroup float* sb_0;", t)
  }

  /** The extents that the two fields are declared with. */
  predicate Measured(saField: string, sbField: string, saElems: nat, sbElems: nat) {
    Extent(saField, "array<half, int(") == Ok(saElems) && Extent(sbField, "array<float, int(") == Ok(sbElems)
  }

  lemma FieldsAreRetyped(src: string)
    returns (saField: string, sbField: string, saElems: nat, sbElems: nat, u: string)
    requires RetypeFields(src).Ok?
    ensures Retyped(src, saField, sbField, u, RetypeFields(src).value.0)
    ensures Measured(saField, sbField, saElems, sbElems)
    ensures ScratchOffset(saElems, sbElems) == Ok(RetypeFields(src).value.1)
  {
    saField := LineContaining(src, "threadgroup* sa_0;").value;
    sbField := LineContaining(src, "threadgroup* sb_0;").value;
    saElems := Extent(saField, "array<half, int(").value;
    sbElems := Extent(sbField, "array<float, int(").value;
    LineIsOnly(src, "threadgroup* sa_0;", saField);
    LineIsOnly(src, "threadgroup* sb_0;", sbField);
    u := Swap(src, saField, "    threadgroup half* sa_0;").value;
    SwapSwaps(src, saField, "    threadgroup half* sa_0;", u);
    SwapSwaps(u, sbField, "    threadgroup float* sb_0;", RetypeFields(src).value.0);
  }

  /** The signature takes the allocation, and the two declarations go with their breaks. */
  ghost predicate Parameterised(t: string, sig: string, saDecl: string, sbDecl: string,
                                u: string, v: string, w: string) {
    && OnlyLine(t, "[[kernel]] void gemm_q8_0(", sig) && sig != "" && sig[|sig| - 1] == ')'
    && Swapped(t, sig, sig[..|sig| - 1] + ", threadgroup char* shmem_p_0 [[threadgroup(0)]])", u)
    && OnlyLine(u, "threadgroup array<half, int(", saDecl) && OnlyLine(u, "threadgroup array<float, int(", sbDecl)
    && Swapped(u, saDecl + "\n", "", v) && Swapped(v, sbDecl + "\n", "", w)
  }

  lemma ParameterIsTaken(t: string) returns (sig: string, saDecl: string, sbDecl: string, u: string, v: string)
    requires TakeParameter(t).Ok?
    ensures Parameterised(t, sig, saDecl, sbDecl, u, v, TakeParameter(t).value)
  {
    sig := LineContaining(t, "[[kernel]] void gemm_q8_0(").value;
    var with := sig[..|sig| - 1] + ", threadgroup char* shmem_p_0 [[threadgroup(0)]])";
    u := Swap(t, sig, with).value;
    saDecl := LineContaining(u, "threadgroup array<half, int(").value;
    sbDecl := LineContaining(u, "threadgroup array<float, int(").value;
    v := Swap(u, saDecl + "\n", "").value;
    LineIsOnly(t, "[[kernel]] void gemm_q8_0(", sig);
    LineIsOnly(u, "threadgroup array<half, int(", saDecl);
    LineIsOnly(u, "threadgroup array<float, int(", sbDecl);
    SwapSwaps(t, sig, with, u);
    SwapSwaps(u, saDecl + "\n", "", v);
    SwapSwaps(v, sbDecl + "\n", "", TakeParameter(t).value);
  }

  /** Each field is bound to its slice of the allocation. */
  ghost predicate Bound(t: string, saElems: nat, saBind: string, sbBind: string, u: string, v: string) {
    && OnlyLine(t, "->sa_0 = &sa_1;", saBind) && OnlyLine(t, "->sb_0 = &sb_1;", sbBind)
    && Swapped(t, saBind,
         "    threadgroup half* _sa = (threadgroup half*)(shmem_p_0);" + "\n    (&kernelContext_0)->sa_0 = _sa;", u)
    && Swapped(u, sbBind,
         "    threadgroup float* _sb = " + ("(threadgroup float*)(shmem_p_0 + " + Show(saElems * 2) + ");")
         + "\n    (&kernelContext_0)->sb_0 = _sb;", v)
  }

  lemma SlicesAreBound(t: string, saElems: nat, v: string) returns (saBind: string, sbBind: string, u: string)
    requires BindSlices(t, saElems * 2) == Ok(v)
    ensures Bound(t, saElems, saBind, sbBind, u, v)
  {
    saBind := LineContaining(t, "->sa_0 = &sa_1;").value;
    sbBind := LineContaining(t, "->sb_0 = &sb_1;").value;
    u := Swap(t, saBind, A_BINDING + A_BOUND).value;
    LineIsOnly(t, "->sa_0 = &sa_1;", saBind);
    LineIsOnly(t, "->sb_0 = &sb_1;", sbBind);
    SwapSwaps(t, saBind, A_BINDING + A_BOUND, u);
    SwapSwaps(u, sbBind, BBinding(saElems * 2) + B_BOUND, v);
  }

  lemma MoveParts(src: string) returns (t: string, u: string)
    requires MoveScratch(src).Ok?
    ensures RetypeFields(src).Ok? && TakeParameter(RetypeFields(src).value.0) == Ok(t)
    ensures BindSlices(t, RetypeFields(src).value.1) == Ok(u)
    ensures MoveScratch(src).value == NameSlices(u) && FieldsMoved(NameSlices(u))
  {
    t := TakeParameter(RetypeFields(src).value.0).value;
    u := BindSlices(t, RetypeFields(src).value.1).value;
  }

  /** The move from end to end, as the lines it swaps: both fields are declared anew, the
      kernel takes the allocation and drops its arrays, and each field is bound to its slice,
      the second one right behind the first one's elements. */
  ghost predicate Moved(src: string, saElems: nat, sbElems: nat, v: string) {
    exists saField: string, sbField: string, t0: string, t: string ::
      && Retyped(src, saField, sbField, t0, t) && Measured(saField, sbField, saElems, sbElems)
      && exists w: string :: WithoutArrays(t, w) && BoundTo(w, saElems, v)
  }

  ghost predicate WithoutArrays(t: string, w: string) {
    exists sig: string, saDecl: string, sbDecl: string, u: string, v: string ::
      Parameterised(t, sig, saDecl, sbDecl, u, v, w)
  }

  ghost predicate BoundTo(t: string, saElems: nat, v: string) {
    exists saBind: string, sbBind: string, u: string :: Bound(t, saElems, saBind, sbBind, u, v)
  }

  /** After the move the two slices fill the 8192 bytes; of the old arrays no name is left,
      and of each field just its declaration and its binding. */
  lemma ScratchIsMoved(src: string) returns (saElems: nat, sbElems: nat, v: string, at: nat)
    requires MoveScratch(src).Ok?
    ensures Moved(src, saElems, sbElems, v) && MoveScratch(src).value == NameSlices(v)
    ensures saElems * 2 + sbElems * 4 == 8192 && saElems % 8 == 0
    ensures var t := MoveScratch(src).value;
      && OccursAt(t, "    threadgroup float* _sb = "
                     + ("(threadgroup float*)(shmem_p_0 + " + Show(saElems * 2) + ");"), at)
      && !ContainsWord(t, "sa_1") && !ContainsWord(t, "sb_1")
      && CountWords(t, "sa_0") == 2 && CountWords(t, "sb_0") == 2
  {
    var t: string, saField: string, sbField: string, t0: string;
    t, v := MoveParts(src);
    saField, sbField, saElems, sbElems, t0 := FieldsAreRetyped(src);
    ScratchIsPartitioned(saElems, sbElems);
    var retyped, offset := RetypeFields(src).value.0, RetypeFields(src).value.1;
    assert offset == saElems * 2;
    ArraysAreDropped(retyped, t);
    SlicesBindTo(t, saElems, v);
    MoveIsMoved(src, saField, sbField, saElems, sbElems, t0, retyped, t, v);
    BindingIsPlain(offset);
    var i := BindingIsSwappedIn(t, offset, v);
    at := NamingKeepsPlain(v, BBinding(offset), i);
  }

  lemma ArraysAreDropped(t: string, w: string)
    requires TakeParameter(t) == Ok(w)
    ensures WithoutArrays(t, w)
  {
    var sig, saDecl, sbDecl, u, v := ParameterIsTaken(t);
  }

  lemma SlicesBindTo(t: string, saElems: nat, v: string)
    requires BindSlices(t, saElems * 2) == Ok(v)
    ensures BoundTo(t, saElems, v)
  {
    var saBind, sbBind, u := SlicesAreBound(t, saElems, v);
  }

  lemma MoveIsMoved(src: string, saField: string, sbField: string, saElems: nat, sbElems: nat,
                    t0: string, t: string, w: string, v: string)
    requires Retyped(src, saField, sbField, t0, t) && Measured(saField, sbField, saElems, sbElems)
    requires WithoutArrays(t, w) && BoundTo(w, saElems, v)
    ensures Moved(src, saElems, sbElems, v)
  {
  }

  // ---- the slices by name ----------------------------------------------------------------------

  /** A dereference, with its one star. */
  predicate OneStar(f: string) {
    |f| > 1 && f[1] == '*' && f[0] != '*' && forall i :: 2 <= i < |f| ==> f[i] != '*'
  }

  lemma StarDecides(a: string, f: string, b: string, p: string)
    requires '*' !in a && '*' !in b && OneStar(f) && OneStar(p)
    ensures forall j :: 0 <= j && j != |a| ==> !OccursAt(a + (f + b), p, j)
  {
    var s := a + (f + b);
    forall j | 0 <= j && j != |a| ensures !OccursAt(s, p, j) {
      OccursChars(s, p, j);
      if OccursAt(s, p, j) {
        StarIsAt(a, f, b, j + 1);
      }
    }
  }

  lemma StarIsAt(a: string, f: string, b: string, k: nat)
    requires '*' !in a && '*' !in b && OneStar(f) && k < |a + (f + b)|
    ensures (a + (f + b))[k] == '*' ==> k == |a| + 1
  {
  }

  lemma NoStarNoChange(s: string, p: string, w: string)
    requires '*' !in s && OneStar(p)
    ensures Replace(s, p, w) == s
  {
    forall j | 0 <= j < |s| ensures !OccursAt(s, p, j) {
      OccursChars(s, p, j);
    }
    ReplaceNothing(s, p, w);
  }

  /** The form itself is replaced. */
  lemma FormGoes(a: string, f: string, b: string, w: string)
    requires '*' !in a && '*' !in b && OneStar(f)
    ensures Replace(a + (f + b), f, w) == a + w + b
  {
    StarDecides(a, f, b, f);
    ReplaceFirst(a, b, f, w);
    NoStarNoChange(b, f, w);
  }

  /** Another one, which differs from it at `d`, is not. */
  lemma OtherFormStays(a: string, f: string, b: string, p: string, w: string, d: nat)
    requires '*' !in a && '*' !in b && OneStar(f) && OneStar(p)
    requires d < |f| && d < |p| && f[d] != p[d]
    ensures Replace(a + (f + b), p, w) == a + (f + b)
  {
    var s := a + (f + b);
    StarDecides(a, f, b, p);
    OccursChars(s, p, |a|);
    assert s[|a| + d] == f[d];
    ReplaceNothing(s, p, w);
  }

  const A_WRAPPED: string := "(*(((&kernelContext_0)->sa_0)))"
  const A_BARE: string := "(*(&kernelContext_0)->sa_0)"
  const B_WRAPPED: string := "(*(((&kernelContext_0)->sb_0)))"
  const B_BARE: string := "(*(&kernelContext_0)->sb_0)"

  lemma AFormsHaveOneStar()
    ensures OneStar(A_WRAPPED) && OneStar(A_BARE)
    ensures |A_WRAPPED| == 31 && |A_BARE| == 27
  {
  }

  lemma BFormsHaveOneStar()
    ensures OneStar(B_WRAPPED) && OneStar(B_BARE)
    ensures |B_WRAPPED| == 31 && |B_BARE| == 27
  {
  }

  lemma FormsDiffer()
    ensures A_WRAPPED[3] == B_WRAPPED[3] == '(' && A_BARE[3] == B_BARE[3] == '&'
    ensures A_WRAPPED[25] == 'a' && B_WRAPPED[25] == 'b' && A_BARE[23] == 'a' && B_BARE[23] == 'b'
  {
  }

  lemma NamedAgain(a: string, w: string, b: string, p: string, v: string)
    requires '*' !in a && '*' !in b && '*' !in w && OneStar(p)
    ensures Replace(a + w + b, p, v) == a + w + b
  {
    NoStarNoChange(a + w + b, p, v);
  }

  lemma ASlicesAreNamed(a: string, b: string)
    requires '*' !in a && '*' !in b
    ensures NameSlices(a + (A_WRAPPED + b)) == a + "(_sa)" + b
    ensures NameSlices(a + (A_BARE + b)) == a + "(_sa)" + b
  {
    AFormsHaveOneStar();
    BFormsHaveOneStar();
    FormsDiffer();
    FormGoes(a, A_WRAPPED, b, "(_sa)");
    NamedAgain(a, "(_sa)", b, A_BARE, "(_sa)");
    NamedAgain(a, "(_sa)", b, B_WRAPPED, "(_sb)");
    NamedAgain(a, "(_sa)", b, B_BARE, "(_sb)");
    OtherFormStays(a, A_BARE, b, A_WRAPPED, "(_sa)", 3);
    FormGoes(a, A_BARE, b, "(_sa)");
  }

  lemma BSlicesAreNamed(a: string, b: string)
    requires '*' !in a && '*' !in b
    ensures NameSlices(a + (B_WRAPPED + b)) == a + "(_sb)" + b
    ensures NameSlices(a + (B_BARE + b)) == a + "(_sb)" + b
  {
    AFormsHaveOneStar();
    BFormsHaveOneStar();
    FormsDiffer();
    OtherFormStays(a, B_WRAPPED, b, A_WRAPPED, "(_sa)", 25);
    OtherFormStays(a, B_WRAPPED, b, A_BARE, "(_sa)", 3);
    FormGoes(a, B_WRAPPED, b, "(_sb)");
    NamedAgain(a, "(_sb)", b, B_BARE, "(_sb)");
    OtherFormStays(a, B_BARE, b, A_WRAPPED, "(_sa)", 3);
    OtherFormStays(a, B_BARE, b, A_BARE, "(_sa)", 23);
    OtherFormStays(a, B_BARE, b, B_WRAPPED, "(_sb)", 3);
    FormGoes(a, B_BARE, b, "(_sb)");
  }

  /** Every way in which the shader reads a field becomes the name of that field's slice. */
  lemma SlicesAreNamed(a: string, b: string)
    requires '*' !in a && '*' !in b
    ensures NameSlices(a + ("(*(((&kernelContext_0)->sa_0)))" + b)) == a + "(_sa)" + b
    ensures NameSlices(a + ("(*(&kernelContext_0)->sa_0)" + b)) == a + "(_sa)" + b
    ensures NameSlices(a + ("(*(((&kernelContext_0)->sb_0)))" + b)) == a + "(_sb)" + b
    ensures NameSlices(a + ("(*(&kernelContext_0)->sb_0)" + b)) == a + "(_sb)" + b
  {
    ASlicesAreNamed(a, b);
    BSlicesAreNamed(a, b);
  }
}
