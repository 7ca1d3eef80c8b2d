/** The post-pass's text edits: the swaps at unique anchors, the scratch layout, the
    pointed loads, and its guards. */
module MslText {
  import opened Wrappers
  import opened Text
  import opened MslScan

  const USIZE_MAX: nat := 0xFFFF_FFFF_FFFF_FFFF
  const U32_MAX: nat := 0xFFFF_FFFF

  // ---- edits at unique anchors --------------------------------------------------------

  /** `str::replace`: the first occurrence goes, then those in the rest. */
  function Replace(s: string, old_: string, with: string): string
    requires old_ != ""
    decreases |s|
  {
    match Find(s, old_, 0)
    case None => s
    case Some(i) => s[..i] + with + Replace(s[i + |old_|..], old_, with)
  }

  /** `pp_swap`. */
  function Swap(s: string, old_: string, with: string): Result<string, string>
    requires old_ != ""
  {
    if |MatchIndices(s, old_, 0)| != 1 then Err("expected 1 occurrence") else Ok(Replace(s, old_, with))
  }

  /** `needle` occurs at `i`, nowhere before and nowhere clear of it after. */
  ghost predicate SoleAt(s: string, needle: string, i: nat) {
    && OccursAt(s, needle, i)
    && (forall j :: 0 <= j < i ==> !OccursAt(s, needle, j))
    && (forall j :: i + |needle| <= j ==> !OccursAt(s, needle, j))
  }

  lemma OneMatchIff(s: string, needle: string)
    requires needle != ""
    ensures |MatchIndices(s, needle, 0)| == 1 <==> exists i: nat :: SoleAt(s, needle, i)
    ensures forall i: nat :: SoleAt(s, needle, i) ==>
      Find(s, needle, 0) == Some(i) && Find(s, needle, i + |needle|) == None
  {
    var m := MatchIndices(s, needle, 0);
    if |m| == 1 {
      var i := Find(s, needle, 0).value;
      assert m == [i] + MatchIndices(s, needle, i + |needle|);
      assert MatchIndices(s, needle, i + |needle|) == [];
      assert SoleAt(s, needle, i);
    }
    if i: nat :| SoleAt(s, needle, i) {
      assert Find(s, needle, 0) == Some(i);
      assert Find(s, needle, i + |needle|) == None;
    }
  }

  lemma SwapAt(s: string, old_: string, with: string, i: nat)
    requires old_ != "" && SoleAt(s, old_, i)
    ensures Swap(s, old_, with) == Ok(s[..i] + with + s[i + |old_|..])
  {
    OneMatchIff(s, old_);
    assert SoleAt(s, old_, i) && Find(s, old_, 0) == Some(i);
    NoneInRest(s, old_, i + |old_|);
    assert Replace(s[i + |old_|..], old_, with) == s[i + |old_|..];
  }

  /** A swap succeeds exactly where its anchor is unique, and touches nothing else. */
  lemma SwapIsLocal(s: string, old_: string, with: string)
    requires old_ != ""
    ensures Swap(s, old_, with).Ok? <==> exists i: nat :: SoleAt(s, old_, i)
    ensures forall i: nat :: SoleAt(s, old_, i) ==> Swap(s, old_, with) == Ok(s[..i] + with + s[i + |old_|..])
  {
    OneMatchIff(s, old_);
    forall i: nat | SoleAt(s, old_, i) ensures Swap(s, old_, with) == Ok(s[..i] + with + s[i + |old_|..]) {
      SwapAt(s, old_, with, i);
    }
  }

  lemma NoneInRest(s: string, needle: string, k: nat)
    requires k <= |s| && forall j :: k <= j ==> !OccursAt(s, needle, j)
    ensures Find(s[k..], needle, 0) == None
  {
    forall j | 0 <= j ensures !OccursAt(s[k..], needle, j) {
      if j + |needle| <= |s[k..]| {
        assert s[k..][j..j + |needle|] == s[k + j..k + j + |needle|];
        assert !OccursAt(s, needle, k + j);
      }
    }
  }

  /** `pp_between`. */
  function Between(s: string, open: string, close: string): Result<string, string>
    requires open != ""
  {
    if |MatchIndices(s, open, 0)| != 1 then Err("expected 1 occurrence")
    else
      var from := Find(s, open, 0).value + |open|;
      match Find(s, close, from)
      case None => Err("unterminated")
      case Some(end) => Ok(s[from..end])
  }

  /** `text` runs from the sole opener at `i` to the first closer after it, at `end`. */
  ghost predicate IsCapture(s: string, open: string, close: string, i: nat, end: nat, text: string) {
    && SoleAt(s, open, i)
    && i + |open| <= end && OccursAt(s, close, end)
    && (forall j :: i + |open| <= j < end ==> !OccursAt(s, close, j))
    && text == s[i + |open|..end]
  }

  lemma CaptureIsFound(s: string, open: string, close: string, i: nat, end: nat, text: string)
    requires open != "" && IsCapture(s, open, close, i, end, text)
    ensures Between(s, open, close) == Ok(text)
  {
    OneMatchIff(s, open);
    assert SoleAt(s, open, i);
    assert Find(s, close, i + |open|) == Some(end);
  }

  lemma FoundIsCapture(s: string, open: string, close: string)
    requires open != "" && Between(s, open, close).Ok?
    ensures exists i: nat, end: nat :: IsCapture(s, open, close, i, end, Between(s, open, close).value)
  {
    OneMatchIff(s, open);
    var i := Find(s, open, 0).value;
    var end := Find(s, close, i + |open|).value;
    assert IsCapture(s, open, close, i, end, s[i + |open|..end]);
  }

  /** The capture is the text from the sole opener to the first closer after it. */
  lemma BetweenIsExact(s: string, open: string, close: string, text: string)
    requires open != ""
    ensures Between(s, open, close) == Ok(text) <==> exists i: nat, end: nat :: IsCapture(s, open, close, i, end, text)
  {
    if Between(s, open, close) == Ok(text) {
      FoundIsCapture(s, open, close);
    }
    if i: nat, end: nat :| IsCapture(s, open, close, i, end, text) {
      CaptureIsFound(s, open, close, i, end, text);
    }
  }

  // ---- numbers ---------------------------------------------------------------------------

  predicate IsDigit(c: char) {
    '0' <= c <= '9'
  }

  predicate AllDigits(s: string) {
    forall i :: 0 <= i < |s| ==> IsDigit(s[i])
  }

  function Decimal(s: string): nat
    requires AllDigits(s)
  {
    if s == "" then 0 else Decimal(s[..|s| - 1]) * 10 + (s[|s| - 1] as int - '0' as int)
  }

  /** `str::parse` for an unsigned type: digits after an optional plus sign. */
  function ParseUnsigned(s: string, max: nat): Option<nat> {
    var digits := if s != "" && s[0] == '+' then s[1..] else s;
    if digits == "" || !AllDigits(digits) || Decimal(digits) > max then None else Some(Decimal(digits))
  }

  /** `pp_check_step`. */
  predicate CheckStep(expr: string) {
    var digits := if EndsWith(expr, "U") then expr[..|expr| - 1] else expr;
    digits != "" && AllDigits(digits)
  }

  /** A step is accepted exactly when it is an integer literal with at most one `U`. */
  lemma StepIsLiteralIff(expr: string)
    ensures CheckStep(expr) <==> exists d: string :: d != "" && AllDigits(d) && (expr == d || expr == d + "U")
  {
    if CheckStep(expr) {
      var d := if EndsWith(expr, "U") then expr[..|expr| - 1] else expr;
      assert EndsWith(expr, "U") ==> expr == d + "U";
    }
    if d: string :| d != "" && AllDigits(d) && (expr == d || expr == d + "U") {
      if expr == d {
        assert expr[|expr| - 1..] == [expr[|expr| - 1]] && IsDigit(expr[|expr| - 1]);
      } else {
        assert expr[|expr| - 1..] == "U" && expr[..|expr| - 1] == d;
      }
    }
  }

  // ---- the scratch allocation ------------------------------------------------------------------

  const SCRATCH_BYTES: nat := 8192
  const SCRATCH_ALIGN: nat := 16
  const HALF_BYTES: nat := 2
  const FLOAT_BYTES: nat := 4

  function CheckedMul(a: nat, b: nat): Option<nat> {
    if a * b > USIZE_MAX then None else Some(a * b)
  }

  function CheckedAdd(a: nat, b: nat): Option<nat> {
    if a + b > USIZE_MAX then None else Some(a + b)
  }

  /** The byte offset of `_sb`, from the two declared extents. */
  function ScratchOffset(saElems: nat, sbElems: nat): Result<nat, string> {
    match (CheckedMul(saElems, HALF_BYTES), CheckedMul(sbElems, FLOAT_BYTES))
    case (Some(sa), Some(sb)) =>
      var total := CheckedAdd(sa, sb);
      if total.None? then Err("scratch extents overflow a usize")
      else if total.value != SCRATCH_BYTES then Err("scratch is not what callers bind")
      else if sa % SCRATCH_ALIGN != 0 then Err("sb would be misaligned")
      else Ok(sa)
    case (_, _) => Err("scratch extents overflow a usize")
  }

  /** An accepted layout cuts exactly the 8192 bound bytes into the two arrays, the
      second one aligned; every pair of extents that does so is accepted. */
  lemma ScratchIsPartitioned(saElems: nat, sbElems: nat)
    ensures ScratchOffset(saElems, sbElems).Ok? <==>
      saElems * HALF_BYTES + sbElems * FLOAT_BYTES == SCRATCH_BYTES && saElems % 8 == 0
    ensures ScratchOffset(saElems, sbElems).Ok? ==>
      var sb := ScratchOffset(saElems, sbElems).value;
      sb % SCRATCH_ALIGN == 0 && sb == saElems * HALF_BYTES && SCRATCH_BYTES - sb == sbElems * FLOAT_BYTES
  {
    EightHalves(saElems);
  }

  lemma EightHalves(n: nat)
    ensures n * HALF_BYTES % SCRATCH_ALIGN == 0 <==> n % 8 == 0
  {
    var q, r := n / 8, n % 8;
    assert n * 2 == 16 * q + 2 * r;
  }

  // ---- the pass ----------------------------------------------------------------------------------

  const MARKER: string := "// cera:msl-postpass=v1"
  const INTRODUCED: seq<string> := ["shmem_p_0", "_sa", "_sb", "pa_0", "pa_1", "pb_0", "pb_1"]
  const COLLISIONS: seq<string> := ["[[threadgroup(", "#pragma", "_Pragma"]
  const MAX_UNROLL: nat := 8
  const INDEX_WRITES: nat := 2
  const STEP_WRITES: nat := 1

  function LineEnd(s: string, from: nat): (i: nat)
    requires from <= |s|
    ensures from <= i <= |s|
    ensures forall j :: from <= j < i ==> s[j] != '\n'
    ensures i < |s| ==> s[i] == '\n'
    decreases |s| - from
  {
    if from == |s| || s[from] == '\n' then from else LineEnd(s, from + 1)
  }

  /** `str::lines` from an offset on: a CR belongs to the terminator only before an LF,
      and nothing follows a final terminator. */
  function LinesFrom(s: string, from: nat): seq<string>
    requires from <= |s|
    decreases |s| - from
  {
    if from == |s| then []
    else
      var end := LineEnd(s, from);
      if end == |s| then [s[from..]]
      else
        var line := if from < end && s[end - 1] == '\r' then s[from..end - 1] else s[from..end];
        [line] + LinesFrom(s, end + 1)
  }

  function FirstLine(s: string): Option<string> {
    var lines := LinesFrom(s, 0);
    if lines == [] then None else Some(lines[0])
  }

  lemma FirstLineOf(line: string, rest: string)
    requires line != "" && '\n' !in line && line[|line| - 1] != '\r'
    ensures FirstLine(line + "\n" + rest) == Some(line)
  {
    var s := line + "\n" + rest;
    assert s[|line|] == '\n' && forall j :: 0 <= j < |line| ==> s[j] == line[j];
    assert LineEnd(s, 0) == |line| && s[..|line|] == line;
  }

  lemma MarkerIsOneLine()
    ensures MARKER != "" && '\n' !in MARKER && MARKER[|MARKER| - 1] != '\r'
  {
  }

  predicate Marked(s: string) {
    FirstLine(s) == Some(MARKER)
  }

  function Squeezed(s: string): string {
    if s == "" then "" else (if IsWhitespace(s[0]) then "" else [s[0]]) + Squeezed(s[1..])
  }

  predicate Collides(src: string) {
    exists k :: 0 <= k < |COLLISIONS| && Find(Squeezed(src), COLLISIONS[k], 0).Some?
  }

  predicate AlreadyNamed(src: string) {
    exists k :: 0 <= k < |INTRODUCED| && ContainsWord(src, INTRODUCED[k])
  }

  // ---- condition 1: the scratch parameter ------------------------------------------------------

  function Containing(lines: seq<string>, needle: string): (r: seq<string>)
    ensures needle != "" ==> forall k :: 0 <= k < |r| ==> r[k] != ""
  {
    if lines == [] then []
    else
      var rest := Containing(lines[1..], needle);
      if Find(lines[0], needle, 0).Some? then [lines[0]] + rest else rest
  }

  /** `pp_line_containing`. */
  function LineContaining(s: string, needle: string): (r: Result<string, string>)
    requires needle != ""
    ensures r.Ok? ==> r.value != ""
  {
    var hits := Containing(LinesFrom(s, 0), needle);
    if |hits| == 1 then Ok(hits[0]) else Err("expected exactly 1 line")
  }

  function Extent(field: string, open: string): Result<nat, string>
    requires open != ""
  {
    var text :- Between(field, open, ")>");
    match ParseUnsigned(text, USIZE_MAX)
    case Some(n) => Ok(n)
    case None => Err("unparsable extent")
  }

  function Show(n: nat): string {
    if n < 10 then [('0' as int + n) as char] else Show(n / 10) + Show(n % 10)
  }

  /** What is shown is the number in decimal. */
  lemma {:induction false} ShowIsDecimal(n: nat)
    ensures Show(n) != "" && AllDigits(Show(n)) && Decimal(Show(n)) == n
  {
    if n < 10 {
      assert Show(n)[..0] == "";
    } else {
      ShowIsDecimal(n / 10);
      ShowIsDecimal(n % 10);
      var s, last := Show(n), Show(n % 10);
      assert last == [('0' as int + n % 10) as char];
      assert s[..|s| - 1] == Show(n / 10) && s[|s| - 1] == last[0];
    }
  }

  /** The two context fields become plain pointers; the result says where the second
      array will start. */
  function RetypeFields(src: string): Result<(string, nat), string> {
    var saField :- LineContaining(src, "threadgroup* sa_0;");
    var sbField :- LineContaining(src, "threadgroup* sb_0;");
    var saElems :- Extent(saField, "array<half, int(");
    var sbElems :- Extent(sbField, "array<float, int(");
    var offset :- ScratchOffset(saElems, sbElems);
    var t :- Swap(src, saField, "    threadgroup half* sa_0;");
    var u :- Swap(t, sbField, "    threadgroup float* sb_0;");
    Ok((u, offset))
  }

  /** The kernel takes the allocation as a parameter and its own arrays go. */
  function TakeParameter(t: string): Result<string, string> {
    var sig :- LineContaining(t, "[[kernel]] void gemm_q8_0(");
    if sig[|sig| - 1] != ')' then Err("kernel signature does not end in a parenthesis")
    else
      var u :- Swap(t, sig, sig[..|sig| - 1] + ", threadgroup char* shmem_p_0 [[threadgroup(0)]])");
      var saDecl :- LineContaining(u, "threadgroup array<half, int(");
      var sbDecl :- LineContaining(u, "threadgroup array<float, int(");
      var v :- Swap(u, saDecl + "\n", "");
      Swap(v, sbDecl + "\n", "")
  }

  const A_BINDING: string := "    threadgroup half* _sa = (threadgroup half*)(shmem_p_0);"

  function BBinding(offset: nat): string {
    "    threadgroup float* _sb = " + ("(threadgroup float*)(shmem_p_0 + " + Show(offset) + ");")
  }

  const A_BOUND: string := "\n    (&kernelContext_0)->sa_0 = _sa;"
  const B_BOUND: string := "\n    (&kernelContext_0)->sb_0 = _sb;"

  /** The fields are bound to slices of the allocation. */
  function BindSlices(t: string, offset: nat): Result<string, string> {
    var saBind :- LineContaining(t, "->sa_0 = &sa_1;");
    var sbBind :- LineContaining(t, "->sb_0 = &sb_1;");
    var u :- Swap(t, saBind, A_BINDING + A_BOUND);
    Swap(u, sbBind, BBinding(offset) + B_BOUND)
  }

  function NameSlices(t: string): string {
    Replace(Replace(Replace(Replace(t,
      "(*(((&kernelContext_0)->sa_0)))", "(_sa)"),
      "(*(&kernelContext_0)->sa_0)", "(_sa)"),
      "(*(((&kernelContext_0)->sb_0)))", "(_sb)"),
      "(*(&kernelContext_0)->sb_0)", "(_sb)")
  }

  /** Only each field's declaration and binding are left, and no array. */
  predicate FieldsMoved(t: string) {
    && CountWords(t, "sa_0") == 2 && CountWords(t, "sb_0") == 2
    && !ContainsWord(t, "sa_1") && !ContainsWord(t, "sb_1")
  }

  function MoveScratch(src: string): Result<string, string> {
    var retyped :- RetypeFields(src);
    var t :- TakeParameter(retyped.0);
    var u :- BindSlices(t, retyped.1);
    if FieldsMoved(NameSlices(u)) then Ok(NameSlices(u)) else Err("a scratch field or array is still in use")
  }

  // ---- condition 2: the pointer lines ------------------------------------------------------------

  /** The swap that keeps its anchor and puts more text behind it. */
  function InsertAfter(t: string, anchor: string, extra: string): Result<string, string>
    requires anchor != ""
  {
    Swap(t, anchor, anchor + extra)
  }

  function DeclarePointers(t: string): Result<string, string> {
    InsertAfter(t, "    uint lsma_0;\n", "    threadgroup const half* pa_0;\n    threadgroup const float* pb_0;\n")
  }

  /** Below the seed of an index. */
  function PlaceSeed(t: string, open: string, extra: string): Result<string, string>
    requires open != ""
  {
    var seed :- Between(t, open, ";");
    InsertAfter(t, open + seed + ";", extra)
  }

  /** Below the step of an index, by the same literal. */
  function PlaceStep(t: string, open: string, extra: string): Result<string, string>
    requires open != ""
  {
    var step :- Between(t, open, ";");
    if CheckStep(step) then InsertAfter(t, open + step + ";", extra + step + ");")
    else Err("k-loop index step is not a plain integer literal")
  }

  // The lines of the walk, as the tile loop and the k-loop indent them.
  const TILE: string := "        "
  const INNER: string := "            "
  const A_SEED: string := TILE + "lsma_0 = "
  const B_SEED: string := TILE + "uint lsmb_0 = "
  const A_STEP: string := INNER + "uint lsma_1 = lsma_0 + "
  const B_STEP: string := INNER + "uint lsmb_1 = lsmb_0 + "
  const A_COMMIT: string := INNER + "lsma_0 = lsma_1;"
  const B_COMMIT: string := INNER + "lsmb_0 = lsmb_1;"
  const A_WALK_SEED: string := TILE + "pa_0 = _sa + lsma_0;"
  const B_WALK_SEED: string := TILE + "pb_0 = _sb + lsmb_0;"
  const A_WALK_STEP: string := INNER + "threadgroup const half* " + "pa_1 = pa_0 + ("
  const B_WALK_STEP: string := INNER + "threadgroup const float* " + "pb_1 = pb_0 + ("
  const A_WALK_COMMIT: string := INNER + "pa_0 = pa_1;"
  const B_WALK_COMMIT: string := INNER + "pb_0 = pb_1;"

  function PlaceSeeds(t: string): Result<string, string> {
    var u :- PlaceSeed(t, "\n" + A_SEED, "\n" + A_WALK_SEED);
    PlaceSeed(u, "\n" + B_SEED, "\n" + B_WALK_SEED)
  }

  function PlaceSteps(t: string): Result<string, string> {
    var u :- PlaceStep(t, "\n" + A_STEP, "\n" + A_WALK_STEP);
    PlaceStep(u, "\n" + B_STEP, "\n" + B_WALK_STEP)
  }

  function PlaceCommits(t: string): Result<string, string> {
    var u :- InsertAfter(t, "\n" + A_COMMIT, "\n" + A_WALK_COMMIT);
    InsertAfter(u, "\n" + B_COMMIT, "\n" + B_WALK_COMMIT)
  }

  /** Seeds, steps and commits. */
  function PlacePointers(t: string): Result<string, string> {
    var seeded :- PlaceSeeds(t);
    var stepped :- PlaceSteps(seeded);
    PlaceCommits(stepped)
  }

  function PointerLines(t: string): Result<string, string> {
    var declared :- DeclarePointers(t);
    PlacePointers(declared)
  }

  /** One run of characters was put into `a`, and nothing else changed. */
  ghost predicate Inserts(a: string, b: string) {
    exists k: nat, extra: string :: k <= |a| && b == a[..k] + extra + a[k..]
  }

  /** `n` such insertions. */
  ghost predicate InsertsTimes(a: string, b: string, n: nat)
    decreases n
  {
    if n == 0 then a == b else exists m: string :: Inserts(a, m) && InsertsTimes(m, b, n - 1)
  }

  lemma {:induction false} InsertsChain(a: string, b: string, c: string, m: nat, n: nat)
    requires InsertsTimes(a, b, m) && InsertsTimes(b, c, n)
    ensures InsertsTimes(a, c, m + n)
    decreases m
  {
    if m > 0 {
      var x: string :| Inserts(a, x) && InsertsTimes(x, b, m - 1);
      InsertsChain(x, b, c, m - 1, n);
    }
  }

  lemma InsertsOnce(a: string, b: string)
    requires Inserts(a, b)
    ensures InsertsTimes(a, b, 1)
  {
    assert InsertsTimes(b, b, 0);
  }

  lemma InsertedBehind(t: string, anchor: string, extra: string, i: nat, u: string)
    requires OccursAt(t, anchor, i) && u == t[..i] + (anchor + extra) + t[i + |anchor|..]
    ensures Inserts(t, u)
  {
    var k := i + |anchor|;
    assert t[..i] + anchor == t[..k];
    assert u == t[..k] + extra + t[k..];
  }

  lemma InsertAfterInserts(t: string, anchor: string, extra: string)
    requires anchor != "" && InsertAfter(t, anchor, extra).Ok?
    ensures InsertsTimes(t, InsertAfter(t, anchor, extra).value, 1)
  {
    OneMatchIff(t, anchor);
    var i: nat :| SoleAt(t, anchor, i);
    SwapAt(t, anchor, anchor + extra, i);
    var u := InsertAfter(t, anchor, extra).value;
    InsertedBehind(t, anchor, extra, i, u);
    InsertsOnce(t, u);
  }

  lemma SeedInserts(t: string, open: string, extra: string)
    requires open != "" && PlaceSeed(t, open, extra).Ok?
    ensures InsertsTimes(t, PlaceSeed(t, open, extra).value, 1)
  {
    InsertAfterInserts(t, open + Between(t, open, ";").value + ";", extra);
  }

  lemma StepInserts(t: string, open: string, extra: string)
    requires open != "" && PlaceStep(t, open, extra).Ok?
    ensures InsertsTimes(t, PlaceStep(t, open, extra).value, 1)
  {
    var step := Between(t, open, ";").value;
    InsertAfterInserts(t, open + step + ";", extra + step + ");");
  }

  lemma SeedsInsert(t: string)
    requires PlaceSeeds(t).Ok?
    ensures InsertsTimes(t, PlaceSeeds(t).value, 2)
  {
    var u := PlaceSeed(t, "\n" + A_SEED, "\n" + A_WALK_SEED).value;
    SeedInserts(t, "\n" + A_SEED, "\n" + A_WALK_SEED);
    SeedInserts(u, "\n" + B_SEED, "\n" + B_WALK_SEED);
    InsertsChain(t, u, PlaceSeeds(t).value, 1, 1);
  }

  lemma StepsInsert(t: string)
    requires PlaceSteps(t).Ok?
    ensures InsertsTimes(t, PlaceSteps(t).value, 2)
  {
    var u := PlaceStep(t, "\n" + A_STEP, "\n" + A_WALK_STEP).value;
    StepInserts(t, "\n" + A_STEP, "\n" + A_WALK_STEP);
    StepInserts(u, "\n" + B_STEP, "\n" + B_WALK_STEP);
    InsertsChain(t, u, PlaceSteps(t).value, 1, 1);
  }

  lemma CommitsInsert(t: string)
    requires PlaceCommits(t).Ok?
    ensures InsertsTimes(t, PlaceCommits(t).value, 2)
  {
    var u := InsertAfter(t, "\n" + A_COMMIT, "\n" + A_WALK_COMMIT).value;
    InsertAfterInserts(t, "\n" + A_COMMIT, "\n" + A_WALK_COMMIT);
    InsertAfterInserts(u, "\n" + B_COMMIT, "\n" + B_WALK_COMMIT);
    InsertsChain(t, u, PlaceCommits(t).value, 1, 1);
  }

  /** The two pointers are declared right below the sole declaration of the first index. */
  lemma PointersAreDeclared(t: string, u: string)
    ensures DeclarePointers(t) == Ok(u) <==>
      exists i: nat ::
        && SoleAt(t, "    uint lsma_0;\n", i)
        && u == t[..i]
             + ("    uint lsma_0;\n" + ("    threadgroup const half* pa_0;\n" + "    threadgroup const float* pb_0;\n"))
             + t[i + |"    uint lsma_0;\n"|..]
  {
    var anchor, lines := "    uint lsma_0;\n",
      "    threadgroup const half* pa_0;\n" + "    threadgroup const float* pb_0;\n";
    assert lines == "    threadgroup const half* pa_0;\n    threadgroup const float* pb_0;\n";
    SwapIsLocal(t, anchor, anchor + lines);
  }

  /** The pointer lines are seven insertions: no character of the shader goes or
      changes. */
  lemma PointerLinesOnlyInsert(t: string)
    requires PointerLines(t).Ok?
    ensures InsertsTimes(t, PointerLines(t).value, 7)
  {
    var declared := DeclarePointers(t).value;
    var seeded := PlaceSeeds(declared).value;
    var stepped := PlaceSteps(seeded).value;
    InsertAfterInserts(t, "    uint lsma_0;\n",
                       "    threadgroup const half* pa_0;\n    threadgroup const float* pb_0;\n");
    SeedsInsert(declared);
    StepsInsert(seeded);
    CommitsInsert(stepped);
    InsertsChain(t, declared, seeded, 1, 2);
    InsertsChain(t, seeded, stepped, 3, 2);
    InsertsChain(t, stepped, PointerLines(t).value, 5, 2);
  }

  /** Both parts of the splicing. */
  function Splice(src: string): Result<string, string> {
    var moved :- MoveScratch(src);
    PointerLines(moved)
  }

  /** The load rewrite, on the text of the k-loop. */
  function PointLoads(body: string): string {
    Replace(Replace(Replace(Replace(body,
      "&((_sa)[0]) + (lsma_0)", "pa_0"),
      "&((_sa)[0]) + (lsma_0 + ", "pa_0 + ("),
      "&((_sb)[0]) + (lsmb_0)", "pb_0"),
      "&((_sb)[0]) + (lsmb_0 + ", "pb_0 + (")
  }

  predicate NamesScratch(body: string) {
    ContainsWord(body, "_sa") || ContainsWord(body, "_sb")
  }

  predicate Stale(t: string) {
    Find(t, "(_sa)[0]) + (lsma", 0).Some? || Find(t, "(_sb)[0]) + (lsmb", 0).Some?
  }

  predicate CountsRight(span: string) {
    && WriteCount(span, "lsma_0") == INDEX_WRITES
    && WriteCount(span, "lsmb_0") == INDEX_WRITES
    && WriteCount(span, "lsma_1") == STEP_WRITES
    && WriteCount(span, "lsmb_1") == STEP_WRITES
  }

  function WithoutTrailing(s: string, c: char): string {
    if s != "" && s[|s| - 1] == c then WithoutTrailing(s[..|s| - 1], c) else s
  }

  function TripCount(loop: string): Option<nat> {
    match Between(loop, "if(ik_0 < ", ")")
    case Err(_) => None
    case Ok(trip) => ParseUnsigned(WithoutTrailing(trip, 'U'), U32_MAX)
  }

  /** The loads of `t` were pointed at the walk, giving `u`: the only change is in the
      block of t's k-loop, and every load in it now reads a pointer. */
  ghost predicate LoadsPointed(t: string, h: Header, end: nat, u: string) {
    && h.lineAt <= h.forAt <= end <= |t|
    && IsHeader(t, h) && BlockFrom(t, h.forAt, end)
    && LoadsUsePointers(PointLoads(t[h.forAt..end])) && !NamesScratch(PointLoads(t[h.forAt..end]))
    && u == t[..h.forAt] + PointLoads(t[h.forAt..end]) + t[end..]
    && !Stale(u)
  }

  /** The k-loop of `u` may be unrolled: from the seed to the end of the block each
      index is written twice and each step temporary once, and it has a header and a
      trip count to unroll by. */
  ghost predicate Unrollable(u: string, h: Header, end: nat, n: nat) {
    && h.seedAt <= h.lineAt <= h.forAt <= end <= |u|
    && IsHeader(u, h) && BlockFrom(u, h.forAt, end)
    && CountsRight(u[h.seedAt..end])
    && TripCount(u[h.forAt..end]) == Some(n) && 1 <= n <= MAX_UNROLL
  }

  /** What the last part of the pass found: the k-loop before and after the loads
      were pointed, and the trip count. */
  datatype Finish = Finish(before: Header, beforeEnd: nat, pointed: string, after: Header, afterEnd: nat, trips: nat)

  /** A text has one k-loop at most. */
  lemma KLoopIsUnique(t: string, h: Header, end: nat, g: Header, stop: nat)
    requires IsHeader(t, h) && BlockFrom(t, h.forAt, end) && IsHeader(t, g) && BlockFrom(t, g.forAt, stop)
    ensures h == g && end == stop
  {
    HeaderIsFound(t, h);
    HeaderIsFound(t, g);
    BlockIsUnique(t, Find(t, "{", h.forAt).value, end, stop);
  }

  /** Condition 2's load rewrite and its post-conditions: it declines only a text
      whose loads cannot be pointed. */
  method PointTheLoads(t: string) returns (r: Result<(Header, nat, string), string>)
    ensures r.Ok? ==> LoadsPointed(t, r.value.0, r.value.1, r.value.2)
    ensures r.Err? ==> forall h: Header, end: nat, u: string :: !LoadsPointed(t, h, end, u)
  {
    var found :- LocateKLoop(t);
    var (h, end) := found;
    forall g: Header, stop: nat, v: string | LoadsPointed(t, g, stop, v) ensures g == h && stop == end {
      KLoopIsUnique(t, h, end, g, stop);
    }
    var body := PointLoads(t[h.forAt..end]);
    var checked :- CheckLoadsUsePointers(body);
    if NamesScratch(body) {
      return Err("the k-loop body still addresses the scratch directly");
    }
    var u := t[..h.forAt] + body + t[end..];
    if Stale(u) {
      return Err("a matrix load still uses the index form");
    }
    return Ok((h, end, u));
  }

  /** Condition 3's checks: they decline only a loop that is not unrollable. */
  method MeasureLoop(u: string) returns (r: Result<(Header, nat, nat), string>)
    ensures r.Ok? ==> Unrollable(u, r.value.0, r.value.1, r.value.2)
    ensures r.Err? ==> forall h: Header, end: nat, n: nat :: !Unrollable(u, h, end, n)
  {
    var found :- LocateKLoop(u);
    var (h, end) := found;
    forall g: Header, stop: nat, n: nat | Unrollable(u, g, stop, n) ensures g == h && stop == end {
      KLoopIsUnique(u, h, end, g, stop);
    }
    if !CountsRight(u[h.seedAt..end]) {
      return Err("the pointer walk would no longer track the index");
    }
    var n := TripCount(u[h.forAt..end]);
    if n.None? || n.value == 0 || n.value > MAX_UNROLL {
      return Err("refusing to unroll");
    }
    return Ok((h, end, n.value));
  }

  ghost predicate Finishes(t: string, f: Finish) {
    LoadsPointed(t, f.before, f.beforeEnd, f.pointed) && Unrollable(f.pointed, f.after, f.afterEnd, f.trips)
  }

  /** From the spliced pointer lines to the end of the pass: it succeeds exactly on
      the texts that can be finished. */
  method FinishPass(t: string) returns (r: Result<Finish, string>)
    ensures r.Ok? ==> Finishes(t, r.value)
    ensures r.Err? ==> forall f: Finish :: !Finishes(t, f)
  {
    var first :- PointTheLoads(t);
    forall f: Finish | Finishes(t, f) ensures f.pointed == first.2 {
      KLoopIsUnique(t, f.before, f.beforeEnd, first.0, first.1);
    }
    var second :- MeasureLoop(first.2);
    return Ok(Finish(first.0, first.1, first.2, second.0, second.1, second.2));
  }

  /** The checks on entry: names of ours and tokens the pass would collide with. */
  method Preflight(src: string) returns (clear: bool)
    ensures clear <==> !AlreadyNamed(src) && !Collides(src)
  {
    for k := 0 to |INTRODUCED|
      invariant forall j :: 0 <= j < k ==> !ContainsWord(src, INTRODUCED[j])
    {
      if ContainsWord(src, INTRODUCED[k]) {
        return false;
      }
    }
    var squeezed := Squeezed(src);
    for k := 0 to |COLLISIONS|
      invariant forall j :: 0 <= j < k ==> Find(squeezed, COLLISIONS[j], 0).None?
    {
      if Find(squeezed, COLLISIONS[k], 0).Some? {
        return false;
      }
    }
    return true;
  }
}
