/** Index arithmetic as the Metal compiler reads it: an operand chain is flat text,
    and precedence decides how it groups. The pass splices text into such chains.
    `+` and `-` wrap at 32 bits, as on `uint`; what the other operators compute is left
    open, and evaluating an operand changes nothing. */
module MslAddress {
  import opened Wrappers

  datatype Buf = A | B

  /** Identifiers. The first four are the ones the post-pass knows by name:
      `lsmX_0`, `lsmX_1`, `pX_0` and `pX_1` for X in {a, b}. */
  datatype Var = Index(b: Buf) | StepTmp(b: Buf) | Pointer(b: Buf) | PointerTmp(b: Buf) | Named(id: string)

  /** The binary operators, and the conditional one with its middle operand. */
  datatype Op =
    | Mul | Div | Rem | Add | Sub | Shl | Shr | Lt | Gt | Le | Ge | Eq | Ne
    | And | Xor | Or | AndAlso | OrElse | Choice(thn: Chain) | Comma

  /** An operand; `Apply` is a unary operator, a cast or a call. */
  datatype Atom = Lit(n: nat) | Use(x: Var) | Paren(e: Chain) | Apply(f: string, arg: Atom)
  datatype Term = Term(op: Op, atom: Atom)
  datatype Chain = Chain(head: Atom, tail: seq<Term>)

  const PRODUCT: nat := 1
  const SUM: nat := 2

  /** How loosely an operator binds (sections 5.6 to 5.18 of C++14, on which Metal
      builds). */
  function Level(op: Op): nat {
    match op
    case Mul | Div | Rem => PRODUCT
    case Add | Sub => SUM
    case Shl | Shr => 3
    case Lt | Gt | Le | Ge => 4
    case Eq | Ne => 5
    case And => 6
    case Xor => 7
    case Or => 8
    case AndAlso => 9
    case OrElse => 10
    case Choice(_) => 11
    case Comma => 12
  }

  /** Values of the variables, and what operators compute; `binary` is given the value
      of the middle operand between the other two. */
  datatype Env = Env(vars: map<Var, int>, binary: (Op, int, int, int) -> int, unary: (string, int) -> int)

  function Get(env: Env, x: Var): int {
    if x in env.vars then env.vars[x] else 0
  }

  /** An operator with the values of its middle and its right operand. */
  datatype Num = Num(op: Op, mid: int, v: int)

  const WORD: nat := 0x1_0000_0000

  function Word(x: int): nat {
    x % WORD
  }

  function Do(op: Op, x: int, mid: int, y: int, env: Env): int {
    match op
    case Add => Word(x + y)
    case Sub => Word(x - y)
    case _ => env.binary(op, x, mid, y)
  }

  /** Which of the first `n` operators is applied last: the loosest, and of several the
      last, but the first conditional one. */
  function RootOf(t: seq<Num>, n: nat): (r: nat)
    requires 0 < n <= |t|
    ensures r < n
  {
    if n == 1 then 0
    else
      var r, l := RootOf(t, n - 1), Level(t[n - 1].op);
      if l > Level(t[r].op) || (l == Level(t[r].op) && !t[r].op.Choice?) then n - 1 else r
  }

  function Root(t: seq<Num>): (r: nat)
    requires t != []
    ensures r < |t|
  {
    RootOf(t, |t|)
  }

  function Eval(h: int, t: seq<Num>, env: Env): int
    decreases |t|, 1
  {
    if t == [] then h else EvalAt(h, t, Root(t), env)
  }

  function EvalAt(h: int, t: seq<Num>, r: nat, env: Env): int
    requires r < |t|
    decreases |t|, 0
  {
    Do(t[r].op, Eval(h, t[..r], env), t[r].mid, Eval(t[r].v, t[r + 1..], env), env)
  }

  function EvalAtom(a: Atom, env: Env): int
    decreases a
  {
    match a
    case Lit(n) => n
    case Use(x) => Get(env, x)
    case Paren(e) => EvalChain(e, env)
    case Apply(f, arg) => env.unary(f, EvalAtom(arg, env))
  }

  function EvalTerm(t: Term, env: Env): Num
    decreases t
  {
    Num(t.op, if t.op.Choice? then EvalChain(t.op.thn, env) else 0, EvalAtom(t.atom, env))
  }

  function Values(tail: seq<Term>, env: Env): (r: seq<Num>)
    ensures |r| == |tail|
    decreases tail
  {
    if tail == [] then [] else [EvalTerm(tail[0], env)] + Values(tail[1..], env)
  }

  function EvalChain(e: Chain, env: Env): int
    decreases e
  {
    Eval(EvalAtom(e.head, env), Values(e.tail, env), env)
  }

  lemma {:induction false} ValuesKeepOps(tail: seq<Term>, env: Env)
    ensures forall i :: 0 <= i < |tail| ==> Values(tail, env)[i].op == tail[i].op
  {
    if tail != [] {
      ValuesKeepOps(tail[1..], env);
    }
  }

  // ---- grouping ---------------------------------------------------------------

  /** Operator `r` stands at the root: nothing to its left is looser, nothing to its
      right as loose; the other way round for the conditional one. */
  predicate IsRoot(t: seq<Num>, r: nat) {
    && r < |t|
    && (forall j :: 0 <= j < r ==>
          if t[r].op.Choice? then Level(t[j].op) < Level(t[r].op) else Level(t[j].op) <= Level(t[r].op))
    && (forall j :: r < j < |t| ==>
          if t[r].op.Choice? then Level(t[j].op) <= Level(t[r].op) else Level(t[j].op) < Level(t[r].op))
  }

  lemma {:induction false} RootIsRootOf(t: seq<Num>, n: nat)
    requires 0 < n <= |t|
    ensures IsRoot(t[..n], RootOf(t, n))
  {
    if n > 1 {
      RootIsRootOf(t, n - 1);
      assert forall j :: 0 <= j < n - 1 ==> t[..n][j] == t[..n - 1][j];
    }
  }

  lemma RootIsRoot(t: seq<Num>)
    requires t != []
    ensures IsRoot(t, Root(t))
  {
    RootIsRootOf(t, |t|);
    assert t[..|t|] == t;
  }

  /** How a chain groups is determined. */
  lemma RootIsUnique(t: seq<Num>, r: nat)
    requires IsRoot(t, r)
    ensures Root(t) == r
  {
    RootIsRoot(t);
  }

  /** No operator is looser than `level`. */
  predicate NoLooser(t: seq<Num>, level: nat) {
    forall j :: 0 <= j < |t| ==> Level(t[j].op) <= level
  }

  predicate TextNoLooser(t: seq<Term>, level: nat) {
    forall j :: 0 <= j < |t| ==> Level(t[j].op) <= level
  }

  lemma ValuesNoLooser(t: seq<Term>, level: nat, env: Env)
    ensures NoLooser(Values(t, env), level) <==> TextNoLooser(t, level)
  {
    ValuesKeepOps(t, env);
  }

  /** Behind a sum the root stays where it is, unless it binds tighter than the `+`. */
  lemma RootBehindSum(t: seq<Num>, x: Num, s: seq<Num>)
    requires NoLooser(t, SUM) && Level(x.op) == SUM
    ensures var u := t + [x] + s;
      Root(u) == if s != [] && Level(s[Root(s)].op) >= SUM then |t| + 1 + Root(s) else |t|
  {
    var u := t + [x] + s;
    if s != [] {
      RootIsRoot(s);
      if Level(s[Root(s)].op) >= SUM {
        var r := |t| + 1 + Root(s);
        assert forall j :: |t| < j < |u| ==> u[j] == s[j - |t| - 1];
        RootIsUnique(u, r);
      } else {
        assert forall j :: 0 <= j < |s| ==> Level(s[j].op) < SUM;
        RootIsUnique(u, |t|);
      }
    } else {
      RootIsUnique(u, |t|);
    }
  }

  lemma EvalAtRoot(h: int, t: seq<Num>, env: Env, a: seq<Num>, x: Num, b: seq<Num>)
    requires t == a + [x] + b && Root(t) == |a|
    ensures Eval(h, t, env) == Do(x.op, Eval(h, a, env), x.mid, Eval(x.v, b, env), env)
  {
    assert t[..|a|] == a && t[|a|] == x && t[|a| + 1..] == b;
  }

  /** `s` holds an operator that is applied after a `+` in front of it. */
  predicate GoesOn(s: seq<Num>) {
    s != [] && Level(s[Root(s)].op) >= SUM
  }

  /** Then the chain groups as `s` does, with all before as its first operand. */
  lemma EvalBehind(h: int, t: seq<Num>, x: Num, s: seq<Num>, r: nat, env: Env)
    requires NoLooser(t, SUM) && Level(x.op) == SUM && GoesOn(s) && r == Root(s)
    ensures Eval(h, t + [x] + s, env)
         == Do(s[r].op, Eval(h, t + [x] + s[..r], env), s[r].mid, Eval(s[r].v, s[r + 1..], env), env)
  {
    RootBehindSum(t, x, s);
    assert t + [x] + s == (t + [x] + s[..r]) + [s[r]] + s[r + 1..];
    EvalAtRoot(h, t + [x] + s, env, t + [x] + s[..r], s[r], s[r + 1..]);
  }

  /** And otherwise at the `+` itself. */
  lemma EvalFront(h: int, t: seq<Num>, x: Num, s: seq<Num>, env: Env)
    requires NoLooser(t, SUM) && Level(x.op) == SUM && !GoesOn(s)
    ensures Eval(h, t + [x] + s, env) == Do(x.op, Eval(h, t, env), x.mid, Eval(x.v, s, env), env)
  {
    RootBehindSum(t, x, s);
    EvalAtRoot(h, t + [x] + s, env, t, x, s);
  }

  lemma EvalHere(h: int, s: seq<Num>, r: nat, env: Env)
    requires s != [] && r == Root(s)
    ensures Eval(h, s, env) == Do(s[r].op, Eval(h, s[..r], env), s[r].mid, Eval(s[r].v, s[r + 1..], env), env)
  {
  }

  function Plus(v: int): Num {
    Num(Add, 0, v)
  }

  lemma NoLooserPart(s: seq<Num>, level: nat, r: nat)
    requires NoLooser(s, level) && r <= |s|
    ensures NoLooser(s[..r], level)
  {
  }

  lemma WordTwice(a: int, b: int)
    ensures Word(Word(a) + b) == Word(a + b) && Word(b + Word(a)) == Word(b + a) && Word(Word(a) - b) == Word(a - b)
  {
    var q := a / WORD;
    assert a == q * WORD + Word(a);
    WholeWords(Word(a) + b, q);
    WholeWords(Word(a) - b, q);
  }

  lemma WholeWords(x: int, q: int)
    ensures (x + q * WORD) % WORD == x % WORD
  {
  }

  lemma DoAdds(op: Op, l: int, y: int, mid: int, v: int, env: Env)
    requires Level(op) == SUM
    ensures Do(op, Word(l + y), mid, v, env) == Word(l + Do(op, y, mid, v, env))
  {
    if op == Add {
      WordTwice(l + y, v);
      WordTwice(y + v, l);
    } else {
      WordTwice(l + y, v);
      WordTwice(y - v, l);
    }
  }

  /** `l + chain` as text, where no operator of the chain is looser than `+`: the
      prefix is added to the chain's value. */
  lemma {:induction false} PrefixAdds(l: int, h: int, t: seq<Num>, env: Env)
    requires NoLooser(t, SUM)
    ensures Eval(l, [] + [Plus(h)] + t, env) == Word(l + Eval(h, t, env))
    decreases |t|
  {
    if GoesOn(t) {
      var r := Root(t);
      EvalBehind(l, [], Plus(h), t, r, env);
      EvalHere(h, t, r, env);
      RootIsRoot(t);
      NoLooserPart(t, SUM, r);
      PrefixAdds(l, h, t[..r], env);
      DoAdds(t[r].op, l, Eval(h, t[..r], env), t[r].mid, Eval(t[r].v, t[r + 1..], env), env);
    } else {
      EvalFront(l, [], Plus(h), t, env);
    }
  }

  // ---- load addresses ---------------------------------------------------------

  /** Bytes of a tile element: `half` in `_sa`, `float` in `_sb`. */
  function Size(b: Buf): nat {
    if b == A then 2 else 4
  }

  /** The text of a load's first argument around the index. In index form it is
      `lead + (T*)&((_sX)[0]) + (lsmX_0 + offset) suffix`, or `(lsmX_0)` without an
      offset; in pointer form `lead + (T*)pX_0 + (offset) suffix`, or without one
      `lead + (T*)pX_0 suffix`. The cast gives the size of T. */
  datatype Addr = Addr(lead: Option<Chain>, cast: Option<nat>, offset: Option<Chain>, suffix: seq<Term>)

  /** Metal compiles both forms as an address: a pointer takes part in sums only. */
  predicate WellTyped(a: Addr) {
    && (a.lead.Some? ==> TextNoLooser(a.lead.value.tail, SUM))
    && (a.cast.Some? ==> a.cast.value >= 1)
    && TextNoLooser(a.suffix, SUM)
    && (a.offset.None? && a.suffix != [] ==> Level(a.suffix[0].op) == SUM)
  }

  function Stride(b: Buf, a: Addr): nat {
    if a.cast.Some? then a.cast.value else Size(b)
  }

  /** Where the operators end that bind tighter than `+`. */
  function Products(t: seq<Num>): (k: nat)
    ensures k <= |t|
  {
    if t == [] || Level(t[0].op) != PRODUCT then 0 else 1 + Products(t[1..])
  }

  /** What a pointer is moved by, in elements: the sum of the products added to it and
      taken from it, which a pointer does not wrap. */
  function Moves(t: seq<Num>, env: Env): int
    decreases |t|
  {
    if t == [] then 0
    else
      var rest := t[1..];
      var k := Products(rest);
      var v := Eval(t[0].v, rest[..k], env);
      (if t[0].op.Sub? then -v else v) + Moves(rest[k..], env)
  }

  function Elements(lead: Option<Chain>, after: seq<Num>, env: Env): int {
    Ahead(lead, env) + Moves(after, env)
  }

  function Ahead(lead: Option<Chain>, env: Env): int {
    if lead.Some? then EvalChain(lead.value, env) else 0
  }

  /** The parenthesis of the index form. */
  function IndexValue(l: int, offset: Option<Chain>, env: Env): int {
    match offset
    case None => l
    case Some(c) => Eval(l, [] + [Plus(EvalAtom(c.head, env))] + Values(c.tail, env), env)
  }

  function OffsetValue(offset: Option<Chain>, env: Env): int {
    match offset
    case None => 0
    case Some(c) => EvalChain(c, env)
  }

  function IndexElements(l: int, a: Addr, env: Env): int {
    Elements(a.lead, [Plus(IndexValue(l, a.offset, env))] + Values(a.suffix, env), env)
  }

  function PointerElements(a: Addr, env: Env): int {
    var offset := match a.offset case None => [] case Some(c) => [Plus(EvalChain(c, env))];
    Elements(a.lead, offset + Values(a.suffix, env), env)
  }

  /** The address an index-form load reads, for a buffer that starts at `base`. */
  function IndexAddress(b: Buf, base: int, l: int, a: Addr, env: Env): int {
    base + Stride(b, a) * IndexElements(l, a, env)
  }

  /** The address its rewritten form reads through pointer value `p`. */
  function PointerAddress(b: Buf, p: int, a: Addr, env: Env): int {
    p + Stride(b, a) * PointerElements(a, env)
  }

  /** What the operators right behind the parenthesis make of its value. */
  function Scaled(x: int, a: Addr, env: Env): int {
    var s := Values(a.suffix, env);
    Eval(x, s[..Products(s)], env)
  }

  /** What the rest adds. */
  function Behind(a: Addr, env: Env): int {
    var s := Values(a.suffix, env);
    Moves(s[Products(s)..], env)
  }

  /** By how much the index makes the scaled parenthesis larger. */
  function Grown(l: int, a: Addr, env: Env): int {
    Scaled(IndexValue(l, a.offset, env), a, env) - Scaled(OffsetValue(a.offset, env), a, env)
  }

  /** How many bytes the two forms are apart. */
  function Skew(b: Buf, l: int, a: Addr, env: Env): int {
    Stride(b, a) * Grown(l, a, env) - Size(b) * l
  }

  lemma MovesFirst(x: int, s: seq<Num>, env: Env)
    ensures Moves([Plus(x)] + s, env) == Eval(x, s[..Products(s)], env) + Moves(s[Products(s)..], env)
  {
    assert ([Plus(x)] + s)[1..] == s;
  }

  /** What stands after the address in index form, and in pointer form. */
  lemma OffsetElements(x: int, a: Addr, env: Env)
    ensures Elements(a.lead, [Plus(x)] + Values(a.suffix, env), env)
         == Ahead(a.lead, env) + Scaled(x, a, env) + Behind(a, env)
  {
    MovesFirst(x, Values(a.suffix, env), env);
  }

  lemma IndexSplits(l: int, a: Addr, env: Env)
    ensures IndexElements(l, a, env)
         == Ahead(a.lead, env) + Scaled(IndexValue(l, a.offset, env), a, env) + Behind(a, env)
  {
    OffsetElements(IndexValue(l, a.offset, env), a, env);
  }

  lemma PointerSplits(a: Addr, env: Env)
    requires WellTyped(a)
    ensures PointerElements(a, env)
         == Ahead(a.lead, env) + Scaled(OffsetValue(a.offset, env), a, env) + Behind(a, env)
  {
    var s := Values(a.suffix, env);
    match a.offset
    case None =>
      ValuesKeepOps(a.suffix, env);
      assert [] + s == s && Products(s) == 0 && s[..0] == [] && s[0..] == s;
    case Some(c) =>
      OffsetElements(EvalChain(c, env), a, env);
  }

  lemma Distribute(z: int, f: int, g: int)
    ensures z * (f + g) == z * f + z * g
  {
  }

  /** Splicing a load moves it by exactly `Skew`. */
  lemma SpliceMoves(b: Buf, base: int, l: int, a: Addr, env: Env)
    requires WellTyped(a)
    ensures IndexAddress(b, base, l, a, env) == PointerAddress(b, base + Size(b) * l, a, env) + Skew(b, l, a, env)
  {
    var x, y := Scaled(IndexValue(l, a.offset, env), a, env), Scaled(OffsetValue(a.offset, env), a, env);
    assert IndexElements(l, a, env) == PointerElements(a, env) + (x - y) by {
      IndexSplits(l, a, env);
      PointerSplits(a, env);
    }
    Distribute(Stride(b, a), PointerElements(a, env), x - y);
  }

  /** A load reads the same address in both forms exactly when what stands around the
      index lets it move the address by as many bytes as it moves the pointer. */
  lemma SpliceIsSoundIff(b: Buf, base: int, l: int, a: Addr, env: Env)
    requires WellTyped(a)
    ensures IndexAddress(b, base, l, a, env) == PointerAddress(b, base + Size(b) * l, a, env)
       <==> Stride(b, a) * Grown(l, a, env) == Size(b) * l
  {
    SpliceMoves(b, base, l, a, env);
  }

  // ---- the condition on the text --------------------------------------------------

  /** What can be checked in the text: no cast changes the element size, nothing in the
      offset binds looser than `+`, and nothing behind its parenthesis tighter. */
  predicate Spliceable(b: Buf, a: Addr) {
    && (a.cast.Some? ==> a.cast.value == Size(b))
    && (a.offset.Some? ==>
          && TextNoLooser(a.offset.value.tail, SUM)
          && (a.suffix != [] ==> Level(a.suffix[0].op) == SUM))
  }

  /** Index and offset, as `uint`, add up without wrapping. */
  predicate Fits(l: int, a: Addr, env: Env) {
    a.offset.Some? ==> 0 <= l + OffsetValue(a.offset, env) < WORD
  }

  lemma WordIff(x: int)
    ensures Word(x) == x <==> 0 <= x < WORD
  {
  }

  lemma SpliceableGrowth(b: Buf, l: int, a: Addr, env: Env)
    requires WellTyped(a) && Spliceable(b, a)
    ensures Grown(l, a, env)
         == if a.offset.None? then l else Word(l + OffsetValue(a.offset, env)) - OffsetValue(a.offset, env)
  {
    ValuesKeepOps(a.suffix, env);
    var s := Values(a.suffix, env);
    assert Products(s) == 0 && s[..0] == [];
    if a.offset.Some? {
      var c := a.offset.value;
      ValuesNoLooser(c.tail, SUM, env);
      PrefixAdds(l, EvalAtom(c.head, env), Values(c.tail, env), env);
    }
  }

  /** Then a load moves exactly where that sum wraps. */
  lemma SpliceableSkewsIff(b: Buf, l: int, a: Addr, env: Env)
    requires WellTyped(a) && Spliceable(b, a)
    ensures Skew(b, l, a, env) == 0 <==> Fits(l, a, env)
  {
    SpliceableGrowth(b, l, a, env);
    WordIff(l + OffsetValue(a.offset, env));
  }

  /** All names are 0, and so is whatever an operator but `+` and `-` computes. */
  const ZEROS: Env := Env(map[], (op, x, mid, y) => 0, (f, x) => 0)

  /** The offset leaves room for an index: its literals do not add up to all ones. */
  predicate Roomy(a: Addr) {
    a.offset.Some? ==> 0 <= OffsetValue(a.offset, ZEROS) < WORD - 1
  }

  lemma OtherRootIsZero(h: int, t: seq<Num>)
    requires t != [] && Level(t[Root(t)].op) != SUM
    ensures Eval(h, t, ZEROS) == 0
  {
    EvalHere(h, t, Root(t), ZEROS);
  }

  lemma LooseIsZero(l: int, h: int, t: seq<Num>)
    requires !NoLooser(t, SUM)
    ensures Eval(h, t, ZEROS) == 0 && Eval(l, [] + [Plus(h)] + t, ZEROS) == 0
  {
    RootIsRoot(t);
    var r := Root(t);
    OtherRootIsZero(h, t);
    EvalBehind(l, [], Plus(h), t, r, ZEROS);
  }

  lemma ScaledIsZero(x: int, a: Addr)
    requires a.suffix != [] && Level(a.suffix[0].op) == PRODUCT
    ensures Scaled(x, a, ZEROS) == 0
  {
    var s := Values(a.suffix, ZEROS);
    ValuesKeepOps(a.suffix, ZEROS);
    var t := s[..Products(s)];
    ProductsAreProducts(s);
    OtherRootIsZero(x, t);
  }

  lemma {:induction false} ProductsAreProducts(t: seq<Num>)
    ensures forall j :: 0 <= j < Products(t) ==> Level(t[j].op) == PRODUCT
  {
    if t != [] && Level(t[0].op) == PRODUCT {
      ProductsAreProducts(t[1..]);
      assert forall j :: 0 < j < Products(t) ==> t[j] == t[1..][j - 1];
    }
  }

  /** With such operators the index 1 does not move the address as it should. */
  lemma ZerosDiffer(b: Buf, a: Addr)
    requires WellTyped(a) && Roomy(a) && !Spliceable(b, a)
    ensures Fits(1, a, ZEROS) && Stride(b, a) * Grown(1, a, ZEROS) != Size(b)
  {
    if a.offset.Some? && !TextNoLooser(a.offset.value.tail, SUM) {
      var c := a.offset.value;
      ValuesNoLooser(c.tail, SUM, ZEROS);
      LooseIsZero(1, EvalAtom(c.head, ZEROS), Values(c.tail, ZEROS));
    } else if a.offset.Some? && a.suffix != [] && Level(a.suffix[0].op) != SUM {
      ScaledIsZero(IndexValue(1, a.offset, ZEROS), a);
      ScaledIsZero(OffsetValue(a.offset, ZEROS), a);
    } else {
      CastDiffers(b, a);
    }
  }

  lemma CastDiffers(b: Buf, a: Addr)
    requires WellTyped(a) && Roomy(a) && !Spliceable(b, a) && Spliceable(b, a.(cast := None))
    ensures Stride(b, a) * Grown(1, a, ZEROS) != Size(b)
  {
    var plain := a.(cast := None);
    SpliceableGrowth(b, 1, plain, ZEROS);
    WordIff(1 + OffsetValue(a.offset, ZEROS));
    SameGrowth(1, a, plain);
  }

  lemma SameGrowth(l: int, a: Addr, plain: Addr)
    requires plain == a.(cast := None)
    ensures Grown(l, a, ZEROS) == Grown(l, plain, ZEROS)
  {
  }

  /** The condition is exact for the text: it holds just where the two forms agree for
      every buffer, index and value of the names that do not wrap, whatever the other
      operators compute. */
  lemma SpliceableIff(b: Buf, a: Addr)
    requires WellTyped(a) && Roomy(a)
    ensures Spliceable(b, a)
       <==> forall base: int, l: int, env: Env :: Fits(l, a, env) ==>
              IndexAddress(b, base, l, a, env) == PointerAddress(b, base + Size(b) * l, a, env)
  {
    if Spliceable(b, a) {
      forall base: int, l: int, env: Env | Fits(l, a, env)
        ensures IndexAddress(b, base, l, a, env) == PointerAddress(b, base + Size(b) * l, a, env)
      {
        SpliceMoves(b, base, l, a, env);
        SpliceableSkewsIff(b, l, a, env);
      }
    } else {
      ZerosDiffer(b, a);
      SpliceIsSoundIff(b, 0, 1, a, ZEROS);
    }
  }
}
