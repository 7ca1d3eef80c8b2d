/** The prompt's line editor: a UTF-8 buffer with a byte cursor, refining a zipper of
    characters. */
module LineEditor {
  import opened Text
  import opened Utf8

  datatype Key =
    | Char(c: char, control: bool)
    | Enter(shift: bool, alt: bool)
    | Backspace | Delete | Left | Right | Home | End | Esc
    | Other

  datatype Outcome = Continue | Exit | Submit(line: string)

  // ---- String's own operations, with the conditions under which they panic --------------

  /** `String::insert`. */
  function Insert(b: seq<Byte>, at: nat, c: char): seq<Byte>
    requires at <= |b| && IsCharBoundary(b, at)
  {
    b[..at] + EncodeChar(c) + b[at..]
  }

  /** What `String::drain` leaves. */
  function Drain(b: seq<Byte>, from: nat, end: nat): seq<Byte>
    requires from <= end <= |b| && IsCharBoundary(b, from) && IsCharBoundary(b, end)
  {
    b[..from] + b[end..]
  }

  /** `prev_char_boundary`: the closest boundary to the left, or 0. */
  method PrevCharBoundary(b: seq<Byte>, at: nat) returns (i: nat)
    requires at <= |b|
    ensures at > 0 ==> i < at
    ensures IsCharBoundary(b, i)
    ensures forall j :: i < j < at ==> !IsCharBoundary(b, j)
  {
    i := if at == 0 then 0 else at - 1;
    while i > 0 && !IsCharBoundary(b, i)
      invariant at > 0 ==> i < at
      invariant at == 0 ==> i == 0
      invariant forall j :: i < j < at ==> !IsCharBoundary(b, j)
    {
      i := i - 1;
    }
  }

  /** `next_char_boundary`: the closest boundary to the right; past the end it just
      counts on. */
  method NextCharBoundary(b: seq<Byte>, at: nat) returns (i: nat)
    ensures at < i
    ensures at < |b| ==> i <= |b| && IsCharBoundary(b, i)
    ensures at >= |b| ==> i == at + 1
    ensures forall j :: at < j < i ==> !IsCharBoundary(b, j)
  {
    i := at + 1;
    while i < |b| && !IsCharBoundary(b, i)
      invariant at < i
      invariant at < |b| ==> i <= |b|
      invariant at >= |b| ==> i == at + 1
      invariant forall j :: at < j < i ==> !IsCharBoundary(b, j)
    {
      i := i + 1;
    }
  }

  // ---- the abstract editor ----------------------------------------------------------------

  /** The text left and right of the cursor. */
  datatype Zipper = Zipper(before: string, after: string)

  predicate Blank(s: string) {
    AllWhitespace(s)
  }

  /** One key on the zipper. */
  function Edited(z: Zipper, k: Key): Zipper {
    match k
    case Char(c, control) => if control then z else Zipper(z.before + [c], z.after)
    case Enter(shift, alt) => if shift || alt then Zipper(z.before + ['\n'], z.after) else Zipper("", "")
    case Backspace => if z.before == "" then z else Zipper(z.before[..|z.before| - 1], z.after)
    case Delete => if z.after == "" then z else Zipper(z.before, z.after[1..])
    case Left =>
      if z.before == "" then z
      else Zipper(z.before[..|z.before| - 1], [z.before[|z.before| - 1]] + z.after)
    case Right => if z.after == "" then z else Zipper(z.before + [z.after[0]], z.after[1..])
    case Home => Zipper("", z.before + z.after)
    case End => Zipper(z.before + z.after, "")
    case Esc => Zipper("", "")
    case Other => z
  }

  /** What the key asks of the caller: only Esc on an empty prompt leaves, only a
      bare Enter on a line that is not blank submits, and it submits all of it. */
  function Asked(z: Zipper, k: Key): Outcome {
    match k
    case Esc => if z.before + z.after == "" then Exit else Continue
    case Enter(shift, alt) =>
      if shift || alt || Blank(z.before + z.after) then Continue else Submit(z.before + z.after)
    case _ => Continue
  }

  function Keys(z: Zipper, ks: seq<Key>): Zipper
    decreases |ks|
  {
    if ks == [] then z else Keys(Edited(z, ks[0]), ks[1..])
  }

  // ---- byte positions ----------------------------------------------------------------------

  /** Bytes `p` to `q` are one character: boundaries at both ends, none between. */
  predicate OneChar(b: seq<Byte>, p: nat, q: nat) {
    && p < q <= |b| && IsCharBoundary(b, p) && IsCharBoundary(b, q)
    && forall j :: p < j < q ==> !IsCharBoundary(b, j)
  }

  lemma CharBetween(x: seq<Byte>, c: char, y: seq<Byte>)
    requires y != [] ==> !IsContinuation(y[0])
    ensures OneChar(x + EncodeChar(c) + y, |x|, |x| + CharLen(c))
  {
    var e := EncodeChar(c);
    var b := x + e + y;
    forall j | |x| < j < |x| + |e| ensures !IsCharBoundary(b, j) {
      assert b[j] == e[j - |x|];
    }
    assert b[|x|] == e[0];
    assert y != [] ==> b[|x| + |e|] == y[0];
  }

  lemma EncodesToHead(t: string)
    ensures Encode(t) != [] ==> !IsContinuation(Encode(t)[0])
  {
    if t != "" {
      assert Encode(t)[0] == EncodeChar(t[0])[0];
    }
  }

  /** Around the character `c` of a text. */
  lemma CharOf(s: string, c: char, t: string)
    ensures Encode(s + [c] + t) == Encode(s) + EncodeChar(c) + Encode(t)
    ensures Encode(s + [c]) == Encode(s) + EncodeChar(c)
    ensures OneChar(Encode(s + [c] + t), |Encode(s)|, |Encode(s + [c])|)
  {
    EncodeAppends(s + [c], t);
    EncodeAppends(s, [c]);
    EncodeOne(c);
    EncodesToHead(t);
    CharBetween(Encode(s), c, Encode(t));
  }

  /** The only boundary in a stretch that holds none but its ends. */
  lemma SameBoundary(b: seq<Byte>, lo: nat, i: nat, j: nat, hi: nat)
    requires lo <= i < hi && lo <= j < hi
    requires IsCharBoundary(b, i) && IsCharBoundary(b, j)
    requires (forall k :: i < k < hi ==> !IsCharBoundary(b, k)) && (forall k :: j < k < hi ==> !IsCharBoundary(b, k))
    ensures i == j
  {
  }

  lemma LastOff(s: string, t: string)
    requires s != ""
    ensures var rest, c := s[..|s| - 1], s[|s| - 1];
      s == rest + [c] && rest + [c] + t == s + t && rest + ([c] + t) == s + t
  {
  }

  /** The closest boundary to the right of a character's start is its end. */
  lemma NextIsEnd(b: seq<Byte>, p: nat, next: nat, q: nat)
    requires OneChar(b, p, q) && p < next <= |b| && IsCharBoundary(b, next)
    requires forall j :: p < j < next ==> !IsCharBoundary(b, j)
    ensures next == q
  {
  }

  class Editor {
    var input: seq<Byte>
    var cursor: nat
    ghost var view: Zipper

    /** The buffer is the text as UTF-8 and the cursor the byte where the part
        before it ends. */
    ghost predicate Valid()
      reads this
    {
      && input == Encode(view.before + view.after)
      && cursor == |Encode(view.before)|
    }

    constructor ()
      ensures Valid() && view == Zipper("", "")
    {
      input := [];
      cursor := 0;
      view := Zipper("", "");
    }

    lemma CursorFacts()
      requires Valid()
      ensures cursor <= |input| && IsCharBoundary(input, cursor)
      ensures input[..cursor] == Encode(view.before) && input[cursor..] == Encode(view.after)
      ensures cursor == 0 <==> view.before == ""
      ensures cursor == |input| <==> view.after == ""
    {
      EncodeAppends(view.before, view.after);
      var s := view.before + view.after;
      assert s[..|view.before|] == view.before && s[|view.before|..] == view.after;
      PrefixEndIsBoundary(s, |view.before|);
    }

    method InsertChar(c: char)
      requires Valid()
      modifies this
      ensures Valid() && view == Zipper(old(view.before) + [c], old(view.after))
    {
      CursorFacts();
      input := Insert(input, cursor, c);
      cursor := cursor + CharLen(c);
      ghost var before := view.before + [c];
      EncodeAppends(view.before, [c]);
      EncodeOne(c);
      EncodeAppends(before, view.after);
      view := Zipper(before, view.after);
    }

    /** Left of the cursor: the last character before it. */
    lemma BackFacts()
      requires Valid() && cursor > 0
      ensures view.before != ""
      ensures var rest := view.before[..|view.before| - 1];
        && OneChar(input, |Encode(rest)|, cursor)
        && input[..|Encode(rest)|] == Encode(rest) && input[cursor..] == Encode(view.after)
        && rest + ([view.before[|view.before| - 1]] + view.after) == view.before + view.after
    {
      CursorFacts();
      var rest, c := view.before[..|view.before| - 1], view.before[|view.before| - 1];
      LastOff(view.before, view.after);
      CharOf(rest, c, view.after);
    }

    /** Right of the cursor: the first character after it. */
    lemma ForwardFacts()
      requires Valid() && cursor < |input|
      ensures view.after != ""
      ensures var c, rest := view.after[0], view.after[1..];
        && OneChar(input, cursor, |Encode(view.before + [c])|)
        && input[..cursor] == Encode(view.before) && input[|Encode(view.before + [c])|..] == Encode(rest)
        && view.before + [c] + rest == view.before + view.after
    {
      CursorFacts();
      var c, rest := view.after[0], view.after[1..];
      assert view.before + [c] + rest == view.before + view.after;
      CharOf(view.before, c, rest);
    }

    method DeleteBack()
      requires Valid() && cursor > 0
      modifies this
      ensures Valid() && view == Edited(old(view), Backspace)
    {
      CursorFacts();
      BackFacts();
      var prev := PrevCharBoundary(input, cursor);
      ghost var before := view.before[..|view.before| - 1];
      SameBoundary(input, 0, prev, |Encode(before)|, cursor);
      input := Drain(input, prev, cursor);
      cursor := prev;
      EncodeAppends(before, view.after);
      view := Zipper(before, view.after);
    }

    method DeleteForward()
      requires Valid() && cursor < |input|
      modifies this
      ensures Valid() && view == Edited(old(view), Delete)
    {
      CursorFacts();
      ForwardFacts();
      var next := NextCharBoundary(input, cursor);
      NextIsEnd(input, cursor, next, |Encode(view.before + [view.after[0]])|);
      input := Drain(input, cursor, next);
      EncodeAppends(view.before, view.after[1..]);
      view := Zipper(view.before, view.after[1..]);
    }

    method MoveLeft()
      requires Valid() && cursor > 0
      modifies this
      ensures Valid() && view == Edited(old(view), Left)
    {
      BackFacts();
      var prev := PrevCharBoundary(input, cursor);
      SameBoundary(input, 0, prev, |Encode(view.before[..|view.before| - 1])|, cursor);
      cursor := prev;
      view := Edited(view, Left);
    }

    method MoveRight()
      requires Valid() && cursor < |input|
      modifies this
      ensures Valid() && view == Edited(old(view), Right)
    {
      ForwardFacts();
      var next := NextCharBoundary(input, cursor);
      NextIsEnd(input, cursor, next, |Encode(view.before + [view.after[0]])|);
      cursor := next;
      view := Edited(view, Right);
    }

    method Jump(toEnd: bool)
      requires Valid()
      modifies this
      ensures Valid() && view == Edited(old(view), if toEnd then End else Home)
    {
      ghost var text := view.before + view.after;
      assert "" + text == text && text + "" == text;
      cursor := if toEnd then |input| else 0;
      view := if toEnd then Zipper(text, "") else Zipper("", text);
    }

    method Clear()
      modifies this
      ensures Valid() && view == Zipper("", "") && input == []
    {
      input, cursor, view := [], 0, Zipper("", "");
    }

    /** The keys that only edit or move. */
    method Edit(k: Key)
      requires Valid() && !k.Esc? && !k.Enter?
      modifies this
      ensures Valid() && view == Edited(old(view), k)
    {
      CursorFacts();
      match k {
        case Backspace =>
          if cursor > 0 {
            DeleteBack();
          }
        case Delete =>
          if cursor < |input| {
            DeleteForward();
          }
        case Left =>
          if cursor > 0 {
            MoveLeft();
          }
        case Right =>
          if cursor < |input| {
            MoveRight();
          }
        case Home => Jump(false);
        case End => Jump(true);
        case Char(c, control) =>
          if !control {
            InsertChar(c);
          }
        case Other =>
      }
    }

    /** The editing half of `handle_key`. */
    method HandleKey(k: Key) returns (r: Outcome)
      requires Valid()
      modifies this
      ensures Valid()
      ensures view == Edited(old(view), k)
      ensures r == Asked(old(view), k)
    {
      CursorFacts();
      r := Continue;
      match k {
        case Esc =>
          if input == [] {
            r := Exit;
          }
          Clear();
        case Enter(shift, alt) =>
          if shift || alt {
            InsertChar('\n');
            return;
          }
          DecodeEncode(view.before + view.after);
          var line := Utf8.Decode(input).value;
          Clear();
          if !Blank(line) {
            r := Submit(line);
          }
        case _ =>
          Edit(k);
      }
    }
  }

  // ---- what keys do together -----------------------------------------------------------------

  function Typed(s: string): seq<Key> {
    if s == "" then [] else [Char(s[0], false)] + Typed(s[1..])
  }

  function Times(k: Key, n: nat): seq<Key> {
    if n == 0 then [] else [k] + Times(k, n - 1)
  }

  lemma KeysFirst(z: Zipper, k: Key, ks: seq<Key>)
    ensures Keys(z, [k] + ks) == Keys(Edited(z, k), ks)
  {
    assert ([k] + ks)[1..] == ks;
  }

  /** Typing a text puts it left of the cursor. */
  lemma {:induction false} TypingInserts(z: Zipper, s: string)
    ensures Keys(z, Typed(s)) == Zipper(z.before + s, z.after)
    decreases |s|
  {
    if s == "" {
      assert z.before + s == z.before;
    } else {
      KeysFirst(z, Char(s[0], false), Typed(s[1..]));
      TypingInserts(Edited(z, Char(s[0], false)), s[1..]);
      assert z.before + [s[0]] + s[1..] == z.before + s;
    }
  }

  /** Keys that type and move nothing. */
  predicate Idle(ks: seq<Key>) {
    forall i :: 0 <= i < |ks| ==> ks[i].Other? || (ks[i].Char? && ks[i].control)
  }

  /** Control characters and other keys in between do not show in what is typed. */
  lemma {:induction false} IdleKeysAreIgnored(z: Zipper, ks: seq<Key>, s: string)
    requires Idle(ks)
    ensures Keys(z, ks + Typed(s)) == Zipper(z.before + s, z.after)
    decreases |ks|
  {
    if ks == [] {
      assert [] + Typed(s) == Typed(s);
      TypingInserts(z, s);
    } else {
      assert ks + Typed(s) == [ks[0]] + (ks[1..] + Typed(s));
      KeysFirst(z, ks[0], ks[1..] + Typed(s));
      IdleKeysAreIgnored(z, ks[1..], s);
    }
  }

  /** As many Backspaces take it away again. */
  lemma {:induction false} BackspacesUndoTyping(z: Zipper, s: string)
    ensures Keys(Keys(z, Typed(s)), Times(Backspace, |s|)) == z
  {
    TypingInserts(z, s);
    BackspacesRemove(z, s);
  }

  lemma {:induction false} BackspacesRemove(z: Zipper, s: string)
    ensures Keys(Zipper(z.before + s, z.after), Times(Backspace, |s|)) == z
    decreases |s|
  {
    var now := Zipper(z.before + s, z.after);
    if s == "" {
      assert z.before + s == z.before;
    } else {
      KeysFirst(now, Backspace, Times(Backspace, |s| - 1));
      assert (z.before + s)[..|z.before + s| - 1] == z.before + s[..|s| - 1];
      BackspacesRemove(z, s[..|s| - 1]);
    }
  }

  lemma CutTwice(b: string, k: nat, t: string)
    requires k < |b|
    ensures b[..|b| - 1][..k] == b[..k]
    ensures b[..|b| - 1][k..] + ([b[|b| - 1]] + t) == b[k..] + t
  {
  }

  /** `n` steps left, where there are that many characters. */
  lemma {:induction false} LeftsMove(z: Zipper, n: nat)
    requires n <= |z.before|
    ensures var k := |z.before| - n;
      Keys(z, Times(Left, n)) == Zipper(z.before[..k], z.before[k..] + z.after)
    decreases n
  {
    var b := z.before;
    if n == 0 {
      assert b[..|b|] == b && b[|b|..] + z.after == z.after;
    } else {
      KeysFirst(z, Left, Times(Left, n - 1));
      var k := |b| - n;
      LeftsMove(Edited(z, Left), n - 1);
      CutTwice(b, k, z.after);
    }
  }

  lemma {:induction false} RightsMove(z: Zipper, n: nat)
    requires n <= |z.after|
    ensures Keys(z, Times(Right, n)) == Zipper(z.before + z.after[..n], z.after[n..])
    decreases n
  {
    if n == 0 {
      assert z.before + z.after[..0] == z.before && z.after[0..] == z.after;
    } else {
      KeysFirst(z, Right, Times(Right, n - 1));
      RightsMove(Edited(z, Right), n - 1);
      assert z.before + [z.after[0]] + z.after[1..][..n - 1] == z.before + z.after[..n];
      assert z.after[1..][n - 1..] == z.after[n..];
    }
  }

  lemma Parts(a: string, b: string)
    ensures (a + b)[..|a|] == a && (a + b)[|a|..] == b
  {
  }

  lemma RightsOver(a: string, b: string, t: string)
    ensures Keys(Zipper(a, b + t), Times(Right, |b|)) == Zipper(a + b, t)
  {
    RightsMove(Zipper(a, b + t), |b|);
    Parts(b, t);
  }

  lemma LeftsOver(a: string, b: string, t: string)
    ensures Keys(Zipper(a + b, t), Times(Left, |b|)) == Zipper(a, b + t)
  {
    LeftsMove(Zipper(a + b, t), |b|);
    Parts(a, b);
  }

  lemma MeetAt(a: string, b: string, t: string)
    ensures Keys(Keys(Zipper(a + b, t), Times(Left, |b|)), Times(Right, |b|)) == Zipper(a + b, t)
  {
    LeftsOver(a, b, t);
    RightsOver(a, b, t);
  }

  lemma LeftRightMeet(z: Zipper, n: nat)
    requires n <= |z.before|
    ensures Keys(Keys(z, Times(Left, n)), Times(Right, n)) == z
  {
    var k := |z.before| - n;
    var a, b := z.before[..k], z.before[k..];
    assert z == Zipper(a + b, z.after);
    MeetAt(a, b, z.after);
  }

  lemma LeftRightMiss(z: Zipper, n: nat)
    requires |z.before| < n <= |z.before + z.after|
    ensures Keys(Keys(z, Times(Left, n)), Times(Right, n)) != z
  {
    LeftsStop(z, n);
    RightsMove(Zipper("", z.before + z.after), n);
    assert |"" + (z.before + z.after)[..n]| == n;
  }

  /** Steps left and the same number right meet again exactly when the left end did
      not stop them. */
  lemma LeftRightUndoIff(z: Zipper, n: nat)
    requires n <= |z.before + z.after|
    ensures Keys(Keys(z, Times(Left, n)), Times(Right, n)) == z <==> n <= |z.before|
  {
    if n <= |z.before| {
      LeftRightMeet(z, n);
    } else {
      LeftRightMiss(z, n);
    }
  }

  lemma {:induction false} LeftsStop(z: Zipper, n: nat)
    requires n >= |z.before|
    ensures Keys(z, Times(Left, n)) == Zipper("", z.before + z.after)
    decreases n
  {
    if n > 0 {
      KeysFirst(z, Left, Times(Left, n - 1));
      LeftsStop(Edited(z, Left), n - 1);
      if z.before != "" {
        assert Edited(z, Left).before + Edited(z, Left).after == z.before + z.after;
      }
    } else {
      assert z.before + z.after == z.after;
    }
  }

  /** Home and End are as many steps as there are characters on that side. */
  lemma HomeEndAreSteps(z: Zipper)
    ensures Keys(z, Times(Left, |z.before|)) == Edited(z, Home)
    ensures Keys(z, Times(Right, |z.after|)) == Edited(z, End)
  {
    LeftsStop(z, |z.before|);
    RightsMove(z, |z.after|);
    assert z.after[..|z.after|] == z.after;
  }

  /** Wherever the cursor was moved to, a bare Enter submits the text that was typed and
      empties the prompt, unless the text is blank; Esc empties it, and leaves only from
      an empty one. */
  lemma SubmitsWhatWasTyped(s: string, n: nat)
    ensures var z := Keys(Keys(Zipper("", ""), Typed(s)), Times(Left, n));
      && Asked(z, Enter(false, false)) == (if AllWhitespace(s) then Continue else Submit(s))
      && Edited(z, Enter(false, false)) == Zipper("", "")
      && Asked(z, Esc) == (if s == "" then Exit else Continue)
      && Edited(z, Esc) == Zipper("", "")
  {
    TypingInserts(Zipper("", ""), s);
    assert "" + s == s;
    var z := Zipper(s, "");
    assert s + "" == s;
    if n <= |s| {
      LeftsMove(z, n);
      assert s[..|s| - n] + (s[|s| - n..] + "") == s;
    } else {
      LeftsStop(z, n);
      assert "" + (s + "") == s;
    }
  }

  /** Delete is a step right and a Backspace, and a newline is typed like any other
      character. */
  lemma DeleteIsRightBackspace(z: Zipper)
    requires z.after != ""
    ensures Edited(z, Delete) == Edited(Edited(z, Right), Backspace)
    ensures forall shift, alt :: shift || alt ==> Edited(z, Enter(shift, alt)) == Edited(z, Char('\n', false))
  {
    Parts(z.before, [z.after[0]]);
  }
}
