/** What the guards of the pass read in a shader: writes, the trip count, and the tokens
    that it would collide with. */
module MslReadings {
  import opened Wrappers
  import opened Text
  import opened MslScan
  import opened MslText

  /** Every whole-identifier occurrence of the name in a write form. */
  function Writes(span: string, name: string): seq<nat> {
    AllMatches(span, name, WriteAt(span, name), 0)
  }

  /** The counts are right exactly when the span writes each index at two places and each
      step temporary at one. */
  lemma CountsRightIff(span: string)
    ensures CountsRight(span) <==>
      && |Writes(span, "lsma_0")| == 2 && |Writes(span, "lsmb_0")| == 2
      && |Writes(span, "lsma_1")| == 1 && |Writes(span, "lsmb_1")| == 1
  {
    IndexNamesAreWords();
    WriteCountIsExact(span, "lsma_0");
    WriteCountIsExact(span, "lsmb_0");
    WriteCountIsExact(span, "lsma_1");
    WriteCountIsExact(span, "lsmb_1");
  }

  lemma IndexNamesAreWords()
    ensures AllWord("lsma_0") && AllWord("lsmb_0") && AllWord("lsma_1") && AllWord("lsmb_1")
  {
  }

  /** `n` times the letter U. */
  function Us(n: nat): string {
    if n == 0 then "" else Us(n - 1) + "U"
  }

  lemma {:induction false} UsAreDropped(digits: string, n: nat)
    requires AllDigits(digits)
    ensures WithoutTrailing(digits + Us(n), 'U') == digits
    decreases n
  {
    if n == 0 {
      assert digits + "" == digits;
      assert digits != "" ==> IsDigit(digits[|digits| - 1]);
    } else {
      assert (digits + Us(n))[..|digits + Us(n)| - 1] == digits + Us(n - 1);
      UsAreDropped(digits, n - 1);
    }
  }

  /** The trip count is the number that stands between the sole test of the counter and
      the next parenthesis, whatever number of U's are behind it. */
  lemma TripCountReads(loop: string, digits: string, n: nat, i: nat, end: nat)
    requires digits != "" && AllDigits(digits)
    requires IsCapture(loop, "if(ik_0 < ", ")", i, end, digits + Us(n))
    ensures TripCount(loop) == if Decimal(digits) <= U32_MAX then Some(Decimal(digits)) else None
  {
    CaptureIsFound(loop, "if(ik_0 < ", ")", i, end, digits + Us(n));
    UsAreDropped(digits, n);
    assert IsDigit(digits[0]);
  }

  lemma {:induction false} SqueezedAppends(a: string, b: string)
    ensures Squeezed(a + b) == Squeezed(a) + Squeezed(b)
  {
    if a == "" {
      assert a + b == b;
    } else {
      assert (a + b)[1..] == a[1..] + b;
      SqueezedAppends(a[1..], b);
    }
  }

  lemma {:induction false} BlanksSqueeze(blank: string)
    requires AllWhitespace(blank)
    ensures Squeezed(blank) == ""
  {
    if blank != "" {
      BlanksSqueeze(blank[1..]);
    }
  }

  lemma {:induction false} SolidsStay(s: string)
    requires NoBlanks(s)
    ensures Squeezed(s) == s
  {
    if s != "" {
      SolidsStay(s[1..]);
    }
  }

  predicate NoBlanks(s: string) {
    forall i :: 0 <= i < |s| ==> !IsWhitespace(s[i])
  }

  lemma TokenIsSqueezed(one: string, blank: string, two: string)
    requires NoBlanks(one) && NoBlanks(two) && AllWhitespace(blank)
    ensures Squeezed(one + blank + two) == one + two
  {
    SolidsStay(one);
    SolidsStay(two);
    BlanksSqueeze(blank);
    SqueezedAppends(one + blank, two);
    SqueezedAppends(one, blank);
  }

  lemma FoundInside(a: string, token: string, b: string)
    ensures Find(a + (token + b), token, 0).Some?
  {
    assert (a + (token + b))[|a|..|a| + |token|] == token;
    assert OccursAt(a + (token + b), token, |a|);
  }

  /** A token to collide with is found whatever blanks it is cut by. */
  lemma SpacedTokenCollides(x: string, one: string, blank: string, two: string, y: string, k: nat)
    requires k < |COLLISIONS| && one + two == COLLISIONS[k] && AllWhitespace(blank)
    ensures Collides(x + ((one + blank + two) + y))
  {
    var token := COLLISIONS[k];
    CollisionsAreSolid(k);
    assert one == token[..|one|] && two == token[|one|..];
    TokenIsSqueezed(one, blank, two);
    SqueezedAppends(x, (one + blank + two) + y);
    SqueezedAppends(one + blank + two, y);
    FoundInside(Squeezed(x), token, Squeezed(y));
  }

  lemma CollisionsAreSolid(k: nat)
    requires k < |COLLISIONS|
    ensures NoBlanks(COLLISIONS[k])
  {
    assert |COLLISIONS| == 3;
    assert COLLISIONS[0] == "[[threadgroup(" && COLLISIONS[1] == "#pragma" && COLLISIONS[2] == "_Pragma";
  }
}
