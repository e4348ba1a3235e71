/**
 Bytes and words as numbers, with the exclusive-or the C code applies to them
 defined on their binary digits.
 */
module Bits {

  type byte = x: int | 0 <= x < 256

  function Pow2(k: nat): (p: nat)
    ensures p > 0
  {
    if k == 0 then 1 else 2 * Pow2(k - 1)
  }

  /** Digit by digit: the sum of each pair of digits without carry. */
  function Xor(a: nat, b: nat): (x: nat)
  {
    if a == 0 && b == 0 then 0 else (a % 2 + b % 2) % 2 + 2 * Xor(a / 2, b / 2)
  }

  lemma DigitAndRest(d: nat, r: nat)
    requires d < 2
    ensures (d + 2 * r) % 2 == d && (d + 2 * r) / 2 == r
  {
  }

  lemma {:induction false} XorDigits(a: nat, b: nat)
    ensures Xor(a, b) % 2 == (a % 2 + b % 2) % 2
    ensures Xor(a, b) / 2 == Xor(a / 2, b / 2)
  {
    if a == 0 && b == 0 {
      assert Xor(0, 0) == 0;
    } else {
      DigitAndRest((a % 2 + b % 2) % 2, Xor(a / 2, b / 2));
    }
  }

  lemma {:induction false} XorComm(a: nat, b: nat)
    ensures Xor(a, b) == Xor(b, a)
  {
    if a != 0 || b != 0 {
      XorComm(a / 2, b / 2);
    }
  }

  lemma {:induction false} XorZero(a: nat)
    ensures Xor(a, 0) == a && Xor(0, a) == a
  {
    if a != 0 {
      XorZero(a / 2);
    }
  }

  lemma {:induction false} XorSelf(a: nat)
    ensures Xor(a, a) == 0
  {
    if a != 0 {
      XorSelf(a / 2);
    }
  }

  /** `f` works digit by digit, at `a` and `b`. */
  ghost predicate Digitwise(f: (nat, nat) -> nat, a: nat, b: nat)
  {
    f(a, b) % 2 == (a % 2 + b % 2) % 2 && f(a, b) / 2 == f(a / 2, b / 2)
  }

  /** Whatever works digit by digit, and gives nothing for nothing, is associative. */
  lemma {:induction false} AssocOf(f: (nat, nat) -> nat, a: nat, b: nat, c: nat)
    requires f(0, 0) == 0 && forall x: nat, y: nat :: Digitwise(f, x, y)
    ensures f(f(a, b), c) == f(a, f(b, c))
    decreases a + b + c
  {
    if a + b + c > 0 {
      AssocOf(f, a / 2, b / 2, c / 2);
      assert Digitwise(f, a, b) && Digitwise(f, b, c) && Digitwise(f, f(a, b), c) && Digitwise(f, a, f(b, c));
      SumOfThree(a, b, c, f(a, b), f(b, c), f(f(a, b), c), f(a, f(b, c)));
    }
  }

  /** Two ways of adding three last digits. */
  lemma SumOfThree(a: nat, b: nat, c: nat, x: nat, y: nat, l: nat, r: nat)
    requires x % 2 == (a % 2 + b % 2) % 2 && y % 2 == (b % 2 + c % 2) % 2
    requires l % 2 == (x % 2 + c % 2) % 2 && r % 2 == (a % 2 + y % 2) % 2 && l / 2 == r / 2
    ensures l == r
  {
    DigitsAssoc(a % 2, b % 2, c % 2);
    SameDigits(l, r);
  }

  lemma SameDigits(l: nat, r: nat)
    requires l / 2 == r / 2 && l % 2 == r % 2
    ensures l == r
  {
  }

  /** Exclusive-or as a value, for the lemmas about any such sum. */
  function Xors(): (f: (nat, nat) -> nat)
  {
    (a: nat, b: nat) => Xor(a, b)
  }

  lemma XorAssoc(a: nat, b: nat, c: nat)
    ensures Xor(Xor(a, b), c) == Xor(a, Xor(b, c))
  {
    var f := Xors();
    forall x: nat, y: nat
      ensures Digitwise(f, x, y)
    {
      XorDigits(x, y);
    }
    AssocOf(f, a, b, c);
  }

  lemma DigitsAssoc(a: nat, b: nat, c: nat)
    requires a < 2 && b < 2 && c < 2
    ensures ((a + b) % 2 + c) % 2 == (a + (b + c) % 2) % 2
  {
  }

  // ---------------------------------------------------------------------
  // Any sum without carry
  // ---------------------------------------------------------------------

  ghost predicate Assoc(f: (nat, nat) -> nat, x: nat, y: nat, z: nat)
  {
    f(f(x, y), z) == f(x, f(y, z))
  }

  ghost predicate Comm(f: (nat, nat) -> nat, x: nat, y: nat)
  {
    f(x, y) == f(y, x)
  }

  ghost predicate OwnInverse(f: (nat, nat) -> nat, x: nat)
  {
    f(x, x) == 0 && f(x, 0) == x && f(0, x) == x
  }

  /** What the register proofs use of exclusive-or, each fact to be asked for by name. */
  ghost predicate Sums(f: (nat, nat) -> nat)
  {
    && (forall x: nat, y: nat :: Digitwise(f, x, y)) && (forall x: nat, y: nat, z: nat :: Assoc(f, x, y, z))
    && (forall x: nat, y: nat :: Comm(f, x, y)) && (forall x: nat :: OwnInverse(f, x))
  }

  lemma XorSums()
    ensures Sums(Xors())
  {
    var f := Xors();
    forall x: nat, y: nat ensures Digitwise(f, x, y) { XorDigits(x, y); }
    forall x: nat, y: nat, z: nat ensures Assoc(f, x, y, z) { XorAssoc(x, y, z); }
    forall x: nat, y: nat ensures Comm(f, x, y) { XorComm(x, y); }
    forall x: nat ensures OwnInverse(f, x) {
      XorSelf(x);
      XorZero(x);
    }
  }

  lemma AsideOf(f: (nat, nat) -> nat, x: nat, p: nat, y: nat)
    requires Sums(f)
    ensures f(f(x, p), y) == f(f(x, y), p)
  {
    assert Assoc(f, x, p, y) && Comm(f, p, y) && Assoc(f, x, y, p);
  }

  lemma SwapOf(f: (nat, nat) -> nat, a: nat, b: nat, c: nat, d: nat)
    requires Sums(f)
    ensures f(f(a, b), f(c, d)) == f(f(a, c), f(b, d))
  {
    AsideOf(f, a, b, f(c, d));
    assert Assoc(f, a, c, d) && Assoc(f, f(a, c), d, b) && Comm(f, d, b);
  }

  lemma TwiceOf(f: (nat, nat) -> nat, x: nat, y: nat, p: nat)
    requires Sums(f)
    ensures f(f(x, p), f(y, p)) == f(x, y) && f(f(x, p), p) == x
  {
    SwapOf(f, x, p, y, p);
    assert OwnInverse(f, p) && OwnInverse(f, f(x, y)) && OwnInverse(f, x) && Assoc(f, x, p, p);
  }

  /** Two sums of two, regrouped. */
  lemma XorSwap(a: nat, b: nat, c: nat, d: nat)
    ensures Xor(Xor(a, b), Xor(c, d)) == Xor(Xor(a, c), Xor(b, d))
  {
    XorSums();
    SwapOf(Xors(), a, b, c, d);
  }

  /** Adding the same word twice takes it away again. */
  lemma XorCancel(a: nat, p: nat)
    ensures Xor(Xor(a, p), p) == a
  {
    XorSums();
    TwiceOf(Xors(), a, a, p);
  }

  lemma {:induction false} XorBound(a: nat, b: nat, k: nat)
    requires a < Pow2(k) && b < Pow2(k)
    ensures Xor(a, b) < Pow2(k)
    decreases k
  {
    if k > 0 {
      XorBound(a / 2, b / 2, k - 1);
    }
  }
}
