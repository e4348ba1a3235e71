/**
 The register of the CRC as arithmetic, and the check value that goes with its start, its
 polynomial and its bit order.
 */
module CrcValue {
  import opened Bits
  import opened Crc

  lemma Digits(f: (nat, nat) -> nat, a: nat, b: nat)
    requires Digitwise(f, a, b)
    ensures f(a, b) == (a % 2 + b % 2) % 2 + 2 * f(a / 2, b / 2)
  {
  }

  /** Four zero digits below `q` leave the digits of `x` there as they are. */
  lemma Above(f: (nat, nat) -> nat, x: nat, q: nat)
    requires forall a: nat, b: nat :: Digitwise(f, a, b)
    ensures f(x, 16 * q) == x + 16 * (f(x / 16, q) - x / 16)
  {
    Even(f, x, 8 * q);
    Even(f, x / 2, 4 * q);
    Even(f, x / 4, 2 * q);
    Even(f, x / 8, q);
    assert x / 2 / 2 == x / 4 && x / 4 / 2 == x / 8 && x / 8 / 2 == x / 16;
  }

  lemma Even(f: (nat, nat) -> nat, x: nat, q: nat)
    requires forall a: nat, b: nat :: Digitwise(f, a, b)
    ensures f(x, 2 * q) - x == 2 * (f(x / 2, q) - x / 2)
  {
    assert Digitwise(f, x, 2 * q);
    assert 2 * q / 2 == q;
    Digits(f, x, 2 * q);
  }

  lemma Five(f: (nat, nat) -> nat, x: nat)
    requires (forall a: nat, b: nat :: Digitwise(f, a, b)) && forall a: nat :: OwnInverse(f, a)
    ensures f(x, 5) == x + 5 - 2 * (x % 2) - 8 * (x / 4 % 2)
  {
    assert Digitwise(f, x, 5) && Digitwise(f, x / 4, 1) && OwnInverse(f, x / 8);
    Digits(f, x, 5);
    Even(f, x / 2, 1);
    Digits(f, x / 4, 1);
    assert x / 2 / 2 == x / 4 && x / 4 / 2 == x / 8;
  }

  /** Mixing in the polynomial turns over digits 0, 13 and 15. */
  lemma PolyTurns(f: (nat, nat) -> nat, h: nat)
    requires (forall a: nat, b: nat :: Digitwise(f, a, b)) && forall a: nat :: OwnInverse(f, a)
    ensures f(h, 0xA001) == h + 0xA001 - 2 * (h % 2) - 0x4000 * (h / 0x2000 % 2) - 0x1_0000 * (h / 0x8000 % 2)
  {
    var y := h / 2;
    assert Digitwise(f, h, 0xA001);
    Digits(f, h, 0xA001);
    Above(f, y, 0x500);
    Above(f, y / 16, 0x50);
    Above(f, y / 16 / 16, 5);
    Five(f, y / 16 / 16 / 16);
    assert y / 16 / 16 / 16 == h / 0x2000 && h / 0x2000 / 4 == h / 0x8000;
  }

  /** One shift of the register, as arithmetic. */
  lemma ShiftIs(c: word)
    ensures Shift(c) == if c % 2 == 0 then c / 2 else c / 2 + 0xA001 - 2 * (c / 2 % 2) - 0x4000 * (c / 0x4000 % 2)
  {
    var h := c / 2;
    XorSums();
    PolyTurns(Xors(), h);
    assert h / 0x2000 == c / 0x4000 && h / 0x8000 == 0;
    ShiftIsHalve(c);
  }

  /** `d` is `c` shifted once. */
  predicate Turns(c: word, d: word)
  {
    d == if c % 2 == 0 then c / 2 else c / 2 + 0xA001 - 2 * (c / 2 % 2) - 0x4000 * (c / 0x4000 % 2)
  }

  lemma {:induction false} AllTurns(cs: seq<word>, n: nat)
    requires |cs| == n + 1 && forall k | 0 <= k < n :: Turns(cs[k], cs[k + 1])
    ensures Shifts(cs[0], n) == cs[n]
    decreases n
  {
    if n > 0 {
      assert Turns(cs[0], cs[1]);
      ShiftIs(cs[0]);
      AllTurns(cs[1..], n - 1);
    }
  }

  const FIRST: seq<word> := [0xFFFD, 0xDFFF, 0xCFFE, 0x67FF, 0x93FE, 0x49FF, 0x84FE, 0x427F, 0x813E]

  const SECOND: seq<word> := [0x8139, 0xE09D, 0xD04F, 0xC826, 0x6413, 0x9208, 0x4904, 0x2482, 0x1241]

  /** Mixing into a register of all ones. */
  lemma Ones(f: (nat, nat) -> nat, b: nat, k: nat)
    requires b < Pow2(k) && (forall x: nat, y: nat :: Digitwise(f, x, y)) && f(0, 0) == 0
    ensures f(Pow2(k) - 1, b) == Pow2(k) - 1 - b
    decreases k
  {
    if k > 0 {
      Ones(f, b / 2, k - 1);
      assert Digitwise(f, Pow2(k) - 1, b);
      Digits(f, Pow2(k) - 1, b);
    }
  }

  lemma Seven(f: (nat, nat) -> nat)
    requires (forall a: nat, b: nat :: Digitwise(f, a, b)) && forall a: nat :: OwnInverse(f, a)
    ensures f(0x813E, 7) == 0x8139
  {
    assert Digitwise(f, 0x813E, 7) && Digitwise(f, 0x409F, 3) && Digitwise(f, 0x204F, 1) && OwnInverse(f, 0x1027);
    Digits(f, 0x813E, 7);
    Digits(f, 0x409F, 3);
    Digits(f, 0x204F, 1);
  }

  /** Taking in one byte, once mixed in, is eight turns. */
  lemma ByteTaken(c: word, b: byte, cs: seq<word>)
    requires |cs| == 9 && cs[0] == Xor(c, b) && forall k | 0 <= k < 8 :: Turns(cs[k], cs[k + 1])
    ensures AddByte(c, b) == cs[8]
  {
    AllTurns(cs, 8);
  }

  lemma FirstTurns()
    ensures |FIRST| == 9 && forall k | 0 <= k < 8 :: Turns(FIRST[k], FIRST[k + 1])
  {
  }

  lemma SecondTurns()
    ensures |SECOND| == 9 && forall k | 0 <= k < 8 :: Turns(SECOND[k], SECOND[k + 1])
  {
  }

  lemma TakenBy(c: word, b: byte, cs: seq<word>, from: word, to: word)
    requires |cs| == 9 && Xor(c, b) == from == cs[0] && cs[8] == to && forall k | 0 <= k < 8 :: Turns(cs[k], cs[k + 1])
    ensures AddByte(c, b) == to
  {
    ByteTaken(c, b, cs);
  }

  lemma Mixed()
    ensures Xor(0xFFFF, 0x02) == 0xFFFD && Xor(0x813E, 0x07) == 0x8139
  {
    XorSums();
    WordIsPow();
    assert OwnInverse(Xors(), 0);
    Ones(Xors(), 2, 16);
    Seven(Xors());
  }

  /** The example of section 6.2.2 of the MODBUS over Serial Line guide: 02 07 has the CRC 1241. */
  lemma CheckValue(data: seq<byte>)
    requires data == [0x02, 0x07]
    ensures Crc16(data) == 0x1241
  {
    Mixed();
    FirstTurns();
    SecondTurns();
    TakenBy(0xFFFF, data[0], FIRST, 0xFFFD, 0x813E);
    TakenBy(0x813E, data[1], SECOND, 0x8139, 0x1241);
    TwoBytes(0xFFFF, data[0], data[1]);
    assert data == [data[0], data[1]];
  }

  lemma TwoBytes(c: word, a: byte, b: byte)
    ensures Fold(c, [a, b]) == AddByte(AddByte(c, a), b)
  {
    FoldSnoc(c, [], a);
    FoldSnoc(c, [a], b);
    assert [] + [a] == [a] && [a] + [b] == [a, b];
  }
}
