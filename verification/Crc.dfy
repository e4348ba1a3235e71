/**
 CRC-16/MODBUS (`bt_crc16_modbus` in `components/bluetti_ble/bt_crypto.c`), the
 check on every register frame, and what an accepted frame is protected against.
 The algorithm is the one of section 2.5.1.2 of "MODBUS over Serial Line
 Specification and Implementation Guide V1.02".

 The strength results go through the bit stream: a byte is eight one-bit steps
 of a linear, invertible register, so a difference between two frames is itself
 a run of the register.
 */
module Crc {
  import opened Bits

  type word = x: int | 0 <= x < 0x1_0000

  const POLY: word := 0xA001

  const BYTE_BITS: nat := 8

  lemma WordIsPow()
    ensures Pow2(16) == 0x1_0000 && Pow2(15) == 0x8000 && Pow2(BYTE_BITS) == 256
  {
  }

  function XorWord(a: word, b: word): (r: word)
  {
    WordIsPow();
    XorBound(a, b, 16);
    Xor(a, b)
  }

  /** One shift of the register. */
  function Shift(c: word): (r: word)
  {
    if c % 2 == 1 then XorWord(c / 2, POLY) else c / 2
  }

  function Shifts(c: word, n: nat): (r: word)
    decreases n
  {
    if n == 0 then c else Shifts(Shift(c), n - 1)
  }

  function AddByte(c: word, b: byte): (r: word)
  {
    Shifts(XorWord(c, b), BYTE_BITS)
  }

  /** The register after `data`, starting from `c`. */
  function Fold(c: word, data: seq<byte>): (r: word)
  {
    if data == [] then c else AddByte(Fold(c, data[..|data| - 1]), data[|data| - 1])
  }

  function Crc16(data: seq<byte>): (r: word)
  {
    Fold(0xFFFF, data)
  }

  method ComputeCrc(data: seq<byte>) returns (crc: word)
    ensures crc == Crc16(data)
  {
    crc := 0xFFFF;
    for i := 0 to |data|
      invariant crc == Fold(0xFFFF, data[..i])
    {
      assert data[..i + 1][..i] == data[..i];
      crc := XorWord(crc, data[i]);
      ghost var c := crc;
      for b := 0 to BYTE_BITS
        invariant Shifts(crc, BYTE_BITS - b) == Shifts(c, BYTE_BITS)
      {
        crc := if crc % 2 == 1 then XorWord(crc / 2, POLY) else crc / 2;
      }
    }
    assert data[..|data|] == data;
  }

  /** `modbus_crc_ok`: the two bytes after the first `n` are their CRC, low byte first. */
  predicate CrcOk(f: seq<byte>, n: nat)
    requires n + 2 <= |f|
  {
    Crc16(f[..n]) == (f[n] as int) + 256 * (f[n + 1] as int)
  }

  /** What every request builder appends. */
  function WithCrc(data: seq<byte>): (f: seq<byte>)
  {
    data + [Crc16(data) % 256, Crc16(data) / 256]
  }

  // ---------------------------------------------------------------------
  // The register, bit by bit
  // ---------------------------------------------------------------------

  function Digit(bit: bool): (d: word)
  {
    if bit then 1 else 0
  }

  function AddBit(c: word, bit: bool): (r: word)
  {
    Shift(XorWord(c, Digit(bit)))
  }

  function FoldBits(c: word, bits: seq<bool>): (r: word)
    decreases |bits|
  {
    if bits == [] then c else FoldBits(AddBit(c, bits[0]), bits[1..])
  }

  /** The low `k` bits of a word, least significant first. */
  function WordBits(w: nat, k: nat): (bits: seq<bool>)
    ensures |bits| == k
    decreases k
  {
    if k == 0 then [] else [w % 2 == 1] + WordBits(w / 2, k - 1)
  }

  function ByteBits(b: byte): (bits: seq<bool>)
  {
    WordBits(b, BYTE_BITS)
  }

  function FrameBits(data: seq<byte>): (bits: seq<bool>)
    ensures |bits| == 8 * |data|
  {
    if data == [] then [] else FrameBits(data[..|data| - 1]) + ByteBits(data[|data| - 1])
  }

  /** One shift, for any sum and polynomial. */
  ghost function Halve(f: (nat, nat) -> nat, c: nat, p: nat): (r: nat)
  {
    if c % 2 == 1 then f(c / 2, p) else c / 2
  }

  lemma HalveLinear(f: (nat, nat) -> nat, a: nat, b: nat, p: nat)
    requires Sums(f)
    ensures Halve(f, f(a, b), p) == f(Halve(f, a, p), Halve(f, b, p))
  {
    var x, y := a / 2, b / 2;
    assert Digitwise(f, a, b);
    if a % 2 == 1 && b % 2 == 1 {
      TwiceOf(f, x, y, p);
    } else if a % 2 == 1 {
      AsideOf(f, x, p, y);
    } else if b % 2 == 1 {
      assert Assoc(f, x, y, p);
    }
  }

  lemma HalvePeels(f: (nat, nat) -> nat, c: nat, w: nat, p: nat)
    requires Sums(f)
    ensures Halve(f, f(c, w), p) == f(Halve(f, f(c, w % 2), p), w / 2)
  {
    assert Digitwise(f, c, w) && Digitwise(f, c, w % 2) && OwnInverse(f, c / 2);
    assert w % 2 / 2 == 0 && w % 2 % 2 == w % 2;
    AsideOf(f, c / 2, p, w / 2);
  }

  lemma ShiftIsHalve(c: word)
    ensures Shift(c) == Halve(Xors(), c, POLY)
  {
  }

  lemma ShiftLinear(a: word, b: word)
    ensures Shift(XorWord(a, b)) == XorWord(Shift(a), Shift(b))
  {
    XorSums();
    ShiftIsHalve(a);
    ShiftIsHalve(b);
    ShiftIsHalve(XorWord(a, b));
    HalveLinear(Xors(), a, b, POLY);
  }

  lemma ShiftZero(a: word)
    ensures Shift(a) == 0 <==> a == 0
  {
    XorCancel(a / 2, POLY);
    XorZero(POLY);
  }

  /** Taking a word in at once is taking in its first bit, with the rest waiting one place lower. */
  lemma ShiftPeels(c: word, w: word)
    ensures Shift(XorWord(c, w)) == XorWord(AddBit(c, w % 2 == 1), w / 2)
  {
    var bit := Digit(w % 2 == 1);
    assert bit == w % 2;
    ShiftIsHalve(XorWord(c, w));
    ShiftIsHalve(XorWord(c, bit));
    XorSums();
    HalvePeels(Xors(), c, w, POLY);
  }

  lemma {:induction false} ShiftsAreBits(c: word, w: word, k: nat)
    requires w < Pow2(k)
    ensures Shifts(XorWord(c, w), k) == FoldBits(c, WordBits(w, k))
    decreases k
  {
    if k == 0 {
      XorZero(c);
    } else {
      ShiftPeels(c, w);
      ShiftsAreBits(AddBit(c, w % 2 == 1), w / 2, k - 1);
      assert WordBits(w, k)[1..] == WordBits(w / 2, k - 1);
    }
  }

  lemma {:induction false} FoldBitsAppend(c: word, a: seq<bool>, b: seq<bool>)
    ensures FoldBits(c, a + b) == FoldBits(FoldBits(c, a), b)
    decreases |a|
  {
    if a == [] {
      assert a + b == b;
    } else {
      FoldBitsAppend(AddBit(c, a[0]), a[1..], b);
      assert (a + b)[1..] == a[1..] + b;
    }
  }

  /** The byte-wise CRC is the bit-wise register run over the frame's bits. */
  lemma {:induction false} FoldIsFoldBits(c: word, data: seq<byte>)
    ensures Fold(c, data) == FoldBits(c, FrameBits(data))
  {
    if data != [] {
      var n := |data| - 1;
      FoldIsFoldBits(c, data[..n]);
      WordIsPow();
      ShiftsAreBits(Fold(c, data[..n]), data[n], BYTE_BITS);
      FoldBitsAppend(c, FrameBits(data[..n]), ByteBits(data[n]));
    }
  }

  function Differences(a: seq<bool>, b: seq<bool>): (d: seq<bool>)
    requires |a| == |b|
  {
    seq(|a|, i requires 0 <= i < |a| => a[i] != b[i])
  }

  lemma AddBitLinear(c: word, d: word, a: bool, b: bool)
    ensures XorWord(AddBit(c, a), AddBit(d, b)) == AddBit(XorWord(c, d), a != b)
  {
    ShiftLinear(XorWord(c, Digit(a)), XorWord(d, Digit(b)));
    XorSwap(c, Digit(a), d, Digit(b));
  }

  lemma {:induction false} FoldBitsLinear(c: word, d: word, a: seq<bool>, b: seq<bool>)
    requires |a| == |b|
    ensures XorWord(FoldBits(c, a), FoldBits(d, b)) == FoldBits(XorWord(c, d), Differences(a, b))
    decreases |a|
  {
    if a != [] {
      AddBitLinear(c, d, a[0], b[0]);
      FoldBitsLinear(AddBit(c, a[0]), AddBit(d, b[0]), a[1..], b[1..]);
      assert Differences(a, b)[1..] == Differences(a[1..], b[1..]);
    }
  }

  /** Equal bits cannot bring two different registers together. */
  lemma {:induction false} QuietBits(c: word, z: seq<bool>)
    requires forall i | 0 <= i < |z| :: !z[i]
    ensures FoldBits(c, z) == 0 <==> c == 0
    decreases |z|
  {
    if z != [] {
      XorZero(c);
      ShiftZero(c);
      QuietBits(AddBit(c, z[0]), z[1..]);
    }
  }

  lemma {:induction false} XorTop(y: nat, p: nat, k: nat)
    requires y < Pow2(k) && p < Pow2(k)
    ensures Xor(y, Pow2(k) + p) == Pow2(k) + Xor(y, p)
    decreases k
  {
    if k == 0 {
      XorZero(1);
    } else {
      XorTop(y / 2, p / 2, k - 1);
      XorTopDigit(y, p, Pow2(k - 1));
    }
  }

  lemma XorTopDigit(y: nat, p: nat, top: nat)
    requires Xor(y / 2, top + p / 2) == top + Xor(y / 2, p / 2)
    ensures Xor(y, 2 * top + p) == 2 * top + Xor(y, p)
  {
    assert (2 * top + p) / 2 == top + p / 2 && (2 * top + p) % 2 == p % 2;
    XorDigits(y, 2 * top + p);
    XorDigits(y, p);
  }

  /** A shift that ends below the polynomial's top bit has not added the polynomial. */
  lemma TopShows(c: nat, p: nat, low: nat, k: nat)
    requires p == Pow2(k) + low && low < Pow2(k) && c / 2 < Pow2(k) && Halve(Xors(), c, p) < Pow2(k)
    ensures c % 2 == 0 && Halve(Xors(), c, p) == c / 2
  {
    if c % 2 == 1 {
      XorTop(c / 2, low, k);
    }
  }

  /** A register below 2^15 after a step shows that the step took in its own low bit. */
  lemma HighBitGivesItAway(d: word, bit: bool)
    requires AddBit(d, bit) < Pow2(15)
    ensures (d % 2 == 1) == bit && AddBit(d, bit) == d / 2
  {
    var c := XorWord(d, Digit(bit));
    LowBit(d, bit);
    ShiftIsHalve(c);
    TopOfPoly();
    TopShows(c, POLY, 0x2001, 15);
  }

  lemma TopOfPoly()
    ensures POLY == Pow2(15) + 0x2001 && 0x2001 < Pow2(15) && Pow2(15) == 0x8000
  {
    WordIsPow();
  }

  lemma LowBit(d: word, bit: bool)
    ensures var c := XorWord(d, Digit(bit)); c / 2 == d / 2 && (c % 2 == 0 <==> (d % 2 == 1) == bit)
  {
    XorDigits(d, Digit(bit));
    XorZero(d / 2);
  }

  lemma {:induction false} Pow2Mono(j: nat, k: nat)
    requires j <= k
    ensures Pow2(j) <= Pow2(k)
  {
    if j < k {
      Pow2Mono(j, k - 1);
    }
  }

  /** At most sixteen more bits reach zero only from a register that holds exactly those bits. */
  lemma {:induction false} SixteenBitsReach(d: word, z: seq<bool>)
    requires |z| <= 16 && FoldBits(d, z) == 0
    ensures d < Pow2(|z|) && z == WordBits(d, |z|)
    decreases |z|
  {
    if z != [] {
      SixteenBitsReach(AddBit(d, z[0]), z[1..]);
      OneBitFurther(d, z);
    }
  }

  lemma OneBitFurther(d: word, z: seq<bool>)
    requires 0 < |z| <= 16 && AddBit(d, z[0]) < Pow2(|z| - 1) && z[1..] == WordBits(AddBit(d, z[0]), |z| - 1)
    ensures d < Pow2(|z|) && z == WordBits(d, |z|)
  {
    Pow2Mono(|z| - 1, 15);
    HighBitGivesItAway(d, z[0]);
    BitsJoin(d, z);
  }

  /** A number whose upper digits and low digit are these. */
  lemma BitsJoin(d: nat, z: seq<bool>)
    requires z != [] && d / 2 < Pow2(|z| - 1) && z[1..] == WordBits(d / 2, |z| - 1) && (d % 2 == 1) == z[0]
    ensures d < Pow2(|z|) && z == WordBits(d, |z|)
  {
    assert z == [z[0]] + z[1..];
  }

  lemma {:induction false} ZeroBits(k: nat)
    ensures forall i | 0 <= i < k :: !WordBits(0, k)[i]
  {
    if k > 0 {
      ZeroBits(k - 1);
    }
  }

  // ---------------------------------------------------------------------
  // What acceptance means
  // ---------------------------------------------------------------------

  /** A run of the register from zero to zero, active within sixteen consecutive bits, was not active at all. */
  lemma ShortBurstIsNone(z: seq<bool>, i: nat, j: nat)
    requires i <= j <= |z| && j - i <= 16 && FoldBits(0, z) == 0
    requires forall n | 0 <= n < |z| && z[n] :: i <= n < j
    ensures forall n | 0 <= n < |z| :: !z[n]
  {
    var w := z[i..j];
    assert z == z[..i] + (w + z[j..]);
    QuietAround(z[..i], w, z[j..]);
    NothingFromZero(w);
    assert forall n | i <= n < j :: z[n] == w[n - i];
  }

  /** Zero bits before and after change nothing. */
  lemma QuietAround(before: seq<bool>, w: seq<bool>, after: seq<bool>)
    requires (forall n | 0 <= n < |before| :: !before[n]) && (forall n | 0 <= n < |after| :: !after[n])
    requires FoldBits(0, before + (w + after)) == 0
    ensures FoldBits(0, w) == 0
  {
    FoldBitsAppend(0, before, w + after);
    QuietBits(0, before);
    FoldBitsAppend(0, w, after);
    QuietBits(FoldBits(0, w), after);
  }

  lemma NothingFromZero(w: seq<bool>)
    requires |w| <= 16 && FoldBits(0, w) == 0
    ensures forall n | 0 <= n < |w| :: !w[n]
  {
    SixteenBitsReach(0, w);
    ZeroBits(|w|);
  }

  /** Bit streams the register cannot tell apart, differing within sixteen consecutive bits, are the same. */
  lemma NoShortBurst(c: word, a: seq<bool>, b: seq<bool>, p: nat)
    requires |a| == |b| && FoldBits(c, a) == FoldBits(c, b)
    requires forall n | 0 <= n < |a| && a[n] != b[n] :: p <= n < p + 16
    ensures a == b
  {
    var z := Differences(a, b);
    FoldBitsLinear(c, c, a, b);
    XorSelf(c);
    XorSelf(FoldBits(c, a));
    var i := if p <= |z| then p else |z|;
    var j := if p + 16 <= |z| then p + 16 else |z|;
    ShortBurstIsNone(z, i, j);
    assert forall n | 0 <= n < |a| :: z[n] == (a[n] != b[n]);
  }

  lemma {:induction false} SameBitsSameWord(x: nat, y: nat, k: nat)
    requires x < Pow2(k) && y < Pow2(k) && WordBits(x, k) == WordBits(y, k)
    ensures x == y
    decreases k
  {
    if k > 0 {
      assert WordBits(x, k)[0] == WordBits(y, k)[0];
      assert WordBits(x, k)[1..] == WordBits(x / 2, k - 1);
      assert WordBits(y, k)[1..] == WordBits(y / 2, k - 1);
      SameBitsSameWord(x / 2, y / 2, k - 1);
    }
  }

  lemma LastByteBits(f: seq<byte>)
    requires f != []
    ensures var n := |f| - 1; FrameBits(f) == FrameBits(f[..n]) + ByteBits(f[n])
  {
  }

  lemma SameParts(a: seq<bool>, p: seq<bool>, b: seq<bool>, q: seq<bool>)
    requires a + p == b + q && |a| == |b|
    ensures a == b && p == q
  {
    assert a == (a + p)[..|a|] && b == (b + q)[..|b|];
    assert p == (a + p)[|a|..] && q == (b + q)[|b|..];
  }

  lemma SameFrontAndLast(f: seq<byte>, g: seq<byte>)
    requires |f| == |g| > 0 && FrameBits(f) == FrameBits(g)
    ensures var n := |f| - 1; FrameBits(f[..n]) == FrameBits(g[..n]) && f[n] == g[n]
  {
    var n := |f| - 1;
    LastByteBits(f);
    LastByteBits(g);
    SameParts(FrameBits(f[..n]), ByteBits(f[n]), FrameBits(g[..n]), ByteBits(g[n]));
    WordIsPow();
    SameBitsSameWord(f[n], g[n], BYTE_BITS);
  }

  /** Equal bits of two frames of one length: equal last bytes, and equal bits before them. */
  ghost predicate Peels(bits: seq<byte> -> seq<bool>, f: seq<byte>, g: seq<byte>)
  {
    |f| == |g| > 0 && bits(f) == bits(g) ==>
      bits(f[..|f| - 1]) == bits(g[..|f| - 1]) && f[|f| - 1] == g[|f| - 1]
  }

  lemma {:induction false} SameOf(bits: seq<byte> -> seq<bool>, f: seq<byte>, g: seq<byte>)
    requires |f| == |g| && bits(f) == bits(g) && forall x: seq<byte>, y: seq<byte> :: Peels(bits, x, y)
    ensures f == g
  {
    if f != [] {
      var n := |f| - 1;
      assert Peels(bits, f, g);
      SameOf(bits, f[..n], g[..n]);
      assert f == f[..n] + [f[n]] && g == g[..n] + [g[n]];
    }
  }

  lemma SameBitsSameFrame(f: seq<byte>, g: seq<byte>)
    requires |f| == |g| && FrameBits(f) == FrameBits(g)
    ensures f == g
  {
    var bits := (x: seq<byte>) => FrameBits(x);
    forall x: seq<byte>, y: seq<byte>
      ensures Peels(bits, x, y)
    {
      if |x| == |y| > 0 && FrameBits(x) == FrameBits(y) {
        SameFrontAndLast(x, y);
      }
    }
    SameOf(bits, f, g);
  }

  lemma FoldSnoc(c: word, data: seq<byte>, b: byte)
    ensures Fold(c, data + [b]) == AddByte(Fold(c, data), b)
  {
    assert (data + [b])[..|data|] == data;
  }

  /** `fold` takes bytes in one by one through `add`. */
  ghost predicate TakesIn(fold: (word, seq<byte>) -> word, add: (word, byte) -> word, c: word, data: seq<byte>, x: byte)
  {
    fold(c, data + [x]) == add(fold(c, data), x) && fold(c, []) == c
  }

  lemma {:induction false} AppendOf(fold: (word, seq<byte>) -> word, add: (word, byte) -> word, c: word, a: seq<byte>, b: seq<byte>)
    requires forall d: word, data: seq<byte>, x: byte :: TakesIn(fold, add, d, data, x)
    ensures fold(c, a + b) == fold(fold(c, a), b)
  {
    if b == [] {
      assert TakesIn(fold, add, fold(c, a), a, 0) && a + b == a;
    } else {
      var less, x := b[..|b| - 1], b[|b| - 1];
      AppendOf(fold, add, c, a, less);
      assert TakesIn(fold, add, c, a + less, x) && TakesIn(fold, add, fold(c, a), less, x);
      assert a + b == (a + less) + [x] && b == less + [x];
    }
  }

  lemma FoldAppend(c: word, a: seq<byte>, b: seq<byte>)
    ensures Fold(c, a + b) == Fold(Fold(c, a), b)
  {
    var fold, add := (d: word, data: seq<byte>) => Fold(d, data), (d: word, x: byte) => AddByte(d, x);
    forall d: word, data: seq<byte>, x: byte
      ensures TakesIn(fold, add, d, data, x)
    {
      FoldSnoc(d, data, x);
    }
    AppendOf(fold, add, c, a, b);
  }

  lemma {:induction false} XorClearsLow(h: nat, l: nat, k: nat)
    requires l < Pow2(k)
    ensures Xor(Pow2(k) * h + l, l) == Pow2(k) * h
    decreases k
  {
    if k == 0 {
      XorZero(h);
    } else {
      var ph := Pow2(k - 1) * h;
      assert Pow2(k) * h == 2 * ph;
      XorClearsLow(h, l / 2, k - 1);
      var x := 2 * ph + l;
      assert x / 2 == ph + l / 2;
      XorDigits(x, l);
      DoubleDigits(Xor(x, l), x, l, ph);
    }
  }

  lemma DoubleDigits(v: nat, x: nat, l: nat, a: nat)
    requires x == 2 * a + l && v % 2 == (x % 2 + l % 2) % 2 && v / 2 == a
    ensures v == 2 * a
  {
    assert x % 2 == l % 2;
  }

  lemma {:induction false} QuietShifts(h: nat, k: nat)
    requires Pow2(k) * h < 0x1_0000
    ensures h < 0x1_0000 && Shifts(Pow2(k) * h, k) == h
    decreases k
  {
    if k > 0 {
      var x := Pow2(k - 1) * h;
      DoublePow(k, h);
      QuietShift(2 * x, x);
      QuietShifts(h, k - 1);
    }
  }

  lemma DoublePow(k: nat, h: nat)
    requires k > 0
    ensures Pow2(k) * h == 2 * (Pow2(k - 1) * h)
  {
  }

  /** An even register only shifts. */
  lemma QuietShift(c: word, x: nat)
    requires c == 2 * x
    ensures x < 0x1_0000 && Shift(c) == x
  {
  }

  lemma OwnCrcGivesZero(c: word)
    ensures Fold(c, [c % 256, c / 256]) == 0
  {
    WordIsPow();
    XorClearsLow(c / 256, c % 256, BYTE_BITS);
    QuietShifts(c / 256, BYTE_BITS);
    var s: seq<byte> := [c % 256, c / 256];
    assert s[..1] == [s[0]] && s[..1][..0] == [];
    assert Fold(c, s[..1]) == AddByte(c, s[0]) == s[1];
    XorSelf(s[1]);
    QuietShifts(0, BYTE_BITS);
  }

  /** A frame passes the check exactly when the CRC over data and trailer together is zero. */
  lemma AcceptedIffZero(f: seq<byte>, n: nat)
    requires n + 2 <= |f|
    ensures CrcOk(f, n) <==> Crc16(f[..n + 2]) == 0
  {
    var c, t := Crc16(f[..n]), [f[n], f[n + 1]];
    var own: seq<byte> := [c % 256, c / 256];
    assert Crc16(f[..n + 2]) == Fold(c, t) by {
      assert f[..n + 2] == f[..n] + t;
      FoldAppend(0xFFFF, f[..n], t);
    }
    TrailerUnique(c, t);
    assert CrcOk(f, n) <==> t[0] == own[0] && t[1] == own[1];
  }

  /** From any register, its own two bytes are the only two that bring it to zero. */
  lemma TrailerUnique(c: word, t: seq<byte>)
    requires |t| == 2
    ensures Fold(c, t) == 0 <==> t == [c % 256, c / 256]
  {
    var own: seq<byte> := [c % 256, c / 256];
    OwnCrcGivesZero(c);
    if Fold(c, t) == 0 {
      FoldIsFoldBits(c, t);
      FoldIsFoldBits(c, own);
      NoShortBurst(c, FrameBits(t), FrameBits(own), 0);
      SameBitsSameFrame(t, own);
    }
  }

  /** Everything built with its CRC appended is accepted. */
  lemma BuiltIsAccepted(data: seq<byte>)
    ensures CrcOk(WithCrc(data), |data|)
  {
    assert WithCrc(data)[..|data|] == data;
  }

  /** No two accepted frames of one length differ only within sixteen consecutive bits, wherever those begin. */
  lemma BurstsAreCaught(f: seq<byte>, g: seq<byte>, p: nat)
    requires |f| == |g| >= 2
    requires CrcOk(f, |f| - 2) && CrcOk(g, |g| - 2)
    requires forall n | 0 <= n < |FrameBits(f)| && FrameBits(f)[n] != FrameBits(g)[n] :: p <= n < p + 16
    ensures f == g
  {
    AcceptedIffZero(f, |f| - 2);
    AcceptedIffZero(g, |g| - 2);
    assert f[..|f|] == f && g[..|g|] == g;
    FoldIsFoldBits(0xFFFF, f);
    FoldIsFoldBits(0xFFFF, g);
    NoShortBurst(0xFFFF, FrameBits(f), FrameBits(g), p);
    SameBitsSameFrame(f, g);
  }

  // ---------------------------------------------------------------------
  // Parity
  // ---------------------------------------------------------------------

  function Odd(bits: seq<bool>): (odd: bool)
  {
    bits != [] && (bits[0] != Odd(bits[1..]))
  }

  function WordOdd(w: nat): (odd: bool)
  {
    w != 0 && ((w % 2 == 1) != WordOdd(w / 2))
  }

  lemma {:induction false} XorParity(a: nat, b: nat)
    ensures WordOdd(Xor(a, b)) == (WordOdd(a) != WordOdd(b))
  {
    if a != 0 || b != 0 {
      XorDigits(a, b);
      XorParity(a / 2, b / 2);
    }
  }

  lemma ConstantParities()
    ensures WordOdd(0xA001) && !WordOdd(0xFFFF) && !WordOdd(0) && WordOdd(1)
  {
    assert WordOdd(2) && !WordOdd(5);
    assert !WordOdd(20) && !WordOdd(80) && !WordOdd(320) && !WordOdd(1280) && !WordOdd(5120) && !WordOdd(20480);
    assert WordOdd(7) && WordOdd(31) && WordOdd(127) && WordOdd(511) && WordOdd(2047) && WordOdd(8191) && WordOdd(32767);
  }

  lemma {:induction false} ParityRuns(c: word, bits: seq<bool>)
    ensures WordOdd(FoldBits(c, bits)) == (WordOdd(c) != Odd(bits))
    decreases |bits|
  {
    if bits != [] {
      var x := XorWord(c, Digit(bits[0]));
      XorParity(c, Digit(bits[0]));
      XorParity(x / 2, POLY);
      ConstantParities();
      ParityRuns(AddBit(c, bits[0]), bits[1..]);
    }
  }

  /** An accepted frame has an even number of one bits, so any odd number of flipped bits is caught. */
  lemma AcceptedIsEven(f: seq<byte>)
    requires |f| >= 2 && CrcOk(f, |f| - 2)
    ensures !Odd(FrameBits(f))
  {
    AcceptedIffZero(f, |f| - 2);
    assert f[..|f|] == f;
    FoldIsFoldBits(0xFFFF, f);
    ParityRuns(0xFFFF, FrameBits(f));
    ConstantParities();
  }
}
