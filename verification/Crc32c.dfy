/**
 * CRC32C (the Castagnoli polynomial, section 12.1 of RFC 3720) in its reflected,
 * bit-at-a-time form, and the one fact the record format leans on: the register
 * never forgets a byte that was fed into it.
 */
module Crc32c {
  import opened Bytes

  const CASTAGNOLI: bv32 := 0x82F6_3B78

  function Weigh(bit: bool, weight: bv32): bv32 {
    if bit then weight else 0
  }

  function Pack(b0: bool, b1: bool, b2: bool, b3: bool, b4: bool, b5: bool, b6: bool, b7: bool): bv32 {
    Weigh(b0, 1) | Weigh(b1, 2) | Weigh(b2, 4) | Weigh(b3, 8) |
    Weigh(b4, 16) | Weigh(b5, 32) | Weigh(b6, 64) | Weigh(b7, 128)
  }

  predicate Odd(n: nat) {
    n % 2 == 1
  }

  /** Go's widening of a byte to the register's width. */
  function Widen(b: byte): bv32 {
    var b1 := b / 2;
    var b2 := b1 / 2;
    var b3 := b2 / 2;
    var b4 := b3 / 2;
    var b5 := b4 / 2;
    var b6 := b5 / 2;
    var b7 := b6 / 2;
    Pack(Odd(b), Odd(b1), Odd(b2), Odd(b3), Odd(b4), Odd(b5), Odd(b6), Odd(b7))
  }

  function ShiftBit(r: bv32): bv32 {
    if r & 1 == 1 then (r >> 1) ^ CASTAGNOLI else r >> 1
  }

  function Shift(r: bv32, bits: nat): bv32
    decreases bits
  {
    if bits == 0 then r else Shift(ShiftBit(r), bits - 1)
  }

  function FeedByte(r: bv32, b: byte): bv32 {
    Shift(r ^ Widen(b), 8)
  }

  /** The register after feeding every byte of `p`, first byte first. */
  function Feed(r: bv32, p: bytes): bv32
    decreases |p|
  {
    if p == [] then r else Feed(FeedByte(r, p[0]), p[1..])
  }

  function Not(r: bv32): bv32 { !r }

  /** `crc32.Update`: the register is complemented on the way in and on the way out. */
  function Update(crc: bv32, p: bytes): bv32 {
    Not(Feed(Not(crc), p))
  }

  /** The polynomial's top bit is set, so no two registers shift to the same one. */
  lemma ShiftBitInjective(a: bv32, b: bv32)
    requires a != b
    ensures ShiftBit(a) != ShiftBit(b)
  {
    hide ShiftBit, Low, Half, Xor, Top;
    ShiftBitIs(a);
    ShiftBitIs(b);
    TopIsLow(a);
    TopIsLow(b);
    XorCancels(Half(a), Half(b), CASTAGNOLI);
    HalfAndLow(a, b);
  }

  predicate Top(w: bv32) { w >> 31 == 1 }

  lemma TopIsLow(r: bv32)
    ensures Top(ShiftBit(r)) == Low(r)
  {
  }

  lemma HalfAndLow(a: bv32, b: bv32)
    ensures Half(a) == Half(b) && Low(a) == Low(b) ==> a == b
  {
  }

  lemma XorBack(a: bv32, c: bv32)
    ensures Xor(Xor(a, c), c) == a && Xor(Xor(c, a), c) == a
  {
  }

  lemma XorCancels(a: bv32, b: bv32, c: bv32)
    ensures a != b ==> Xor(a, c) != Xor(b, c) && Xor(c, a) != Xor(c, b)
  {
    hide Xor;
    XorBack(a, c);
    XorBack(b, c);
  }

  lemma {:induction false} ShiftInjective(a: bv32, b: bv32, bits: nat)
    requires a != b
    ensures Shift(a, bits) != Shift(b, bits)
    decreases bits
  {
    if bits > 0 {
      ShiftBitInjective(a, b);
      ShiftInjective(ShiftBit(a), ShiftBit(b), bits - 1);
    }
  }

  lemma PackInjective(b0: bool, b1: bool, b2: bool, b3: bool, b4: bool, b5: bool, b6: bool, b7: bool,
                      c0: bool, c1: bool, c2: bool, c3: bool, c4: bool, c5: bool, c6: bool, c7: bool)
    requires Pack(b0, b1, b2, b3, b4, b5, b6, b7) == Pack(c0, c1, c2, c3, c4, c5, c6, c7)
    ensures b0 == c0 && b1 == c1 && b2 == c2 && b3 == c3 && b4 == c4 && b5 == c5 && b6 == c6 && b7 == c7
  {
  }

  lemma HalvesDecide(a: nat, b: nat)
    requires a / 2 == b / 2 && Odd(a) == Odd(b)
    ensures a == b
  {
  }

  lemma WidenInjective(a: byte, b: byte)
    requires Widen(a) == Widen(b)
    ensures a == b
  {
    hide Pack, Odd;
    var a1, b1 := a / 2, b / 2;
    var a2, b2 := a1 / 2, b1 / 2;
    var a3, b3 := a2 / 2, b2 / 2;
    var a4, b4 := a3 / 2, b3 / 2;
    var a5, b5 := a4 / 2, b4 / 2;
    var a6, b6 := a5 / 2, b5 / 2;
    var a7, b7 := a6 / 2, b6 / 2;
    PackInjective(Odd(a), Odd(a1), Odd(a2), Odd(a3), Odd(a4), Odd(a5), Odd(a6), Odd(a7),
                  Odd(b), Odd(b1), Odd(b2), Odd(b3), Odd(b4), Odd(b5), Odd(b6), Odd(b7));
    HalvesDecide(a7, b7);
    HalvesDecide(a6, b6);
    HalvesDecide(a5, b5);
    HalvesDecide(a4, b4);
    HalvesDecide(a3, b3);
    HalvesDecide(a2, b2);
    HalvesDecide(a1, b1);
    HalvesDecide(a, b);
  }

  lemma FeedByteInjective(r: bv32, s: bv32, b: byte)
    requires r != s
    ensures FeedByte(r, b) != FeedByte(s, b)
  {
    hide Shift, Widen, FeedByte, Xor;
    FeedByteIs(r, b);
    FeedByteIs(s, b);
    XorCancels(r, s, Widen(b));
    ShiftInjective(Xor(r, Widen(b)), Xor(s, Widen(b)), 8);
  }

  lemma ByteMatters(r: bv32, a: byte, b: byte)
    requires a != b
    ensures FeedByte(r, a) != FeedByte(r, b)
  {
    hide Shift, Widen, FeedByte, Xor;
    WidenDiffers(a, b);
    FeedByteIs(r, a);
    FeedByteIs(r, b);
    XorCancels(Widen(a), Widen(b), r);
    ShiftInjective(Xor(r, Widen(a)), Xor(r, Widen(b)), 8);
  }

  lemma WidenDiffers(a: byte, b: byte)
    requires a != b
    ensures Widen(a) != Widen(b)
  {
    hide Widen;
    if Widen(a) == Widen(b) {
      WidenInjective(a, b);
    }
  }

  /** Registers that differ stay different through any common suffix. */
  lemma {:induction false} FeedInjective(r: bv32, s: bv32, p: bytes)
    requires r != s
    ensures Feed(r, p) != Feed(s, p)
    decreases |p|
  {
    hide FeedByte;
    if p != [] {
      FeedByteInjective(r, s, p[0]);
      FeedInjective(FeedByte(r, p[0]), FeedByte(s, p[0]), p[1..]);
    }
  }

  lemma {:induction false} FeedConcat(r: bv32, p: bytes, q: bytes)
    ensures Feed(r, p + q) == Feed(Feed(r, p), q)
    decreases |p|
  {
    hide FeedByte;
    if p == [] {
      assert p + q == q;
    } else {
      assert (p + q)[1..] == p[1..] + q;
      FeedConcat(FeedByte(r, p[0]), p[1..], q);
    }
  }

  /** Changing any one byte of a message of any length changes the register. */
  lemma OneByteChangesFeed(r: bv32, p: bytes, i: nat, x: byte)
    requires i < |p| && x != p[i]
    ensures Feed(r, p[i := x]) != Feed(r, p)
  {
    hide FeedByte;
    var pre, post, at := p[..i], p[i + 1..], Feed(r, p[..i]);
    assert p == pre + ([p[i]] + post) && p[i := x] == pre + ([x] + post);
    FeedConcat(r, pre, [p[i]] + post);
    FeedConcat(r, pre, [x] + post);
    assert ([p[i]] + post)[1..] == post && ([x] + post)[1..] == post;
    ByteMatters(at, x, p[i]);
    FeedInjective(FeedByte(at, x), FeedByte(at, p[i]), post);
  }

  lemma NotInjective(a: bv32, b: bv32)
    ensures a != b ==> Not(a) != Not(b)
  {
    hide Not;
    NotNot(a);
    NotNot(b);
  }

  lemma UpdateInjective(a: bv32, b: bv32, p: bytes)
    requires a != b
    ensures Update(a, p) != Update(b, p)
  {
    hide Feed, Not;
    NotInjective(a, b);
    FeedInjective(Not(a), Not(b), p);
    NotInjective(Feed(Not(a), p), Feed(Not(b), p));
  }

  lemma OneByteChangesUpdate(crc: bv32, p: bytes, i: nat, x: byte)
    requires i < |p| && x != p[i]
    ensures Update(crc, p[i := x]) != Update(crc, p)
  {
    hide Feed, Not;
    OneByteChangesFeed(Not(crc), p, i, x);
    NotInjective(Feed(Not(crc), p[i := x]), Feed(Not(crc), p));
  }

  /** The number a register is stored as. */
  function Value(r: bv32): (n: nat)
    ensures n < TWO32
  {
    r as nat
  }

  function Register(n: nat): bv32
    requires n < TWO32
  {
    n as bv32
  }

  lemma RegisterOfValue(r: bv32)
    ensures Register(Value(r)) == r
  {
  }

  lemma ValueInjective(r: bv32, s: bv32)
    requires r != s
    ensures Value(r) != Value(s)
  {
    hide Value, Register;
    RegisterOfValue(r);
    RegisterOfValue(s);
  }

  // ---- The remainder of a division ----

  type bits = seq<bool>

  /** The coefficients of a polynomial over two elements, the highest first. */
  const EXPONENTS: set<nat> := {32, 28, 27, 26, 25, 23, 22, 20, 19, 18, 14, 13, 11, 10, 9, 8, 6, 0}

  function Generator(): (g: bits)
    ensures |g| == 33
  {
    seq(33, i requires 0 <= i < 33 => (32 - i) in EXPONENTS)
  }

  /** `b` added to the leading coefficients of `a`. */
  function Plus(a: bits, b: bits): (r: bits)
    ensures |r| == |a|
    ensures forall i :: 0 <= i < |a| ==> r[i] == if i < |b| then a[i] != b[i] else a[i]
  {
    seq(|a|, i requires 0 <= i < |a| => if i < |b| then a[i] != b[i] else a[i])
  }

  /** Long division by the generator, until fewer coefficients are left than it has. */
  function Remainder(a: bits): bits
    decreases |a|
  {
    if |a| <= 32 then a
    else if a[0] then Remainder(Plus(a, Generator())[1..])
    else Remainder(a[1..])
  }

  function Cons(b: bool, rest: bits): (r: bits)
    ensures |r| == |rest| + 1
  {
    [b] + rest
  }

  /** A byte is sent least significant bit first. */
  function BitsOf(b: nat, n: nat): (r: bits)
    ensures |r| == n
  {
    if n == 0 then [] else Cons(Odd(b), BitsOf(b / 2, n - 1))
  }

  function Sent(p: bytes): bits {
    if p == [] then [] else BitsOf(p[0], 8) + Sent(p[1..])
  }

  function Blank(n: nat): (r: bits)
    ensures |r| == n && forall i :: 0 <= i < n ==> !r[i]
  {
    seq(n, _ => false)
  }

  // Words, one operation at a time.

  predicate Low(w: bv32) { w & 1 == 1 }
  function Half(w: bv32): bv32 { w >> 1 }
  function Byte(w: bv32): bv32 { w >> 8 }
  function Xor(a: bv32, b: bv32): bv32 { a ^ b }
  function One(b: bool): bv32 { if b then 1 else 0 }

  /** The register's least significant bit is its highest coefficient. */
  function Coefficients(r: bv32, n: nat): (c: bits)
    ensures |c| == n
  {
    if n == 0 then [] else Cons(Low(r), Coefficients(Half(r), n - 1))
  }

  /** The word has no bit from the `n`th on. */
  predicate Fits(w: bv32, n: nat) {
    if n == 0 then w == 0 else Fits(Half(w), n - 1)
  }

  lemma ShiftBitIs(r: bv32)
    ensures ShiftBit(r) == if Low(r) then Xor(Half(r), CASTAGNOLI) else Half(r)
  {
  }

  lemma FeedByteIs(r: bv32, b: byte)
    ensures FeedByte(r, b) == Shift(Xor(r, Widen(b)), 8)
  {
    hide Shift, Widen;
  }

  lemma XorHalves(a: bv32, b: bv32)
    ensures Half(Xor(a, b)) == Xor(Half(a), Half(b))
  {
  }

  lemma XorLows(a: bv32, b: bv32)
    ensures Low(Xor(a, b)) == (Low(a) != Low(b))
  {
  }

  lemma XorTwice(a: bv32, b: bv32, c: bv32)
    ensures Xor(Xor(a, b), c) == (a ^ b) ^ c
  {
  }

  lemma AnyOrder(a: bv32, b: bv32, c: bv32)
    ensures (a ^ b) ^ c == (a ^ c) ^ b
  {
  }

  lemma XorOrder(a: bv32, b: bv32, c: bv32)
    ensures Xor(Xor(a, b), c) == Xor(Xor(a, c), b)
  {
    hide Xor;
    XorTwice(a, b, c);
    XorTwice(a, c, b);
    AnyOrder(a, b, c);
  }

  lemma XorNothing(a: bv32)
    ensures Xor(a, 0) == a && Half(0) == 0 && !Low(0)
  {
  }

  lemma OneIs(b: bool)
    ensures Half(One(b)) == 0 && Low(One(b)) == b
  {
  }

  lemma ComplementIs(a: bv32)
    ensures !a == Xor(a, 0xFFFF_FFFF)
  {
  }

  lemma EightHalves(w: bv32)
    ensures Half(Half(Half(Half(Half(Half(Half(Half(w)))))))) == Byte(w)
  {
  }

  lemma FourBytes(w: bv32)
    ensures Byte(Byte(Byte(Byte(w)))) == 0
  {
  }

  // Feeding bytes is feeding bits.

  function FeedBits(r: bv32, s: bits): bv32
    decreases |s|
  {
    if s == [] then r else FeedBits(ShiftBit(Xor(r, One(s[0]))), s[1..])
  }

  lemma {:induction false} FeedBitsInTwo(r: bv32, s: bits, u: bits)
    ensures FeedBits(r, s + u) == FeedBits(FeedBits(r, s), u)
    decreases |s|
  {
    hide ShiftBit, One, Xor;
    if s == [] {
      assert s + u == u;
    } else {
      assert (s + u)[1..] == s[1..] + u;
      FeedBitsInTwo(ShiftBit(Xor(r, One(s[0]))), s[1..], u);
    }
  }

  /** The lowest bit decides what a shift subtracts; the others only move. */
  lemma LowBitFirst(r: bv32, w: bv32)
    ensures ShiftBit(Xor(r, w)) == Xor(ShiftBit(Xor(r, One(Low(w)))), Half(w))
  {
    hide ShiftBit, Low, Half, Xor, One;
    var x, y := Xor(r, w), Xor(r, One(Low(w)));
    ShiftBitIs(x);
    ShiftBitIs(y);
    OneIs(Low(w));
    XorHalves(r, w);
    XorHalves(r, One(Low(w)));
    XorNothing(Half(r));
    XorLows(r, w);
    XorLows(r, One(Low(w)));
    XorOrder(Half(r), Half(w), CASTAGNOLI);
  }

  lemma {:induction false} ShiftFeeds(r: bv32, w: bv32, n: nat)
    requires Fits(w, n)
    ensures Shift(Xor(r, w), n) == FeedBits(r, Coefficients(w, n))
    decreases n
  {
    hide ShiftBit, One, Xor, Low, Half;
    if n == 0 {
      XorNothing(r);
    } else {
      var c := Coefficients(w, n);
      assert c[1..] == Coefficients(Half(w), n - 1);
      LowBitFirst(r, w);
      ShiftFeeds(ShiftBit(Xor(r, One(Low(w)))), Half(w), n - 1);
    }
  }

  lemma PackStep(b0: bool, b1: bool, b2: bool, b3: bool, b4: bool, b5: bool, b6: bool, b7: bool)
    ensures Low(Pack(b0, b1, b2, b3, b4, b5, b6, b7)) == b0
    ensures Half(Pack(b0, b1, b2, b3, b4, b5, b6, b7)) == Pack(b1, b2, b3, b4, b5, b6, b7, false)
    ensures Pack(false, false, false, false, false, false, false, false) == 0
  {
  }

  lemma NoBits()
    ensures Coefficients(0, 0) == [] && Fits(0, 0)
  {
  }

  lemma OneMoreBit(w: bv32, n: nat)
    ensures Coefficients(w, n + 1) == Cons(Low(w), Coefficients(Half(w), n))
    ensures Fits(Half(w), n) ==> Fits(w, n + 1)
  {
    hide Low, Half, Cons;
  }

  lemma BitsInTwo(b: nat, n: nat)
    ensures BitsOf(b, n + 1) == Cons(Odd(b), BitsOf(b / 2, n)) && BitsOf(b, 0) == []
  {
    hide Odd, Cons;
  }

  lemma WidenedBits(b: byte)
    ensures Coefficients(Widen(b), 8) == BitsOf(b, 8) && Fits(Widen(b), 8)
  {
    hide Pack, Odd, Coefficients, Fits, BitsOf, Cons, Low, Half;
    var b1 := b / 2;
    var b2 := b1 / 2;
    var b3 := b2 / 2;
    var b4 := b3 / 2;
    var b5 := b4 / 2;
    var b6 := b5 / 2;
    var b7 := b6 / 2;
    PackStep(false, false, false, false, false, false, false, false);
    PackedBit(Odd(b7), false, false, false, false, false, false, false, b7, 0);
    PackedBit(Odd(b6), Odd(b7), false, false, false, false, false, false, b6, 1);
    PackedBit(Odd(b5), Odd(b6), Odd(b7), false, false, false, false, false, b5, 2);
    PackedBit(Odd(b4), Odd(b5), Odd(b6), Odd(b7), false, false, false, false, b4, 3);
    PackedBit(Odd(b3), Odd(b4), Odd(b5), Odd(b6), Odd(b7), false, false, false, b3, 4);
    PackedBit(Odd(b2), Odd(b3), Odd(b4), Odd(b5), Odd(b6), Odd(b7), false, false, b2, 5);
    PackedBit(Odd(b1), Odd(b2), Odd(b3), Odd(b4), Odd(b5), Odd(b6), Odd(b7), false, b1, 6);
    PackedBit(Odd(b), Odd(b1), Odd(b2), Odd(b3), Odd(b4), Odd(b5), Odd(b6), Odd(b7), b, 7);
  }

  /** The bits of `b` from its lowest on, if those of `b / 2` are where they should be. */
  lemma PackedBit(b0: bool, b1: bool, b2: bool, b3: bool, b4: bool, b5: bool, b6: bool, b7: bool, b: nat, n: nat)
    requires b0 == Odd(b)
    requires n == 0 ==> Pack(b1, b2, b3, b4, b5, b6, b7, false) == 0
    requires n > 0 ==> Coefficients(Pack(b1, b2, b3, b4, b5, b6, b7, false), n) == BitsOf(b / 2, n)
    requires n > 0 ==> Fits(Pack(b1, b2, b3, b4, b5, b6, b7, false), n)
    ensures Coefficients(Pack(b0, b1, b2, b3, b4, b5, b6, b7), n + 1) == BitsOf(b, n + 1)
    ensures Fits(Pack(b0, b1, b2, b3, b4, b5, b6, b7), n + 1)
  {
    hide Pack, Odd, Coefficients, Fits, BitsOf, Cons, Low, Half;
    NoBits();
    PackStep(b0, b1, b2, b3, b4, b5, b6, b7);
    OneMoreBit(Pack(b0, b1, b2, b3, b4, b5, b6, b7), n);
    BitsInTwo(b, n);
    BitsInTwo(b / 2, 0);
  }

  lemma {:induction false} FeedSends(r: bv32, p: bytes)
    ensures Feed(r, p) == FeedBits(r, Sent(p))
    decreases |p|
  {
    hide Shift, Widen, BitsOf, FeedByte, Xor, Coefficients, Fits, FeedBits;
    if p == [] {
      NothingFed(r);
    } else {
      WidenedBits(p[0]);
      FeedByteIs(r, p[0]);
      ShiftFeeds(r, Widen(p[0]), 8);
      FeedBitsInTwo(r, BitsOf(p[0], 8), Sent(p[1..]));
      FeedSends(FeedByte(r, p[0]), p[1..]);
    }
  }

  lemma NothingFed(r: bv32)
    ensures FeedBits(r, []) == r
  {
  }

  // Shifting is dividing.

  lemma {:induction false} CoefficientsAdd(a: bv32, b: bv32, n: nat)
    ensures Coefficients(Xor(a, b), n) == Plus(Coefficients(a, n), Coefficients(b, n))
    decreases n
  {
    hide Low, Half, Xor;
    if n > 0 {
      XorHalves(a, b);
      XorLows(a, b);
      CoefficientsAdd(Half(a), Half(b), n - 1);
    }
  }

  lemma {:induction false} NothingAbove(w: bv32, n: nat)
    requires Fits(w, n)
    ensures Coefficients(w, n + 1) == Coefficients(w, n) + [false]
    decreases n
  {
    hide Low, Half;
    if n == 0 {
      XorNothing(0);
      assert Coefficients(Half(w), 0) == [];
    } else {
      NothingAbove(Half(w), n - 1);
    }
  }

  lemma FitsOneMore(w: bv32, n: nat)
    requires Fits(Half(w), n)
    ensures Fits(w, n + 1)
  {
    hide Half;
  }

  lemma FitsEight(w: bv32, n: nat)
    requires Fits(Byte(w), n)
    ensures Fits(w, n + 8)
  {
    hide Fits, Half, Byte;
    EightHalves(w);
    FitsOneMore(Half(Half(Half(Half(Half(Half(Half(w))))))), n);
    FitsOneMore(Half(Half(Half(Half(Half(Half(w)))))), n + 1);
    FitsOneMore(Half(Half(Half(Half(Half(w))))), n + 2);
    FitsOneMore(Half(Half(Half(Half(w)))), n + 3);
    FitsOneMore(Half(Half(Half(w))), n + 4);
    FitsOneMore(Half(Half(w)), n + 5);
    FitsOneMore(Half(w), n + 6);
    FitsOneMore(w, n + 7);
  }

  lemma HalfFits(w: bv32)
    ensures Fits(Half(w), 31)
  {
    hide Fits, Byte;
    FourBytes(w);
    NoBits();
    FitsEight(Byte(Byte(Byte(w))), 0);
    FitsEight(Byte(Byte(w)), 8);
    FitsEight(Byte(w), 16);
    FitsEight(w, 24);
    HalfOf(w, 32);
  }

  lemma HalfOf(w: bv32, n: nat)
    requires Fits(w, n) && n > 0
    ensures Fits(Half(w), n - 1)
  {
    hide Half;
  }

  lemma EightCoefficients(w: bv32, n: nat)
    ensures Coefficients(w, n + 8)
            == Cons(Low(w), Cons(Low(Half(w)), Cons(Low(Half(Half(w))), Cons(Low(Half(Half(Half(w)))),
               Cons(Low(Half(Half(Half(Half(w))))), Cons(Low(Half(Half(Half(Half(Half(w)))))), Cons(Low(Half(Half(Half(Half(Half(Half(w))))))),
               Cons(Low(Half(Half(Half(Half(Half(Half(Half(w)))))))), Coefficients(Byte(w), n)))))))))
  {
    hide Coefficients, Low, Half, Byte, Cons;
    EightHalves(w);
    OneMoreBit(w, n + 7);
    OneMoreBit(Half(w), n + 6);
    OneMoreBit(Half(Half(w)), n + 5);
    OneMoreBit(Half(Half(Half(w))), n + 4);
    OneMoreBit(Half(Half(Half(Half(w)))), n + 3);
    OneMoreBit(Half(Half(Half(Half(Half(w))))), n + 2);
    OneMoreBit(Half(Half(Half(Half(Half(Half(w)))))), n + 1);
    OneMoreBit(Half(Half(Half(Half(Half(Half(Half(w))))))), n);
  }

  /** The constant is the generator, leading coefficient left out, written backwards. */
  lemma GeneratorReflected()
    ensures Generator()[1..] == Coefficients(CASTAGNOLI, 32)
  {
    hide Coefficients;
    EightCoefficients(0x82F6_3B78, 24);
    EightCoefficients(0x82_F63B, 16);
    EightCoefficients(0x82F6, 8);
    EightCoefficients(0x82, 0);
    NoBits();
  }

  /** One shift: the leading coefficient goes, and the generator with it if it was one. */
  lemma ShiftDivides(x: bv32)
    ensures var c := Coefficients(x, 32);
            Coefficients(ShiftBit(x), 32) == if c[0] then Plus(c[1..] + [false], Generator()[1..]) else c[1..] + [false]
  {
    hide Fits, Generator, Low, Half, Xor, ShiftBit;
    HalfFits(x);
    NothingAbove(Half(x), 31);
    OneMoreBit(x, 31);
    assert Coefficients(x, 32)[1..] == Coefficients(Half(x), 31);
    GeneratorReflected();
    ShiftBitIs(x);
    CoefficientsAdd(Half(x), CASTAGNOLI, 32);
  }

  /** What is left to divide once the register `c` has been added to the message still to come. */
  function Dividend(s: bits, c: bits): (d: bits)
    requires |c| == 32
    ensures |d| == |s| + 32
  {
    Plus(s + Blank(32), c)
  }

  lemma OneBitIn(r: bv32, b: bool)
    ensures Coefficients(Xor(r, One(b)), 32)[0] == (Coefficients(r, 32)[0] != b)
    ensures Coefficients(Xor(r, One(b)), 32)[1..] == Coefficients(r, 32)[1..]
  {
    hide Coefficients, Low, Half, Xor, One;
    OneMoreBit(r, 31);
    OneMoreBit(Xor(r, One(b)), 31);
    OneIs(b);
    XorLows(r, One(b));
    XorHalves(r, One(b));
    XorNothing(Half(r));
    assert ([Low(r)] + Coefficients(Half(r), 31))[1..] == Coefficients(Half(r), 31);
    assert ([Low(Xor(r, One(b)))] + Coefficients(Half(r), 31))[1..] == Coefficients(Half(r), 31);
  }

  /** One step of the division, with the first message bit already added to the register. */
  lemma OneStep(s: bits, c: bits, x: bits, y: bits)
    requires |c| == |x| == |y| == 32 && s != []
    requires x[0] == (c[0] != s[0]) && x[1..] == c[1..]
    requires y == if x[0] then Plus(x[1..] + [false], Generator()[1..]) else x[1..] + [false]
    ensures Remainder(Dividend(s, c)) == Remainder(Dividend(s[1..], y))
  {
    hide Generator;
    var d, e, g := Dividend(s, c), Dividend(s[1..], y), Generator();
    var f := if d[0] then Plus(d, g)[1..] else d[1..];
    forall i | 0 <= i < |e| ensures e[i] == f[i] {
      assert (s + Blank(32))[i + 1] == (s[1..] + Blank(32))[i];
      if i < 31 {
        assert x[1..][i] == c[1..][i] == c[i + 1];
      }
    }
    assert e == f;
  }

  lemma {:induction false} RegisterDivides(r: bv32, s: bits)
    ensures Coefficients(FeedBits(r, s), 32) == Remainder(Dividend(s, Coefficients(r, 32)))
    decreases |s|
  {
    hide ShiftBit, Coefficients, Generator, Xor, One, Remainder, Dividend;
    var c := Coefficients(r, 32);
    if s == [] {
      NothingToDivide(c);
    } else {
      var x := Xor(r, One(s[0]));
      RegisterDivides(ShiftBit(x), s[1..]);
      ShiftDivides(x);
      OneBitIn(r, s[0]);
      OneStep(s, c, Coefficients(x, 32), Coefficients(ShiftBit(x), 32));
    }
  }

  lemma NothingToDivide(c: bits)
    requires |c| == 32
    ensures Remainder(Dividend([], c)) == c
  {
    assert Dividend([], c) == c;
  }

  /** Every coefficient the other way. */
  function Flipped(a: bits): (r: bits)
    ensures |r| == |a| && forall i :: 0 <= i < |a| ==> r[i] == !a[i]
  {
    seq(|a|, i requires 0 <= i < |a| => !a[i])
  }

  lemma AllOnes()
    ensures Coefficients(0xFFFF_FFFF, 32) == Flipped(Blank(32))
  {
    hide Coefficients;
    EightCoefficients(0xFFFF_FFFF, 24);
    EightCoefficients(0xFF_FFFF, 16);
    EightCoefficients(0xFFFF, 8);
    EightCoefficients(0xFF, 0);
    NoBits();
  }

  lemma ComplementFlips(r: bv32)
    ensures Coefficients(!r, 32) == Flipped(Coefficients(r, 32))
  {
    hide Coefficients, Xor;
    ComplementIs(r);
    CoefficientsAdd(r, 0xFFFF_FFFF, 32);
    AllOnes();
  }

  lemma NotNot(r: bv32)
    ensures Not(Not(r)) == r && Not(0) == 0xFFFF_FFFF && !r == Not(r)
  {
  }

  /**
   * CRC32C: the message, least significant bits first, with its first 32 bits the other way
   * and 32 zeros after it, divided by the Castagnoli polynomial; the remainder, every bit the
   * other way, is the checksum, lowest bit first.
   */
  lemma ChecksumIsRemainder(p: bytes)
    ensures Coefficients(Update(0, p), 32) == Flipped(Remainder(Dividend(Sent(p), Flipped(Blank(32)))))
  {
    hide Coefficients, Remainder, Dividend, Feed, Sent, FeedBits, Not;
    NotNot(0);
    NotNot(Feed(0xFFFF_FFFF, p));
    AllOnes();
    FeedSends(0xFFFF_FFFF, p);
    RegisterDivides(0xFFFF_FFFF, Sent(p));
    ComplementFlips(Feed(0xFFFF_FFFF, p));
  }

  /** `sum` is the CRC32C of `p`. */
  ghost predicate IsChecksum(sum: nat, p: bytes) {
    sum < TWO32 && exists crc :: Value(crc) == sum && Coefficients(crc, 32) == Flipped(Remainder(Dividend(Sent(p), Flipped(Blank(32)))))
  }

  lemma UpdateIsChecksum(p: bytes)
    ensures IsChecksum(Value(Update(0, p)), p)
  {
    hide Update, Coefficients, Remainder, Dividend, Sent, Value;
    ChecksumIsRemainder(p);
  }

  /** The checksum of two pieces, one after the other, is the checksum of the whole. */
  lemma UpdateInTwo(crc: bv32, p: bytes, q: bytes)
    ensures Update(Update(crc, p), q) == Update(crc, p + q)
  {
    hide Feed, Not;
    FeedConcat(Not(crc), p, q);
    NotNot(Feed(Not(crc), p));
  }

  /** The checksum of "a" is 0xC1D0_4330. */
  lemma ChecksumOfA()
    ensures Value(Update(0, [97])) == 0xC1D0_4330
  {
    hide Shift, Widen, ShiftBit;
    WidenedA();
    assert (0xFFFF_FFFF as bv32) ^ 97 == 0xFFFF_FF9E;
    EightShifted(0xFFFF_FF9E);
    ShiftedA();
    assert [97][1..] == [];
    NotNot(0);
    assert FeedByte(0xFFFF_FFFF, 97) == 0x3E2F_BCCF;
  }

  lemma WidenedA()
    ensures Widen(97) == 97
  {
    hide Pack;
    assert Widen(97) == Pack(true, false, false, false, false, true, true, false);
    PackedA();
  }

  lemma PackedA()
    ensures Pack(true, false, false, false, false, true, true, false) == 97
  {
  }

  lemma ShiftedA()
    ensures ShiftBit(0xFFFF_FF9E) == 0x7FFF_FFCF && ShiftBit(0x7FFF_FFCF) == 0xBD09_C49F && ShiftBit(0xBD09_C49F) == 0xDC72_D937 && ShiftBit(0xDC72_D937) == 0xECCF_57E3
    ensures ShiftBit(0xECCF_57E3) == 0xF491_9089 && ShiftBit(0xF491_9089) == 0xF8BE_F33C && ShiftBit(0xF8BE_F33C) == 0x7C5F_799E && ShiftBit(0x7C5F_799E) == 0x3E2F_BCCF
  {
  }

  lemma EightShifted(r: bv32)
    ensures Shift(r, 8) == ShiftBit(ShiftBit(ShiftBit(ShiftBit(ShiftBit(ShiftBit(ShiftBit(ShiftBit(r))))))))
  {
    hide ShiftBit;
  }
}
