/** Little-endian byte strings: the `encoding/binary` half of the record format. */
module Bytes {
  type byte = x: int | 0 <= x < 256
  type bytes = seq<byte>

  const TWO16: nat := 0x1_0000
  const TWO32: nat := 0x1_0000_0000
  const TWO63: nat := 0x8000_0000_0000_0000
  const TWO64: nat := 0x1_0000_0000_0000_0000

  function Pow256(n: nat): nat {
    if n == 0 then 1 else 256 * Pow256(n - 1)
  }

  lemma WordSizes()
    ensures Pow256(2) == TWO16 && Pow256(4) == TWO32 && Pow256(8) == TWO64
  {
    assert Pow256(4) == 256 * (256 * Pow256(2));
    assert Pow256(8) == 256 * (256 * (256 * (256 * Pow256(4))));
  }

  /** The `width` low-order bytes of `v`, least significant first. */
  function Little(v: nat, width: nat): (b: bytes)
    ensures |b| == width
  {
    if width == 0 then [] else [v % 256] + Little(v / 256, width - 1)
  }

  function Number(b: bytes): nat {
    if b == [] then 0 else b[0] + 256 * Number(b[1..])
  }

  /** Writing a number that fits and reading it back gives the number. */
  lemma {:induction false} NumberOfLittle(v: nat, width: nat)
    requires v < Pow256(width)
    ensures Number(Little(v, width)) == v
  {
    if width > 0 {
      NumberOfLittle(v / 256, width - 1);
      assert Little(v, width)[1..] == Little(v / 256, width - 1);
    }
  }

  /** Reading bytes and writing the number back gives the same bytes. */
  lemma {:induction false} LittleOfNumber(b: bytes)
    ensures Number(b) < Pow256(|b|)
    ensures Little(Number(b), |b|) == b
  {
    if b != [] {
      LittleOfNumber(b[1..]);
      assert Number(b) % 256 == b[0] && Number(b) / 256 == Number(b[1..]);
      assert b == [b[0]] + b[1..];
    }
  }

  function Zeros(n: nat): (z: bytes)
    ensures |z| == n && forall i :: 0 <= i < n ==> z[i] == 0
  {
    seq(n, _ => 0)
  }

  /** A field of zero bytes reads as the number zero. */
  lemma {:induction false} NumberOfZeros(b: bytes)
    requires forall i :: 0 <= i < |b| ==> b[i] == 0
    ensures Number(b) == 0
  {
    if b != [] {
      NumberOfZeros(b[1..]);
    }
  }

  /** Dividing is unique. */
  lemma Quotient(a: nat, n: nat, q: nat, r: nat)
    requires n > 0 && a == n * q + r && r < n
    ensures a / n == q && a % n == r
  {
    var d := a / n - q;
    assert a == n * (a / n) + a % n;
    assert n * d == r - a % n by {
      assert n * (a / n) - n * q == n * d;
    }
    AtLeastOnce(n, d);
  }

  lemma {:induction false} AtLeastOnce(n: int, d: int)
    requires n >= 0
    ensures d > 0 ==> n * d >= n
    ensures d < 0 ==> n * d <= -n
  {
    if d > 0 {
      Positive(n, d - 1);
      assert n * d == n * (d - 1) + n;
    } else if d < 0 {
      Positive(n, -d - 1);
      assert n * d == -(n * (-d - 1)) - n;
    }
  }

  lemma Positive(a: int, b: int)
    requires a >= 0 && b >= 0
    ensures a * b >= 0
  {
  }
}
