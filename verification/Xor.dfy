/** Exclusive or of bytes and of 32-byte strings, bit by bit. */
module Xor {
  import opened Prelude

  function Pow2(n: nat): (r: nat)
    ensures r >= 1
  {
    if n == 0 then 1 else 2 * Pow2(n - 1)
  }

  function XorBits(a: nat, b: nat, n: nat): (r: nat)
    ensures r < Pow2(n)
  {
    if n == 0 then 0 else (a % 2 + b % 2) % 2 + 2 * XorBits(a / 2, b / 2, n - 1)
  }

  lemma {:induction false} XorBitsCommutes(a: nat, b: nat, n: nat)
    ensures XorBits(a, b, n) == XorBits(b, a, n)
  {
    if n > 0 { XorBitsCommutes(a / 2, b / 2, n - 1); }
  }

  lemma {:induction false} XorBitsCancels(a: nat, b: nat, n: nat)
    requires a < Pow2(n)
    ensures XorBits(XorBits(a, b, n), b, n) == a
  {
    if n > 0 {
      var rest := XorBits(a / 2, b / 2, n - 1);
      XorBitsCancels(a / 2, b / 2, n - 1);
      BitCancels(a, b, rest);
      assert XorBits(a, b, n) == (a % 2 + b % 2) % 2 + 2 * rest;
    }
  }

  lemma BitCancels(a: nat, b: nat, rest: nat)
    ensures var x := (a % 2 + b % 2) % 2 + 2 * rest;
            x / 2 == rest && (x % 2 + b % 2) % 2 == a % 2
  {
  }

  lemma {:induction false} XorBitsZero(a: nat, b: nat, n: nat)
    requires a < Pow2(n) && b < Pow2(n)
    ensures XorBits(a, b, n) == 0 <==> a == b
  {
    if n > 0 { XorBitsZero(a / 2, b / 2, n - 1); }
  }

  lemma ByteWidth()
    ensures Pow2(8) == 0x100
  {
    assert Pow2(4) == 0x10;
    assert Pow2(8) == 0x10 * Pow2(4);
  }

  function XorByte(a: byte, b: byte): byte {
    ByteWidth();
    XorBits(a, b, 8)
  }

  function Xor32(a: Bytes32, b: Bytes32): (r: Bytes32)
    ensures forall i :: 0 <= i < 32 ==> r[i] == XorByte(a[i], b[i])
  {
    seq(32, i requires 0 <= i < 32 => XorByte(a[i], b[i]))
  }

  method XorLoop(a: Bytes32, b: Bytes32) returns (out: array<byte>)
    ensures fresh(out) && out.Length == 32 && out[..] == Xor32(a, b)
  {
    out := new byte[32](i => 0);
    for i := 0 to 32
      invariant forall k :: 0 <= k < i ==> out[k] == XorByte(a[k], b[k])
    {
      out[i] := XorByte(a[i], b[i]);
    }
  }

  lemma XorCommutes(a: Bytes32, b: Bytes32)
    ensures Xor32(a, b) == Xor32(b, a)
  {
    forall i | 0 <= i < 32 ensures Xor32(a, b)[i] == Xor32(b, a)[i] {
      XorBitsCommutes(a[i], b[i], 8);
    }
  }

  /** Masking twice with the same string gives the original back. */
  lemma XorCancels(a: Bytes32, b: Bytes32)
    ensures Xor32(Xor32(a, b), b) == a
  {
    ByteWidth();
    forall i | 0 <= i < 32 ensures Xor32(Xor32(a, b), b)[i] == a[i] {
      XorBitsCancels(a[i], b[i], 8);
    }
  }

  /** Only equal strings cancel out. */
  lemma XorZero(a: Bytes32, b: Bytes32)
    ensures Xor32(a, b) == ZERO32 <==> a == b
  {
    ByteWidth();
    forall i | 0 <= i < 32 ensures Xor32(a, b)[i] == 0 <==> a[i] == b[i] {
      XorBitsZero(a[i], b[i], 8);
    }
    assert forall i :: 0 <= i < 32 ==> ZERO32[i] == 0;
  }
}
