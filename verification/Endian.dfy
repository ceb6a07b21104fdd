/** Fixed-width little- and big-endian integers. */
module Endian {
  import opened Prelude

  function Pow256(k: nat): (r: nat)
    ensures r >= 1
  {
    if k == 0 then 1 else 0x100 * Pow256(k - 1)
  }

  function ToLe(v: nat, k: nat): (r: seq<byte>)
    ensures |r| == k
  {
    if k == 0 then [] else [v % 0x100] + ToLe(v / 0x100, k - 1)
  }

  function FromLe(b: seq<byte>): (v: nat)
    ensures v < Pow256(|b|)
  {
    if b == [] then 0 else b[0] + 0x100 * FromLe(b[1..])
  }

  function ToBe(v: nat, k: nat): (r: seq<byte>)
    ensures |r| == k
  {
    if k == 0 then [] else ToBe(v / 0x100, k - 1) + [v % 0x100]
  }

  function FromBe(b: seq<byte>): (v: nat)
    ensures v < Pow256(|b|)
  {
    if b == [] then 0 else 0x100 * FromBe(b[..|b| - 1]) + b[|b| - 1]
  }

  lemma {:induction false} LeRoundTrip(v: nat, k: nat)
    requires v < Pow256(k)
    ensures FromLe(ToLe(v, k)) == v
  {
    if k > 0 {
      LeRoundTrip(v / 0x100, k - 1);
      assert ToLe(v, k)[1..] == ToLe(v / 0x100, k - 1);
    }
  }

  lemma {:induction false} LeCanonical(b: seq<byte>)
    ensures ToLe(FromLe(b), |b|) == b
  {
    if b != [] {
      LeCanonical(b[1..]);
      assert FromLe(b) % 0x100 == b[0] && FromLe(b) / 0x100 == FromLe(b[1..]);
    }
  }

  lemma {:induction false} BeRoundTrip(v: nat, k: nat)
    requires v < Pow256(k)
    ensures FromBe(ToBe(v, k)) == v
  {
    if k > 0 {
      BeRoundTrip(v / 0x100, k - 1);
      assert ToBe(v, k)[..k - 1] == ToBe(v / 0x100, k - 1);
    }
  }

  lemma {:induction false} BeCanonical(b: seq<byte>)
    ensures ToBe(FromBe(b), |b|) == b
  {
    if b != [] {
      BeCanonical(b[..|b| - 1]);
      assert FromBe(b) % 0x100 == b[|b| - 1] && FromBe(b) / 0x100 == FromBe(b[..|b| - 1]);
    }
  }

  lemma Widths()
    ensures Pow256(2) == 0x1_0000
    ensures Pow256(4) == 0x1_0000_0000
    ensures Pow256(8) == 0x1_0000_0000_0000_0000
  {
    assert Pow256(2) == 0x1_0000;
    assert Pow256(4) == 0x1_0000 * Pow256(2);
    assert Pow256(6) == 0x1_0000 * Pow256(4);
    assert Pow256(8) == 0x1_0000 * Pow256(6);
  }
}
