/** Padded sizes: the geometric ladder for payloads, the doubling one for secrets. */
module PaddingSizes {
  import opened Prelude

  const PADDING_MIN_SIZE: nat := 10 * 1024
  const LAST_RUNG: nat := 49
  const LARGEST_PAYLOAD: nat := 573_971_850

  datatype Padding = NoPadding | Geometric

  function Pow(b: nat, k: nat): nat {
    if k == 0 then 1 else b * Pow(b, k - 1)
  }

  function Numerator(k: nat): nat { PADDING_MIN_SIZE * Pow(5, k) }

  function Denominator(k: nat): (d: nat)
    ensures d > 0
  {
    PowPositive(4, k);
    Pow(4, k)
  }

  lemma PowPositive(b: nat, k: nat)
    requires b > 0
    ensures Pow(b, k) > 0
  {
  }

  /** The k-th rung of the ladder: 10240 * 5^k / 4^k, rounded down. */
  function Rung(k: nat): nat { Numerator(k) / Denominator(k) }

  lemma {:induction false} NumeratorMonotone(j: nat, k: nat)
    requires j <= k
    ensures Numerator(j) <= Numerator(k)
    decreases k - j
  {
    if j < k { NumeratorMonotone(j, k - 1); }
  }

  lemma {:induction false} DenominatorSmaller(k: nat)
    ensures Denominator(k) <= Numerator(k)
  {
    if k > 0 { DenominatorSmaller(k - 1); }
  }

  lemma {:induction false} PowAdd(b: nat, j: nat, k: nat)
    ensures Pow(b, j + k) == Pow(b, j) * Pow(b, k)
  {
    if j > 0 {
      PowAdd(b, j - 1, k);
      MulAssociates(b, Pow(b, j - 1), Pow(b, k));
      assert Pow(b, j + k) == b * Pow(b, j - 1 + k);
    }
  }

  lemma MulAssociates(x: nat, y: nat, z: nat)
    ensures x * (y * z) == (x * y) * z
  {
  }

  lemma PowerValues(k: nat)
    requires k == LAST_RUNG
    ensures Pow(5, k) == 17763568394002504646778106689453125
    ensures Pow(4, k) == 316912650057057350374175801344
  {
    assert Pow(5, 7) == 78125 && Pow(4, 7) == 16384;
    var i := 7;
    PowAdd(5, i, i); PowAdd(4, i, i);
    PowAdd(5, 2 * i, i); PowAdd(4, 2 * i, i);
    PowAdd(5, 3 * i, 3 * i); PowAdd(4, 3 * i, 3 * i);
    PowAdd(5, 6 * i, i); PowAdd(4, 6 * i, i);
  }

  /** The multiplication that leads past the last rung is the first to overflow 128 bits. */
  lemma LadderEnds(k: nat)
    requires k == LAST_RUNG
    ensures Numerator(k) <= U128_MAX < Numerator(k + 1)
    ensures Rung(k) == LARGEST_PAYLOAD
  {
    PowerValues(k);
  }

  lemma DivLess(n: nat, d: nat, m: nat)
    requires d > 0
    ensures n / d < m <==> n < m * d
  {
    var q, r := n / d, n % d;
    assert n == q * d + r;
    if q < m {
      assert (q + 1) * d <= m * d;
    } else {
      assert m * d <= q * d;
    }
  }

  /** One more rung is at most a quarter larger, and never smaller. */
  lemma RungStep(k: nat)
    ensures Rung(k) <= Rung(k + 1)
    ensures forall len: nat :: Rung(k) < len ==> 4 * Rung(k + 1) < 5 * len
  {
    var n, d := Numerator(k), Denominator(k);
    assert Numerator(k + 1) == 5 * n && Denominator(k + 1) == 4 * d;
    StepFraction(n, d);
  }

  lemma StepFraction(n: nat, d: nat)
    requires d > 0
    ensures n / d <= (5 * n) / (4 * d)
    ensures forall len: nat :: n / d < len ==> 4 * ((5 * n) / (4 * d)) < 5 * len
  {
    var q, t := n / d, (5 * n) / (4 * d);
    DivLess(5 * n, 4 * d, q);
    DivLess(n, d, q);
    assert q * (4 * d) == 4 * (q * d);
    forall len: nat | q < len ensures 4 * t < 5 * len {
      DivLess(n, d, len);
      DivLess(5 * n, 4 * d, t);
      QuarterStep(n, d, t, len);
    }
  }

  lemma QuarterStep(n: nat, d: nat, t: nat, len: nat)
    requires n < len * d && t * (4 * d) <= 5 * n
    ensures 4 * t < 5 * len
  {
    assert t * (4 * d) == (4 * t) * d;
    assert 5 * (len * d) == (5 * len) * d;
    MulLess(4 * t, 5 * len, d);
  }

  lemma MulLess(a: nat, b: nat, d: nat)
    requires a * d < b * d
    ensures a < b
  {
    assert b <= a ==> b * d <= a * d;
  }

  lemma {:induction false} RungMonotone(j: nat, k: nat)
    requires j <= k
    ensures Rung(j) <= Rung(k)
    decreases k - j
  {
    if j < k {
      RungMonotone(j, k - 1);
      RungStep(k - 1);
    }
  }

  /** Index of the first rung at or after `k` that holds `len` bytes. */
  function FirstRung(len: nat, k: nat): (i: nat)
    requires len <= LARGEST_PAYLOAD && k <= LAST_RUNG
    ensures k <= i <= LAST_RUNG && len <= Rung(i) <= LARGEST_PAYLOAD
    ensures forall j :: k <= j < i ==> Rung(j) < len
    decreases LAST_RUNG - k
  {
    if len <= Rung(k) then
      assert Rung(k) <= LARGEST_PAYLOAD by { BelowLast(k); }
      k
    else
      assert k != LAST_RUNG by { BelowLast(k); }
      FirstRung(len, k + 1)
  }

  lemma BelowLast(k: nat)
    requires k <= LAST_RUNG
    ensures Rung(k) <= LARGEST_PAYLOAD
    ensures k == LAST_RUNG ==> Rung(k) == LARGEST_PAYLOAD
    ensures Numerator(k) <= U128_MAX && Denominator(k) <= U128_MAX
    ensures Numerator(k + 1) <= U128_MAX <==> k < LAST_RUNG
  {
    var last := LAST_RUNG;
    LadderEnds(last);
    RungMonotone(k, last);
    NumeratorMonotone(k, last);
    DenominatorSmaller(k);
    if k < last { NumeratorMonotone(k + 1, last); }
  }

  lemma NextRung(len: nat, k: nat)
    requires k <= LAST_RUNG && Rung(k) < len
    ensures Numerator(k + 1) == 5 * Numerator(k) && Denominator(k + 1) == 4 * Denominator(k)
    ensures len <= LARGEST_PAYLOAD ==> k < LAST_RUNG && FirstRung(len, k) == FirstRung(len, k + 1)
  {
    BelowLast(k);
  }

  function GeometricSize(len: nat): (r: Result<usize>)
    ensures r.Ok? ==> len <= r.value
  {
    if len <= LARGEST_PAYLOAD then Ok(Rung(FirstRung(len, 0))) else Err(Error.Padding)
  }

  function PaddedSize(padding: Padding, len: usize): (r: Result<usize>)
    ensures r.Ok? ==> len <= r.value
  {
    match padding
    case NoPadding => Ok(len)
    case Geometric => GeometricSize(len)
  }

  /** The loop over 128-bit fractions, its multiplications checked. */
  method GeometricBucket(len: usize) returns (r: Result<usize>)
    ensures r == GeometricSize(len)
  {
    assert Numerator(0) == PADDING_MIN_SIZE && Denominator(0) == 1;
    hide FirstRung, Numerator, Denominator;
    if len <= PADDING_MIN_SIZE {
      return Ok(PADDING_MIN_SIZE);
    }
    var numerator, denominator := PADDING_MIN_SIZE, 1;
    var target := numerator / denominator;
    ghost var k: nat := 0;
    while target < len
      invariant k <= LAST_RUNG
      invariant numerator == Numerator(k) && denominator == Denominator(k) && target == Rung(k)
      invariant len <= LARGEST_PAYLOAD ==> FirstRung(len, 0) == FirstRung(len, k)
      decreases LAST_RUNG - k
    {
      BelowLast(k);
      NextRung(len, k);
      if numerator * 5 > U128_MAX {
        return Err(Error.Padding);
      }
      numerator := numerator * 5;
      BelowLast(k + 1);
      if denominator * 4 > U128_MAX {
        return Err(Error.Padding);
      }
      denominator := denominator * 4;
      target := numerator / denominator;
      k := k + 1;
    }
    BelowLast(k);
    if target > USIZE_MAX {
      return Err(Error.Padding);
    }
    r := Ok(target);
  }

  /** The padded size is the least rung that holds the payload. */
  lemma GeometricLeast(len: nat, k: nat)
    requires GeometricSize(len).Ok? && len <= Rung(k)
    ensures GeometricSize(len).value <= Rung(k)
  {
    if FirstRung(len, 0) <= k {
      RungMonotone(FirstRung(len, 0), k);
    }
  }

  /** Exactly the lengths up to the last rung can be padded. */
  lemma GeometricAccepts(len: nat, last: nat)
    requires Numerator(last) <= U128_MAX < Numerator(last + 1)
    ensures GeometricSize(len).Ok? <==> len <= Rung(last)
  {
    var k := LAST_RUNG;
    LadderEnds(k);
    if last < k { NumeratorMonotone(last + 1, k); }
    if k < last { NumeratorMonotone(k + 1, last); }
  }

  lemma GeometricMonotone(len: nat, len': nat)
    requires len <= len' <= LARGEST_PAYLOAD
    ensures GeometricSize(len).Ok? && GeometricSize(len').Ok?
    ensures GeometricSize(len).value <= GeometricSize(len').value
  {
    GeometricLeast(len, FirstRung(len', 0));
  }

  lemma GeometricIdempotent(len: nat)
    requires GeometricSize(len).Ok?
    ensures GeometricSize(GeometricSize(len).value) == GeometricSize(len)
  {
    hide Rung;
    GeometricLeast(GeometricSize(len).value, FirstRung(len, 0));
  }

  lemma FirstRungValue()
    ensures Rung(0) == PADDING_MIN_SIZE
  {
  }

  /** Above the minimum, padding adds less than a quarter. */
  lemma GeometricTight(len: nat)
    requires PADDING_MIN_SIZE < len <= LARGEST_PAYLOAD
    ensures GeometricSize(len).Ok? && 4 * GeometricSize(len).value < 5 * len
  {
    hide Rung;
    assert Rung(0) == PADDING_MIN_SIZE by { FirstRungValue(); }
    var i := FirstRung(len, 0);
    RungStep(i - 1);
    assert Rung(i - 1) < len;
  }

  // The counts a set of secrets may be padded to.
  const COUNT_LADDER: seq<nat> := [5, 10, 20, 40, 80, 160, 255]

  /** The least count of the ladder that holds `len` secrets. */
  function DoublingSize(len: nat): (r: Result<nat>)
    ensures r.Ok? <==> len <= U8_MAX
    ensures r.Ok? ==> len <= r.value && r.value in COUNT_LADDER
    ensures r.Ok? ==> forall c :: c in COUNT_LADDER && len <= c ==> r.value <= c
    ensures r.Err? ==> r.error == IndividualSecretsLength
  {
    if len > U8_MAX then Err(IndividualSecretsLength)
    else if len <= 5 then assert COUNT_LADDER[0] == 5; Ok(5)
    else if len <= 10 then assert COUNT_LADDER[1] == 10; Ok(10)
    else if len <= 20 then assert COUNT_LADDER[2] == 20; Ok(20)
    else if len <= 40 then assert COUNT_LADDER[3] == 40; Ok(40)
    else if len <= 80 then assert COUNT_LADDER[4] == 80; Ok(80)
    else if len <= 160 then assert COUNT_LADDER[5] == 160; Ok(160)
    else assert COUNT_LADDER[6] == 255; Ok(255)
  }

  method DoublingBucket(len: nat) returns (r: Result<nat>)
    ensures r == DoublingSize(len)
  {
    if len > U8_MAX {
      return Err(IndividualSecretsLength);
    }
    var bucket := 5;
    while bucket < len
      invariant bucket in {5, 10, 20, 40, 80, 160, 320}
      invariant bucket > 5 ==> bucket < 2 * len
      decreases 320 - bucket
    {
      bucket := bucket * 2;
    }
    r := Ok(if bucket <= U8_MAX then bucket else U8_MAX);
  }
}
