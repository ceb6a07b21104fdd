/** Shared value types: bytes, machine integers, and the error values of the core. */
module Prelude {

  datatype Option<+T> = None | Some(value: T)

  datatype Result<+T> = Ok(value: T) | Err(error: Error) {
    predicate IsFailure() {
      Err?
    }

    function PropagateFailure<U>(): Result<U>
      requires Err?
    {
      Err(error)
    }

    function Extract(): T
      requires Ok?
    {
      value
    }
  }

  // The errors of the core, in its own order. The last three are not error values
  // there: a vector larger than `ISIZE_MAX` bytes panics, so does the sanity
  // assertion on c_i, and a random source with nothing left to give blocks.
  datatype Error =
    | KeyCount | DerivPathCount | DerivPathLength | DerivPathEmpty | DataLength
    | Encrypt | Decrypt | Corrupted | Version | Magic | VarInt | WrongKey
    | IndividualSecretsEmpty | IndividualSecretsLength
    | CypherTextEmpty | CypherTextLength | ContentMetadata | Encryption
    | OffsetOverflow | EmptyBytes | Increment | ContentMetadataEmpty | ContentEnd
    | EncryptionReserved | ZeroedNonce | Padding
    | CapacityOverflow | SecretCollapsed | RngBlocked

  type byte = x: nat | x < 0x100
  type u16 = x: nat | x < 0x1_0000
  type u32 = x: nat | x < 0x1_0000_0000
  type u64 = x: nat | x < 0x1_0000_0000_0000_0000

  const U8_MAX: nat := 0xFF
  const U32_MAX: nat := 0xFFFF_FFFF
  const U128_MAX: nat := 0xFFFF_FFFF_FFFF_FFFF_FFFF_FFFF_FFFF_FFFF

  // A machine word is 32 or 64 bits wide; nothing below fixes which.
  type WordMax = m: nat | m == 0xFFFF_FFFF || m == 0xFFFF_FFFF_FFFF_FFFF
    witness 0xFFFF_FFFF
  const USIZE_MAX: WordMax
  const ISIZE_MAX: nat := USIZE_MAX / 2

  type usize = x: nat | x <= USIZE_MAX

  // A byte slice: the language bounds its length by `ISIZE_MAX`.
  type Slice = s: seq<byte> | |s| <= ISIZE_MAX witness []

  type Bytes32 = s: seq<byte> | |s| == 32 witness seq(32, i => 0)
  type Nonce = s: seq<byte> | |s| == 12 witness seq(12, i => 0)

  const ZERO32: Bytes32 :=
    [0, 0, 0, 0, 0, 0, 0, 0, 0, 0, 0, 0, 0, 0, 0, 0, 0, 0, 0, 0, 0, 0, 0, 0, 0, 0, 0, 0, 0, 0, 0, 0]
  const ZERO12: Nonce := [0, 0, 0, 0, 0, 0, 0, 0, 0, 0, 0, 0]

  /** Checked addition on `usize`. */
  function CheckedAdd(a: usize, b: usize): Option<usize> {
    if a + b <= USIZE_MAX then Some(a + b) else None
  }

  /** Addition the source leaves unchecked: each use proves that it cannot wrap. */
  function Add(a: usize, b: usize): usize
    requires a + b <= USIZE_MAX
  {
    a + b
  }

  /** A value read from 64 bits of the wire, converted to `usize`. */
  function ToUsize(v: u64): Option<usize> {
    if v <= USIZE_MAX then Some(v) else None
  }

  /** Growing a vector past `ISIZE_MAX` bytes panics. */
  function Allocate(v: seq<byte>): Result<Slice> {
    if |v| <= ISIZE_MAX then Ok(v) else Err(CapacityOverflow)
  }

  /** Position of the first element equal to `x`, or the length. */
  function Position<T(==)>(s: seq<T>, x: T): (i: nat)
    ensures i <= |s|
    ensures i < |s| ==> s[i] == x
    ensures i == |s| <==> x !in s
  {
    if s == [] then 0
    else if s[0] == x then 0
    else
      assert s == [s[0]] + s[1..];
      1 + Position(s[1..], x)
  }

  /** Every element once, where it first occurs. */
  function Once<T(==, !new)>(s: seq<T>): (r: seq<T>)
    ensures forall x :: x in r <==> x in s
  {
    if s == [] then []
    else
      var n := |s| - 1;
      assert s == s[..n] + [s[n]];
      var before := Once(s[..n]);
      if s[n] in before then before else before + [s[n]]
  }
}
