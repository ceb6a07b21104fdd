/** The variable-length integers of the wire format. */
module CompactSize {
  import opened Prelude
  import opened Endian
  import opened Framing

  function Encode(value: u64): (out: seq<byte>)
    ensures 1 <= |out| <= 9
  {
    if value <= 0xFC then [value]
    else if value <= 0xFFFF then [0xFD] + ToLe(value, 2)
    else if value <= 0xFFFF_FFFF then [0xFE] + ToLe(value, 4)
    else [0xFF] + ToLe(value, 8)
  }

  /** Encode by appending to a byte vector. */
  method EncodeTo(value: u64) returns (out: seq<byte>)
    ensures out == Encode(value)
  {
    out := [];
    if value <= 0xFC {
      out := out + [value];
    } else if value <= 0xFFFF {
      out := out + [0xFD];
      out := out + ToLe(value, 2);
    } else if value <= 0xFFFF_FFFF {
      out := out + [0xFE];
      out := out + ToLe(value, 4);
    } else {
      out := out + [0xFF];
      out := out + ToLe(value, 8);
    }
  }

  /** The value at the start of `bytes` and the number of bytes it takes. */
  function Parse(bytes: seq<byte>): (r: Option<(u64, usize)>)
    ensures r.Some? ==> 1 <= r.value.1 <= |bytes| && r.value.1 <= 9
  {
    Widths();
    if bytes == [] then None
    else if bytes[0] == 0xFF then
      if |bytes| < 9 then None
      else
        var value := FromLe(bytes[1..9]);
        if value >= 0x1_0000_0000 then Some((value, 9)) else None
    else if bytes[0] == 0xFE then
      if |bytes| < 5 then None
      else
        var value := FromLe(bytes[1..5]);
        if value >= 0x1_0000 then Some((value, 5)) else None
    else if bytes[0] == 0xFD then
      if |bytes| < 3 then None
      else
        var value := FromLe(bytes[1..3]);
        if value >= 0xFD then Some((value, 3)) else None
    else Some((bytes[0], 1))
  }

  /** Every value parses back, whatever follows it. */
  lemma ParseEncode(value: u64, rest: seq<byte>)
    ensures Parse(Encode(value) + rest) == Some((value, |Encode(value)|))
  {
    Widths();
    var b := Encode(value) + rest;
    if value <= 0xFC {
    } else if value <= 0xFFFF {
      LeRoundTrip(value, 2);
      assert b[1..3] == ToLe(value, 2);
    } else if value <= 0xFFFF_FFFF {
      LeRoundTrip(value, 4);
      assert b[1..5] == ToLe(value, 4);
    } else {
      LeRoundTrip(value, 8);
      assert b[1..9] == ToLe(value, 8);
    }
  }

  /** Only the minimal encoding of a value is accepted. */
  lemma ParseIsEncoding(bytes: seq<byte>)
    requires Parse(bytes).Some?
    ensures var (value, n) := Parse(bytes).value;
            n <= |bytes| && bytes[..n] == Encode(value)
  {
    Widths();
    var (value, n) := Parse(bytes).value;
    if n > 1 {
      LeCanonical(bytes[1..n]);
      assert bytes[..n] == [bytes[0]] + bytes[1..n];
    }
  }

  /** CompactSize is a minimal prefix code. */
  lemma ParseIff(bytes: seq<byte>, value: u64, n: usize)
    ensures Parse(bytes) == Some((value, n))
            <==> n == |Encode(value)| && Encode(value) <= bytes
  {
    if Parse(bytes) == Some((value, n)) {
      ParseIsEncoding(bytes);
    }
    if Encode(value) <= bytes {
      ParseEncode(value, bytes[|Encode(value)|..]);
      assert Encode(value) + bytes[|Encode(value)|..] == bytes;
    }
  }

  /** The same, for an integer inside a larger buffer. */
  lemma ParseAt(bytes: seq<byte>, off: nat, value: u64)
    requires At(bytes, off, Encode(value))
    ensures Parse(bytes[off..]) == Some((value, |Encode(value)|))
  {
    AtPrefix(bytes, off, Encode(value));
    ParseIff(bytes[off..], value, |Encode(value)|);
  }

  lemma ParsedAt(bytes: seq<byte>, off: nat)
    requires off <= |bytes| && Parse(bytes[off..]).Some?
    ensures var (value, n) := Parse(bytes[off..]).value;
            n == |Encode(value)| && At(bytes, off, Encode(value))
  {
    var (value, n) := Parse(bytes[off..]).value;
    ParseIff(bytes[off..], value, n);
    AtPrefix(bytes, off, Encode(value));
  }
}
