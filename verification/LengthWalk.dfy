/** The walk over the ciphertext lengths of a container and of payloads after it. */
module LengthWalk {
  import opened Prelude
  import opened Framing
  import opened Offsets
  import opened Container
  import opened ContainerProofs
  import opened Frames
  import CompactSize

  /** Length of the ciphertext framed at `offset`, and the offset after it. */
  function ParsePayloadLength(bytes: Slice, offset: usize): (r: Result<(usize, usize)>)
    requires offset <= |bytes|
    ensures r.Ok? ==> offset + 13 <= r.value.1 <= |bytes|
  {
    var _ :- CheckOffsetLookahead(offset, bytes, 12);
    var nonce := bytes[offset..Add(offset, 12)];
    if nonce == ZERO12 then Err(ZeroedNonce)
    else
      var o1 :- OkOr(CheckedAdd(offset, 12), OffsetOverflow);
      var length :- OkOr(CompactSize.Parse(bytes[o1..]), VarInt);
      var dataLen :- OkOr(ToUsize(length.0), DataLength);
      var o2 :- OkOr(CheckedAdd(o1, length.1), OffsetOverflow);
      var end :- OkOr(CheckedAdd(o2, dataLen), OffsetOverflow);
      if end > |bytes| then Err(Corrupted) else Ok((dataLen, end))
  }

  /** Payloads from `offset` on, up to the first that does not parse. */
  function WalkFrom(bytes: Slice, offset: usize): seq<usize>
    requires offset <= |bytes|
    decreases |bytes| - offset
  {
    if offset == |bytes| then []
    else
      match ParsePayloadLength(bytes, offset)
      case Err(_) => []
      case Ok((dataLen, end)) => [dataLen] + WalkFrom(bytes, end)
  }

  function ParsePayloadLengths(bytes: Slice): Result<seq<usize>> {
    if bytes == [] then Err(EmptyBytes)
    else
      var first :- ParsePayloadLength(bytes, 0);
      Ok([first.0] + WalkFrom(bytes, first.1))
  }

  method ParsePayloadLengthsLoop(bytes: Slice) returns (r: Result<seq<usize>>)
    ensures r == ParsePayloadLengths(bytes)
  {
    hide ParsePayloadLength;
    if bytes == [] {
      return Err(EmptyBytes);
    }
    var first :- ParsePayloadLength(bytes, 0);
    var (dataLen, offset) := first;
    var lengths := [dataLen];
    assert [dataLen] + WalkFrom(bytes, offset) == lengths + WalkFrom(bytes, offset);
    while offset < |bytes|
      invariant offset <= |bytes|
      invariant [dataLen] + WalkFrom(bytes, first.1) == lengths + WalkFrom(bytes, offset)
      decreases |bytes| - offset
    {
      var next := ParsePayloadLength(bytes, offset);
      if next.Err? {
        break;
      }
      var len := next.value.0;
      assert lengths + ([len] + WalkFrom(bytes, next.value.1)) == (lengths + [len]) + WalkFrom(bytes, next.value.1);
      lengths := lengths + [next.value.0];
      offset := next.value.1;
    }
    assert WalkFrom(bytes, offset) == [] && lengths + [] == lengths;
    r := Ok(lengths);
  }

  function DecodeLengths(bytes: Slice): Result<seq<usize>> {
    var h :- ParseV1Header(bytes);
    ParsePayloadLengths(bytes[h.offset..])
  }

  /** Bytes a ciphertext of length `len` takes with its nonce and its length. */
  function Framed(len: usize): nat {
    12 + |CompactSize.Encode(len)| + len
  }

  /** A payload is found exactly where a non-zero nonce, a length and that many bytes stand. */
  lemma PayloadLengthIff(bytes: Slice, offset: usize, len: usize, end: nat)
    requires offset <= |bytes|
    ensures ParsePayloadLength(bytes, offset) == Ok((len, end))
            <==>
            && end == offset + Framed(len) <= |bytes|
            && bytes[offset..offset + 12] != ZERO12
            && At(bytes, offset + 12, CompactSize.Encode(len))
  {
    hide CompactSize.Encode, CompactSize.Parse;
    if offset + 12 <= |bytes| {
      var o1 := offset + 12;
      if CompactSize.Parse(bytes[o1..]).Some? { CompactSize.ParsedAt(bytes, o1); }
      if At(bytes, o1, CompactSize.Encode(len)) { CompactSize.ParseAt(bytes, o1, len); }
    }
  }

  lemma PayloadAt(bytes: Slice, offset: usize, nonce: Nonce, ciphertext: Slice)
    requires offset <= |bytes| && nonce != ZERO12
    requires At(bytes, offset, PayloadBytes(nonce, ciphertext))
    ensures ParsePayloadLength(bytes, offset) == Ok((|ciphertext|, offset + |PayloadBytes(nonce, ciphertext)|))
  {
    hide CompactSize.Encode, CompactSize.Parse, ParsePayloadLength;
    var length := CompactSize.Encode(|ciphertext|);
    AtConcat(bytes, offset, nonce + length, ciphertext);
    AtConcat(bytes, offset, nonce, length);
    PayloadLengthIff(bytes, offset, |ciphertext|, offset + Framed(|ciphertext|));
  }

  /** The first step accepts exactly what the payload parser accepts, with its length. */
  lemma FirstLength(b: Slice)
    ensures ParsePayloadLengths(b).Ok? <==> ParseEncryptedPayload(b).Ok?
    ensures ParsePayloadLengths(b).Ok? ==>
              ParsePayloadLengths(b).value[0] == |ParseEncryptedPayload(b).value.1|
  {
    hide ParseEncryptedPayload, ParsePayloadLength, CompactSize.Encode;
    if ParseEncryptedPayload(b).Ok? {
      var (nonce, ciphertext) := ParseEncryptedPayload(b).value;
      ParsePayloadIff(b, nonce, ciphertext);
      assert b[0..] == b;
      AtPrefix(b, 0, PayloadBytes(nonce, ciphertext));
      PayloadAt(b, 0, nonce, ciphertext);
    } else if b != [] && ParsePayloadLength(b, 0).Ok? {
      var (len, end) := ParsePayloadLength(b, 0).value;
      PayloadLengthIff(b, 0, len, end);
      var nonce: Nonce := b[0..12];
      var ciphertext := b[end - len..end];
      var length := CompactSize.Encode(len);
      assert b[12..12 + |length|] == length;
      assert b[..end] == nonce + length + ciphertext;
      ParsePayloadIff(b, nonce, ciphertext);
    }
  }

  /** The walk accepts exactly when the decoder does, and starts with its ciphertext. */
  lemma WalkAgrees(b: Slice)
    ensures DecodeLengths(b).Ok? <==> DecodeV1(b).Ok?
    ensures DecodeLengths(b).Ok? ==> DecodeLengths(b).value[0] == |DecodeV1(b).value.ciphertext|
  {
    hide ParseV1Header, ParseEncryptedPayload, ParsePayloadLengths;
    if ParseV1Header(b).Ok? {
      FirstLength(b[ParseV1Header(b).value.offset..]);
    }
  }

  function FramedTotal(lengths: seq<usize>): nat {
    if lengths == [] then 0 else Framed(lengths[0]) + FramedTotal(lengths[1..])
  }

  lemma {:induction false} WalkFits(bytes: Slice, offset: usize)
    requires offset <= |bytes|
    ensures offset + FramedTotal(WalkFrom(bytes, offset)) <= |bytes|
    ensures 13 * |WalkFrom(bytes, offset)| <= |bytes| - offset
    decreases |bytes| - offset
  {
    hide ParsePayloadLength, Framed;
    if offset < |bytes| && ParsePayloadLength(bytes, offset).Ok? {
      var (len, end) := ParsePayloadLength(bytes, offset).value;
      PayloadLengthIff(bytes, offset, len, end);
      WalkFits(bytes, end);
      assert WalkFrom(bytes, offset)[1..] == WalkFrom(bytes, end);
    }
  }

  /** The framed sizes never add up past the input. */
  lemma LengthsFit(b: Slice)
    requires DecodeLengths(b).Ok?
    ensures ParseV1Header(b).value.offset + FramedTotal(DecodeLengths(b).value) <= |b|
    ensures 13 * |DecodeLengths(b).value| <= |b|
  {
    hide ParseV1Header, ParsePayloadLength, WalkFrom, FramedTotal;
    var rest := b[ParseV1Header(b).value.offset..];
    var first := ParsePayloadLength(rest, 0).value;
    WalkFits(rest, 0);
    WalkStep(rest, 0);
  }

  lemma WalkStep(bytes: Slice, offset: usize)
    requires offset < |bytes| && ParsePayloadLength(bytes, offset).Ok?
    ensures var (len, end) := ParsePayloadLength(bytes, offset).value;
            WalkFrom(bytes, offset) == [len] + WalkFrom(bytes, end)
  {
    hide ParsePayloadLength;
  }

  // ----- payloads back to back

  ghost predicate NonzeroNonces(payloads: seq<(Nonce, Slice)>) {
    forall i :: 0 <= i < |payloads| ==> payloads[i].0 != ZERO12
  }

  function Chain(payloads: seq<(Nonce, Slice)>): seq<byte> {
    if payloads == [] then [] else PayloadBytes(payloads[0].0, payloads[0].1) + Chain(payloads[1..])
  }

  function LengthsOf(payloads: seq<(Nonce, Slice)>): (r: seq<usize>)
    ensures |r| == |payloads|
    ensures forall i :: 0 <= i < |r| ==> r[i] == |payloads[i].1|
  {
    seq(|payloads|, i requires 0 <= i < |payloads| => |payloads[i].1|)
  }

  /** No framed payload with a non-zero nonce stands at the start of `rest`. */
  ghost predicate NoPayload(rest: seq<byte>) {
    forall nonce: Nonce, ciphertext: Slice :: nonce != ZERO12 ==> !(PayloadBytes(nonce, ciphertext) <= rest)
  }

  lemma StopsThere(bytes: Slice, offset: usize)
    requires offset < |bytes| && NoPayload(bytes[offset..])
    ensures ParsePayloadLength(bytes, offset).Err?
  {
    hide ParsePayloadLength, CompactSize.Encode;
    if ParsePayloadLength(bytes, offset).Ok? {
      var (len, end) := ParsePayloadLength(bytes, offset).value;
      PayloadLengthIff(bytes, offset, len, end);
      var nonce: Nonce := bytes[offset..offset + 12];
      var ciphertext: Slice := bytes[end - len..end];
      var length := CompactSize.Encode(len);
      AtConcat(bytes, offset, nonce, length);
      AtConcat(bytes, offset, nonce + length, ciphertext);
      AtPrefix(bytes, offset, PayloadBytes(nonce, ciphertext));
    }
  }

  lemma {:induction false} WalkChain(
    bytes: Slice, offset: usize, payloads: seq<(Nonce, Slice)>, rest: seq<byte>)
    requires offset <= |bytes| && bytes[offset..] == Chain(payloads) + rest
    requires NonzeroNonces(payloads) && NoPayload(rest)
    ensures WalkFrom(bytes, offset) == LengthsOf(payloads)
    decreases |payloads|
  {
    hide ParsePayloadLength, PayloadBytes, NoPayload;
    if payloads == [] {
      assert Chain(payloads) + rest == rest;
      if offset < |bytes| {
        StopsThere(bytes, offset);
      }
    } else {
      var (nonce, ciphertext) := payloads[0];
      var p := PayloadBytes(nonce, ciphertext);
      PayloadNonempty(nonce, ciphertext);
      assert Chain(payloads) + rest == p + (Chain(payloads[1..]) + rest);
      assert bytes[offset..][..|p|] == p && bytes[offset..][|p|..] == Chain(payloads[1..]) + rest;
      DropDrop(bytes, offset, |p|);
      AtPrefix(bytes, offset, p);
      PayloadAt(bytes, offset, nonce, ciphertext);
      WalkChain(bytes, offset + |p|, payloads[1..], rest);
      assert LengthsOf(payloads) == [|ciphertext|] + LengthsOf(payloads[1..]);
    }
  }

  /**
   After a header, payloads back to back are all listed, in order, and what follows the
   last of them ends the list, whatever it holds further on.
   */
  lemma ChainListed(b: Slice, payloads: seq<(Nonce, Slice)>, rest: seq<byte>)
    requires ParseV1Header(b).Ok? && payloads != [] && NonzeroNonces(payloads) && NoPayload(rest)
    requires b[ParseV1Header(b).value.offset..] == Chain(payloads) + rest
    ensures DecodeLengths(b) == Ok(LengthsOf(payloads))
  {
    hide ParseV1Header, ParsePayloadLength, WalkFrom, Chain, NoPayload;
    var tail := b[ParseV1Header(b).value.offset..];
    assert tail[0..] == tail;
    WalkChain(tail, 0, payloads, rest);
    WalkNonempty(tail);
    if ParsePayloadLength(tail, 0).Ok? { WalkStep(tail, 0); }
  }

  lemma WalkNonempty(bytes: Slice)
    ensures WalkFrom(bytes, 0) != [] ==> bytes != [] && ParsePayloadLength(bytes, 0).Ok?
  {
    hide ParsePayloadLength;
  }
}
