/** The plaintext payload: content items, then padding. */
module Payload {
  import opened Prelude
  import opened Contents
  import opened Offsets
  import opened Framing
  import opened PaddingSizes
  import CompactSize

  // An item as the encoder takes it, its content type already in bytes.
  type RawItem = (seq<byte>, Slice)

  // An item as the decoder returns it.
  type Item = (Content, Slice)

  function EncodeItem(item: RawItem): seq<byte> {
    item.0 + CompactSize.Encode(|item.1|) + item.1
  }

  function EncodeItems(items: seq<RawItem>): (r: seq<seq<byte>>)
    ensures |r| == |items|
    ensures forall i :: 0 <= i < |r| ==> r[i] == EncodeItem(items[i])
  {
    seq(|items|, i requires 0 <= i < |items| => EncodeItem(items[i]))
  }

  /** The items back to back, before padding. */
  function Concat(items: seq<RawItem>): seq<byte> {
    Flatten(EncodeItems(items))
  }

  lemma ConcatHead(items: seq<RawItem>)
    requires items != []
    ensures Concat(items) == EncodeItem(items[0]) + Concat(items[1..])
  {
    hide EncodeItem;
    assert EncodeItems(items)[1..] == EncodeItems(items[1..]);
  }

  lemma ConcatLast(items: seq<RawItem>, item: RawItem)
    ensures Concat(items + [item]) == Concat(items) + EncodeItem(item)
  {
    hide EncodeItem;
    FlattenAppend(EncodeItems(items), EncodeItem(item));
    assert EncodeItems(items + [item]) == EncodeItems(items) + [EncodeItem(item)];
  }

  /** `Vec::resize`: cut, or fill with zeros. */
  function Resize(v: seq<byte>, n: nat): (r: seq<byte>)
    ensures |r| == n
  {
    if n <= |v| then v[..n] else v + seq(n - |v|, i => 0)
  }

  function EncodePlaintext(items: seq<RawItem>, padding: Padding): (r: Result<Slice>) {
    if items == [] then Err(EmptyBytes)
    else
      var payload :- Allocate(Concat(items));
      var target :- PaddedSize(padding, |payload|);
      Allocate(Resize(payload, target))
  }

  lemma PushedInTurn(before: seq<byte>, content: seq<byte>, length: seq<byte>, data: seq<byte>)
    ensures before + content + length + data == before + (content + length + data)
  {
  }

  method EncodePlaintextLoop(items: seq<RawItem>, padding: Padding) returns (r: Result<Slice>)
    ensures r == EncodePlaintext(items, padding)
  {
    if items == [] {
      return Err(EmptyBytes);
    }
    hide Concat, CompactSize.Encode, Resize;
    var payload := [];
    NoItems();
    assert items[..0] == [];
    for i := 0 to |items|
      invariant payload == Concat(items[..i])
    {
      ConcatLast(items[..i], items[i]);
      assert items[..i + 1] == items[..i] + [items[i]];
      payload := payload + items[i].0;
      var length := CompactSize.EncodeTo(|items[i].1|);
      payload := payload + length;
      payload := payload + items[i].1;
      PushedInTurn(Concat(items[..i]), items[i].0, length, items[i].1);
    }
    assert items[..|items|] == items;
    var buffer :- Allocate(payload);
    var target;
    match padding {
      case NoPadding => target := |buffer|;
      case Geometric =>
        var bucket := GeometricBucket(|buffer|);
        target :- bucket;
    }
    r := Allocate(Resize(buffer, target));
  }

  /** One item at `offset`, and the offset after it. */
  function DecodeItem(bytes: Slice, offset: usize): (r: Result<(Item, usize)>)
    requires offset < |bytes|
    ensures r.Ok? ==> offset < r.value.1 <= |bytes|
  {
    var (incr, content) :- ParseContent(bytes[offset..]);
    var offset :- OkOr(CheckedAdd(offset, incr), OffsetOverflow);
    var (dataLen, incr) :- OkOr(CompactSize.Parse(bytes[offset..]), DataLength);
    var offset :- OkOr(CheckedAdd(offset, incr), OffsetOverflow);
    var dataLen :- OkOr(ToUsize(dataLen), DataLength);
    var end :- OkOr(CheckedAdd(offset, dataLen), OffsetOverflow);
    if end > |bytes| then Err(Corrupted)
    else Ok(((content, bytes[offset..end]), end))
  }

  /** Items from `offset` to the first zero type byte, or to the end. */
  function DecodeFrom(bytes: Slice, offset: usize): Result<seq<Item>>
    requires offset <= |bytes|
    decreases |bytes| - offset
  {
    if offset == |bytes| || bytes[offset] == CONTENT_END then Ok([])
    else
      var (item, end) :- DecodeItem(bytes, offset);
      Prepend([item], DecodeFrom(bytes, end))
  }

  function DecodePlaintext(bytes: Slice): Result<seq<Item>> {
    if bytes == [] then Err(EmptyBytes)
    else
      var items :- DecodeFrom(bytes, 0);
      if items == [] then Err(EmptyBytes) else Ok(items)
  }

  method DecodePlaintextLoop(bytes: Slice) returns (r: Result<seq<Item>>)
    ensures r == DecodePlaintext(bytes)
  {
    if bytes == [] {
      return Err(EmptyBytes);
    }
    var items: seq<Item> := [];
    var offset: usize := 0;
    PrependNothing(DecodeFrom(bytes, 0));
    while offset < |bytes|
      invariant offset <= |bytes|
      invariant DecodeFrom(bytes, 0) == Prepend(items, DecodeFrom(bytes, offset))
    {
      if bytes[offset] == CONTENT_END {
        break;
      }
      var next :- DecodeItem(bytes, offset);
      var (item, end) := next;
      PrependMore(items, item, DecodeFrom(bytes, end));
      items := items + [item];
      offset := end;
    }
    PrependLast(items);
    if items == [] {
      return Err(EmptyBytes);
    }
    r := Ok(items);
  }

  // ----- what the two say about each other

  ghost predicate Writable(items: seq<Item>) {
    forall i :: 0 <= i < |items| ==> HasBytes(items[i].0)
  }

  function Raw(item: Item): RawItem
    requires HasBytes(item.0)
  {
    (ToBytes(item.0).value, item.1)
  }

  function RawItems(items: seq<Item>): (r: seq<RawItem>)
    requires Writable(items)
    ensures |r| == |items|
    ensures forall i :: 0 <= i < |items| ==> r[i] == Raw(items[i])
  {
    seq(|items|, i requires 0 <= i < |items| => Raw(items[i]))
  }

  function NormalItems(items: seq<Item>): (r: seq<Item>)
    ensures |r| == |items|
    ensures forall i :: 0 <= i < |items| ==> r[i] == (Normal(items[i].0), items[i].1)
  {
    seq(|items|, i requires 0 <= i < |items| => (Normal(items[i].0), items[i].1))
  }

  /** The items the decoder can report without loss: none of unknown type. */
  ghost predicate AllKnown(items: seq<Item>) {
    forall i :: 0 <= i < |items| ==> !items[i].0.Unknown?
  }

  /** What is left after the items is nothing, or starts with the terminator. */
  predicate Ends(rest: seq<byte>) {
    rest == [] || rest[0] == CONTENT_END
  }

  lemma EncodedItemAt(bytes: Slice, off: nat, item: RawItem)
    ensures At(bytes, off, EncodeItem(item))
            <==>
            && At(bytes, off, item.0)
            && At(bytes, off + |item.0|, CompactSize.Encode(|item.1|))
            && At(bytes, off + |item.0| + |CompactSize.Encode(|item.1|)|, item.1)
  {
    hide CompactSize.Encode;
    AtConcat(bytes, off, item.0 + CompactSize.Encode(|item.1|), item.1);
    AtConcat(bytes, off, item.0, CompactSize.Encode(|item.1|));
  }

  lemma DecodeEncodedItem(item: Item, bytes: Slice, offset: usize)
    requires HasBytes(item.0) && offset < |bytes|
    requires At(bytes, offset, EncodeItem(Raw(item)))
    ensures DecodeItem(bytes, offset)
            == Ok(((Normal(item.0), item.1), offset + |EncodeItem(Raw(item))|))
  {
    hide ToBytes, ParseContent, Normal, CompactSize.Encode, CompactSize.Parse;
    EncodedItemAt(bytes, offset, Raw(item));
    ParseContentAt(bytes, offset, item.0);
    CompactSize.ParseAt(bytes, offset + |ToBytes(item.0).value|, |item.1|);
  }

  lemma DecodedItemIsEncoded(bytes: Slice, offset: usize)
    requires offset < |bytes| && DecodeItem(bytes, offset).Ok?
    requires !DecodeItem(bytes, offset).value.0.0.Unknown?
    ensures var (item, end) := DecodeItem(bytes, offset).value;
            && HasBytes(item.0) && Normal(item.0) == item.0
            && end == offset + |EncodeItem(Raw(item))|
            && At(bytes, offset, EncodeItem(Raw(item)))
  {
    hide ToBytes, ParseContent, Normal, CompactSize.Encode, CompactSize.Parse;
    var (item, end) := DecodeItem(bytes, offset).value;
    ParsedContentAt(bytes, offset);
    CompactSize.ParsedAt(bytes, offset + |ToBytes(item.0).value|);
    EncodedItemAt(bytes, offset, Raw(item));
  }

  lemma {:induction false} DecodeEncoded(items: seq<Item>, bytes: Slice, offset: usize)
    requires Writable(items) && offset <= |bytes|
    requires At(bytes, offset, Concat(RawItems(items)))
    requires Ends(bytes[offset + |Concat(RawItems(items))|..])
    ensures DecodeFrom(bytes, offset) == Ok(NormalItems(items))
    decreases |items|
  {
    hide Concat, EncodeItem, DecodeItem, Normal, ToBytes;
    if items == [] {
      NoItems();
    } else {
      var raw, tail := RawItems(items), items[1..];
      var e := EncodeItem(raw[0]);
      ConcatHead(raw);
      assert RawItems(tail) == raw[1..];
      AtConcat(bytes, offset, e, Concat(raw[1..]));
      ItemStarts(items[0]);
      DecodeEncodedItem(items[0], bytes, offset);
      DecodeEncoded(tail, bytes, offset + |e|);
      assert NormalItems(items) == [NormalItems(items)[0]] + NormalItems(tail);
    }
  }

  lemma ItemStarts(item: Item)
    requires HasBytes(item.0)
    ensures EncodeItem(Raw(item)) != [] && EncodeItem(Raw(item))[0] != CONTENT_END
  {
    FirstByte(item.0);
  }

  lemma NoItems()
    ensures RawItems([]) == [] && Concat([]) == []
  {
  }

  lemma {:induction false} DecodedIsEncoded(bytes: Slice, offset: usize)
    requires offset <= |bytes| && DecodeFrom(bytes, offset).Ok?
    requires AllKnown(DecodeFrom(bytes, offset).value)
    ensures var items := DecodeFrom(bytes, offset).value;
            && Writable(items) && NormalItems(items) == items
            && At(bytes, offset, Concat(RawItems(items)))
            && Ends(bytes[offset + |Concat(RawItems(items))|..])
    decreases |bytes| - offset
  {
    hide Concat, EncodeItem, DecodeItem, Normal, ToBytes;
    var items := DecodeFrom(bytes, offset).value;
    if offset == |bytes| || bytes[offset] == CONTENT_END {
      NoItems();
    } else {
      var (item, end) := DecodeItem(bytes, offset).value;
      var rest := DecodeFrom(bytes, end).value;
      assert items[0] == item && items[1..] == rest;
      assert forall i :: 0 <= i < |rest| ==> rest[i] == items[i + 1];
      DecodedIsEncoded(bytes, end);
      DecodedItemIsEncoded(bytes, offset);
      assert forall i :: 0 < i < |items| ==> items[i] == rest[i - 1];
      ConcatHead(RawItems(items));
      assert RawItems(items)[1..] == RawItems(rest);
      AtConcat(bytes, offset, EncodeItem(Raw(item)), Concat(RawItems(rest)));
      assert NormalItems(items) == [item] + NormalItems(rest);
    }
  }

  /** Whatever is encoded decodes to its items, under either padding. */
  lemma PayloadRoundTrip(items: seq<Item>, padding: Padding)
    requires Writable(items) && EncodePlaintext(RawItems(items), padding).Ok?
    ensures DecodePlaintext(EncodePlaintext(RawItems(items), padding).value) == Ok(NormalItems(items))
  {
    hide Concat, DecodeFrom, Normal;
    var raw := RawItems(items);
    var e, p := Concat(raw), EncodePlaintext(raw, padding).value;
    assert p[0..|e|] == e;
    assert p[|e|..] == seq(|p| - |e|, i => 0);
    ConcatHead(raw);
    ItemStarts(items[0]);
    DecodeEncoded(items, p, 0);
  }

  /** Accepted payloads without unknown types are exactly the encodings, ended properly. */
  lemma PayloadAccepts(bytes: Slice, items: seq<Item>)
    ensures DecodePlaintext(bytes) == Ok(items) && AllKnown(items)
            <==>
            && items != [] && Writable(items) && NormalItems(items) == items
            && Concat(RawItems(items)) <= bytes
            && Ends(bytes[|Concat(RawItems(items))|..])
  {
    hide Concat, DecodeFrom, Normal;
    assert bytes[0..] == bytes;
    if DecodePlaintext(bytes) == Ok(items) && AllKnown(items) {
      DecodedIsEncoded(bytes, 0);
      AtPrefix(bytes, 0, Concat(RawItems(items)));
    }
    if items != [] && Writable(items) && NormalItems(items) == items
       && Concat(RawItems(items)) <= bytes && Ends(bytes[|Concat(RawItems(items))|..]) {
      AtPrefix(bytes, 0, Concat(RawItems(items)));
      DecodeEncoded(items, bytes, 0);
      ConcatHead(RawItems(items));
      ItemStarts(items[0]);
    }
  }

  // ----- the padded size, without naming how it is found

  /** `plain` is `text` padded: as it is, or with zeros up to the least rung that holds it. */
  ghost predicate IsPadded(text: seq<byte>, padding: Padding, plain: seq<byte>) {
    && text <= plain
    && (forall i :: |text| <= i < |plain| ==> plain[i] == 0)
    && match padding
       case NoPadding => plain == text
       case Geometric =>
         && (exists k :: |plain| == Rung(k))
         && forall k :: |text| <= Rung(k) ==> |plain| <= Rung(k)
  }

  predicate FitsPadding(text: seq<byte>, padding: Padding) {
    |text| <= ISIZE_MAX && (padding.Geometric? ==> |text| <= LARGEST_PAYLOAD)
  }

  /**
   Exactly when encoding succeeds and with what: items, that fit memory and under
   padding the last rung; the items back to back, then nothing but zeros.
   */
  lemma EncodedPlaintext(items: seq<RawItem>, padding: Padding)
    ensures var text, r := Concat(items), EncodePlaintext(items, padding);
            && (r.Ok? <==> items != [] && FitsPadding(text, padding))
            && (r.Ok? ==> IsPadded(text, padding, r.value))
            && (r.Err? ==> (r.error == if items == [] then EmptyBytes
                                       else if |text| > ISIZE_MAX then CapacityOverflow else Error.Padding))
  {
    hide Concat, Rung;
    var text := Concat(items);
    if items != [] && FitsPadding(text, padding) {
      if padding.Geometric? {
        var k := FirstRung(|text|, 0);
        assert |EncodePlaintext(items, padding).value| == Rung(k);
        forall j | |text| <= Rung(j) ensures Rung(k) <= Rung(j) {
          GeometricLeast(|text|, j);
        }
      } else {
        assert Resize(text, |text|) == text;
      }
    }
  }

  /** There is one way to pad. */
  lemma PaddedOnce(text: seq<byte>, padding: Padding, a: seq<byte>, b: seq<byte>)
    requires IsPadded(text, padding, a) && IsPadded(text, padding, b)
    ensures a == b
  {
    hide Rung;
    assert |a| == |b| by {
      if padding.Geometric? {
        var j, k :| |a| == Rung(j) && |b| == Rung(k);
      }
    }
    forall i | 0 <= i < |a| ensures a[i] == b[i] {
      if i < |text| { assert a[i] == text[i] == b[i]; }
    }
  }
}
