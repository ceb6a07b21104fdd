/** The CONTENT field: what kind of plaintext follows it. */
module Contents {
  import opened Prelude
  import opened Endian
  import opened Offsets
  import opened Framing
  import CompactSize

  datatype Content =
    | NoContent
    | Bip138 | Bip139 | Bip380 | Bip388 | Bip329
    | Bip(number: u16)
    | Proprietary(tag: Slice)
    | Text
    | Unknown

  const CONTENT_END: byte := 0x00
  const CONTENT_BIP: byte := 0x01
  const CONTENT_PROPRIETARY: byte := 0x02
  const CONTENT_STRING: byte := 0x03
  const CONTENT_UPGRADE: byte := 0x80

  predicate IsKnown(c: Content) {
    match c
    case NoContent | Unknown | Proprietary(_) => false
    case _ => true
  }

  predicate HasBytes(c: Content) {
    !c.NoContent? && !c.Unknown?
  }

  function BipNumber(c: Content): Option<u16> {
    match c
    case Bip138 => Some(138)
    case Bip139 => Some(139)
    case Bip380 => Some(380)
    case Bip388 => Some(388)
    case Bip329 => Some(329)
    case Bip(n) => Some(n)
    case _ => None
  }

  function FromBipNumber(n: u16): Content {
    match n
    case 138 => Bip138
    case 139 => Bip139
    case 380 => Bip380
    case 388 => Bip388
    case 329 => Bip329
    case _ => Bip(n)
  }

  /** A number that has a named variant always parses to it. */
  function Normal(c: Content): Content {
    match BipNumber(c)
    case Some(n) => FromBipNumber(n)
    case None => c
  }

  /** Bytes of a content type; the two without an encoding are refused. */
  function ToBytes(c: Content): (r: Result<seq<byte>>)
    ensures r.Ok? <==> HasBytes(c)
  {
    match c
    case NoContent | Unknown => Err(ContentMetadata)
    case Proprietary(tag) => Ok([CONTENT_PROPRIETARY] + CompactSize.Encode(|tag|) + tag)
    case Text => Ok([CONTENT_STRING] + CompactSize.Encode(0))
    case _ => Ok([CONTENT_BIP] + ToBe(BipNumber(c).value, 2))
  }

  /** A content field at the start of `bytes`: its length and what it says. */
  function ParseContent(bytes: Slice): (r: Result<(usize, Content)>)
    ensures r.Ok? ==> 2 <= r.value.0 <= |bytes|
  {
    var _ :- InitOffset(bytes, 0);
    var t := bytes[0];
    if t == CONTENT_END then Err(ContentEnd)
    else if t == CONTENT_BIP then
      var _ :- MapErr(CheckOffsetLookahead(0, bytes, 3), ContentMetadata);
      Widths();
      Ok((3, FromBipNumber(FromBe(bytes[1..3]))))
    else if t < CONTENT_UPGRADE then
      var (dataLen, offset) :- OkOr(CompactSize.Parse(bytes[1..]), ContentMetadata);
      var dataLen :- OkOr(ToUsize(dataLen), ContentMetadata);
      var start := Add(1, offset);
      var _ :- CheckOffsetLookahead(start, bytes, dataLen);
      var end := Add(start, dataLen);
      if |bytes| < end then Err(ContentMetadata)
      else
        var data := bytes[offset + 1..end];
        if t == CONTENT_PROPRIETARY then Ok((end, Proprietary(data)))
        else if t == CONTENT_STRING then
          if data != [] then Err(ContentMetadata) else Ok((end, Text))
        else Ok((end, Unknown))
    else Err(ContentMetadata)
  }

  /** Every content type parses back to its normal form, whatever follows. */
  lemma ParseToBytes(c: Content, b: Slice)
    requires HasBytes(c) && ToBytes(c).value <= b
    ensures ParseContent(b) == Ok((|ToBytes(c).value|, Normal(c)))
  {
    hide ParseContent, ToBytes;
    if BipNumber(c).Some? {
      ParseBip(c, b);
    } else {
      ParseTagged(c, b);
    }
  }

  lemma ParseBip(c: Content, b: Slice)
    requires BipNumber(c).Some? && ToBytes(c).value <= b
    ensures ParseContent(b) == Ok((|ToBytes(c).value|, Normal(c)))
  {
    hide CompactSize.Parse, CompactSize.Encode, ToBe, FromBe, FromBipNumber;
    var number := ToBe(BipNumber(c).value, 2);
    var e := ToBytes(c).value;
    Widths();
    BeRoundTrip(BipNumber(c).value, 2);
    assert b[0] == e[0] && b[1..3] == e[1..3] == number;
  }

  lemma ParseTagged(c: Content, b: Slice)
    requires HasBytes(c) && BipNumber(c).None? && ToBytes(c).value <= b
    ensures ParseContent(b) == Ok((|ToBytes(c).value|, Normal(c)))
  {
    hide CompactSize.Parse, CompactSize.Encode, ToBe, FromBe, FromBipNumber;
    var e := ToBytes(c).value;
    var tag := if c.Proprietary? then c.tag else [];
    var length := CompactSize.Encode(|tag|);
    assert e == [e[0]] + length + tag;
    PartsInFront(b, e[0], length, tag);
    CompactSize.ParseIff(b[1..], |tag|, |length|);
  }

  lemma PartsInFront(b: seq<byte>, first: byte, length: seq<byte>, tag: seq<byte>)
    ensures [first] + length + tag <= b <==>
            && |b| >= 1 + |length| + |tag|
            && b[0] == first && b[1..][..|length|] == length && b[1 + |length|..1 + |length| + |tag|] == tag
  {
    var e := [first] + length + tag;
    if |b| >= |e| {
      var w := b[..|e|];
      assert w == [b[0]] + b[1..][..|length|] + b[1 + |length|..|e|];
      assert e[1..][..|length|] == length && e[1 + |length|..] == tag;
      assert w[1..][..|length|] == b[1..][..|length|] && w[1 + |length|..] == b[1 + |length|..|e|];
    }
  }

  /** A content type the parser knows was written exactly as the encoder writes it. */
  lemma ParsedIsToBytes(b: Slice)
    requires ParseContent(b).Ok? && !ParseContent(b).value.1.Unknown?
    ensures var (n, c) := ParseContent(b).value;
            HasBytes(c) && Normal(c) == c && ToBytes(c) == Ok(b[..n])
  {
    var (n, c) := ParseContent(b).value;
    if b[0] == CONTENT_BIP {
      BeCanonical(b[1..3]);
      assert b[..3] == [b[0]] + b[1..3];
    } else {
      TaggedIsToBytes(b);
    }
  }

  lemma TaggedIsToBytes(b: Slice)
    requires ParseContent(b).Ok? && !ParseContent(b).value.1.Unknown? && b[0] != CONTENT_BIP
    ensures var (n, c) := ParseContent(b).value;
            HasBytes(c) && Normal(c) == c && ToBytes(c) == Ok(b[..n])
  {
    hide CompactSize.Parse, CompactSize.Encode, FromBe, FromBipNumber, ToBe;
    var (n, c) := ParseContent(b).value;
    var (len, offset) := CompactSize.Parse(b[1..]).value;
    CompactSize.ParseIsEncoding(b[1..]);
    var length, tag := CompactSize.Encode(len), b[1 + offset..n];
    assert b[1..][..offset] == length && |tag| == len;
    PartsInFront(b, b[0], length, tag);
    assert b[..n] == [b[0]] + length + tag;
    assert c.Text? ==> tag == [];
    assert c.Text? ==> [b[0]] + length + tag == [b[0]] + length;
  }

  lemma ParseContentAt(bytes: Slice, off: nat, c: Content)
    requires HasBytes(c) && At(bytes, off, ToBytes(c).value)
    ensures ParseContent(bytes[off..]) == Ok((|ToBytes(c).value|, Normal(c)))
  {
    AtPrefix(bytes, off, ToBytes(c).value);
    ParseToBytes(c, bytes[off..]);
  }

  lemma ParsedContentAt(bytes: Slice, off: nat)
    requires off <= |bytes| && ParseContent(bytes[off..]).Ok?
    requires !ParseContent(bytes[off..]).value.1.Unknown?
    ensures var (n, c) := ParseContent(bytes[off..]).value;
            && HasBytes(c) && Normal(c) == c && n == |ToBytes(c).value|
            && At(bytes, off, ToBytes(c).value)
  {
    var (n, c) := ParseContent(bytes[off..]).value;
    ParsedIsToBytes(bytes[off..]);
    AtPrefix(bytes, off, ToBytes(c).value);
  }

  /** A content field starts neither as padding nor as a reserved type. */
  lemma FirstByte(c: Content)
    requires HasBytes(c)
    ensures |ToBytes(c).value| >= 2
    ensures CONTENT_END < ToBytes(c).value[0] < CONTENT_UPGRADE
  {
  }

  /** The numbers with a name of their own; every other content type is its own normal form. */
  lemma NormalIs(c: Content)
    ensures Normal(c) ==
            match c
            case Bip(n) =>
              if n == 138 then Bip138 else if n == 139 then Bip139 else if n == 380 then Bip380
              else if n == 388 then Bip388 else if n == 329 then Bip329 else c
            case _ => c
  {
  }

  /** Bytes on the wire: a number is big-endian after 1, a string is 3 with no data, a tag is 2 with its length. */
  lemma WireBytes(tag: Slice)
    requires |tag| < 0xFD
    ensures ToBytes(Bip380).Ok? && ToBytes(Bip380).value == [1, 1, 124]
    ensures ToBytes(Text).Ok? && ToBytes(Text).value == [3, 0]
    ensures ToBytes(Proprietary(tag)).Ok? && ToBytes(Proprietary(tag)).value == [2, |tag|] + tag
  {
    assert ToBe(380, 2) == [1, 124] by {
      assert ToLe(380, 2) == [124] + ToLe(1, 1) == [124] + ([1] + ToLe(0, 0));
    }
    assert CompactSize.Encode(0) == [0];
    assert CompactSize.Encode(|tag|) == [|tag|];
  }
}
