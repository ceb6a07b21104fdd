/**
 The container as a whole: the byte strings `decode_v1` accepts are exactly the
 frames below, followed by anything.
 */
module Frames {
  import opened Prelude
  import opened Framing
  import opened Container
  import opened ContainerProofs

  // The sections of a container in the order they were written.
  datatype Frame = Frame(
    paths: seq<Path>, secrets: seq<Bytes32>, encryption: byte, nonce: Nonce, ciphertext: Slice)

  ghost predicate ValidFrame(f: Frame) {
    && ValidPathList(f.paths) && ValidSecretList(f.secrets)
    && f.encryption != 0 && f.nonce != ZERO12
  }

  function FrameBytes(f: Frame): seq<byte> {
    EncodeV1(VERSION_1, PathListBytes(f.paths), SecretListBytes(f.secrets), f.encryption,
             PayloadBytes(f.nonce, f.ciphertext))
  }

  /** What the decoder reports of a frame. */
  function Meaning(f: Frame): Decoded {
    Decoded(CanonPaths(f.paths), CanonKeys(f.secrets), f.encryption, f.nonce, f.ciphertext)
  }

  // Where each section stands: `o1` after the version, `o2` after the paths,
  // `o3` after the secrets.
  ghost predicate Sections(b: seq<byte>, paths: seq<byte>, secrets: seq<byte>, encryption: byte, payload: seq<byte>) {
    var o1 := |MAGIC| + 1;
    var o2 := o1 + |paths|;
    var o3 := o2 + |secrets|;
    && |b| > o3
    && b[..|MAGIC|] == MAGIC && b[|MAGIC|] == VERSION_1
    && paths <= b[o1..] && secrets <= b[o2..]
    && b[o3] == encryption && payload <= b[o3 + 1..]
  }

  lemma EncodeV1Sections(b: seq<byte>, paths: seq<byte>, secrets: seq<byte>, encryption: byte, payload: seq<byte>)
    ensures EncodeV1(VERSION_1, paths, secrets, encryption, payload) <= b
            <==> Sections(b, paths, secrets, encryption, payload)
  {
    var start: seq<byte> := MAGIC + [VERSION_1];
    PrefixConcat(b, start + paths + secrets + [encryption], payload);
    PrefixConcat(b, start + paths + secrets, [encryption]);
    PrefixConcat(b, start + paths, secrets);
    PrefixConcat(b, start, paths);
    PrefixConcat(b, MAGIC, [VERSION_1]);
    var o3 := |start| + |paths| + |secrets|;
    OneByte(b, |MAGIC|, VERSION_1);
    OneByte(b, o3, encryption);
  }

  lemma OneByte(b: seq<byte>, off: nat, x: byte)
    ensures off <= |b| ==> ([x] <= b[off..] <==> off < |b| && b[off] == x)
  {
    if off < |b| { assert b[off..][0] == b[off]; }
  }

  lemma FrameSections(b: seq<byte>, f: Frame)
    ensures FrameBytes(f) <= b
            <==> Sections(b, PathListBytes(f.paths), SecretListBytes(f.secrets), f.encryption,
                          PayloadBytes(f.nonce, f.ciphertext))
  {
    hide EncodeV1, PathListBytes, SecretListBytes, PayloadBytes;
    EncodeV1Sections(b, PathListBytes(f.paths), SecretListBytes(f.secrets), f.encryption,
                     PayloadBytes(f.nonce, f.ciphertext));
  }

  // ----- the header

  ghost predicate HeaderAt(b: Slice, f: Frame) {
    var o1 := |MAGIC| + 1;
    var o2 := o1 + |PathListBytes(f.paths)|;
    var o3 := o2 + |SecretListBytes(f.secrets)|;
    && |b| > o3 + 1
    && b[..|MAGIC|] == MAGIC && b[|MAGIC|] == VERSION_1
    && ValidPathList(f.paths) && PathListBytes(f.paths) <= b[o1..]
    && ValidSecretList(f.secrets) && SecretListBytes(f.secrets) <= b[o2..]
    && f.encryption == b[o3] != 0
  }

  lemma HeaderParses(b: Slice, f: Frame)
    requires HeaderAt(b, f)
    ensures ParseV1Header(b) ==
            Ok(Header(|MAGIC| + 2 + |PathListBytes(f.paths)| + |SecretListBytes(f.secrets)|,
                      CanonPaths(f.paths), CanonKeys(f.secrets), f.encryption))
  {
    hide ParsePathList, ParseSecretList, PathListBytes, SecretListBytes, CanonPaths, CanonKeys, ValidPathList;
    var o1 := |MAGIC| + 1;
    var o2 := o1 + |PathListBytes(f.paths)|;
    ParsePathListIff(b[o1..], f.paths, |PathListBytes(f.paths)|);
    ParseSecretListIff(b[o2..], f.secrets, |SecretListBytes(f.secrets)|);
  }

  /** The header of an accepted container, as written. */
  ghost function HeaderFrame(b: Slice, nonce: Nonce, ciphertext: Slice): (f: Frame)
    requires ParseV1Header(b).Ok?
    ensures f.nonce == nonce && f.ciphertext == ciphertext
    ensures HeaderAt(b, f)
  {
    hide ParsePathList, ParseSecretList, PathListBytes, SecretListBytes, CanonPaths, CanonKeys, ValidPathList;
    var o1 := |MAGIC| + 1;
    var paths := ParsePathList(b[o1..]).value;
    ParsePathListIff(b[o1..], paths.1, paths.0);
    var o2 := o1 + paths.0;
    var secrets := ParseSecretList(b[o2..]).value;
    ParseSecretListIff(b[o2..], secrets.1, secrets.0);
    Frame(paths.1, secrets.1, b[o2 + secrets.0], nonce, ciphertext)
  }

  // ----- the container

  /** Every valid frame decodes to its meaning, whatever follows it. */
  lemma DecodeFrame(b: Slice, f: Frame)
    requires ValidFrame(f) && FrameBytes(f) <= b
    ensures DecodeV1(b) == Ok(Meaning(f))
    ensures HeaderAt(b, f)
  {
    hide FrameBytes, ParseV1Header, ParseEncryptedPayload, PathListBytes, SecretListBytes, PayloadBytes,
         CanonPaths, CanonKeys, ValidPathList;
    FrameSections(b, f);
    var off := |MAGIC| + 2 + |PathListBytes(f.paths)| + |SecretListBytes(f.secrets)|;
    PayloadNonempty(f.nonce, f.ciphertext);
    HeaderParses(b, f);
    ParsePayloadIff(b[off..], f.nonce, f.ciphertext);
  }

  lemma PayloadNonempty(nonce: Nonce, ciphertext: Slice)
    ensures |PayloadBytes(nonce, ciphertext)| >= 13
  {
  }

  /** The frame an accepted container starts with. */
  ghost function FrameOf(b: Slice): (f: Frame)
    requires DecodeV1(b).Ok?
    ensures ValidFrame(f) && FrameBytes(f) <= b && DecodeV1(b) == Ok(Meaning(f))
  {
    hide FrameBytes, ParseV1Header, ParseEncryptedPayload, PathListBytes, SecretListBytes, PayloadBytes,
         CanonPaths, CanonKeys, ValidPathList;
    var d := DecodeV1(b).value;
    var f := HeaderFrame(b, d.nonce, d.ciphertext);
    HeaderParses(b, f);
    var rest := b[ParseV1Header(b).value.offset..];
    assert ParseEncryptedPayload(rest).value == (d.nonce, d.ciphertext);
    ParsePayloadIff(rest, d.nonce, d.ciphertext);
    FrameSections(b, f);
    f
  }

  /** No byte string starts with two different frames. */
  lemma FrameUnique(b: Slice, f: Frame)
    requires ValidFrame(f) && FrameBytes(f) <= b
    ensures DecodeV1(b).Ok? && FrameOf(b) == f
  {
    hide FrameBytes, DecodeV1, ParsePathList, ParseSecretList, PathListBytes, SecretListBytes, CanonPaths,
         CanonKeys, ValidPathList, ValidSecretList;
    DecodeFrame(b, f);
    var g := FrameOf(b);
    DecodeFrame(b, g);
    SameHeader(b, f, g);
    assert Meaning(f) == Meaning(g);
  }

  lemma SameHeader(b: Slice, f: Frame, g: Frame)
    requires HeaderAt(b, f) && HeaderAt(b, g)
    ensures f.paths == g.paths && f.secrets == g.secrets && f.encryption == g.encryption
  {
    hide ParsePathList, ParseSecretList, PathListBytes, SecretListBytes, ValidPathList, ValidSecretList;
    var o1 := |MAGIC| + 1;
    ParsePathListIff(b[o1..], f.paths, |PathListBytes(f.paths)|);
    ParsePathListIff(b[o1..], g.paths, |PathListBytes(g.paths)|);
    var o2 := o1 + |PathListBytes(f.paths)|;
    ParseSecretListIff(b[o2..], f.secrets, |SecretListBytes(f.secrets)|);
    ParseSecretListIff(b[o2..], g.secrets, |SecretListBytes(g.secrets)|);
  }
}
