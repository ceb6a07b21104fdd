/** Self-delimiting framing and the canonical form of a container. */
module CanonicalContainer {
  import opened Prelude
  import opened Framing
  import opened Container
  import opened ContainerProofs
  import opened Frames
  import Lex

  /** `decode_v1` accepts exactly the byte strings that start with a valid frame. */
  lemma DecodeAccepts(b: Slice, d: Decoded)
    ensures DecodeV1(b) == Ok(d)
            <==> exists f :: ValidFrame(f) && FrameBytes(f) <= b && Meaning(f) == d
  {
    hide DecodeV1, FrameBytes, ValidFrame, Meaning;
    if DecodeV1(b) == Ok(d) {
      var f := FrameOf(b);
      assert ValidFrame(f) && FrameBytes(f) <= b && Meaning(f) == d;
    }
    forall f | ValidFrame(f) && FrameBytes(f) <= b && Meaning(f) == d
      ensures DecodeV1(b) == Ok(d)
    {
      DecodeFrame(b, f);
    }
  }

  /** Length of the prefix `decode_v1` depends on. */
  ghost function Consumed(b: Slice): (n: nat)
    requires DecodeV1(b).Ok?
    ensures n <= |b|
  {
    |FrameBytes(FrameOf(b))|
  }

  /** The cut that matters: every prefix that reaches it decodes alike, no shorter one does. */
  lemma SelfDelimiting(b: Slice, m: nat)
    requires DecodeV1(b).Ok? && m <= |b|
    ensures DecodeV1(b[..m]).Ok? <==> Consumed(b) <= m
    ensures Consumed(b) <= m ==> DecodeV1(b[..m]) == DecodeV1(b) && Consumed(b[..m]) == Consumed(b)
  {
    hide DecodeV1, FrameBytes, ValidFrame, Meaning;
    var f := FrameOf(b);
    if Consumed(b) <= m {
      assert FrameBytes(f) <= b[..m];
      DecodeFrame(b[..m], f);
      FrameUnique(b[..m], f);
    }
    if DecodeV1(b[..m]).Ok? {
      var g := FrameOf(b[..m]);
      assert FrameBytes(g) <= b[..m] <= b;
      FrameUnique(b, g);
    }
  }

  /** Bytes after an accepted container change nothing. */
  lemma TrailingIgnored(b: Slice, t: seq<byte>)
    requires DecodeV1(b).Ok? && |b + t| <= ISIZE_MAX
    ensures DecodeV1(b + t) == DecodeV1(b)
  {
    hide DecodeV1, FrameBytes, ValidFrame, Meaning;
    var f := FrameOf(b);
    assert FrameBytes(f) <= b <= b + t;
    DecodeFrame(b + t, f);
  }

  /** Encode again what was decoded. */
  function Reencode(d: Decoded): Result<seq<byte>> {
    var paths :- EncodeDerivationPaths(d.paths);
    var secrets :- EncodeIndividualSecrets(d.secrets);
    var payload :- EncodeEncryptedPayload(d.nonce, d.ciphertext);
    Ok(EncodeV1(VERSION_1, paths, secrets, d.encryption, payload))
  }

  function CanonFrame(f: Frame): Frame {
    f.(paths := CanonPaths(f.paths), secrets := CanonKeys(f.secrets))
  }

  ghost predicate StrictlySorted(f: Frame) {
    Lex.Ascending(f.paths) && Lex.Ascending(f.secrets)
  }

  lemma CanonFrameSorted(f: Frame)
    ensures CanonFrame(CanonFrame(f)) == CanonFrame(f)
    ensures CanonFrame(f) == f <==> StrictlySorted(f)
    ensures Meaning(CanonFrame(f)) == Meaning(f)
  {
    Lex.CanonAscending(f.paths);
    Lex.CanonAscending(f.secrets);
    Lex.CanonFixed(Lex.Canon(f.paths));
    Lex.CanonFixed(Lex.Canon(f.secrets));
    if StrictlySorted(f) {
      Lex.CanonFixed(f.paths);
      Lex.CanonFixed(f.secrets);
    }
  }

  lemma CanonFrameValid(f: Frame)
    requires ValidFrame(f)
    ensures ValidFrame(CanonFrame(f))
  {
    hide Lex.Canon, CanonPaths, CanonKeys;
    var paths := CanonPaths(f.paths);
    forall i | 0 <= i < |paths| ensures ValidPath(paths[i]) {
      assert paths[i] in f.paths;
    }
    assert f.secrets[0] in CanonKeys(f.secrets);
  }

  lemma {:induction false} InsertSize(s: seq<Lex.Word>, x: Lex.Word)
    ensures PathsSize(Lex.Insert(s, x)) <= PathsSize(s) + PathSize(x)
  {
    if s != [] && s[0] != x && !Lex.Less(x, s[0]) {
      InsertSize(s[1..], x);
      var r := Lex.Insert(s, x);
      assert r[0] == s[0] && r[1..] == Lex.Insert(s[1..], x);
    } else if s == [] || s[0] != x {
      assert ([x] + s)[1..] == s;
      assert s == [] ==> [x] + s == [x];
    }
  }

  lemma {:induction false} CanonSize(s: seq<Path>)
    ensures PathsSize(CanonPaths(s)) <= PathsSize(s)
  {
    if s != [] {
      var n := |s| - 1;
      CanonSize(s[..n]);
      InsertSize(Lex.Canon(s[..n]), s[n]);
      PathsSizeAppend(s[..n], s[n]);
      assert s == s[..n] + [s[n]];
    }
  }

  lemma CanonFrameShorter(f: Frame)
    ensures |FrameBytes(CanonFrame(f))| <= |FrameBytes(f)|
  {
    hide PathsSize, EncodePaths, CanonPaths, CanonKeys, Flatten;
    var paths, secrets := CanonPaths(f.paths), CanonKeys(f.secrets);
    ListSizes(f.paths, f.secrets);
    ListSizes(paths, secrets);
    CanonSize(f.paths);
    assert |secrets| <= |f.secrets|;
  }

  lemma ListSizes(paths: seq<Path>, secrets: seq<Bytes32>)
    ensures |PathListBytes(paths)| == 1 + PathsSize(paths)
    ensures |SecretListBytes(secrets)| == 1 + 32 * |secrets|
  {
    ParsePathsIff([], |paths|, paths);
    ParseSecretsIff([], |secrets|, secrets);
  }

  lemma {:induction false} ValidPathsNoError(paths: seq<Path>)
    ensures FirstPathError(paths).None? <==> ValidPaths(paths)
  {
    if paths != [] {
      ValidPathsNoError(paths[1..]);
      assert ValidPaths(paths) <==> ValidPath(paths[0]) && ValidPaths(paths[1..]);
    }
  }

  /** Re-encoding what a valid frame means writes its canonical frame. */
  lemma ReencodeFrame(f: Frame)
    requires ValidFrame(f)
    ensures Reencode(Meaning(f)) ==
            if f.ciphertext == [] then Err(CypherTextEmpty) else Ok(FrameBytes(CanonFrame(f)))
  {
    hide PathListBytes, SecretListBytes, PayloadBytes, CanonPaths, CanonKeys;
    CanonFrameValid(f);
    CanonFrameSorted(f);
    ValidPathsNoError(CanonPaths(f.paths));
    assert CanonFrame(CanonFrame(f)).paths == CanonFrame(f).paths;
    assert CanonFrame(CanonFrame(f)).secrets == CanonFrame(f).secrets;
  }

  /**
   Canonical form: an accepted container with a ciphertext re-encodes, decodes
   back to the same parts, is never longer, and comes out unchanged exactly when
   its lists were strictly sorted as written.
   */
  lemma CanonicalForm(b: Slice)
    requires DecodeV1(b).Ok?
    ensures var d := DecodeV1(b).value;
            var e := Reencode(d);
            && (e.Ok? <==> d.ciphertext != [])
            && (e.Ok? ==>
                  && |e.value| <= Consumed(b)
                  && DecodeV1(e.value) == Ok(d)
                  && Consumed(e.value) == |e.value|
                  && (e.value == b[..Consumed(b)] <==> StrictlySorted(FrameOf(b))))
  {
    hide DecodeV1, FrameBytes, ValidFrame, Meaning, Reencode, CanonFrame, StrictlySorted;
    var f := FrameOf(b);
    ReencodeFrame(f);
    CiphertextOf(f);
    if f.ciphertext != [] {
      var g := CanonFrame(f);
      var e := FrameBytes(g);
      CanonFrameValid(f);
      CanonFrameSorted(f);
      CanonFrameShorter(f);
      DecodeFrame(e, g);
      FrameUnique(e, g);
      assert b[..Consumed(b)] == FrameBytes(f);
      if e == FrameBytes(f) {
        FrameUnique(b, g);
      }
    }
  }

  lemma CiphertextOf(f: Frame)
    ensures Meaning(f).ciphertext == f.ciphertext
  {
  }

  /** Re-encoding is a fixed point of itself. */
  lemma ReencodeFixed(b: Slice)
    requires DecodeV1(b).Ok? && Reencode(DecodeV1(b).value).Ok?
    ensures var e := Reencode(DecodeV1(b).value).value;
            && |e| <= ISIZE_MAX && DecodeV1(e).Ok?
            && Reencode(DecodeV1(e).value) == Ok(e)
            && StrictlySorted(FrameOf(e))
  {
    hide DecodeV1, FrameBytes, Reencode, StrictlySorted;
    CanonicalForm(b);
    var e := Reencode(DecodeV1(b).value).value;
    CanonicalForm(e);
    assert e[..Consumed(e)] == e;
  }

  /** The partial decoders agree with the full one. */
  lemma PartialDecoders(b: Slice)
    requires DecodeV1(b).Ok?
    ensures DecodeVersion(b) == Ok(VERSION_1)
    ensures DecodeDerivationPaths(b) == Ok(DecodeV1(b).value.paths)
  {
    hide ParseDerivationPaths, ParseIndividualSecrets, ParseEncryptedPayload;
  }
}
