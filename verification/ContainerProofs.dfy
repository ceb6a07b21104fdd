/** Exactly which byte strings the container parsers accept, and what follows from it. */
module ContainerProofs {
  import opened Prelude
  import opened Endian
  import opened Framing
  import opened Container
  import CompactSize

  // ----- path lists

  lemma ChildrenHead(children: seq<u32>)
    requires children != []
    ensures Flatten(EncodeChildren(children)) == ToBe(children[0], 4) + Flatten(EncodeChildren(children[1..]))
  {
    hide ToBe;
    assert EncodeChildren(children)[1..] == EncodeChildren(children[1..]);
  }

  lemma {:induction false} ParseChildrenIff(b: Slice, n: nat, children: seq<u32>)
    requires n == |children|
    ensures ParseChildren(b, n) == Ok(children) <==> Flatten(EncodeChildren(children)) <= b
    ensures |Flatten(EncodeChildren(children))| == 4 * n
    decreases n
  {
    hide FromBe, ToBe;
    if n == 0 {
      assert EncodeChildren(children) == [];
    } else {
      var head, tail := children[0], children[1..];
      ChildrenHead(children);
      PrefixConcat(b, ToBe(head, 4), Flatten(EncodeChildren(tail)));
      assert children == [head] + tail;
      if 4 <= |b| {
        Widths();
        BeRoundTrip(head, 4);
        BeCanonical(b[..4]);
        assert ToBe(head, 4) <= b <==> b[..4] == ToBe(head, 4);
        ParseChildrenIff(b[4..], n - 1, tail);
        var rest := ParseChildren(b[4..], n - 1);
        if rest.Ok? { HeadTail(FromBe(b[..4]), rest.value, head, tail); }
      } else {
        ParseChildrenIff([], n - 1, tail);
      }
    }
  }

  lemma ParsePathIff(b: Slice, path: Path)
    ensures ParsePath(b) == Ok(path) <==> ValidPath(path) && EncodePath(path) <= b
    ensures |EncodePath(path)| == PathSize(path)
  {
    hide ParseChildren, EncodeChildren;
    var count: seq<byte> := [|path| % 0x100];
    PrefixConcat(b, count, Flatten(EncodeChildren(path)));
    if b != [] {
      assert b[..1] == [b[0]];
      ParseChildrenIff(b[1..], |path|, path);
    } else {
      ParseChildrenIff(b, |path|, path);
    }
  }

  ghost predicate ValidPaths(paths: seq<Path>) {
    forall i :: 0 <= i < |paths| ==> ValidPath(paths[i])
  }

  lemma PathsHead(paths: seq<Path>)
    requires paths != []
    ensures Flatten(EncodePaths(paths)) == EncodePath(paths[0]) + Flatten(EncodePaths(paths[1..]))
  {
    hide EncodePath;
    assert EncodePaths(paths)[1..] == EncodePaths(paths[1..]);
  }

  /** The parser reads `n` paths exactly when `b` starts with their encodings. */
  lemma {:induction false} ParsePathsIff(b: Slice, n: nat, paths: seq<Path>)
    requires n == |paths|
    ensures ParsePaths(b, n) == Ok(paths) <==> ValidPaths(paths) && Flatten(EncodePaths(paths)) <= b
    ensures |Flatten(EncodePaths(paths))| == PathsSize(paths)
    decreases n
  {
    hide EncodePath, ParsePath, PathSize;
    if n == 0 {
      assert EncodePaths(paths) == [];
    } else {
      var head, tail := paths[0], paths[1..];
      PathsHead(paths);
      PrefixConcat(b, EncodePath(head), Flatten(EncodePaths(tail)));
      ParsePathIff(b, head);
      assert ValidPaths(paths) <==> ValidPath(head) && ValidPaths(tail);
      assert paths == [head] + tail;
      ParsePathsIff(if PathSize(head) <= |b| then b[PathSize(head)..] else [], n - 1, tail);
      var path := ParsePath(b);
      if path.Ok? {
        var rest := ParsePaths(b[PathSize(path.value)..], n - 1);
        if rest.Ok? { HeadTail(path.value, rest.value, head, tail); }
      }
    }
  }

  ghost predicate ValidPathList(paths: seq<Path>) {
    |paths| <= U8_MAX && ValidPaths(paths)
  }

  lemma ParsePathListIff(b: Slice, paths: seq<Path>, n: usize)
    ensures ParsePathList(b) == Ok((n, paths))
            <==> ValidPathList(paths) && n == |PathListBytes(paths)| && PathListBytes(paths) <= b
  {
    hide ParsePathList, ParsePaths, PathsSize, EncodePaths, Flatten, ValidPath;
    var body := Flatten(EncodePaths(paths));
    CountedPrefix(b, |paths|, body);
    ParsePathListStep(b);
    assert PathListBytes(paths) == [|paths| % 0x100] + body;
    NonemptyPaths(paths);
    ParsePathsIff(if b == [] then b else b[1..], |paths|, paths);
  }

  /** A counted list stands at the start of `b` when its count and its body do. */
  lemma CountedPrefix(b: seq<byte>, n: nat, body: seq<byte>)
    ensures [n % 0x100] + body <= b <==> b != [] && b[0] == n % 0x100 && body <= b[1..]
  {
    var count: seq<byte> := [n % 0x100];
    PrefixConcat(b, count, body);
    if b != [] {
      assert b[..1] == [b[0]];
    }
  }

  lemma ParsePathListStep(b: Slice)
    ensures b == [] ==> ParsePathList(b).Err?
    ensures b != [] && b[0] == 0 ==> ParsePathList(b) == Ok((1, []))
    ensures b != [] && b[0] != 0 && |b| == 1 ==> ParsePathList(b).Err?
    ensures |b| > 1 && b[0] != 0 ==>
              ParsePathList(b) ==
              match ParsePaths(b[1..], b[0])
              case Err(e) => Err(e)
              case Ok(paths) => Ok((1 + PathsSize(paths), paths))
  {
    hide ParsePaths, PathsSize;
  }

  lemma NonemptyPaths(paths: seq<Path>)
    ensures PathsSize(paths) == 0 <==> paths == []
  {
  }

  // ----- secret lists

  lemma {:induction false} ParseSecretsIff(b: Slice, n: nat, secrets: seq<Bytes32>)
    requires n == |secrets|
    ensures ParseSecrets(b, n) == Ok(secrets) <==> Flatten(secrets) <= b
    ensures |Flatten(secrets)| == 32 * n
    decreases n
  {
    if n > 0 {
      var head, tail := secrets[0], secrets[1..];
      PrefixConcat(b, head, Flatten(tail));
      assert secrets == [head] + tail;
      if 32 <= |b| {
        ParseSecretsIff(b[32..], n - 1, tail);
        var rest := ParseSecrets(b[32..], n - 1);
        if rest.Ok? {
          var first: Bytes32 := b[..32];
          assert head <= b <==> first == head;
          HeadTail(first, rest.value, head, tail);
        }
      } else {
        ParseSecretsIff([], n - 1, tail);
      }
    }
  }

  predicate ValidSecretList(secrets: seq<Bytes32>) {
    1 <= |secrets| <= U8_MAX
  }

  lemma ParseSecretListIff(b: Slice, secrets: seq<Bytes32>, n: usize)
    ensures ParseSecretList(b) == Ok((n, secrets))
            <==> ValidSecretList(secrets) && n == |SecretListBytes(secrets)| && SecretListBytes(secrets) <= b
  {
    CountedPrefix(b, |secrets|, Flatten(secrets));
    ParseSecretsIff(if b == [] then b else b[1..], |secrets|, secrets);
  }

  // ----- encrypted payload

  lemma ParsePayloadIff(b: Slice, nonce: Nonce, ciphertext: Slice)
    ensures ParseEncryptedPayload(b) == Ok((nonce, ciphertext))
            <==> nonce != ZERO12 && PayloadBytes(nonce, ciphertext) <= b
  {
    hide CompactSize.Encode, CompactSize.Parse;
    var length := CompactSize.Encode(|ciphertext|);
    PrefixConcat(b, nonce + length, ciphertext);
    PrefixConcat(b, nonce, length);
    var rest := if |b| > 12 then b[12..] else [];
    CompactSize.ParseIff(rest, |ciphertext|, |length|);
    assert nonce <= b <==> |b| >= 12 && b[..12] == nonce;
    if |b| > 12 {
      if CompactSize.Parse(rest).Some? { CompactSize.ParsedAt(b, 12); }
      var o := 12 + |length|;
      assert |nonce + length| == o;
      if o + |ciphertext| <= |b| {
        assert b[o..][..|ciphertext|] == b[o..o + |ciphertext|];
        assert ciphertext <= b[o..] <==> b[o..o + |ciphertext|] == ciphertext;
      }
    }
  }
}
