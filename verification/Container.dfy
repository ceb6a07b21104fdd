/**
 The version 1 container: encoders and parsers of every section, as the wire
 format defines them.
 */
module Container {
  import opened Prelude
  import opened Endian
  import opened Framing
  import opened Offsets
  import CompactSize
  import Lex

  // A derivation path as the wire carries it: 32-bit child numbers, 2^31 and up hardened.
  type Path = seq<u32>

  const MAGIC: seq<byte> := [0x42, 0x49, 0x50, 0x31, 0x33, 0x38]
  const VERSION_1: byte := 1

  // ----- ordered sets

  function CanonPaths(paths: seq<Path>): (r: seq<Path>)
    ensures |r| <= |paths|
    ensures forall p :: p in r <==> p in paths
  {
    var r := Lex.Canon(paths);
    assert forall i :: 0 <= i < |r| ==> r[i] in paths;
    r
  }

  function InsertPath(set_: seq<Path>, path: Path): (r: seq<Path>)
    ensures forall p :: p in r <==> p in set_ || p == path
  {
    var r := Lex.Insert(set_, path);
    assert forall i :: 0 <= i < |r| ==> r[i] in set_ || r[i] == path;
    r
  }

  function CanonKeys(keys: seq<Bytes32>): (r: seq<Bytes32>)
    ensures |r| <= |keys|
    ensures forall k :: k in r <==> k in keys
  {
    var r := Lex.Canon(keys);
    assert forall i :: 0 <= i < |r| ==> r[i] in keys;
    r
  }

  function InsertKey(set_: seq<Bytes32>, key: Bytes32): (r: seq<Bytes32>)
    ensures forall k :: k in r <==> k in set_ || k == key
  {
    var r := Lex.Insert(set_, key);
    assert forall i :: 0 <= i < |r| ==> r[i] in set_ || r[i] == key;
    r
  }

  // ----- derivation paths

  function EncodeChildren(children: seq<u32>): (r: seq<seq<byte>>)
    ensures |r| == |children|
  {
    seq(|children|, i requires 0 <= i < |children| => ToBe(children[i], 4))
  }

  function EncodePath(path: Path): seq<byte> {
    [|path| % 0x100] + Flatten(EncodeChildren(path))
  }

  function EncodePaths(paths: seq<Path>): (r: seq<seq<byte>>)
    ensures |r| == |paths|
  {
    seq(|paths|, i requires 0 <= i < |paths| => EncodePath(paths[i]))
  }

  /** A path list exactly as given, in the order given. */
  function PathListBytes(paths: seq<Path>): seq<byte> {
    [|paths| % 0x100] + Flatten(EncodePaths(paths))
  }

  predicate ValidPath(path: Path) {
    1 <= |path| <= U8_MAX
  }

  function FirstPathError(paths: seq<Path>): Option<Error> {
    if paths == [] then None
    else if |paths[0]| == 0 then Some(DerivPathEmpty)
    else if |paths[0]| > U8_MAX then Some(DerivPathLength)
    else FirstPathError(paths[1..])
  }

  /** Sorted and without duplicates, so the caller's order does not show. */
  function EncodeDerivationPaths(paths: seq<Path>): Result<seq<byte>> {
    var canon := CanonPaths(paths);
    if |canon| > U8_MAX then Err(DerivPathLength)
    else
      match FirstPathError(canon)
      case Some(e) => Err(e)
      case None => Ok(PathListBytes(canon))
  }

  method EncodePathLoop(path: Path) returns (encoded: seq<byte>)
    requires ValidPath(path)
    ensures encoded == EncodePath(path)
  {
    encoded := [|path| as byte];
    for j := 0 to |path|
      invariant encoded == [|path|] + Flatten(EncodeChildren(path[..j]))
    {
      hide ToBe;
      FlattenAppend(EncodeChildren(path[..j]), ToBe(path[j], 4));
      assert EncodeChildren(path[..j + 1]) == EncodeChildren(path[..j]) + [ToBe(path[j], 4)];
      encoded := encoded + ToBe(path[j], 4);
    }
    assert path[..|path|] == path;
  }

  method EncodeDerivationPathsLoop(paths: seq<Path>) returns (r: Result<seq<byte>>)
    ensures r == EncodeDerivationPaths(paths)
  {
    hide EncodePath, CanonPaths;
    var canon := CanonPaths(paths);
    if |canon| > U8_MAX {
      return Err(DerivPathLength);
    }
    var encoded := [|canon| as byte];
    for i := 0 to |canon|
      invariant encoded == [|canon|] + Flatten(EncodePaths(canon[..i]))
      invariant FirstPathError(canon) == FirstPathError(canon[i..])
    {
      var childs := canon[i];
      assert canon[i..][0] == childs && canon[i..][1..] == canon[i + 1..];
      if |childs| == 0 {
        return Err(DerivPathEmpty);
      }
      if |childs| > U8_MAX {
        return Err(DerivPathLength);
      }
      var path := EncodePathLoop(childs);
      FlattenAppend(EncodePaths(canon[..i]), path);
      assert EncodePaths(canon[..i + 1]) == EncodePaths(canon[..i]) + [path];
      encoded := encoded + path;
    }
    assert canon[..|canon|] == canon;
    r := Ok(encoded);
  }

  /** The first `n` child numbers. */
  function ParseChildren(b: Slice, n: nat): (r: Result<seq<u32>>)
    ensures r.Ok? ==> |r.value| == n && 4 * n <= |b|
    decreases n
  {
    if n == 0 then Ok([])
    else
      var _ :- CheckOffsetLookahead(0, b, 4);
      Widths();
      var child := FromBe(b[..4]);
      Prepend([child], ParseChildren(b[4..], n - 1))
  }

  /** One path: its child count, then the children. */
  function ParsePath(b: Slice): (r: Result<Path>)
    ensures r.Ok? ==> ValidPath(r.value) && PathSize(r.value) <= |b|
  {
    var _ :- CheckOffset(0, b);
    var childCount := b[0];
    if childCount == 0 then Err(DerivPathEmpty) else ParseChildren(b[1..], childCount)
  }

  function PathSize(path: Lex.Word): nat {
    1 + 4 * |path|
  }

  /** Bytes a list of paths takes on the wire, without its count. */
  function PathsSize(paths: seq<Lex.Word>): nat {
    if paths == [] then 0 else PathSize(paths[0]) + PathsSize(paths[1..])
  }

  /** The first `n` paths, as written. */
  function ParsePaths(b: Slice, n: nat): (r: Result<seq<Path>>)
    ensures r.Ok? ==> |r.value| == n && PathsSize(r.value) <= |b|
    decreases n
  {
    if n == 0 then Ok([])
    else
      var path :- ParsePath(b);
      Prepend([path], ParsePaths(b[PathSize(path)..], n - 1))
  }

  /** The path list as written, before it becomes a set. */
  function ParsePathList(bytes: Slice): (r: Result<(usize, seq<Path>)>)
    ensures r.Ok? ==> 1 <= r.value.0 <= |bytes|
  {
    var offset :- MapErr(InitOffset(bytes, 0), DerivPathEmpty);
    var count := bytes[0];
    if count != 0 then
      var first :- IncrementOffset(bytes, offset, 1);
      var paths :- ParsePaths(bytes[first..], count);
      Ok((first + PathsSize(paths), paths))
    else Ok((Add(offset, 1), []))
  }

  function ParseDerivationPaths(bytes: Slice): (r: Result<(usize, seq<Path>)>)
    ensures r.Ok? ==> 1 <= r.value.0 <= |bytes|
  {
    var (end, paths) :- ParsePathList(bytes);
    Ok((end, CanonPaths(paths)))
  }

  method ParseChildrenLoop(bytes: Slice, start: usize, n: nat) returns (r: Result<seq<u32>>)
    requires start <= |bytes|
    ensures r == ParseChildren(bytes[start..], n)
  {
    var offset: usize := start;
    var childs: seq<u32> := [];
    PrependNothing(ParseChildren(bytes[start..], n));
    for j := 0 to n
      invariant offset == start + 4 * j && offset <= |bytes|
      invariant ParseChildren(bytes[start..], n) == Prepend(childs, ParseChildren(bytes[offset..], n - j))
    {
      var _ :- CheckOffsetLookahead(offset, bytes, 4);
      Widths();
      assert bytes[offset..][..4] == bytes[offset..offset + 4];
      DropDrop(bytes, offset, 4);
      hide FromBe;
      var child := FromBe(bytes[offset..Add(offset, 4)]);
      PrependMore(childs, child, ParseChildren(bytes[offset + 4..], n - j - 1));
      childs := childs + [child];
      offset := Add(offset, 4);
    }
    PrependLast(childs);
    r := Ok(childs);
  }

  method ParsePathLoop(bytes: Slice, offset: usize) returns (r: Result<Path>)
    requires offset <= |bytes|
    ensures r == ParsePath(bytes[offset..])
  {
    hide ParseChildren;
    var _ :- CheckOffset(offset, bytes);
    var childCount := bytes[offset];
    if childCount == 0 {
      return Err(DerivPathEmpty);
    }
    DropDrop(bytes, offset, 1);
    r := ParseChildrenLoop(bytes, Add(offset, 1), childCount);
  }

  lemma ParsePathsStep(bytes: Slice, offset: usize, n: nat)
    requires offset <= |bytes| && n > 0
    ensures ParsePaths(bytes[offset..], n) ==
            match ParsePath(bytes[offset..])
            case Err(e) => Err(e)
            case Ok(path) => Prepend([path], ParsePaths(bytes[offset + PathSize(path)..], n - 1))
  {
    hide ParsePath, Prepend, PathSize, PathsSize;
    var path := ParsePath(bytes[offset..]);
    if path.Ok? {
      DropDrop(bytes, offset, PathSize(path.value));
    }
  }

  lemma ParseNoPaths(b: Slice)
    ensures ParsePaths(b, 0) == Ok([])
  {
  }

  // What the parsing loop knows after reading `raw`, with `n` paths to go.
  ghost predicate PathsRead(
    bytes: Slice, start: usize, total: nat, offset: usize, raw: seq<Path>, paths: seq<Path>, n: nat)
    requires start <= |bytes|
  {
    && offset == start + PathsSize(raw) <= |bytes|
    && paths == CanonPaths(raw)
    && ParsePaths(bytes[start..], total) == Prepend(raw, ParsePaths(bytes[offset..], n))
  }

  lemma ReadPath(bytes: Slice, start: usize, total: nat, offset: usize, raw: seq<Path>, paths: seq<Path>, n: nat)
    requires start <= |bytes| && n > 0
    requires PathsRead(bytes, start, total, offset, raw, paths, n)
    ensures match ParsePath(bytes[offset..])
            case Err(e) => ParsePaths(bytes[start..], total) == Err(e)
            case Ok(path) =>
              && offset + PathSize(path) <= |bytes|
              && PathsRead(bytes, start, total, offset + PathSize(path), raw + [path], InsertPath(paths, path), n - 1)
  {
    hide ParsePath, ParsePaths, PathSize, PathsSize, CanonPaths, InsertPath, Prepend;
    ParsePathsStep(bytes, offset, n);
    var path := ParsePath(bytes[offset..]);
    if path.Ok? {
      PathsSizeAppend(raw, path.value);
      CanonAppend(raw, path.value);
      PrependMore(raw, path.value, ParsePaths(bytes[offset + PathSize(path.value)..], n - 1));
    } else {
      PrependError(raw, path.error);
    }
  }

  method ParsePathsLoop(bytes: Slice, start: usize, n: nat) returns (r: Result<(usize, seq<Path>)>)
    requires start <= |bytes|
    ensures match ParsePaths(bytes[start..], n)
            case Ok(raw) => r == Ok((start + PathsSize(raw), CanonPaths(raw)))
            case Err(e) => r == Err(e)
  {
    hide ParsePath, ParsePaths, ValidPath;
    var offset: usize := start;
    var paths: seq<Path> := [];
    ghost var raw: seq<Path> := [];
    PrependNothing(ParsePaths(bytes[start..], n));
    assert PathsRead(bytes, start, n, offset, raw, paths, n);
    for i := 0 to n
      invariant PathsRead(bytes, start, n, offset, raw, paths, n - i)
    {
      ReadPath(bytes, start, n, offset, raw, paths, n - i);
      var parsed := ParsePathLoop(bytes, offset);
      var childs :- parsed;
      paths := InsertPath(paths, childs);
      offset := offset + PathSize(childs);
      raw := raw + [childs];
    }
    ParseNoPaths(bytes[offset..]);
    PrependLast(raw);
    r := Ok((offset, paths));
  }

  method ParseDerivationPathsLoop(bytes: Slice) returns (r: Result<(usize, seq<Path>)>)
    ensures r == ParseDerivationPaths(bytes)
  {
    hide ParsePaths, CanonPaths;
    var offset: usize :- MapErr(InitOffset(bytes, 0), DerivPathEmpty);
    var count := bytes[0];
    if count != 0 {
      offset :- IncrementOffset(bytes, offset, 1);
      r := ParsePathsLoop(bytes, offset, count);
    } else {
      r := Ok((Add(offset, 1), []));
    }
  }

  lemma CanonAppend(paths: seq<Path>, path: Path)
    ensures CanonPaths(paths + [path]) == InsertPath(CanonPaths(paths), path)
  {
    assert (paths + [path])[..|paths|] == paths;
  }

  lemma {:induction false} PathsSizeAppend(paths: seq<Path>, path: Path)
    ensures PathsSize(paths + [path]) == PathsSize(paths) + PathSize(path)
  {
    if paths == [] {
      assert [path][1..] == [];
    } else {
      PathsSizeAppend(paths[1..], path);
      assert (paths + [path])[1..] == paths[1..] + [path];
    }
  }

  // ----- individual secrets

  function SecretListBytes(secrets: seq<Bytes32>): seq<byte> {
    [|secrets| % 0x100] + Flatten(secrets)
  }

  function EncodeIndividualSecrets(secrets: seq<Bytes32>): Result<seq<byte>> {
    var canon := CanonKeys(secrets);
    if |canon| > U8_MAX then Err(IndividualSecretsLength)
    else if canon == [] then Err(IndividualSecretsEmpty)
    else Ok(SecretListBytes(canon))
  }

  method EncodeIndividualSecretsLoop(secrets: seq<Bytes32>) returns (r: Result<seq<byte>>)
    ensures r == EncodeIndividualSecrets(secrets)
  {
    var canon := CanonKeys(secrets);
    if |canon| > U8_MAX {
      return Err(IndividualSecretsLength);
    } else if canon == [] {
      return Err(IndividualSecretsEmpty);
    }
    var out := [|canon| as byte];
    for i := 0 to |canon|
      invariant out == [|canon|] + Flatten(canon[..i])
    {
      FlattenAppend(canon[..i], canon[i]);
      assert canon[..i + 1] == canon[..i] + [canon[i]];
      out := out + canon[i];
    }
    assert canon[..|canon|] == canon;
    r := Ok(out);
  }

  /** The first `n` secrets, as written. */
  function ParseSecrets(b: Slice, n: nat): (r: Result<seq<Bytes32>>)
    ensures r.Ok? ==> |r.value| == n && 32 * n <= |b|
    decreases n
  {
    if n == 0 then Ok([])
    else
      var _ :- CheckOffsetLookahead(0, b, 32);
      var secret: Bytes32 := b[..32];
      Prepend([secret], ParseSecrets(b[32..], n - 1))
  }

  /** The secret list as written, before it becomes a set. */
  function ParseSecretList(bytes: Slice): (r: Result<(usize, seq<Bytes32>)>)
    ensures r.Ok? ==> 1 <= r.value.0 <= |bytes|
  {
    if bytes == [] then Err(EmptyBytes)
    else if bytes[0] < 1 then Err(IndividualSecretsEmpty)
    else
      var offset :- InitOffset(bytes, 1);
      var count: nat := bytes[0];
      var secrets :- ParseSecrets(bytes[offset..], count);
      Ok((offset + 32 * count, secrets))
  }

  function ParseIndividualSecrets(bytes: Slice): (r: Result<(usize, seq<Bytes32>)>)
    ensures r.Ok? ==> 1 <= r.value.0 <= |bytes|
  {
    var (end, secrets) :- ParseSecretList(bytes);
    Ok((end, CanonKeys(secrets)))
  }

  method ParseIndividualSecretsLoop(bytes: Slice) returns (r: Result<(usize, seq<Bytes32>)>)
    ensures r == ParseIndividualSecrets(bytes)
  {
    if bytes == [] {
      return Err(EmptyBytes);
    }
    var count: nat := bytes[0];
    if count < 1 {
      return Err(IndividualSecretsEmpty);
    }
    var offset: usize :- InitOffset(bytes, 1);
    var secrets: seq<Bytes32> := [];
    ghost var raw: seq<Bytes32> := [];
    PrependNothing(ParseSecrets(bytes[1..], count));
    for i := 0 to count
      invariant offset == 1 + 32 * i && offset <= |bytes|
      invariant secrets == CanonKeys(raw)
      invariant ParseSecrets(bytes[1..], count) == Prepend(raw, ParseSecrets(bytes[offset..], count - i))
    {
      var _ :- CheckOffsetLookahead(offset, bytes, 32);
      var secret: Bytes32 := bytes[offset..Add(offset, 32)];
      assert bytes[offset..][..32] == secret;
      DropDrop(bytes, offset, 32);
      PrependMore(raw, secret, ParseSecrets(bytes[offset + 32..], count - i - 1));
      assert (raw + [secret])[..|raw|] == raw;
      raw := raw + [secret];
      secrets := InsertKey(secrets, secret);
      offset := Add(offset, 32);
    }
    PrependLast(raw);
    r := Ok((offset, secrets));
  }

  // ----- encrypted payload

  function PayloadBytes(nonce: Nonce, ciphertext: Slice): seq<byte> {
    nonce + CompactSize.Encode(|ciphertext|) + ciphertext
  }

  function EncodeEncryptedPayload(nonce: Nonce, ciphertext: Slice): Result<seq<byte>> {
    if ciphertext == [] then Err(CypherTextEmpty) else Ok(PayloadBytes(nonce, ciphertext))
  }

  function ParseEncryptedPayload(bytes: Slice): Result<(Nonce, Slice)> {
    var start :- InitOffset(bytes, 0);
    var _ :- CheckOffsetLookahead(start, bytes, 12);
    var nonce := bytes[start..Add(start, 12)];
    if nonce == ZERO12 then Err(ZeroedNonce)
    else
      var o1 :- IncrementOffset(bytes, start, 12);
      var length :- OkOr(CompactSize.Parse(bytes[o1..]), VarInt);
      var dataLen :- OkOr(ToUsize(length.0), DataLength);
      var o2 :- OkOr(CheckedAdd(o1, length.1), OffsetOverflow);
      var _ :- CheckOffsetLookahead(o2, bytes, dataLen);
      Ok((nonce, bytes[o2..Add(o2, dataLen)]))
  }

  // ----- the whole container

  function EncodeV1(version: byte, paths: seq<byte>, secrets: seq<byte>, encryption: byte, payload: seq<byte>)
    : seq<byte>
  {
    MAGIC + [version] + paths + secrets + [encryption] + payload
  }

  function ParseMagic(bytes: Slice): (r: Result<usize>)
    ensures r.Ok? ==> r.value == |MAGIC| <= |bytes|
  {
    if |bytes| < |MAGIC| || bytes[..|MAGIC|] != MAGIC then Err(Magic) else Ok(|MAGIC|)
  }

  function ParseVersion(bytes: Slice): (r: Result<(usize, byte)>)
    ensures r.Ok? ==> r.value.0 == 1 <= |bytes|
  {
    if bytes == [] then Err(Error.Version)
    else if bytes[0] == 0 || bytes[0] > VERSION_1 then Err(Error.Version)
    else Ok((1, bytes[0]))
  }

  function ParseEncryption(bytes: Slice): (r: Result<(usize, byte)>)
    ensures r.Ok? ==> r.value.0 == 1 <= |bytes|
  {
    if bytes == [] then Err(Error.Encryption)
    else if bytes[0] == 0x00 then Err(EncryptionReserved)
    else Ok((1, bytes[0]))
  }

  function DecodeVersion(bytes: Slice): Result<byte> {
    var magic :- ParseMagic(bytes);
    var offset :- InitOffset(bytes, magic);
    var (_, version) :- ParseVersion(bytes[offset..]);
    Ok(version)
  }

  datatype Header = Header(offset: usize, paths: seq<Path>, secrets: seq<Bytes32>, encryption: byte)

  function ParseV1Header(bytes: Slice): (r: Result<Header>)
    ensures r.Ok? ==> r.value.offset < |bytes|
  {
    var magic :- ParseMagic(bytes);
    var o0 :- InitOffset(bytes, magic);
    var version :- ParseVersion(bytes[o0..]);
    var o1 :- IncrementOffset(bytes, o0, version.0);
    var paths :- ParseDerivationPaths(bytes[o1..]);
    var o2 :- IncrementOffset(bytes, o1, paths.0);
    var secrets :- ParseIndividualSecrets(bytes[o2..]);
    var o3 :- IncrementOffset(bytes, o2, secrets.0);
    var encryption :- ParseEncryption(bytes[o3..]);
    var o4 :- IncrementOffset(bytes, o3, encryption.0);
    Ok(Header(o4, paths.1, secrets.1, encryption.1))
  }

  datatype Decoded = Decoded(
    paths: seq<Path>, secrets: seq<Bytes32>, encryption: byte, nonce: Nonce, ciphertext: Slice)

  function DecodeV1(bytes: Slice): Result<Decoded> {
    var h :- ParseV1Header(bytes);
    var (nonce, ciphertext) :- ParseEncryptedPayload(bytes[h.offset..]);
    Ok(Decoded(h.paths, h.secrets, h.encryption, nonce, ciphertext))
  }

  function DecodeDerivationPaths(bytes: Slice): Result<seq<Path>> {
    var magic :- ParseMagic(bytes);
    var o0 :- InitOffset(bytes, magic);
    var version :- ParseVersion(bytes[o0..]);
    var o1 :- IncrementOffset(bytes, o0, version.0);
    var paths :- ParseDerivationPaths(bytes[o1..]);
    Ok(paths.1)
  }
}
