/** Encryption and decryption of a backup, end to end. */
module Backup {
  import opened Prelude
  import opened Contents
  import opened Payload
  import opened PaddingSizes
  import opened Container
  import opened ContainerProofs
  import opened Frames
  import opened CommonPaths
  import opened Secrets
  import opened Xor
  import Lex

  const NUMS_XONLY: Bytes32 :=
    [0x50, 0x92, 0x9b, 0x74, 0xc1, 0xa0, 0x49, 0x54, 0xb7, 0x8b, 0x4b, 0x60, 0x35, 0xe9, 0x7a, 0x5e,
     0x07, 0x8a, 0x5a, 0x0f, 0x28, 0xec, 0x96, 0xd5, 0x47, 0xbf, 0xee, 0x9a, 0xce, 0x80, 0x3a, 0xc0]
  const CHACHA20_POLY1305: byte := 1

  function EncryptWithNonce(crypto: Crypto, secret: Bytes32, data: Slice, nonce: Nonce): Result<Slice> {
    if nonce == ZERO12 then Err(ZeroedNonce)
    else if data == [] then Err(EmptyBytes)
    else
      match crypto.aeadEncrypt(secret, nonce, data)
      case Some(c) => Ok(c)
      case None => Err(Encrypt)
  }

  /** Content types in bytes; data must be non-empty and fit 32 bits. */
  function RawPayload(items: seq<Item>): Result<seq<RawItem>> {
    if items == [] then Ok([])
    else
      var (content, data) := items[0];
      if |data| > U32_MAX || data == [] then Err(DataLength)
      else
        var bytes :- ToBytes(content);
        var rest :- RawPayload(items[1..]);
        Ok([(bytes, data)] + rest)
  }

  function BuildPayload(items: seq<Item>, padding: Padding): Result<Slice> {
    var raw :- RawPayload(items);
    EncodePlaintext(raw, padding)
  }

  method BuildPayloadLoop(items: seq<Item>, padding: Padding) returns (r: Result<Slice>)
    ensures r == BuildPayload(items, padding)
  {
    hide ToBytes, EncodePlaintext;
    var metadata: seq<RawItem> := [];
    assert items[0..] == items;
    AfterNothing(RawPayload(items));
    for i := 0 to |items|
      invariant RawPayload(items) == After(metadata, RawPayload(items[i..]))
    {
      var (content, data) := items[i];
      assert items[i..][0] == items[i] && items[i..][1..] == items[i + 1..];
      if |data| > U32_MAX || data == [] {
        return Err(DataLength);
      }
      var bytes :- ToBytes(content);
      AfterNext(metadata, (bytes, data), RawPayload(items[i + 1..]));
      metadata := metadata + [(bytes, data)];
    }
    assert metadata + [] == metadata;
    r := EncodePlaintextLoop(metadata, padding);
  }

  function After(before: seq<RawItem>, rest: Result<seq<RawItem>>): Result<seq<RawItem>> {
    match rest
    case Ok(items) => Ok(before + items)
    case Err(e) => Err(e)
  }

  lemma AfterNothing(rest: Result<seq<RawItem>>)
    ensures After([], rest) == rest
  {
    if rest.Ok? {
      assert [] + rest.value == rest.value;
    }
  }

  lemma AfterNext(before: seq<RawItem>, item: RawItem, rest: Result<seq<RawItem>>)
    ensures After(before, After([item], rest)) == After(before + [item], rest)
  {
    if rest.Ok? {
      assert before + ([item] + rest.value) == (before + [item]) + rest.value;
    }
  }

  function DropNums(keys: seq<Bytes32>): (r: seq<Bytes32>)
    ensures forall k :: k in r <==> k in keys && k != NUMS_XONLY
  {
    if keys == [] then []
    else
      assert keys == [keys[0]] + keys[1..];
      (if keys[0] == NUMS_XONLY then [] else [keys[0]]) + DropNums(keys[1..])
  }

  function StoredPaths(paths: seq<Path>, storeCommon: bool): (r: seq<Path>)
    ensures forall p :: p in r <==> p in paths && (storeCommon || p !in FallbackPaths())
  {
    if paths == [] then []
    else
      assert paths == [paths[0]] + paths[1..];
      (if storeCommon || paths[0] !in FallbackPaths() then [paths[0]] else []) + StoredPaths(paths[1..], storeCommon)
  }

  // The sections of a backup before they are assembled.
  datatype Sealed = Sealed(paths: seq<Path>, secret: Bytes32, individual: seq<Bytes32>)

  /** Keys and paths as sets, the secret they share, and each key's part of it. */
  function SealKeys(crypto: Crypto, paths: seq<Path>, storeCommon: bool, keys: seq<Bytes32>): Result<Sealed> {
    var rawKeys := CanonKeys(DropNums(keys));
    var stored := CanonPaths(StoredPaths(paths, storeCommon));
    if |rawKeys| > U8_MAX || rawKeys == [] then Err(KeyCount)
    else if |stored| > U8_MAX then Err(DerivPathCount)
    else
      var secret := DecryptionSecret(crypto, rawKeys);
      var individual :- IndividualSecrets(crypto, secret, rawKeys);
      Ok(Sealed(stored, secret, individual))
  }

  /** Assemble a backup around secrets already padded. */
  function Assemble(crypto: Crypto, s: Sealed, padded: seq<Bytes32>, payload: Slice, nonce: Nonce): Result<Slice> {
    var secrets :- EncodeIndividualSecrets(padded);
    var paths :- EncodeDerivationPaths(s.paths);
    var ciphertext :- EncryptWithNonce(crypto, s.secret, payload, nonce);
    var encrypted :- EncodeEncryptedPayload(nonce, ciphertext);
    Allocate(EncodeV1(VERSION_1, paths, secrets, CHACHA20_POLY1305, encrypted))
  }

  /** `encode_v1_backup` for an arbitrary way to pad the secrets. */
  function EncodeBackup(
    crypto: Crypto, paths: seq<Path>, storeCommon: bool, keys: seq<Bytes32>, payload: Slice, nonce: Nonce,
    pad: seq<Bytes32> -> Result<seq<Bytes32>>): Result<Slice>
  {
    var s :- SealKeys(crypto, paths, storeCommon, keys);
    var padded :- pad(s.individual);
    Assemble(crypto, s, padded, payload, nonce)
  }

  /** Nonce and decoys given by the caller. */
  function EncryptWithDecoys(
    crypto: Crypto, paths: seq<Path>, storeCommon: bool, items: seq<Item>, keys: seq<Bytes32>, padding: Padding,
    nonce: Nonce, decoys: seq<Bytes32>): Result<Slice>
  {
    var payload :- BuildPayload(items, padding);
    EncodeBackup(crypto, paths, storeCommon, keys, payload, nonce, secrets => PadWithDecoys(secrets, decoys))
  }

  /** Nonce and decoys drawn from a random source, the nonce first. */
  function EncryptRandom(
    crypto: Crypto, tape: seq<byte>, paths: seq<Path>, storeCommon: bool, items: seq<Item>, keys: seq<Bytes32>,
    padding: Padding): Result<Slice>
  {
    var (nonce, rest) :- NonceFrom(tape);
    var payload :- BuildPayload(items, padding);
    EncodeBackup(crypto, paths, storeCommon, keys, payload, nonce, secrets => PadRandom(secrets, rest))
  }

  /** Try every stored secret in turn; the first that opens decides. */
  function TrySecrets(crypto: Crypto, mask: Bytes32, secrets: seq<Bytes32>, ciphertext: Slice, nonce: Nonce)
    : Result<seq<Item>>
  {
    if secrets == [] then Err(WrongKey)
    else
      match crypto.aeadDecrypt(Xor32(mask, secrets[0]), nonce, ciphertext)
      case Some(out) => DecodePlaintext(out)
      case None => TrySecrets(crypto, mask, secrets[1..], ciphertext, nonce)
  }

  function DecryptV1(crypto: Crypto, key: Bytes32, secrets: seq<Bytes32>, ciphertext: Slice, nonce: Nonce)
    : Result<seq<Item>>
  {
    TrySecrets(crypto, KeyMask(crypto, key), secrets, ciphertext, nonce)
  }

  method DecryptV1Loop(crypto: Crypto, key: Bytes32, secrets: seq<Bytes32>, ciphertext: Slice, nonce: Nonce)
    returns (r: Result<seq<Item>>)
    ensures r == DecryptV1(crypto, key, secrets, ciphertext, nonce)
  {
    var mask := KeyMask(crypto, key);
    for i := 0 to |secrets|
      invariant TrySecrets(crypto, mask, secrets, ciphertext, nonce) ==
                TrySecrets(crypto, mask, secrets[i..], ciphertext, nonce)
    {
      assert secrets[i..][1..] == secrets[i + 1..];
      var out := crypto.aeadDecrypt(Xor32(mask, secrets[i]), nonce, ciphertext);
      if out.Some? {
        r := DecodePlaintextLoop(out.value);
        return;
      }
    }
    r := Err(WrongKey);
  }

  /** Decode a container and decrypt it with one key. */
  function Open(crypto: Crypto, key: Bytes32, backup: Slice): Result<seq<Item>> {
    var d :- DecodeV1(backup);
    DecryptV1(crypto, key, d.secrets, d.ciphertext, d.nonce)
  }

  // ----- hypotheses on the primitives

  /** Decryption inverts encryption (section 2.8 of RFC 8439). */
  ghost predicate AeadInverts(crypto: Crypto) {
    forall key, nonce, plain ::
      match crypto.aeadEncrypt(key, nonce, plain)
      case Some(c) => crypto.aeadDecrypt(key, nonce, c) == Some(plain)
      case None => true
  }

  /** No slot opens the ciphertext under a secret other than the one it was sealed with. */
  ghost predicate NoFalseOpening(crypto: Crypto, key: Bytes32, d: Decoded, secret: Bytes32) {
    forall c :: c in d.secrets && Xor32(KeyMask(crypto, key), c) != secret ==>
      crypto.aeadDecrypt(Xor32(KeyMask(crypto, key), c), d.nonce, d.ciphertext) == None
  }

  /** The secret every key of a backup leads to. */
  function SharedSecret(crypto: Crypto, keys: seq<Bytes32>): Bytes32 {
    DecryptionSecret(crypto, CanonKeys(DropNums(keys)))
  }

  // ----- what the encoder wrote

  lemma {:induction false} RawPayloadIs(items: seq<Item>)
    requires RawPayload(items).Ok?
    ensures Writable(items) && RawPayload(items).value == RawItems(items)
  {
    hide ToBytes;
    if items != [] {
      RawPayloadIs(items[1..]);
      assert forall i :: 0 < i < |items| ==> items[i] == items[1..][i - 1];
      assert RawItems(items) == [Raw(items[0])] + RawItems(items[1..]);
    }
  }

  lemma PayloadDecodes(items: seq<Item>, padding: Padding)
    requires BuildPayload(items, padding).Ok?
    ensures DecodePlaintext(BuildPayload(items, padding).value) == Ok(NormalItems(items))
  {
    RawPayloadIs(items);
    PayloadRoundTrip(items, padding);
  }

  /** An assembled backup decodes to its sections, the lists as sets. */
  lemma AssembledDecodes(crypto: Crypto, s: Sealed, padded: seq<Bytes32>, payload: Slice, nonce: Nonce)
    requires Assemble(crypto, s, padded, payload, nonce).Ok?
    requires CanonPaths(s.paths) == s.paths
    ensures var b := Assemble(crypto, s, padded, payload, nonce).value;
            var c := crypto.aeadEncrypt(s.secret, nonce, payload);
            c.Some? && DecodeV1(b) == Ok(Decoded(s.paths, CanonKeys(padded), CHACHA20_POLY1305, nonce, c.value))
  {
    hide DecodeV1, PathListBytes, SecretListBytes, PayloadBytes, EncodeV1, CanonPaths, CanonKeys, FirstPathError;
    var b := Assemble(crypto, s, padded, payload, nonce).value;
    var c := crypto.aeadEncrypt(s.secret, nonce, payload).value;
    var f := Frame(s.paths, CanonKeys(padded), CHACHA20_POLY1305, nonce, c);
    CanonicalPathsValid(s.paths);
    CanonTwice(padded);
    assert FrameBytes(f) == b;
    DecodeFrame(b, f);
  }

  lemma CanonicalPathsValid(paths: seq<Path>)
    requires EncodeDerivationPaths(paths).Ok? && CanonPaths(paths) == paths
    ensures ValidPathList(paths)
  {
    FirstErrorNone(paths);
  }

  lemma {:induction false} FirstErrorNone(paths: seq<Path>)
    requires FirstPathError(paths).None?
    ensures ValidPaths(paths)
  {
    if paths != [] {
      FirstErrorNone(paths[1..]);
      assert forall i :: 0 < i < |paths| ==> paths[i] == paths[1..][i - 1];
    }
  }

  lemma CanonTwice(keys: seq<Bytes32>)
    ensures CanonKeys(CanonKeys(keys)) == CanonKeys(keys)
  {
    Lex.CanonAscending(keys);
    Lex.CanonFixed(Lex.Canon(keys));
  }

  lemma SealedPathsCanonical(crypto: Crypto, paths: seq<Path>, storeCommon: bool, keys: seq<Bytes32>)
    requires SealKeys(crypto, paths, storeCommon, keys).Ok?
    ensures var s := SealKeys(crypto, paths, storeCommon, keys).value;
            && CanonPaths(s.paths) == s.paths && s.secret == SharedSecret(crypto, keys)
            && forall p :: p in s.paths <==> p in paths && (storeCommon || p !in FallbackPaths())
  {
    hide FallbackPaths;
    var kept := StoredPaths(paths, storeCommon);
    Lex.CanonAscending(kept);
    Lex.CanonFixed(Lex.Canon(kept));
  }

  /** Every supplied key but the NUMS point gets its slot. */
  lemma KeyHasSlot(crypto: Crypto, paths: seq<Path>, storeCommon: bool, keys: seq<Bytes32>, key: Bytes32)
    requires SealKeys(crypto, paths, storeCommon, keys).Ok?
    requires key in keys && key != NUMS_XONLY
    ensures var s := SealKeys(crypto, paths, storeCommon, keys).value;
            Xor32(s.secret, KeyMask(crypto, key)) in s.individual
  {
    hide KeyMask, DecryptionSecret, StoredPaths;
    var rawKeys := CanonKeys(DropNums(keys));
    assert key in rawKeys;
    var i :| 0 <= i < |rawKeys| && rawKeys[i] == key;
    var s := SealKeys(crypto, paths, storeCommon, keys).value;
    assert s.individual[i] == Xor32(s.secret, KeyMask(crypto, key));
  }

  // ----- what a key reads

  /**
   If no slot opens under another secret, a search ends with the sealed plaintext
   or finds nothing; a key with a slot is never told it is wrong.
   */
  lemma {:induction false} SearchFinds(
    crypto: Crypto, mask: Bytes32, secrets: seq<Bytes32>, ciphertext: Slice, nonce: Nonce, secret: Bytes32,
    plain: Slice)
    requires crypto.aeadDecrypt(secret, nonce, ciphertext) == Some(plain)
    requires forall c :: c in secrets && Xor32(mask, c) != secret ==>
               crypto.aeadDecrypt(Xor32(mask, c), nonce, ciphertext) == None
    ensures var r := TrySecrets(crypto, mask, secrets, ciphertext, nonce);
            r == DecodePlaintext(plain) || (r == Err(WrongKey) && Xor32(secret, mask) !in secrets)
    decreases |secrets|
  {
    hide DecodePlaintext, Xor32;
    if secrets != [] {
      var c := secrets[0];
      assert secrets == [c] + secrets[1..];
      if Xor32(mask, c) != secret {
        if c == Xor32(secret, mask) {
          XorCancels(secret, mask);
          XorCommutes(mask, c);
        }
        SearchFinds(crypto, mask, secrets[1..], ciphertext, nonce, secret, plain);
      }
    }
  }

  /**
   End to end, for any way to pad that keeps the real secrets: the backup decodes,
   any one supplied key reads back exactly the payload, and any other key reads the
   same or is told it is wrong.
   */
  lemma BackupOpens(
    crypto: Crypto, paths: seq<Path>, storeCommon: bool, keys: seq<Bytes32>, payload: Slice, nonce: Nonce,
    pad: seq<Bytes32> -> Result<seq<Bytes32>>, key: Bytes32)
    requires AeadInverts(crypto)
    requires forall s :: pad(s).Ok? ==> s <= pad(s).value
    requires EncodeBackup(crypto, paths, storeCommon, keys, payload, nonce, pad).Ok?
    ensures var b := EncodeBackup(crypto, paths, storeCommon, keys, payload, nonce, pad).value;
            && DecodeV1(b).Ok?
            && (NoFalseOpening(crypto, key, DecodeV1(b).value, SharedSecret(crypto, keys)) ==>
                  || Open(crypto, key, b) == DecodePlaintext(payload)
                  || (Open(crypto, key, b) == Err(WrongKey) && (key !in keys || key == NUMS_XONLY)))
  {
    hide DecodeV1, DecodePlaintext, KeyMask, SharedSecret, TrySecrets, Xor32;
    var s := SealKeys(crypto, paths, storeCommon, keys).value;
    var padded := pad(s.individual).value;
    SealedPathsCanonical(crypto, paths, storeCommon, keys);
    AssembledDecodes(crypto, s, padded, payload, nonce);
    var b := EncodeBackup(crypto, paths, storeCommon, keys, payload, nonce, pad).value;
    var d := DecodeV1(b).value;
    if key in keys && key != NUMS_XONLY {
      KeyHasSlot(crypto, paths, storeCommon, keys, key);
      InPrefix(s.individual, padded, Xor32(s.secret, KeyMask(crypto, key)));
    }
    if NoFalseOpening(crypto, key, d, s.secret) {
      SearchFinds(crypto, KeyMask(crypto, key), d.secrets, d.ciphertext, nonce, s.secret, payload);
    }
  }

  lemma InPrefix<T>(s: seq<T>, t: seq<T>, x: T)
    requires s <= t && x in s
    ensures x in t
  {
    var i :| 0 <= i < |s| && s[i] == x;
    assert t[i] == x;
  }
}
