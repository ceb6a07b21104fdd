/** What holds of a backup from the caller's arguments to the items read back. */
module EndToEnd {
  import opened Prelude
  import opened Contents
  import opened Payload
  import opened PaddingSizes
  import opened Container
  import opened CommonPaths
  import opened Secrets
  import opened Backup
  import CanonicalContainer
  import opened Xor
  import Framing
  import Lex

  /**
   A backup the encoder returns decodes, and gives any one of its keys exactly the
   items, wherever the slot of that key sorts. No key reads anything else.
   */
  lemma DecoysEndToEnd(
    crypto: Crypto, paths: seq<Path>, storeCommon: bool, items: seq<Item>, keys: seq<Bytes32>, padding: Padding,
    nonce: Nonce, decoys: seq<Bytes32>, key: Bytes32)
    requires AeadInverts(crypto)
    requires EncryptWithDecoys(crypto, paths, storeCommon, items, keys, padding, nonce, decoys).Ok?
    ensures var b := EncryptWithDecoys(crypto, paths, storeCommon, items, keys, padding, nonce, decoys).value;
            && DecodeV1(b).Ok?
            && (NoFalseOpening(crypto, key, DecodeV1(b).value, SharedSecret(crypto, keys)) ==>
                  || Open(crypto, key, b) == Ok(NormalItems(items))
                  || (Open(crypto, key, b) == Err(WrongKey) && (key !in keys || key == NUMS_XONLY)))
  {
    hide EncodeBackup, BuildPayload, DecodeV1, DecodePlaintext, PadWithDecoys, NormalItems, NoFalseOpening, Open;
    var payload := BuildPayload(items, padding).value;
    var pad := secrets => PadWithDecoys(secrets, decoys);
    PayloadDecodes(items, padding);
    forall s | pad(s).Ok? ensures s <= pad(s).value {
      PadAccepts(s, decoys);
    }
    BackupOpens(crypto, paths, storeCommon, keys, payload, nonce, pad, key);
  }

  /** The stored paths are the given ones, less the common ones unless asked for. */
  lemma StoredPathsEndToEnd(
    crypto: Crypto, paths: seq<Path>, storeCommon: bool, items: seq<Item>, keys: seq<Bytes32>, padding: Padding,
    nonce: Nonce, decoys: seq<Bytes32>)
    requires EncryptWithDecoys(crypto, paths, storeCommon, items, keys, padding, nonce, decoys).Ok?
    ensures var b := EncryptWithDecoys(crypto, paths, storeCommon, items, keys, padding, nonce, decoys).value;
            && DecodeV1(b).Ok?
            && DecodeV1(b).value.encryption == CHACHA20_POLY1305 && DecodeV1(b).value.nonce == nonce
            && forall p :: p in DecodeV1(b).value.paths
                           <==> p in paths && (storeCommon || (!IsCommon(0, p) && !IsCommon(1, p)))
  {
    hide BuildPayload, DecodeV1, FallbackPaths, IsCommon, SharedSecret;
    var payload := BuildPayload(items, padding).value;
    var s := SealKeys(crypto, paths, storeCommon, keys).value;
    var padded := PadWithDecoys(s.individual, decoys).value;
    SealedPathsCanonical(crypto, paths, storeCommon, keys);
    AssembledDecodes(crypto, s, padded, payload, nonce);
    forall p: Path ensures p in FallbackPaths() <==> IsCommon(0, p) || IsCommon(1, p) {
      FallbackAre(p);
    }
  }

  /** A backup with random nonce and decoys is one with the draws given by hand. */
  lemma RandomRefines(
    crypto: Crypto, tape: seq<byte>, paths: seq<Path>, storeCommon: bool, items: seq<Item>, keys: seq<Bytes32>,
    padding: Padding) returns (nonce: Nonce, decoys: seq<Bytes32>)
    requires EncryptRandom(crypto, tape, paths, storeCommon, items, keys, padding).Ok?
    ensures EncryptRandom(crypto, tape, paths, storeCommon, items, keys, padding)
            == EncryptWithDecoys(crypto, paths, storeCommon, items, keys, padding, nonce, decoys)
    ensures NonceFrom(tape).Ok? && nonce == NonceFrom(tape).value.0 && nonce != ZERO12
  {
    hide BuildPayload, Assemble, SealKeys, PadWithDecoys;
    var drawn := NonceFrom(tape).value;
    nonce := drawn.0;
    var payload := BuildPayload(items, padding).value;
    var s := SealKeys(crypto, paths, storeCommon, keys).value;
    RandomRefinesDecoys(s.individual, drawn.1);
    decoys := DrawDecoys(s.individual, DoublingSize(|s.individual|).value, drawn.1).value.0;
    NonceNotZero(crypto, s, PadRandom(s.individual, drawn.1).value, payload, nonce);
  }

  lemma NonceNotZero(crypto: Crypto, s: Sealed, padded: seq<Bytes32>, payload: Slice, nonce: Nonce)
    requires Assemble(crypto, s, padded, payload, nonce).Ok?
    ensures nonce != ZERO12
  {
  }

  /** The same end-to-end guarantee for random nonces and decoys. */
  lemma RandomEndToEnd(
    crypto: Crypto, tape: seq<byte>, paths: seq<Path>, storeCommon: bool, items: seq<Item>, keys: seq<Bytes32>,
    padding: Padding, key: Bytes32)
    requires AeadInverts(crypto)
    requires EncryptRandom(crypto, tape, paths, storeCommon, items, keys, padding).Ok?
    ensures var b := EncryptRandom(crypto, tape, paths, storeCommon, items, keys, padding).value;
            && DecodeV1(b).Ok?
            && (NoFalseOpening(crypto, key, DecodeV1(b).value, SharedSecret(crypto, keys)) ==>
                  || Open(crypto, key, b) == Ok(NormalItems(items))
                  || (Open(crypto, key, b) == Err(WrongKey) && (key !in keys || key == NUMS_XONLY)))
  {
    hide EncryptRandom, EncryptWithDecoys, DecodeV1, NormalItems, NoFalseOpening, Open;
    var nonce, decoys := RandomRefines(crypto, tape, paths, storeCommon, items, keys, padding);
    DecoysEndToEnd(crypto, paths, storeCommon, items, keys, padding, nonce, decoys, key);
  }

  // ----- the caller's order

  /** Order, repetitions, the NUMS key and common paths leave no trace. */
  lemma SealOrder(
    crypto: Crypto, paths: seq<Path>, paths': seq<Path>, storeCommon: bool, keys: seq<Bytes32>, keys': seq<Bytes32>)
    requires forall k :: k != NUMS_XONLY ==> (k in keys <==> k in keys')
    requires forall p :: storeCommon || p !in FallbackPaths() ==> (p in paths <==> p in paths')
    ensures SealKeys(crypto, paths, storeCommon, keys) == SealKeys(crypto, paths', storeCommon, keys')
  {
    hide FallbackPaths, DecryptionSecret, IndividualSecrets;
    Lex.CanonSameElements(DropNums(keys), DropNums(keys'));
    Lex.CanonSameElements(StoredPaths(paths, storeCommon), StoredPaths(paths', storeCommon));
  }

  /** The container is the same for every order of the arguments, errors included. */
  lemma CallerOrderHidden(
    crypto: Crypto, paths: seq<Path>, paths': seq<Path>, storeCommon: bool, items: seq<Item>,
    keys: seq<Bytes32>, keys': seq<Bytes32>, padding: Padding, nonce: Nonce,
    decoys: seq<Bytes32>, decoys': seq<Bytes32>)
    requires forall k :: k != NUMS_XONLY ==> (k in keys <==> k in keys')
    requires forall p :: storeCommon || p !in FallbackPaths() ==> (p in paths <==> p in paths')
    requires multiset(decoys) == multiset(decoys')
    ensures EncryptWithDecoys(crypto, paths, storeCommon, items, keys, padding, nonce, decoys)
            == EncryptWithDecoys(crypto, paths', storeCommon, items, keys', padding, nonce, decoys')
  {
    hide FallbackPaths, SealKeys, BuildPayload, PadWithDecoys, EncodeIndividualSecrets;
    SealOrder(crypto, paths, paths', storeCommon, keys, keys');
    var s := SealKeys(crypto, paths, storeCommon, keys);
    if s.Ok? {
      DecoyOrder(s.value.individual, decoys, decoys');
    }
  }

  // ----- the hypotheses can be met

  function ToySha(x: seq<byte>): Bytes32 {
    seq(32, i requires 0 <= i < 32 =>
      if |x| >= 64 then if i == 0 then x[7] else 0
      else if i < |x| then x[i] else 0)
  }

  /** A transparent toy cipher: the key in front of the plaintext. */
  function ToyCrypto(): Crypto {
    Crypto(
      ToySha,
      (key: Bytes32, nonce: Nonce, plain: Slice) =>
        if 32 + |plain| <= ISIZE_MAX then Some(key + plain) else None,
      (key: Bytes32, nonce: Nonce, c: Slice) => if key <= c then Some(c[32..]) else None)
  }

  lemma ToyInverts()
    ensures AeadInverts(ToyCrypto())
  {
    var c := ToyCrypto();
    forall key: Bytes32, nonce: Nonce, plain: Slice
      ensures match c.aeadEncrypt(key, nonce, plain)
              case Some(out) => c.aeadDecrypt(key, nonce, out) == Some(plain)
              case None => true
    {
      assert (key + plain)[..32] == key && (key + plain)[32..] == plain;
    }
  }

  lemma ToyOpensWithOneSecret(d: Decoded, key: Bytes32, secret: Bytes32, plain: Slice)
    requires ToyCrypto().aeadEncrypt(secret, d.nonce, plain) == Some(d.ciphertext)
    ensures NoFalseOpening(ToyCrypto(), key, d, secret)
  {
    hide KeyMask, Xor32;
    forall c | c in d.secrets && Xor32(KeyMask(ToyCrypto(), key), c) != secret
      ensures ToyCrypto().aeadDecrypt(Xor32(KeyMask(ToyCrypto(), key), c), d.nonce, d.ciphertext) == None
    {
      SamePrefix(d.ciphertext, Xor32(KeyMask(ToyCrypto(), key), c), secret);
    }
  }

  lemma SamePrefix(s: seq<byte>, x: seq<byte>, y: seq<byte>)
    ensures |x| == |y| && x <= s && y <= s ==> x == y
  {
  }

  lemma ToySecretDiffers(key: Bytes32)
    ensures KeyMask(ToyCrypto(), key) != DecryptionSecret(ToyCrypto(), [key])
  {
    hide ToyCrypto, CanonKeys;
    ToyTag(DECRYPTION_SECRET, Framing.Flatten(CanonKeys([key])));
    ToyTag(INDIVIDUAL_SECRET, key);
  }

  lemma ToyTag(tag: seq<byte>, bytes: seq<byte>)
    requires |tag| == 24
    ensures TaggedHash(ToyCrypto(), tag, bytes)[0] == tag[7]
  {
    var t: seq<byte> := ToySha(tag);
    assert t[7] == tag[7];
    assert (t + t + bytes)[7] == t[7];
  }

  lemma ToySeals(key: Bytes32)
    requires key != NUMS_XONLY
    ensures SharedSecret(ToyCrypto(), [key]) == DecryptionSecret(ToyCrypto(), [key])
    ensures SealKeys(ToyCrypto(), [], false, [key]) ==
            Ok(Sealed([], SharedSecret(ToyCrypto(), [key]),
                      [Xor32(SharedSecret(ToyCrypto(), [key]), KeyMask(ToyCrypto(), key))]))
  {
    hide ToyCrypto, KeyMask, DecryptionSecret, FallbackPaths;
    var c := ToyCrypto();
    Lex.CanonFixed([key]);
    assert DropNums([key]) == [key];
    var secret := DecryptionSecret(c, [key]);
    ToySecretDiffers(key);
    SecretsDerive(c, secret, [key]);
    var slot := Xor32(secret, KeyMask(c, key));
    var individual := IndividualSecrets(c, secret, [key]);
    assert individual.Ok?;
    assert individual.value == [slot];
  }

  lemma ToyPayload(data: Slice)
    requires 1 <= |data| <= 100
    ensures var p := BuildPayload([(Text, data)], NoPadding);
            p.Ok? && 1 <= |p.value| <= 120
  {
    var items: seq<Item> := [(Text, data)];
    assert items[1..] == [] && RawPayload([]) == Ok([]);
    var raw: seq<RawItem> := [(ToBytes(Text).value, data)];
    assert raw + [] == raw;
    assert RawPayload(items).Ok?;
    assert RawPayload(items).value == raw;
    assert raw[1..] == [];
    NoItems();
    ConcatHead(raw);
  }

  lemma ToyAssembles(s: Sealed, padded: seq<Bytes32>, payload: Slice, nonce: Nonce)
    requires s.paths == [] && 1 <= |padded| <= 5 && 1 <= |payload| <= 120 && nonce != ZERO12
    ensures Assemble(ToyCrypto(), s, padded, payload, nonce).Ok?
  {
    hide Lex.Canon, PathListBytes, SecretListBytes;
    assert padded[0] in CanonKeys(padded);
    CanonicalContainer.ListSizes([], CanonKeys(padded));
  }

  function Filled(n: byte): (r: Bytes32)
    ensures r[0] == n
  {
    seq(32, i => n)
  }

  // Four of five fixed strings are not the slot.
  lemma ToyDecoys(slot: Bytes32) returns (decoys: seq<Bytes32>)
    ensures |decoys| == 4 && FreshDecoys([slot], decoys)
  {
    hide Filled;
    var all := [Filled(1), Filled(2), Filled(3), Filled(4), Filled(5)];
    var k := if slot[0] in [1, 2, 3, 4, 5] then slot[0] - 1 else 4;
    decoys := all[..k] + all[k + 1..];
    assert forall i :: 0 <= i < 4 ==> decoys[i][0] == if i < k then i + 1 else i + 2;
    assert forall d :: d in decoys ==> d[0] != slot[0] && d[0] != 0;
  }

  /** For every key, nonce and short text, a backup exists that the toy primitives seal and open again. */
  lemma HypothesesCanBeMet(key: Bytes32, nonce: Nonce, data: Slice) returns (decoys: seq<Bytes32>)
    requires key != NUMS_XONLY && nonce != ZERO12 && 1 <= |data| <= 100
    ensures var sealed := EncryptWithDecoys(ToyCrypto(), [], false, [(Text, data)], [key], NoPadding, nonce, decoys);
            && sealed.Ok? && DecodeV1(sealed.value).Ok?
            && NoFalseOpening(ToyCrypto(), key, DecodeV1(sealed.value).value, SharedSecret(ToyCrypto(), [key]))
            && Open(ToyCrypto(), key, sealed.value) == Ok([(Text, data)])
  {
    hide ToyCrypto, BuildPayload, SealKeys, Assemble, KeyMask, DecryptionSecret, SharedSecret, NoFalseOpening,
         Open, DecodeV1, PadWithDecoys;
    var c := ToyCrypto();
    ToyInverts();
    ToySeals(key);
    ToyPayload(data);
    var s := SealKeys(c, [], false, [key]).value;
    decoys := ToyDecoys(s.individual[0]);
    PadAccepts(s.individual, decoys);
    var payload := BuildPayload([(Text, data)], NoPadding).value;
    var padded := s.individual + decoys;
    ToyAssembles(s, padded, payload, nonce);
    AssembledDecodes(c, s, padded, payload, nonce);
    var b := EncryptWithDecoys(c, [], false, [(Text, data)], [key], NoPadding, nonce, decoys).value;
    ToyOpensWithOneSecret(DecodeV1(b).value, key, s.secret, payload);
    DecoysEndToEnd(c, [], false, [(Text, data)], [key], NoPadding, nonce, decoys, key);
    assert NormalItems([(Text, data)]) == [(Text, data)];
  }
}
