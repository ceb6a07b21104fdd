/** Every cosigner is accounted for, and what one builder encrypts another decrypts. */
module BuilderProofs {
  import opened Prelude
  import opened Contents
  import opened Payload
  import opened Container
  import opened CommonPaths
  import opened Secrets
  import opened Backup
  import opened EndToEnd
  import opened Descriptors
  import opened PolicyBackups
  import opened Documents
  import opened Builders
  import CanonicalContainer
  import P = Pools
  import Q = PoolProofs

  // ----- one builder encrypts, another decrypts

  /** No slot of these bytes opens for the key under a secret other than the builder's. */
  ghost predicate SoundLevel(crypto: Crypto, t: Outcome<State>, bytes: Slice, key: PublicKey) {
    t.Done? && DecodeV1(bytes).Ok? ==>
      NoFalseOpening(crypto, Xonly(key), DecodeV1(bytes).value, SharedSecret(crypto, XonlyAll(t.value.pool.keys)))
  }

  /** Some key of `keys` has a slot, and none opens the backup under a wrong secret. */
  ghost predicate Recipients(crypto: Crypto, t: State, bytes: Slice, keys: seq<PublicKey>) {
    && DecodeV1(bytes).Ok?
    && (exists k :: k in keys && k in t.pool.keys && Xonly(k) != NUMS_XONLY)
    && forall k: PublicKey :: k in keys ==> SoundLevel(crypto, Done(t), bytes, k)
  }

  lemma ItemsOpen(crypto: Crypto, entropy: Entropy, t: State, items: seq<Item>, key: PublicKey)
    requires AeadInverts(crypto) && EncryptItems(crypto, entropy, t, items).Ok?
    ensures var b := EncryptItems(crypto, entropy, t, items).value;
            && DecodeV1(b).Ok? && DecodeV1(b).value.encryption == CHACHA20_POLY1305
            && (NoFalseOpening(crypto, Xonly(key), DecodeV1(b).value, SharedSecret(crypto, XonlyAll(t.pool.keys))) ==>
                  || Open(crypto, Xonly(key), b) == Ok(NormalItems(items))
                  || (&& Open(crypto, Xonly(key), b) == Err(WrongKey)
                      && (key !in t.pool.keys || Xonly(key) == NUMS_XONLY)))
  {
    hide EncryptWithDecoys, EncryptRandom, DecodeV1, NormalItems, NoFalseOpening, Open, SharedSecret, Xonly, IsCommon;
    var keys := XonlyAll(t.pool.keys);
    if key in t.pool.keys {
      var i :| 0 <= i < |t.pool.keys| && t.pool.keys[i] == key;
      assert keys[i] == Xonly(key);
    }
    match entropy
    case Given(nonce, decoys) =>
      DecoysEndToEnd(crypto, t.pool.paths, t.storeCommon, items, keys, t.padding, nonce, decoys, Xonly(key));
      StoredPathsEndToEnd(crypto, t.pool.paths, t.storeCommon, items, keys, t.padding, nonce, decoys);
    case Drawn(tape) =>
      RandomEndToEnd(crypto, tape, t.pool.paths, t.storeCommon, items, keys, t.padding, Xonly(key));
      var nonce, decoys := RandomRefines(crypto, tape, t.pool.paths, t.storeCommon, items, keys, t.padding);
      StoredPathsEndToEnd(crypto, t.pool.paths, t.storeCommon, items, keys, t.padding, nonce, decoys);
  }

  /** What encrypts has a recipient: some pooled key that is not the NUMS point. */
  lemma SealedHasRecipient(crypto: Crypto, entropy: Entropy, t: State) returns (k: PublicKey)
    requires EncryptState(crypto, entropy, t).Done?
    ensures k in t.pool.keys && Xonly(k) != NUMS_XONLY
  {
    hide BuildPayload, Assemble, PadWithDecoys, PadRandom, NonceFrom, DecryptionSecret, StoredPaths, Xonly;
    var keys := XonlyAll(t.pool.keys);
    assert SealKeys(crypto, t.pool.paths, t.storeCommon, keys).Ok?;
    var raw := CanonKeys(DropNums(keys));
    assert raw[0] in raw;
    var i :| 0 <= i < |keys| && keys[i] == raw[0];
    k := t.pool.keys[i];
  }

  lemma {:induction false} FirstOpeningFinds(
    crypto: Crypto, b: Slice, keys: seq<PublicKey>, p: Payloads, items: seq<Item>, key: PublicKey)
    requires DecodeV1(b).Ok?
    requires var d := DecodeV1(b).value; p == ToDecrypt(d.ciphertext, d.secrets, d.nonce)
    requires forall k: PublicKey :: k in keys ==>
               Open(crypto, Xonly(k), b) == Ok(items) || Open(crypto, Xonly(k), b) == Err(WrongKey)
    requires key in keys && Open(crypto, Xonly(key), b) == Ok(items)
    ensures FirstOpening(crypto, keys, p) == Some(items)
    decreases |keys|
  {
    hide DecodeV1, DecryptV1, Xonly;
    assert keys == [keys[0]] + keys[1..];
    if Open(crypto, Xonly(keys[0]), b) != Ok(items) {
      FirstOpeningFinds(crypto, b, keys[1..], p, items, key);
    }
  }

  /** Reading with a fresh builder and some keys, one of them a recipient's. */
  lemma FreshBuilderReads<V>(
    crypto: Crypto, formats: Formats, vendor: VendorParser<V>, entropy: Entropy, t: State, keys: seq<PublicKey>)
    requires AeadInverts(crypto) && EncryptState(crypto, entropy, t).Done?
    requires Recipients(crypto, t, EncryptState(crypto, entropy, t).value.bytes, keys)
    ensures var b := EncryptState(crypto, entropy, t).value.bytes;
            && WithEncrypted(NEW, b).Done?
            && Items(t).Some?
            && DecryptState(crypto, formats, vendor, WithKeys(WithEncrypted(NEW, b).value, keys))
               == ExtractAll(formats, vendor, NormalItems(Items(t).value))
  {
    hide EncryptItems, DecodeV1, DecodeVersion, NormalItems, NoFalseOpening, Open, SharedSecret, ExtractAll, Xonly;
    var items := Items(t).value;
    var b := EncryptState(crypto, entropy, t).value.bytes;
    var key :| key in keys && key in t.pool.keys && Xonly(key) != NUMS_XONLY;
    forall k: PublicKey | k in keys
      ensures || Open(crypto, Xonly(k), b) == Ok(NormalItems(items))
              || (Open(crypto, Xonly(k), b) == Err(WrongKey) && (k !in t.pool.keys || Xonly(k) == NUMS_XONLY))
    {
      ItemsOpen(crypto, entropy, t, items, k);
    }
    ItemsOpen(crypto, entropy, t, items, key);
    CanonicalContainer.PartialDecoders(b);
    var r := WithEncrypted(NEW, b).value;
    NothingToDrop(r.pool, keys);
    FirstOpeningFinds(crypto, b, keys, r.payload, NormalItems(items), key);
  }

  lemma NothingToDrop(p: P.Pool, keys: seq<PublicKey>)
    requires p.exposed == []
    ensures P.SetKeys(p, keys).keys == keys
  {
    hide P.RetainKeys, P.RetainPaths, P.WarnExposed;
    RetainAll(keys);
  }

  lemma {:induction false} RetainAll(keys: seq<PublicKey>)
    ensures P.RetainKeys(keys, []) == keys
  {
    hide Xonly;
    if keys != [] {
      var n := |keys| - 1;
      RetainAll(keys[..n]);
      assert keys == keys[..n] + [keys[n]];
    }
  }

  /**
   Documents given to one builder come back from another, whole and in order, to
   whoever holds one of the keys.
   */
  lemma DocumentsRoundTrip<V>(
    crypto: Crypto, formats: Formats, vendor: VendorParser<V>, entropy: Entropy, t: State, docs: seq<Document>,
    keys: seq<PublicKey>)
    requires AeadInverts(crypto) && EncryptState(crypto, entropy, t).Done?
    requires t.payload == EncryptMany(ItemsOf(formats, docs))
    requires forall i :: 0 <= i < |docs| ==> Readable(formats, docs[i])
    requires Recipients(crypto, t, EncryptState(crypto, entropy, t).value.bytes, keys)
    ensures var b := EncryptState(crypto, entropy, t).value.bytes;
            && WithEncrypted(NEW, b).Done?
            && DecryptState(crypto, formats, vendor, WithKeys(WithEncrypted(NEW, b).value, keys))
               == Done(ReadBackAll<V>(docs))
  {
    hide EncryptState, DecryptState, WithEncrypted, Recipients, Readable, ExtractAll;
    FreshBuilderReads(crypto, formats, vendor, entropy, t, keys);
    DocumentsComeBack(formats, vendor, docs);
  }

  /** A document given alone comes back too: the builder takes its content type. */
  lemma OneDocumentRoundTrip<V>(
    crypto: Crypto, formats: Formats, vendor: VendorParser<V>, entropy: Entropy, s: State, doc: Document,
    keys: seq<PublicKey>)
    requires AeadInverts(crypto) && Readable(formats, doc) && WithPayload(formats, s, doc).Done?
    requires var t := WithPayload(formats, s, doc).value;
             && EncryptState(crypto, entropy, t).Done?
             && Recipients(crypto, t, EncryptState(crypto, entropy, t).value.bytes, keys)
    ensures var t := WithPayload(formats, s, doc).value;
            var b := EncryptState(crypto, entropy, t).value.bytes;
            && WithEncrypted(NEW, b).Done?
            && DecryptState(crypto, formats, vendor, WithKeys(WithEncrypted(NEW, b).value, keys))
               == Done([ReadBack<V>(doc)])
  {
    hide EncryptState, DecryptState, WithEncrypted, Recipients, ExtractAll, ReadBack, ShareOf, Print;
    var t := WithPayload(formats, s, doc).value;
    KnownIfReadable(formats, doc);
    FreshBuilderReads(crypto, formats, vendor, entropy, t, keys);
    DocumentsComeBack(formats, vendor, [doc]);
    assert ItemsOf(formats, [doc]) == [(ContentOf(doc), Print(formats, doc))];
    assert ReadBackAll<V>([doc]) == [ReadBack<V>(doc)];
  }

  lemma KnownIfReadable(formats: Formats, doc: Document)
    requires Readable(formats, doc)
    ensures IsKnown(ContentOf(doc))
  {
    hide ValidDescriptorBackup;
  }

  /** Exactly when the builder encrypts, the core's own conditions aside. */
  lemma EncryptGates(crypto: Crypto, entropy: Entropy, t: State)
    ensures EncryptState(crypto, entropy, t).Done? <==>
            && t.encryption == ChaCha20Poly1305 && t.version == V1 && t.pool.keys != []
            && match t.payload
               case EncryptMany(items) => EncryptItems(crypto, entropy, t, items).Ok?
               case EncryptOne(bytes) =>
                 t.content != Contents.Unknown && EncryptItems(crypto, entropy, t, [(t.content, bytes)]).Ok?
               case _ => false
    ensures EncryptState(crypto, entropy, t).Done? ==>
              && EncryptState(crypto, entropy, t).value.warnings == t.pool.warnings
              && Items(t).Some?
              && EncryptItems(crypto, entropy, t, Items(t).value) == Ok(EncryptState(crypto, entropy, t).value.bytes)
  {
    hide EncryptItems;
  }

  /** The first key that opens decides; when none does, nothing is found. */
  lemma {:induction false} FirstKeyDecides(crypto: Crypto, keys: seq<PublicKey>, p: Payloads, i: nat)
    requires p.ToDecrypt? && i <= |keys|
    requires forall j :: 0 <= j < i ==> DecryptV1(crypto, Xonly(keys[j]), p.secrets, p.ciphertext, p.nonce).Err?
    ensures i == |keys| ==> FirstOpening(crypto, keys, p) == None
    ensures i < |keys| && DecryptV1(crypto, Xonly(keys[i]), p.secrets, p.ciphertext, p.nonce).Ok? ==>
              FirstOpening(crypto, keys, p) ==
              Some(DecryptV1(crypto, Xonly(keys[i]), p.secrets, p.ciphertext, p.nonce).value)
  {
    hide DecryptV1, Xonly;
    if i > 0 {
      assert DecryptV1(crypto, Xonly(keys[0]), p.secrets, p.ciphertext, p.nonce).Err?;
      assert forall j :: 0 <= j < i - 1 ==> keys[1..][j] == keys[j + 1];
      FirstKeyDecides(crypto, keys[1..], p, i - 1);
    }
  }

  /** Reading an envelope succeeds exactly when the container decodes, and keeps all it says. */
  lemma EnvelopeAccepts(s: State, bytes: Slice)
    ensures WithEncrypted(s, bytes).Done? <==> DecodeV1(bytes).Ok?
    ensures DecodeV1(bytes).Ok? ==>
              var d, t := DecodeV1(bytes).value, WithEncrypted(s, bytes).value;
              && t.pool.paths == d.paths && t.payload == ToDecrypt(d.ciphertext, d.secrets, d.nonce)
              && (t.encryption == ChaCha20Poly1305 <==> d.encryption == 1)
              && t.pool.keys == s.pool.keys && t.pool.exposed == s.pool.exposed && t.version == s.version
  {
    hide DecodeV1, DecodeVersion;
    if DecodeV1(bytes).Ok? {
      CanonicalContainer.PartialDecoders(bytes);
    }
  }

  /** Exactly when decryption succeeds. */
  lemma DecryptGates<V>(crypto: Crypto, formats: Formats, vendor: VendorParser<V>, t: State)
    ensures DecryptState(crypto, formats, vendor, t).Done? <==>
            && t.pool.keys != [] && t.version == V1 && t.payload.ToDecrypt? && t.encryption == ChaCha20Poly1305
            && FirstOpening(crypto, t.pool.keys, t.payload).Some?
            && ExtractAll(formats, vendor, FirstOpening(crypto, t.pool.keys, t.payload).value).Done?
  {
    hide FirstOpening, ExtractAll;
  }
}
