/** Wrap levels: a descriptor backup sealed inside backups, one key set a level. */
module Onion {
  import opened Prelude
  import opened Contents
  import opened Container
  import opened Secrets
  import opened Backup
  import opened Descriptors
  import opened PolicyBackups
  import opened Documents
  import opened Builders
  import opened BuilderProofs
  import CanonicalContainer
  import P = Pools

  datatype WrapLevel = WrapLevel(note: Option<Slice>, keys: seq<DescriptorKey>)

  // One entry per level, outermost first.
  type Levels = s: seq<WrapLevel> | s != [] witness [WrapLevel(None, [])]

  datatype WrapError = NoLevelKeys | FailedToEncrypt(failure: Failure)

  datatype Wrapping<+T> = Wrapped(value: T) | Refused(error: WrapError) {
    predicate IsFailure() {
      Refused?
    }

    function PropagateFailure<U>(): Wrapping<U>
      requires Refused?
    {
      Refused(error)
    }

    function Extract(): T
      requires Wrapped?
    {
      value
    }
  }

  function Lift<T>(r: Outcome<T>): Wrapping<T> {
    match r
    case Done(v) => Wrapped(v)
    case Failed(f) => Refused(FailedToEncrypt(f))
  }

  // ----- a level's keys and paths

  /** Root of any extended key, derived or bare, in order. */
  function LevelKeys(level: WrapLevel): seq<PublicKey> {
    CanonPublicKeys(FilterMap(RootKey, level.keys))
  }

  method LevelKeysLoop(level: WrapLevel) returns (keys: seq<PublicKey>)
    ensures keys == LevelKeys(level)
  {
    keys := [];
    for i := 0 to |level.keys|
      invariant keys == CanonPublicKeys(FilterMap(RootKey, level.keys[..i]))
    {
      FilterMapNext(RootKey, level.keys, i);
      var before := FilterMap(RootKey, level.keys[..i]);
      var key := level.keys[i];
      var root := match EncryptionKey(key)
        case Some(pk) => Some(pk)
        case None =>
          match key
          case XPub(_, xkey, _, _) => Some(xkey.publicKey)
          case MultiXPub(_, xkey, _, _) => Some(xkey.publicKey)
          case Single(_, _) => None;
      assert root == RootKey(key);
      if root.Some? {
        assert (before + [root.value])[..|before|] == before;
        keys := InsertPublicKey(keys, root.value);
      } else {
        assert before + [] == before;
      }
    }
    assert level.keys[..|level.keys|] == level.keys;
  }

  function LevelPath(key: DescriptorKey): Option<Path> {
    if key.Single? then None else OriginPath(key.origin)
  }

  function LevelPaths(level: WrapLevel): seq<Path> {
    CanonPaths(FilterMap(LevelPath, level.keys))
  }

  // ----- sealing

  function Note(note: Option<Slice>): seq<Document> {
    match note
    case Some(text) => [NoteDoc(text)]
    case None => []
  }

  function InnerDocs(level: WrapLevel, msg: Option<Slice>, d: Descriptor): seq<Document> {
    Note(level.note) + Note(msg) + [DescriptorDoc(d)]
  }

  function OuterDocs(level: WrapLevel, inner: Slice): seq<Document> {
    Note(level.note) + [WrappedDoc(inner)]
  }

  /** The builder of a level, ready to encrypt. */
  function LevelState(formats: Formats, level: WrapLevel, docs: seq<Document>): Outcome<State> {
    var s :- WithPayloads(formats, NEW, docs);
    Done(WithKeys(WithPaths(s, LevelPaths(level)), LevelKeys(level)))
  }

  function SealLevel(crypto: Crypto, formats: Formats, entropy: Entropy, level: WrapLevel, docs: seq<Document>)
    : Wrapping<Slice>
  {
    if LevelKeys(level) == [] then Refused(NoLevelKeys)
    else
      var t :- Lift(LevelState(formats, level, docs));
      var e :- Lift(EncryptState(crypto, entropy, t));
      Wrapped(e.bytes)
  }

  method SealLevelSteps(crypto: Crypto, formats: Formats, entropy: Entropy, level: WrapLevel, docs: seq<Document>)
    returns (r: Wrapping<Slice>)
    ensures r == SealLevel(crypto, formats, entropy, level, docs)
  {
    hide WithPayloads, WithKeys, EncryptState, CanonPublicKeys, CanonPaths, FilterMap;
    var keys := LevelKeysLoop(level);
    if keys == [] {
      return Refused(NoLevelKeys);
    }
    var backup := new EncryptedBackup();
    var failure := backup.SetPayloads(formats, docs);
    if failure.Some? {
      return Refused(FailedToEncrypt(failure.value));
    }
    backup.SetDerivationPaths(LevelPaths(level));
    backup.SetKeys(keys);
    var encrypted := backup.Encrypt(crypto, entropy);
    r := if encrypted.Done? then Wrapped(encrypted.value.bytes) else Refused(FailedToEncrypt(encrypted.failure));
  }

  /** The bytes of a level: what it seals is the next level, or the descriptor. */
  function Wrap(
    crypto: Crypto, formats: Formats, levels: Levels, entropies: seq<Entropy>, msg: Option<Slice>, d: Descriptor)
    : Wrapping<Slice>
    requires |entropies| == |levels|
  {
    if |levels| == 1 then SealLevel(crypto, formats, entropies[0], levels[0], InnerDocs(levels[0], msg, d))
    else
      var inner :- Wrap(crypto, formats, levels[1..], entropies[1..], msg, d);
      SealLevel(crypto, formats, entropies[0], levels[0], OuterDocs(levels[0], inner))
  }

  /** The loop of the command: the last level first, then outwards. */
  method WrapLoop(
    crypto: Crypto, formats: Formats, levels: Levels, entropies: seq<Entropy>, msg: Option<Slice>, d: Descriptor)
    returns (r: Wrapping<Slice>)
    requires |entropies| == |levels|
    ensures r == Wrap(crypto, formats, levels, entropies, msg, d)
  {
    hide SealLevel, InnerDocs, OuterDocs;
    var n := |levels| - 1;
    var encrypted := SealLevelSteps(crypto, formats, entropies[n], levels[n], InnerDocs(levels[n], msg, d));
    assert levels[n..] == [levels[n]] && entropies[n..] == [entropies[n]];
    var i := n;
    while i > 0
      invariant 0 <= i <= n
      invariant encrypted == Wrap(crypto, formats, levels[i..], entropies[i..], msg, d)
    {
      if encrypted.Refused? {
        RefusedInside(crypto, formats, levels, entropies, msg, d, i);
        return encrypted;
      }
      i := i - 1;
      assert levels[i..][1..] == levels[i + 1..] && entropies[i..][1..] == entropies[i + 1..];
      encrypted := SealLevelSteps(crypto, formats, entropies[i], levels[i], OuterDocs(levels[i], encrypted.value));
    }
    assert levels[0..] == levels && entropies[0..] == entropies;
    r := encrypted;
  }

  lemma {:induction false} RefusedInside(
    crypto: Crypto, formats: Formats, levels: Levels, entropies: seq<Entropy>, msg: Option<Slice>, d: Descriptor,
    i: nat)
    requires |entropies| == |levels| && i < |levels|
    requires Wrap(crypto, formats, levels[i..], entropies[i..], msg, d).Refused?
    ensures Wrap(crypto, formats, levels, entropies, msg, d)
            == Wrap(crypto, formats, levels[i..], entropies[i..], msg, d)
  {
    hide SealLevel, InnerDocs, OuterDocs;
    if i == 0 {
      assert levels[0..] == levels && entropies[0..] == entropies;
    } else {
      assert levels[1..][i - 1..] == levels[i..] && entropies[1..][i - 1..] == entropies[i..];
      RefusedInside(crypto, formats, levels[1..], entropies[1..], msg, d, i - 1);
    }
  }

  // ----- peeling

  /** What one decryption with one key reads. */
  function Read(crypto: Crypto, formats: Formats, bytes: Slice, key: PublicKey): Outcome<seq<Extracted<()>>> {
    var s :- WithEncrypted(NEW, bytes);
    DecryptState(crypto, formats, NoVendor, WithKeys(s, [key]))
  }

  /** Decrypt level after level, each time the backup found inside the last. */
  function Peel(crypto: Crypto, formats: Formats, bytes: Slice, keys: seq<PublicKey>): Outcome<seq<seq<Extracted<()>>>>
    decreases |keys|
  {
    if keys == [] then Done([])
    else
      var layer :- Read(crypto, formats, bytes, keys[0]);
      if |keys| == 1 then Done([layer])
      else if layer == [] || !layer[|layer| - 1].WrappedRead? then Failed(BadDocument)
      else
        var rest :- Peel(crypto, formats, layer[|layer| - 1].bytes, keys[1..]);
        Done([layer] + rest)
  }

  /** What each level should show: its note, then the next level's bytes, at last the descriptor. */
  function Layers(
    crypto: Crypto, formats: Formats, levels: Levels, entropies: seq<Entropy>, msg: Option<Slice>, d: Descriptor)
    : seq<seq<Extracted<()>>>
    requires |entropies| == |levels|
    requires Wrap(crypto, formats, levels, entropies, msg, d).Wrapped?
  {
    if |levels| == 1 then [ReadBackAll(InnerDocs(levels[0], msg, d))]
    else
      var inner := Wrap(crypto, formats, levels[1..], entropies[1..], msg, d).value;
      [ReadBackAll(OuterDocs(levels[0], inner))] + Layers(crypto, formats, levels[1..], entropies[1..], msg, d)
  }

  /** One key a level: of the level, not the NUMS point, and not put on chain by the descriptor. */
  ghost predicate Holders(levels: Levels, keys: seq<PublicKey>, d: Descriptor) {
    && |keys| == |levels|
    && (forall i :: 0 <= i < |keys| ==> keys[i] in LevelKeys(levels[i]) && Xonly(keys[i]) != NUMS_XONLY)
    && Xonly(keys[|keys| - 1]) !in ExposedKeys(Keys(d))
  }

  predicate NotesAreText(formats: Formats, levels: seq<WrapLevel>, msg: Option<Slice>) {
    && (msg.Some? ==> formats.isUtf8(msg.value))
    && forall i :: 0 <= i < |levels| && levels[i].note.Some? ==> formats.isUtf8(levels[i].note.value)
  }

  // The documents of the outermost level.
  function FirstDocs(
    crypto: Crypto, formats: Formats, levels: Levels, entropies: seq<Entropy>, msg: Option<Slice>, d: Descriptor)
    : seq<Document>
    requires |entropies| == |levels|
    requires Wrap(crypto, formats, levels, entropies, msg, d).Wrapped?
  {
    if |levels| == 1 then InnerDocs(levels[0], msg, d)
    else OuterDocs(levels[0], Wrap(crypto, formats, levels[1..], entropies[1..], msg, d).value)
  }

  /** At every level, no slot opens the ciphertext for the key under a wrong secret. */
  ghost predicate Sound(
    crypto: Crypto, formats: Formats, levels: Levels, entropies: seq<Entropy>, msg: Option<Slice>, d: Descriptor,
    keys: seq<PublicKey>)
    requires |entropies| == |levels| == |keys|
  {
    var bytes := Wrap(crypto, formats, levels, entropies, msg, d);
    && bytes.Wrapped?
    && SoundLevel(crypto, LevelState(formats, levels[0], FirstDocs(crypto, formats, levels, entropies, msg, d)),
                  bytes.value, keys[0])
    && (|levels| > 1 ==> Sound(crypto, formats, levels[1..], entropies[1..], msg, d, keys[1..]))
  }

  // ----- surviving keys

  // Only descriptors put x-coordinates on chain.
  lemma {:induction false} ExposedBySomeDocument(docs: seq<Document>, x: Bytes32) returns (i: nat)
    requires SharesOf(docs).Done? && x in P.AddAll(P.EMPTY, SharesOf(docs).value).exposed
    ensures i < |docs| && ShareOf(docs[i]).Done? && x in ShareOf(docs[i]).value.exposed
  {
    hide ShareOf, P.PathsOf;
    var n := |docs| - 1;
    var before := SharesOf(docs[..n]).value;
    assert SharesOf(docs).value[..n] == before;
    if x in P.AddAll(P.EMPTY, before).exposed {
      i := ExposedBySomeDocument(docs[..n], x);
    } else {
      i := n;
    }
  }

  // Documents of a level put nothing on chain but what a descriptor does.
  predicate LevelDocs(docs: seq<Document>, d: Descriptor) {
    forall i :: 0 <= i < |docs| ==> docs[i].NoteDoc? || docs[i].WrappedDoc? || docs[i] == DescriptorDoc(d)
  }

  lemma LevelExposure(docs: seq<Document>, d: Descriptor, x: Bytes32)
    requires LevelDocs(docs, d) && SharesOf(docs).Done?
    requires x in P.AddAll(P.EMPTY, SharesOf(docs).value).exposed
    ensures DescriptorDoc(d) in docs && x in ExposedKeys(Keys(d))
  {
    hide SharesOf, ExposedKeys, Keys, EncryptionKeyPaths, EncryptionRoots, DescriptorWarnings;
    var i := ExposedBySomeDocument(docs, x);
    assert docs[i] in docs;
  }

  lemma LevelKeySurvives(formats: Formats, level: WrapLevel, docs: seq<Document>, d: Descriptor, key: PublicKey)
    requires LevelDocs(docs, d) && LevelState(formats, level, docs).Done?
    requires key in LevelKeys(level)
    requires DescriptorDoc(d) in docs ==> Xonly(key) !in ExposedKeys(Keys(d))
    ensures key in LevelState(formats, level, docs).value.pool.keys
  {
    hide Xonly, P.RetainKeys, P.RetainPaths, P.WarnExposed, LevelKeys, LevelPaths, SharesOf, ExposedKeys, Keys,
         EncryptionKeyPaths, EncryptionRoots, DescriptorWarnings;
    var p := P.AddAll(P.EMPTY, SharesOf(docs).value);
    if Xonly(key) in p.exposed {
      LevelExposure(docs, d, Xonly(key));
    }
    P.RetainMembers(LevelKeys(level), p.exposed, key);
  }

  // ----- the onion

  /** One level reads back its documents to the holder of one of its keys. */
  lemma LevelReads(
    crypto: Crypto, formats: Formats, entropy: Entropy, level: WrapLevel, docs: seq<Document>, d: Descriptor,
    key: PublicKey)
    requires AeadInverts(crypto) && SealLevel(crypto, formats, entropy, level, docs).Wrapped?
    requires LevelDocs(docs, d) && forall i :: 0 <= i < |docs| ==> Readable(formats, docs[i])
    requires key in LevelKeys(level) && Xonly(key) != NUMS_XONLY
    requires DescriptorDoc(d) in docs ==> Xonly(key) !in ExposedKeys(Keys(d))
    requires SoundLevel(crypto, LevelState(formats, level, docs),
                        SealLevel(crypto, formats, entropy, level, docs).value, key)
    ensures Read(crypto, formats, SealLevel(crypto, formats, entropy, level, docs).value, key)
            == Done(ReadBackAll<()>(docs))
  {
    hide Xonly, LevelKeys, LevelPaths, NoFalseOpening, SharedSecret, DecodeV1, EncryptState, DecryptState,
         WithEncrypted, ExposedKeys, Keys, Readable, LevelDocs, SharesOf, ItemsOf, ReadBackAll;
    var t := LevelState(formats, level, docs).value;
    var b := EncryptState(crypto, entropy, t).value.bytes;
    LevelKeySurvives(formats, level, docs, d, key);
    assert t.payload == EncryptMany(ItemsOf(formats, docs));
    EncryptedDecodes(crypto, entropy, t, key);
    assert key in [key];
    assert Recipients(crypto, t, b, [key]);
    DocumentsRoundTrip(crypto, formats, NoVendor, entropy, t, docs, [key]);
  }

  lemma EncryptedDecodes(crypto: Crypto, entropy: Entropy, t: State, key: PublicKey)
    requires AeadInverts(crypto) && EncryptState(crypto, entropy, t).Done?
    ensures DecodeV1(EncryptState(crypto, entropy, t).value.bytes).Ok?
  {
    hide EncryptItems, DecodeV1, NoFalseOpening, SharedSecret, Open, Xonly;
    ItemsOpen(crypto, entropy, t, Items(t).value, key);
  }

  /** Peeling gives the documents of every level, read back. */
  lemma {:induction false} PeelGivesLayers(
    crypto: Crypto, formats: Formats, levels: Levels, entropies: seq<Entropy>, msg: Option<Slice>, d: Descriptor,
    keys: seq<PublicKey>)
    requires AeadInverts(crypto)
    requires |entropies| == |levels| == |keys| && Holders(levels, keys, d)
    requires NotesAreText(formats, levels, msg) && Readable(formats, DescriptorDoc(d))
    requires Wrap(crypto, formats, levels, entropies, msg, d).Wrapped?
    requires Sound(crypto, formats, levels, entropies, msg, d, keys)
    ensures Peel(crypto, formats, Wrap(crypto, formats, levels, entropies, msg, d).value, keys)
            == Done(Layers(crypto, formats, levels, entropies, msg, d))
  {
    hide Wrap, FirstDocs, NoFalseOpening, DecodeV1, SharedSecret, Read, Readable, Holders, NotesAreText, ReadBackAll;
    OuterLayer(crypto, formats, levels, entropies, msg, d, keys);
    if |levels| > 1 {
      HoldersInside(levels, keys, d);
      NotesInside(formats, levels, msg);
      InsideWraps(crypto, formats, levels, entropies, msg, d);
      PeelGivesLayers(crypto, formats, levels[1..], entropies[1..], msg, d, keys[1..]);
    } else {
      InsideDescriptor(crypto, formats, levels, entropies, msg, d);
    }
  }

  lemma OuterLayer(
    crypto: Crypto, formats: Formats, levels: Levels, entropies: seq<Entropy>, msg: Option<Slice>, d: Descriptor,
    keys: seq<PublicKey>)
    requires AeadInverts(crypto)
    requires |entropies| == |levels| == |keys| && Holders(levels, keys, d)
    requires NotesAreText(formats, levels, msg) && Readable(formats, DescriptorDoc(d))
    requires Wrap(crypto, formats, levels, entropies, msg, d).Wrapped?
    requires Sound(crypto, formats, levels, entropies, msg, d, keys)
    ensures Read(crypto, formats, Wrap(crypto, formats, levels, entropies, msg, d).value, keys[0])
            == Done(ReadBackAll<()>(FirstDocs(crypto, formats, levels, entropies, msg, d)))
  {
    hide SealLevel, LevelState, NoFalseOpening, DecodeV1, SharedSecret, Read, LevelKeys, Xonly, ExposedKeys, Keys,
         Readable, NotesAreText, LevelDocs, ReadBackAll, Wrap, FirstDocs;
    var docs := FirstDocs(crypto, formats, levels, entropies, msg, d);
    FirstDocsFit(crypto, formats, levels, entropies, msg, d);
    WrapSeals(crypto, formats, levels, entropies, msg, d);
    LevelReads(crypto, formats, entropies[0], levels[0], docs, d, keys[0]);
  }

  lemma WrapSeals(
    crypto: Crypto, formats: Formats, levels: Levels, entropies: seq<Entropy>, msg: Option<Slice>, d: Descriptor)
    requires |entropies| == |levels|
    requires Wrap(crypto, formats, levels, entropies, msg, d).Wrapped?
    ensures SealLevel(crypto, formats, entropies[0], levels[0], FirstDocs(crypto, formats, levels, entropies, msg, d))
            == Wrap(crypto, formats, levels, entropies, msg, d)
  {
    hide SealLevel, InnerDocs, OuterDocs;
  }

  lemma InsideWraps(
    crypto: Crypto, formats: Formats, levels: Levels, entropies: seq<Entropy>, msg: Option<Slice>, d: Descriptor)
    requires |entropies| == |levels| > 1
    requires Wrap(crypto, formats, levels, entropies, msg, d).Wrapped?
    ensures Wrap(crypto, formats, levels[1..], entropies[1..], msg, d).Wrapped?
    ensures var inner := Wrap(crypto, formats, levels[1..], entropies[1..], msg, d).value;
            var docs := FirstDocs(crypto, formats, levels, entropies, msg, d);
            && docs == OuterDocs(levels[0], inner)
            && docs != [] && ReadBackAll<()>(docs)[|docs| - 1] == WrappedRead(inner)
  {
    hide SealLevel;
  }

  lemma InsideDescriptor(
    crypto: Crypto, formats: Formats, levels: Levels, entropies: seq<Entropy>, msg: Option<Slice>, d: Descriptor)
    requires |entropies| == |levels| == 1
    requires Wrap(crypto, formats, levels, entropies, msg, d).Wrapped?
    ensures FirstDocs(crypto, formats, levels, entropies, msg, d) == InnerDocs(levels[0], msg, d)
  {
    hide Wrap;
  }

  lemma NotesInside(formats: Formats, levels: seq<WrapLevel>, msg: Option<Slice>)
    requires NotesAreText(formats, levels, msg) && levels != []
    ensures NotesAreText(formats, levels[1..], msg)
  {
  }

  lemma HoldersInside(levels: Levels, keys: seq<PublicKey>, d: Descriptor)
    requires Holders(levels, keys, d) && |levels| > 1
    ensures Holders(levels[1..], keys[1..], d)
  {
    hide LevelKeys, Xonly, ExposedKeys, Keys;
  }

  lemma FirstDocsFit(
    crypto: Crypto, formats: Formats, levels: Levels, entropies: seq<Entropy>, msg: Option<Slice>, d: Descriptor)
    requires |entropies| == |levels|
    requires NotesAreText(formats, levels, msg) && Readable(formats, DescriptorDoc(d))
    requires Wrap(crypto, formats, levels, entropies, msg, d).Wrapped?
    ensures var docs := FirstDocs(crypto, formats, levels, entropies, msg, d);
            && LevelDocs(docs, d)
            && (forall i :: 0 <= i < |docs| ==> Readable(formats, docs[i]))
            && (DescriptorDoc(d) in docs <==> |levels| == 1)
  {
    hide SealLevel, Wrap;
  }

  /** Bytes after a backup, such as the newline the command appends, change nothing. */
  lemma TrailerHarmless(crypto: Crypto, formats: Formats, bytes: Slice, trailer: seq<byte>, key: PublicKey)
    requires DecodeV1(bytes).Ok? && |bytes + trailer| <= ISIZE_MAX
    ensures Read(crypto, formats, bytes + trailer, key) == Read(crypto, formats, bytes, key)
  {
    hide DecodeV1, DecodeVersion, DecryptState;
    CanonicalContainer.TrailingIgnored(bytes, trailer);
    CanonicalContainer.PartialDecoders(bytes);
    CanonicalContainer.PartialDecoders(bytes + trailer);
  }
}
