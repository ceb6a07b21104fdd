/** What peeling the onion shows, level by level, and what each level's envelope tells. */
module OnionLayers {
  import opened Prelude
  import opened Contents
  import opened Container
  import opened CommonPaths
  import opened Secrets
  import opened Backup
  import opened Descriptors
  import opened Classification
  import opened Documents
  import opened Builders
  import opened BuilderProofs
  import opened CosignerProofs
  import opened PathProofs
  import opened Onion
  import P = Pools
  import Q = PoolProofs

  // ----- a level's keys and paths

  /** `key` is the root of an extended key of the level, derived or bare. */
  ghost predicate LevelKey(level: WrapLevel, key: PublicKey) {
    exists k :: k in level.keys && !k.Single? && k.xkey.publicKey == key
  }

  /** Some extended key of the level was derived at `path`. */
  ghost predicate LevelOrigin(level: WrapLevel, path: Path) {
    exists k :: k in level.keys && !k.Single? && k.origin.Some? && k.origin.value.path == path
  }

  lemma LevelKeysAre(level: WrapLevel, key: PublicKey)
    ensures key in LevelKeys(level) <==> LevelKey(level, key)
  {
    hide RootKey;
    forall k: DescriptorKey ensures RootKey(k) == if k.Single? then None else Some(k.xkey.publicKey) {
      CoordinateIs(k);
    }
  }

  lemma LevelPathsAre(level: WrapLevel, path: Path)
    ensures path in LevelPaths(level) <==> LevelOrigin(level, path)
  {
  }

  // ----- layers

  /** A note as it is read. */
  function Shown(note: Option<Slice>): seq<Extracted<()>> {
    if note.Some? then [NoteRead(note.value)] else []
  }

  /** What level `i` shows: its note, then the next level's bytes; the last its note, the message, the descriptor. */
  ghost predicate ShowsLayer(
    crypto: Crypto, formats: Formats, levels: Levels, entropies: seq<Entropy>, msg: Option<Slice>, d: Descriptor,
    i: nat, layer: seq<Extracted<()>>)
    requires i < |levels| == |entropies|
  {
    if i == |levels| - 1 then layer == Shown(levels[i].note) + Shown(msg) + [DescriptorRead(d)]
    else
      var next := Wrap(crypto, formats, levels[i + 1..], entropies[i + 1..], msg, d);
      next.Wrapped? && layer == Shown(levels[i].note) + [WrappedRead(next.value)]
  }

  lemma InnerShows(level: WrapLevel, msg: Option<Slice>, d: Descriptor)
    ensures ReadBackAll<()>(InnerDocs(level, msg, d)) == Shown(level.note) + Shown(msg) + [DescriptorRead(d)]
  {
  }

  lemma OuterShows(level: WrapLevel, inner: Slice)
    ensures ReadBackAll<()>(OuterDocs(level, inner)) == Shown(level.note) + [WrappedRead(inner)]
  {
  }

  lemma {:induction false} LayersShow(
    crypto: Crypto, formats: Formats, levels: Levels, entropies: seq<Entropy>, msg: Option<Slice>, d: Descriptor,
    i: nat)
    requires |entropies| == |levels| && i < |levels|
    requires Wrap(crypto, formats, levels, entropies, msg, d).Wrapped?
    ensures |Layers(crypto, formats, levels, entropies, msg, d)| == |levels|
    ensures ShowsLayer(crypto, formats, levels, entropies, msg, d, i,
                       Layers(crypto, formats, levels, entropies, msg, d)[i])
    decreases |levels|
  {
    hide SealLevel, InnerDocs, OuterDocs, Shown;
    if |levels| == 1 {
      InnerShows(levels[0], msg, d);
    } else {
      var inner := Wrap(crypto, formats, levels[1..], entropies[1..], msg, d).value;
      OuterShows(levels[0], inner);
      LayersShow(crypto, formats, levels[1..], entropies[1..], msg, d, if i == 0 then 0 else i - 1);
      if i > 0 {
        assert levels[1..][i..] == levels[i + 1..] && entropies[1..][i..] == entropies[i + 1..];
        assert levels[1..][i - 1] == levels[i];
      }
    }
  }

  /** One key a level, not the NUMS point; the last one not put on chain by the descriptor. */
  ghost predicate OneKeyEach(levels: Levels, keys: seq<PublicKey>, d: Descriptor) {
    && |keys| == |levels|
    && (forall i :: 0 <= i < |keys| ==> LevelKey(levels[i], keys[i]) && keys[i][1..] != NUMS_XONLY)
    && forall k :: LeafOf(d, k) && Exposes(k) ==> PointOf(k) != keys[|keys| - 1][1..]
  }

  lemma HoldersAre(levels: Levels, keys: seq<PublicKey>, d: Descriptor)
    requires OneKeyEach(levels, keys, d)
    ensures Holders(levels, keys, d)
  {
    hide LevelKeys, LevelKey, PointOf, Exposes, LeafOf, Keys, ExposedKeys;
    forall i | 0 <= i < |keys| ensures keys[i] in LevelKeys(levels[i]) && Xonly(keys[i]) != NUMS_XONLY {
      LevelKeysAre(levels[i], keys[i]);
    }
    ShareExposes(DescriptorDoc(d), Xonly(keys[|keys| - 1]));
    assert ShareOf(DescriptorDoc(d)).value.exposed == ExposedKeys(Keys(d));
    assert forall k :: HasKey(DescriptorDoc(d), k) <==> LeafOf(d, k);
  }

  /**
   For any list of levels, one surviving key a level peels the onion: every level shows
   its note and exactly the next level's bytes, the last its note, the message and the
   descriptor.
   */
  lemma OnionPeels(
    crypto: Crypto, formats: Formats, levels: Levels, entropies: seq<Entropy>, msg: Option<Slice>, d: Descriptor,
    keys: seq<PublicKey>)
    requires AeadInverts(crypto)
    requires |entropies| == |levels| == |keys| && OneKeyEach(levels, keys, d)
    requires NotesAreText(formats, levels, msg) && Readable(formats, DescriptorDoc(d))
    requires Wrap(crypto, formats, levels, entropies, msg, d).Wrapped?
    requires Sound(crypto, formats, levels, entropies, msg, d, keys)
    ensures var r := Peel(crypto, formats, Wrap(crypto, formats, levels, entropies, msg, d).value, keys);
            && r.Done? && |r.value| == |levels|
            && forall i :: 0 <= i < |levels| ==> ShowsLayer(crypto, formats, levels, entropies, msg, d, i, r.value[i])
  {
    hide Wrap, Peel, Sound, Holders, OneKeyEach, Layers, ShowsLayer, Readable, NotesAreText;
    HoldersAre(levels, keys, d);
    PeelGivesLayers(crypto, formats, levels, entropies, msg, d, keys);
    var layers := Layers(crypto, formats, levels, entropies, msg, d);
    LayersShow(crypto, formats, levels, entropies, msg, d, 0);
    forall i | 0 <= i < |levels| ensures ShowsLayer(crypto, formats, levels, entropies, msg, d, i, layers[i]) {
      LayersShow(crypto, formats, levels, entropies, msg, d, i);
    }
  }

  // ----- when a level seals, and what its envelope tells

  /** A level without extended keys is refused; otherwise the builder and the core decide. */
  lemma LevelSeals(crypto: Crypto, formats: Formats, entropy: Entropy, level: WrapLevel, docs: seq<Document>)
    ensures SealLevel(crypto, formats, entropy, level, docs) == Refused(NoLevelKeys) <==>
            forall k :: k in level.keys ==> k.Single?
    ensures SealLevel(crypto, formats, entropy, level, docs).Wrapped? <==>
            && (exists k :: k in level.keys && !k.Single?)
            && LevelState(formats, level, docs).Done?
            && EncryptState(crypto, entropy, LevelState(formats, level, docs).value).Done?
  {
    hide LevelKeys, LevelState, EncryptState, LevelKey;
    var keys := LevelKeys(level);
    forall key ensures key in keys <==> LevelKey(level, key) {
      LevelKeysAre(level, key);
    }
    NoneOrSome(level, keys);
  }

  lemma NoneOrSome(level: WrapLevel, keys: seq<PublicKey>)
    requires forall key :: key in keys <==> LevelKey(level, key)
    ensures keys == [] <==> forall k :: k in level.keys ==> k.Single?
  {
    if keys != [] {
      assert LevelKey(level, keys[0]);
    }
    if k :| k in level.keys && !k.Single? {
      assert LevelKey(level, k.xkey.publicKey);
    }
  }

  /** Some document of the level derives a root at `path`. */
  ghost predicate Mentioned(docs: seq<Document>, path: Path) {
    exists i, k :: 0 <= i < |docs| && DerivedAt(docs[i], k, path)
  }

  /**
   The envelope of a level tells the origin paths of its keys, less the common ones and
   those that only roots on chain were derived at.
   */
  lemma LevelEnvelope(
    crypto: Crypto, formats: Formats, entropy: Entropy, level: WrapLevel, docs: seq<Document>, path: Path)
    requires SealLevel(crypto, formats, entropy, level, docs).Wrapped?
    ensures var b := SealLevel(crypto, formats, entropy, level, docs).value;
            && WithEncrypted(NEW, b).Done?
            && (path in WithEncrypted(NEW, b).value.pool.paths <==>
                  && LevelOrigin(level, path) && !IsCommon(0, path) && !IsCommon(1, path)
                  && (UsefulPath(docs, path) || !Mentioned(docs, path)))
  {
    hide EncryptState, WithEncrypted, IsCommon, LevelPaths, LevelKeys, LevelOrigin, UsefulPath, Mentioned, SharesOf,
         ItemsOf, P.DropExposed, P.AddAll;
    var t := LevelState(formats, level, docs).value;
    EnvelopePaths(crypto, entropy, t, path);
    LevelPathsAre(level, path);
    LevelPool(level, docs, path);
  }

  lemma LevelPool(level: WrapLevel, docs: seq<Document>, path: Path)
    requires SharesOf(docs).Done?
    ensures var p := P.DropExposed(P.AddAll(P.EMPTY, SharesOf(docs).value));
            path in P.SetKeys(P.SetPaths(p, LevelPaths(level)), LevelKeys(level)).paths <==>
              path in LevelPaths(level) && (UsefulPath(docs, path) || !Mentioned(docs, path))
  {
    hide LevelPaths, LevelKeys, SharesOf, P.AddAll, P.Kept, P.Dropped, UsefulPath, Mentioned, P.RetainKeys,
         P.WarnExposed, P.PathsOf;
    var p := P.AddAll(P.EMPTY, SharesOf(docs).value);
    KeptFromDocs(docs, path);
    Q.PathInKeyPaths(p.keyPaths, p.exposed, path);
    PairedPaths(docs, path);
  }

  lemma PairedPaths(docs: seq<Document>, path: Path)
    requires SharesOf(docs).Done?
    ensures path in P.PathsOf(P.AddAll(P.EMPTY, SharesOf(docs).value).keyPaths) <==> Mentioned(docs, path)
  {
    hide SharesOf, P.AddAll, DerivedAt;
    var pairs := P.AddAll(P.EMPTY, SharesOf(docs).value).keyPaths;
    if path in P.PathsOf(pairs) {
      var j :| 0 <= j < |pairs| && P.PathsOf(pairs)[j] == path;
      assert pairs[j] in pairs;
      PooledPairs(docs, pairs[j]);
    }
    if i, k :| 0 <= i < |docs| && DerivedAt(docs[i], k, path) {
      DerivedExtended(docs[i], k, path);
      var kp := KeyPath(k.xkey.publicKey, path);
      assert PairFrom(docs, kp);
      PooledPairs(docs, kp);
      var j :| 0 <= j < |pairs| && pairs[j] == kp;
      assert P.PathsOf(pairs)[j] == path;
    }
  }

  lemma DerivedExtended(doc: Document, k: DescriptorKey, path: Path)
    requires DerivedAt(doc, k, path)
    ensures !k.Single?
  {
    hide HasKey, HasEntry, RootUsed, PointOf;
  }
}
