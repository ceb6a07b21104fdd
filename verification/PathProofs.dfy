/** Where derivation paths come from, and that they reach whoever opens the backup's envelope. */
module PathProofs {
  import opened Prelude
  import opened Contents
  import opened Payload
  import opened Container
  import opened CommonPaths
  import opened Secrets
  import opened Backup
  import opened EndToEnd
  import opened Descriptors
  import opened Classification
  import opened PolicyBackups
  import opened Documents
  import opened Builders
  import opened BuilderProofs
  import opened CosignerProofs
  import CanonicalContainer
  import P = Pools
  import Q = PoolProofs

  /** `k` is an expression whose root may encrypt, or a policy entry, and was derived at `path`. */
  ghost predicate DerivedAt(doc: Document, k: DescriptorKey, path: Path) {
    && ((HasKey(doc, k) && Encrypts(k)) || (HasEntry(doc, k) && !k.Single?))
    && k.origin.Some? && k.origin.value.path == path
  }

  lemma PairIs(k: DescriptorKey, kp: KeyPath)
    ensures MayEncrypt(k) && KeyPathOf(k) == Some(kp) <==>
            Encrypts(k) && k.xkey.publicKey == kp.key && k.origin.Some? && k.origin.value.path == kp.path
    ensures RootPath(k) == Some(kp) <==>
            !k.Single? && k.xkey.publicKey == kp.key && k.origin.Some? && k.origin.value.path == kp.path
  {
    hide EncryptionKey, RootUsed, PointOf, MayEncrypt;
    KeyIs(k);
    CoordinateIs(k);
    assert DerivPath(k) == OriginPath(k.origin);
  }

  /** The pairs a document brings: its roots with the paths they were derived at. */
  lemma SharePairs(doc: Document, kp: KeyPath)
    requires ShareOf(doc).Done?
    ensures kp in ShareOf(doc).value.keyPaths <==>
            exists k :: DerivedAt(doc, k, kp.path) && k.xkey.publicKey == kp.key
  {
    hide BackupKeys, Keys, EncryptionRoots, DescriptorWarnings, ExposedKeys, RootUsed, PointOf, HasKey, KeyPathOf,
         RootPath, MayEncrypt, SeedKeys;
    forall k ensures k in DocumentKeys(doc) <==> HasKey(doc, k) {
      DocumentKeysAre(doc, k);
    }
    forall k {
      PairIs(k, kp);
    }
    var keys := DocumentKeys(doc);
    match doc
    case PolicyDoc(b) => PolicyPairs(b, kp);
    case DescriptorDoc(_) => DescriptorPairs(keys, kp);
    case DescriptorsDoc(_) => DescriptorPairs(keys, kp);
    case _ =>
  }

  lemma DescriptorPairs(keys: seq<DescriptorKey>, kp: KeyPath)
    ensures kp in EncryptionKeyPaths(keys) <==>
            exists k :: k in keys && Encrypts(k) && k.xkey.publicKey == kp.key
                        && k.origin.Some? && k.origin.value.path == kp.path
  {
    hide KeyPathOf, MayEncrypt, RootUsed, PointOf;
    forall k {
      PairIs(k, kp);
    }
  }

  lemma PolicyPairs(b: PolicyBackup, kp: KeyPath)
    requires ShareOf(PolicyDoc(b)).Done?
    ensures kp in ShareOf(PolicyDoc(b)).value.keyPaths <==>
            exists k :: HasEntry(PolicyDoc(b), k) && !k.Single? && k.xkey.publicKey == kp.key
                        && k.origin.Some? && k.origin.value.path == kp.path
  {
    hide RootPath, SeedKeys;
    forall k {
      PairIs(k, kp);
    }
    forall k ensures k in AllKeys(b.sets) <==> HasEntry(PolicyDoc(b), k) {
    }
  }

  ghost predicate PairFrom(docs: seq<Document>, kp: KeyPath) {
    exists i, k :: 0 <= i < |docs| && DerivedAt(docs[i], k, kp.path) && k.xkey.publicKey == kp.key
  }

  lemma {:induction false} PooledPairs(docs: seq<Document>, kp: KeyPath)
    requires SharesOf(docs).Done?
    ensures kp in P.AddAll(P.EMPTY, SharesOf(docs).value).keyPaths <==> PairFrom(docs, kp)
  {
    hide KnownShare, DerivedAt, PairFrom, P.PathsOf;
    if docs == [] {
      NoPairs(kp);
    } else {
      var n := |docs| - 1;
      var before := SharesOf(docs[..n]).value;
      assert SharesOf(docs).value[..n] == before;
      PooledPairs(docs[..n], kp);
      SharesDone(docs, n);
      LastShare(docs);
      SharePairs(docs[n], kp);
      PairFromLast(docs, kp);
    }
  }

  lemma NoPairs(kp: KeyPath)
    ensures !PairFrom([], kp)
  {
  }

  lemma PairFromLast(docs: seq<Document>, kp: KeyPath)
    requires docs != []
    ensures var n := |docs| - 1;
            PairFrom(docs, kp) <==>
            PairFrom(docs[..n], kp) || exists k :: DerivedAt(docs[n], k, kp.path) && k.xkey.publicKey == kp.key
  {
    hide HasKey, HasEntry, RootUsed, PointOf;
    var n := |docs| - 1;
    if i, k :| 0 <= i < |docs| && DerivedAt(docs[i], k, kp.path) && k.xkey.publicKey == kp.key {
      if i < n { assert DerivedAt(docs[..n][i], k, kp.path); }
    }
    if i, k :| 0 <= i < n && DerivedAt(docs[..n][i], k, kp.path) && k.xkey.publicKey == kp.key {
      assert DerivedAt(docs[i], k, kp.path);
    }
  }

  /** Some document derives at `path` a root that no document puts on chain. */
  ghost predicate UsefulPath(docs: seq<Document>, path: Path) {
    exists i, k :: 0 <= i < |docs| && DerivedAt(docs[i], k, path) && !ExposedBy(docs, PointOf(k))
  }

  /** The paths a new builder pools from documents are exactly the useful ones. */
  lemma PooledPathsAre(formats: Formats, docs: seq<Document>, path: Path)
    requires WithPayloads(formats, NEW, docs).Done?
    ensures path in WithPayloads(formats, NEW, docs).value.pool.paths <==> UsefulPath(docs, path)
  {
    hide ShareOf, SharesOf, HasKey, HasEntry, RootUsed, PointOf, Xonly, P.Kept, P.AddAll, P.DropExposed,
         Q.PathsCovered, P.PathsFollowKeys, ExposedBy;
    var shares := SharesOf(docs).value;
    var p := P.AddAll(P.EMPTY, shares);
    Q.NothingCovered();
    Q.CoveredAddAll(P.EMPTY, shares);
    Q.CoveredDrop(p);
    FollowsKept(p, path);
    KeptFromDocs(docs, path);
  }

  lemma FollowsKept(p: P.Pool, path: Path)
    requires P.PathsFollowKeys(P.DropExposed(p))
    ensures path in P.DropExposed(p).paths <==> P.Kept(p.keyPaths, p.exposed, path)
  {
    hide P.Kept, P.RetainKeys, P.RetainPaths, P.WarnExposed;
  }

  lemma KeptFromDocs(docs: seq<Document>, path: Path)
    requires SharesOf(docs).Done?
    ensures var p := P.AddAll(P.EMPTY, SharesOf(docs).value);
            P.Kept(p.keyPaths, p.exposed, path) <==> UsefulPath(docs, path)
  {
    hide ShareOf, SharesOf, HasKey, HasEntry, RootUsed, PointOf, Xonly, P.AddAll, ExposedBy;
    var p := P.AddAll(P.EMPTY, SharesOf(docs).value);
    if P.Kept(p.keyPaths, p.exposed, path) {
      var j :| 0 <= j < |p.keyPaths| && p.keyPaths[j].path == path && Xonly(p.keyPaths[j].key) !in p.exposed;
      var kp := p.keyPaths[j];
      assert kp in p.keyPaths;
      PooledPairs(docs, kp);
      var i, k :| 0 <= i < |docs| && DerivedAt(docs[i], k, kp.path) && k.xkey.publicKey == kp.key;
      KeyIs(k);
      PooledExposed(P.EMPTY, docs, PointOf(k));
    }
    if i, k :| 0 <= i < |docs| && DerivedAt(docs[i], k, path) && !ExposedBy(docs, PointOf(k)) {
      var kp := KeyPath(k.xkey.publicKey, path);
      assert PairFrom(docs, kp);
      PooledPairs(docs, kp);
      KeyIs(k);
      PooledExposed(P.EMPTY, docs, PointOf(k));
      var j :| 0 <= j < |p.keyPaths| && p.keyPaths[j] == kp;
      assert p.keyPaths[j].path == path;
    }
  }

  /** What a reader of the envelope sees of the builder's paths: all, or all but the common ones. */
  lemma EnvelopePaths(crypto: Crypto, entropy: Entropy, t: State, path: Path)
    requires EncryptState(crypto, entropy, t).Done?
    ensures var b := EncryptState(crypto, entropy, t).value.bytes;
            && WithEncrypted(NEW, b).Done?
            && (path in WithEncrypted(NEW, b).value.pool.paths <==>
                  path in t.pool.paths && (t.storeCommon || (!IsCommon(0, path) && !IsCommon(1, path))))
  {
    hide EncryptWithDecoys, EncryptRandom, DecodeV1, DecodeVersion, IsCommon;
    var keys := XonlyAll(t.pool.keys);
    var items := Items(t).value;
    var b := EncryptState(crypto, entropy, t).value.bytes;
    match entropy {
      case Given(nonce, decoys) =>
        StoredPathsEndToEnd(crypto, t.pool.paths, t.storeCommon, items, keys, t.padding, nonce, decoys);
      case Drawn(tape) =>
        var nonce, decoys := RandomRefines(crypto, tape, t.pool.paths, t.storeCommon, items, keys, t.padding);
        StoredPathsEndToEnd(crypto, t.pool.paths, t.storeCommon, items, keys, t.padding, nonce, decoys);
    }
    CanonicalContainer.PartialDecoders(b);
  }

  /**
   From document to envelope: a fresh builder's paths, read from the backup of these
   documents, are the paths their unexposed roots were derived at, less the common ones.
   */
  lemma OriginPathsTravel(
    crypto: Crypto, entropy: Entropy, formats: Formats, docs: seq<Document>, storeCommon: bool, path: Path)
    requires WithPayloads(formats, NEW, docs).Done?
    requires var t := WithPayloads(formats, NEW, docs).value.(storeCommon := storeCommon);
             EncryptState(crypto, entropy, t).Done?
    ensures var t := WithPayloads(formats, NEW, docs).value.(storeCommon := storeCommon);
            var b := EncryptState(crypto, entropy, t).value.bytes;
            && WithEncrypted(NEW, b).Done?
            && (path in WithEncrypted(NEW, b).value.pool.paths <==>
                  UsefulPath(docs, path) && (storeCommon || (!IsCommon(0, path) && !IsCommon(1, path))))
  {
    hide WithPayloads, EncryptState, WithEncrypted, UsefulPath, IsCommon;
    PooledPathsAre(formats, docs, path);
    EnvelopePaths(crypto, entropy, WithPayloads(formats, NEW, docs).value.(storeCommon := storeCommon), path);
  }

  /** Paths set by hand replace them. */
  lemma HandSetPathsTravel(crypto: Crypto, entropy: Entropy, s: State, paths: seq<Path>, path: Path)
    requires EncryptState(crypto, entropy, WithPaths(s, paths)).Done?
    ensures var b := EncryptState(crypto, entropy, WithPaths(s, paths)).value.bytes;
            && WithEncrypted(NEW, b).Done?
            && (path in WithEncrypted(NEW, b).value.pool.paths <==>
                  path in paths && (s.storeCommon || (!IsCommon(0, path) && !IsCommon(1, path))))
  {
    hide EncryptState, WithEncrypted, IsCommon;
    EnvelopePaths(crypto, entropy, WithPaths(s, paths), path);
  }

  /** An entry of a policy with the NUMS point is warned about, and nothing else of a policy is. */
  lemma PolicyWarnings(b: PolicyBackup, w: Warning)
    requires ShareOf(PolicyDoc(b)).Done?
    ensures w in ShareOf(PolicyDoc(b)).value.warnings <==>
            w.NumsKey? && HasEntry(PolicyDoc(b), w.expr) && !w.expr.Single? && PointOf(w.expr) == NUMS_XONLY
  {
    hide SeedKeys, Xonly, RootKey;
    forall k ensures k in AllKeys(b.sets) <==> HasEntry(PolicyDoc(b), k) {
    }
    forall k: DescriptorKey
      ensures RootKey(k) == if k.Single? then None else Some(k.xkey.publicKey)
      ensures !k.Single? ==> PointOf(k) == Xonly(k.xkey.publicKey)
    {
      CoordinateIs(k);
      KeyIs(k);
    }
  }
}
