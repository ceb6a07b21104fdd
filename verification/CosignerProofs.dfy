/** Every cosigner is accounted for, and every origin path follows its key. */
module CosignerProofs {
  import opened Prelude
  import opened Contents
  import opened Container
  import opened Backup
  import opened Descriptors
  import opened Classification
  import opened PolicyBackups
  import opened Documents
  import opened Builders
  import P = Pools
  import Q = PoolProofs

  // ----- the key expressions of a document

  /** `k` stands at a leaf of one of the document's descriptors. */
  ghost predicate HasKey(doc: Document, k: DescriptorKey) {
    match doc
    case DescriptorDoc(d) => LeafOf(d, k)
    case DescriptorsDoc(b) => SetsHaveKey(b.sets, k)
    case _ => false
  }

  ghost predicate SetsHaveKey(sets: seq<DescriptorSet>, k: DescriptorKey) {
    exists i :: 0 <= i < |sets| &&
      (LeafOf(sets[i].descriptor, k) || (sets[i].change.Some? && LeafOf(sets[i].change.value, k)))
  }

  /** `k` is an entry of one of the document's policies. */
  ghost predicate HasEntry(doc: Document, k: DescriptorKey) {
    doc.PolicyDoc? && exists i :: 0 <= i < |doc.policies.sets| && k in doc.policies.sets[i].keys
  }

  /** The key expressions whose roots a document may encrypt to. */
  function DocumentKeys(doc: Document): seq<DescriptorKey> {
    match doc
    case DescriptorDoc(d) => Keys(d)
    case DescriptorsDoc(b) => BackupKeys(b.sets)
    case _ => []
  }

  lemma {:induction false} BackupKeysAre(sets: seq<DescriptorSet>, k: DescriptorKey)
    ensures k in BackupKeys(sets) <==> SetsHaveKey(sets, k)
  {
    hide LeafOf, Keys;
    if sets != [] {
      BackupKeysAre(sets[1..], k);
      KeysAreLeaves(sets[0].descriptor, k);
      if sets[0].change.Some? {
        KeysAreLeaves(sets[0].change.value, k);
      }
      assert forall i :: 0 < i < |sets| ==> sets[i] == sets[1..][i - 1];
      assert forall i :: 0 <= i < |sets| - 1 ==> sets[1..][i] == sets[i + 1];
    }
  }

  lemma DocumentKeysAre(doc: Document, k: DescriptorKey)
    ensures k in DocumentKeys(doc) <==> HasKey(doc, k)
  {
    hide LeafOf, Keys, BackupKeys, SetsHaveKey;
    match doc
    case DescriptorDoc(d) => KeysAreLeaves(d, k);
    case DescriptorsDoc(b) => BackupKeysAre(b.sets, k);
    case _ =>
  }

  /** An extended key never used at its root, and not the NUMS point: its root may encrypt. */
  ghost predicate Encrypts(k: DescriptorKey) {
    !k.Single? && !RootUsed(k) && PointOf(k) != NUMS_XONLY
  }

  /** A literal, or a single-path extended key used at its root: its coordinate is on chain. */
  ghost predicate Exposes(k: DescriptorKey) {
    k.Single? || (k.XPub? && RootUsed(k))
  }

  lemma KeyIs(k: DescriptorKey)
    ensures MayEncrypt(k) <==> Encrypts(k)
    ensures Encrypts(k) ==> EncryptionKey(k) == Some(k.xkey.publicKey)
    ensures ExposedKey(k) == if Exposes(k) then Some(PointOf(k)) else None
    ensures !k.Single? ==> PointOf(k) == Xonly(k.xkey.publicKey)
  {
    hide EncryptionKey, ExposedKey, RootUsed;
    MayEncryptExactly(k);
    ExposesExactly(k);
  }

  // ----- what a document contributes

  lemma ShareHas(doc: Document, k: DescriptorKey)
    requires ShareOf(doc).Done? && HasKey(doc, k)
    ensures var s := ShareOf(doc).value;
            && (Encrypts(k) ==> k.xkey.publicKey in s.keys)
            && (PointOf(k) == NUMS_XONLY ==> NumsKey(k) in s.warnings)
            && (PointOf(k) != NUMS_XONLY && (k.Single? || RootUsed(k)) ==> DisallowedKeyExpression(k) in s.warnings)
  {
    hide BackupKeys, Keys, EncryptionKeyPaths, ExposedKeys, MayEncrypt, RootUsed, PointOf, HasKey,
         DescriptorWarnings, EncryptionKey;
    var keys := DocumentKeys(doc);
    DocumentKeysAre(doc, k);
    KeyIs(k);
    WarningsAre(keys, NumsKey(k));
    WarningsAre(keys, DisallowedKeyExpression(k));
    if Encrypts(k) {
      assert k in EncryptingKeys(keys);
      assert EncryptionKey(k) == Some(k.xkey.publicKey);
      assert k.xkey.publicKey in EncryptionRoots(keys);
    }
  }

  /** The coordinates a document exposes are those of its expressions that expose one. */
  lemma ShareExposes(doc: Document, x: Bytes32)
    requires ShareOf(doc).Done?
    ensures x in ShareOf(doc).value.exposed <==> exists k :: HasKey(doc, k) && Exposes(k) && PointOf(k) == x
  {
    hide BackupKeys, Keys, EncryptionKeyPaths, EncryptionRoots, DescriptorWarnings, Exposes, PointOf, HasKey,
         ExposedKey, SeedKeys, AllKeys;
    var keys := DocumentKeys(doc);
    forall k ensures k in keys <==> HasKey(doc, k) {
      DocumentKeysAre(doc, k);
    }
    forall k ensures ExposedKey(k) == if Exposes(k) then Some(PointOf(k)) else None {
      KeyIs(k);
    }
    assert ShareOf(doc).value.exposed == ExposedKeys(keys) by {
      if keys == [] { NoneExposed(); }
    }
  }

  lemma NoneExposed()
    ensures ExposedKeys([]) == []
  {
  }

  // ----- accounts

  /** A cosigner can decrypt with its root, or a warning tells why not. */
  ghost predicate Accounted(p: P.Pool, k: DescriptorKey) {
    if PointOf(k) == NUMS_XONLY then NumsKey(k) in p.warnings
    else if k.Single? || RootUsed(k) then DisallowedKeyExpression(k) in p.warnings
    else k.xkey.publicKey in p.keys || ExposedRoot(k.xkey.publicKey) in p.warnings
  }

  lemma ShareAccounts(p: P.Pool, doc: Document, k: DescriptorKey)
    requires ShareOf(doc).Done? && HasKey(doc, k)
    ensures Accounted(P.AddShare(p, ShareOf(doc).value), k)
  {
    hide ShareOf, HasKey, PointOf, RootUsed, P.PathsOf;
    ShareHas(doc, k);
  }

  lemma AddStaysAccounted(p: P.Pool, s: P.Share, k: DescriptorKey)
    requires Accounted(p, k)
    ensures Accounted(P.AddShare(p, s), k)
  {
    hide PointOf, RootUsed, P.PathsOf;
  }

  lemma DropStaysAccounted(p: P.Pool, k: DescriptorKey)
    requires Accounted(p, k)
    ensures Accounted(P.DropExposed(p), k)
  {
    hide PointOf, RootUsed, Xonly, P.RetainKeys, P.RetainPaths, P.WarnExposed;
    if !k.Single? {
      P.RetainMembers(p.keys, p.exposed, k.xkey.publicKey);
    }
  }

  lemma {:induction false} AddAllStaysAccounted(p: P.Pool, shares: seq<P.Share>, k: DescriptorKey)
    requires Accounted(p, k)
    ensures Accounted(P.AddAll(p, shares), k)
  {
    hide Accounted, P.AddShare;
    if shares != [] {
      AddAllStaysAccounted(p, shares[..|shares| - 1], k);
      AddStaysAccounted(P.AddAll(p, shares[..|shares| - 1]), shares[|shares| - 1], k);
    }
  }

  /** Later calls, short of replacing the keys by hand, lose no account. */
  lemma CallsStayAccounted(p: P.Pool, op: P.Op, k: DescriptorKey)
    requires Accounted(p, k) && !op.KeysOp?
    ensures Accounted(P.Apply(p, op), k)
  {
    hide PointOf, RootUsed, P.DropExposed, P.AddShare, P.AddAll;
    match op
    case OneOp(s) =>
      AddStaysAccounted(p, s, k);
      DropStaysAccounted(P.AddShare(p, s), k);
    case ManyOp(ss) =>
      AddAllStaysAccounted(p, ss, k);
      DropStaysAccounted(P.AddAll(p, ss), k);
    case PathsOp(_) =>
  }

  lemma {:induction false} SharesDone(docs: seq<Document>, i: nat)
    requires SharesOf(docs).Done? && i < |docs|
    ensures ShareOf(docs[i]).Done?
  {
    hide ShareOf;
    if i < |docs| - 1 {
      SharesDone(docs[..|docs| - 1], i);
    }
  }

  lemma {:induction false} SharesAccount(p: P.Pool, docs: seq<Document>, i: nat, k: DescriptorKey)
    requires SharesOf(docs).Done? && i < |docs| && HasKey(docs[i], k)
    ensures Accounted(P.AddAll(p, SharesOf(docs).value), k)
  {
    hide Accounted, ShareOf, HasKey;
    var n := |docs| - 1;
    var shares := SharesOf(docs).value;
    var before := SharesOf(docs[..n]).value;
    assert shares[..n] == before;
    if i == n {
      ShareAccounts(P.AddAll(p, before), docs[n], k);
    } else {
      SharesAccount(p, docs[..n], i, k);
      AddStaysAccounted(P.AddAll(p, before), shares[n], k);
    }
  }

  // Some share brings what `AddAll` pools, and nothing else does.
  ghost predicate ExposedBy(docs: seq<Document>, x: Bytes32) {
    exists i, k :: 0 <= i < |docs| && HasKey(docs[i], k) && Exposes(k) && PointOf(k) == x
  }

  lemma {:induction false} PooledExposed(p: P.Pool, docs: seq<Document>, x: Bytes32)
    requires SharesOf(docs).Done?
    ensures x in P.AddAll(p, SharesOf(docs).value).exposed <==> x in p.exposed || ExposedBy(docs, x)
  {
    hide KnownShare, ExposedBy, HasKey, Exposes, PointOf, P.PathsOf;
    if docs == [] {
      NothingExposedYet(x);
    } else {
      var n := |docs| - 1;
      var before := SharesOf(docs[..n]).value;
      assert SharesOf(docs).value[..n] == before;
      PooledExposed(p, docs[..n], x);
      LastShare(docs);
      ShareExposes(docs[n], x);
      ExposedByLast(docs, x);
    }
  }

  lemma NothingExposedYet(x: Bytes32)
    ensures !ExposedBy([], x)
  {
  }

  lemma LastShare(docs: seq<Document>)
    requires docs != [] && SharesOf(docs).Done?
    ensures ShareOf(docs[|docs| - 1]).Done?
    ensures SharesOf(docs).value == SharesOf(docs[..|docs| - 1]).value + [ShareOf(docs[|docs| - 1]).value]
  {
    hide ShareOf;
  }

  lemma ExposedByLast(docs: seq<Document>, x: Bytes32)
    requires docs != []
    ensures var n := |docs| - 1;
            ExposedBy(docs, x) <==>
            ExposedBy(docs[..n], x) || exists k :: HasKey(docs[n], k) && Exposes(k) && PointOf(k) == x
  {
    hide HasKey, Exposes, PointOf;
    var n := |docs| - 1;
    if i, k :| 0 <= i < |docs| && HasKey(docs[i], k) && Exposes(k) && PointOf(k) == x {
      if i < n { assert HasKey(docs[..n][i], k); }
    }
    if i, k :| 0 <= i < n && HasKey(docs[..n][i], k) && Exposes(k) && PointOf(k) == x {
      assert HasKey(docs[i], k);
    }
  }

  /**
   Every key expression of every document given is accounted for, and a root that may
   encrypt is a final key exactly when no document puts its coordinate on chain.
   */
  lemma EveryCosignerAccounted(formats: Formats, s: State, docs: seq<Document>, i: nat, k: DescriptorKey)
    requires WithPayloads(formats, s, docs).Done? && i < |docs| && HasKey(docs[i], k)
    ensures var p := WithPayloads(formats, s, docs).value.pool;
            && Accounted(p, k)
            && (Encrypts(k) ==>
                  (k.xkey.publicKey in p.keys <==> PointOf(k) !in s.pool.exposed && !ExposedBy(docs, PointOf(k))))
  {
    hide Accounted, HasKey, ExposedBy, Encrypts, PointOf, RootUsed, P.DropExposed, P.AddAll, ShareOf, SharesOf,
         Xonly;
    var p := P.AddAll(s.pool, SharesOf(docs).value);
    SharesAccount(s.pool, docs, i, k);
    DropStaysAccounted(p, k);
    PooledExposed(s.pool, docs, PointOf(k));
    if Encrypts(k) {
      KeyIs(k);
      PooledKey(s.pool, docs, i, k);
      KeptOrWarned(p, k.xkey.publicKey);
    }
  }

  /** No final key has the coordinate of a literal, or of a single-path extended key used at its root. */
  lemma NoFinalKeyOnChain(formats: Formats, s: State, docs: seq<Document>, i: nat, k: DescriptorKey, pk: PublicKey)
    requires WithPayloads(formats, s, docs).Done? && i < |docs| && HasKey(docs[i], k)
    requires k.Single? || (k.XPub? && RootUsed(k))
    requires pk in WithPayloads(formats, s, docs).value.pool.keys
    ensures pk[1..] != PointOf(k)
  {
    hide HasKey, PointOf, RootUsed, P.DropExposed, P.AddAll, ShareOf, SharesOf;
    var p := P.AddAll(s.pool, SharesOf(docs).value);
    Q.DropHidesExposed(p);
    DropKeepsExposed(p);
    assert ExposedBy(docs, PointOf(k));
    PooledExposed(s.pool, docs, PointOf(k));
    assert Xonly(pk) == pk[1..];
  }

  lemma {:induction false} SharesHoldKeys(p: P.Pool, docs: seq<Document>, i: nat, root: PublicKey)
    requires SharesOf(docs).Done? && i < |docs| && ShareOf(docs[i]).Done? && root in ShareOf(docs[i]).value.keys
    ensures root in P.AddAll(p, SharesOf(docs).value).keys
  {
    hide ShareOf, P.PathsOf;
    var n := |docs| - 1;
    var shares := SharesOf(docs).value;
    assert shares[..n] == SharesOf(docs[..n]).value;
    if i < n {
      SharesHoldKeys(p, docs[..n], i, root);
    }
  }

  lemma PooledKey(p: P.Pool, docs: seq<Document>, i: nat, k: DescriptorKey)
    requires SharesOf(docs).Done? && i < |docs| && HasKey(docs[i], k) && Encrypts(k)
    ensures k.xkey.publicKey in P.AddAll(p, SharesOf(docs).value).keys
  {
    hide HasKey, RootUsed, PointOf, ShareOf, SharesOf, P.AddAll;
    SharesDone(docs, i);
    ShareHas(docs[i], k);
    SharesHoldKeys(p, docs, i, k.xkey.publicKey);
  }

  lemma DropKeepsExposed(p: P.Pool)
    ensures P.DropExposed(p).exposed == p.exposed
  {
  }

  // A pooled key ends up kept, or exposed and warned about.
  lemma KeptOrWarned(p: P.Pool, root: PublicKey)
    requires root in p.keys
    ensures var q := P.DropExposed(p);
            && (root in q.keys <==> Xonly(root) !in p.exposed)
            && q.exposed == p.exposed
            && (root !in q.keys ==> ExposedRoot(root) in q.warnings)
  {
    hide P.RetainKeys, P.RetainPaths, P.WarnExposed, Xonly;
    P.RetainMembers(p.keys, p.exposed, root);
  }

  /** A single payload pools what a list of one does. */
  lemma OnePayloadAccounted(formats: Formats, s: State, doc: Document, k: DescriptorKey)
    requires WithPayload(formats, s, doc).Done? && HasKey(doc, k)
    ensures var p := WithPayload(formats, s, doc).value.pool;
            && Accounted(p, k)
            && (Encrypts(k) ==>
                  (k.xkey.publicKey in p.keys <==> PointOf(k) !in s.pool.exposed && !ExposedBy([doc], PointOf(k))))
  {
    hide ShareOf, HasKey, P.SetOne, P.SetMany, Accounted, Encrypts, PointOf, ExposedBy;
    HasKeyKnown(doc, k);
    OneIsMany(formats, s, doc);
    EveryCosignerAccounted(formats, s, [doc], 0, k);
  }

  lemma HasKeyKnown(doc: Document, k: DescriptorKey)
    requires HasKey(doc, k)
    ensures IsKnown(ContentOf(doc))
  {
    hide LeafOf, SetsHaveKey;
  }

  lemma OneIsMany(formats: Formats, s: State, doc: Document)
    requires WithPayload(formats, s, doc).Done? && IsKnown(ContentOf(doc))
    ensures WithPayloads(formats, s, [doc]).Done?
    ensures WithPayloads(formats, s, [doc]).value.pool == WithPayload(formats, s, doc).value.pool
  {
    hide ShareOf, P.DropExposed, P.AddShare;
    assert SharesOf([]) == Done([]);
    assert [doc][..0] == [];
    var share := ShareOf(doc).value;
    assert [doc][0] == doc && [] + [share] == [share];
    assert SharesOf([doc]) == Done([share]);
    assert [share][..0] == [];
    assert P.AddAll(s.pool, []) == s.pool;
  }

  lemma PolicyShare(b: PolicyBackup)
    requires SeedKeys(b).Some?
    ensures ShareOf(PolicyDoc(b)).Done?
    ensures ShareOf(PolicyDoc(b)).value.keys == SeedKeys(b).value && ShareOf(PolicyDoc(b)).value.exposed == []
  {
    hide SeedKeys, AllKeys, CanonKeyPaths, RootPath, Once, PolicyWarning;
  }

  lemma PolicyDocValid(b: PolicyBackup)
    requires ShareOf(PolicyDoc(b)).Done?
    ensures Valid(b)
  {
    hide Valid, AllKeys, CanonKeyPaths, RootPath, Once, PolicyWarning;
  }

  /**
   Wherever a policy document stands among the payloads, each root its descriptors
   encrypt to is a final key exactly when it was not seen on chain, and warned about
   otherwise.
   */
  lemma PolicyRootsSeed(
    formats: Formats, s: State, docs: seq<Document>, j: nat, b: PolicyBackup, i: nat, root: PublicKey)
    requires WithPayloads(formats, s, docs).Done? && j < |docs| && docs[j] == PolicyDoc(b)
    requires i < |b.sets| && SetDescriptor(b.sets[i]).Some?
    requires root in EncryptionRoots(Keys(SetDescriptor(b.sets[i]).value))
    ensures var p := WithPayloads(formats, s, docs).value.pool;
            && (root in p.keys <==> Xonly(root) !in p.exposed)
            && (root !in p.keys ==> ExposedRoot(root) in p.warnings)
  {
    hide Valid, SetDescriptor, EncryptionRoots, Keys, SeedKeys, ShareOf, SharesOf, P.DropExposed, P.AddAll, Xonly;
    SharesDone(docs, j);
    PolicyDocValid(b);
    ValidatedExposesNothing(b, i);
    PolicyShare(b);
    SharesHoldKeys(s.pool, docs, j, root);
    KeptOrWarned(P.AddAll(s.pool, SharesOf(docs).value), root);
  }

  /** A validated policy alone is always accepted, and the same holds of it. */
  lemma OnePolicyRootsSeed(formats: Formats, s: State, b: PolicyBackup, i: nat, root: PublicKey)
    requires Valid(b) && i < |b.sets| && SetDescriptor(b.sets[i]).Some?
    requires root in EncryptionRoots(Keys(SetDescriptor(b.sets[i]).value))
    ensures WithPayload(formats, s, PolicyDoc(b)).Done?
    ensures var p := WithPayload(formats, s, PolicyDoc(b)).value.pool;
            && (root in p.keys <==> Xonly(root) !in p.exposed)
            && (root !in p.keys ==> ExposedRoot(root) in p.warnings)
  {
    hide Valid, SetDescriptor, EncryptionRoots, Keys, SeedKeys, ShareOf, P.DropExposed, P.PathsOf, Xonly;
    ValidatedExposesNothing(b, i);
    PolicyShare(b);
    KeptOrWarned(P.AddShare(s.pool, ShareOf(PolicyDoc(b)).value), root);
  }
}
