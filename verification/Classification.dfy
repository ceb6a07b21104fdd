/** What a key expression puts on chain, and that its classification says just that. */
module Classification {
  import opened Prelude
  import opened Container
  import opened Backup
  import opened Descriptors

  // ----- leaves

  /** `key` is at some leaf of the tree. */
  ghost predicate LeafOf<K>(t: Tree<K>, key: K) {
    match t
    case Leaf(k) => k == key
    case Node(_, children) => exists i :: 0 <= i < |children| && LeafOf(children[i], key)
  }

  lemma {:induction false} KeysAreLeaves<K>(t: Tree<K>, key: K)
    ensures key in Keys(t) <==> LeafOf(t, key)
    decreases t, 1
  {
    match t
    case Leaf(_) =>
    case Node(_, children) => KeysOfAreLeaves(children, key);
  }

  lemma {:induction false} KeysOfAreLeaves<K>(ts: seq<Tree<K>>, key: K)
    ensures key in KeysOf(ts) <==> exists i :: 0 <= i < |ts| && LeafOf(ts[i], key)
    decreases ts, 0
  {
    hide LeafOf, Keys;
    if ts != [] {
      KeysAreLeaves(ts[0], key);
      KeysOfAreLeaves(ts[1..], key);
      if i :| 0 <= i < |ts| && LeafOf(ts[i], key) {
        if i > 0 { assert LeafOf(ts[1..][i - 1], key); }
      }
      if i :| 0 <= i < |ts[1..]| && LeafOf(ts[1..][i], key) {
        assert LeafOf(ts[i + 1], key);
      }
    }
  }

  // ----- what reaches the chain

  function PathsOf(key: DescriptorKey): seq<Path> {
    match key
    case Single(_, _) => []
    case XPub(_, _, path, _) => [path]
    case MultiXPub(_, _, paths, _) => paths
  }

  /** The steps taken from the root of an extended key to its `index`-th key on the `i`-th path. */
  function StepsTaken(key: DescriptorKey, i: nat, index: u32): Path
    requires i < |PathsOf(key)|
  {
    PathsOf(key)[i] + if key.wildcard.NoWildcard? then [] else [index]
  }

  /** The root itself is one of the keys used. */
  ghost predicate RootUsed(key: DescriptorKey) {
    exists i, index: u32 :: 0 <= i < |PathsOf(key)| && StepsTaken(key, i, index) == []
  }

  /** The x-coordinate of the literal key, or of the root. */
  function PointOf(key: DescriptorKey): Bytes32 {
    match key
    case Single(_, FullKey(pk)) => pk[1..]
    case Single(_, XOnlyKey(x)) => x
    case XPub(_, xkey, _, _) => xkey.publicKey[1..]
    case MultiXPub(_, xkey, _, _) => xkey.publicKey[1..]
  }

  lemma DerivedIs(key: DescriptorKey)
    requires !key.Single?
    ensures IsDerived(PathsOf(key), key.wildcard) <==> !RootUsed(key)
  {
    var paths := PathsOf(key);
    assert paths != [];
    if key.wildcard.NoWildcard? {
      forall i | 0 <= i < |paths| ensures StepsTaken(key, i, 0) == paths[i] {
      }
      if i :| 0 <= i < |paths| && paths[i] == [] {
        assert StepsTaken(key, i, 0) == [];
      }
    }
  }

  /** An expression may encrypt exactly when it is an extended key whose root is never used as it is. */
  lemma MayEncryptExactly(key: DescriptorKey)
    ensures EncryptionKey(key) == if !key.Single? && !RootUsed(key) then Some(key.xkey.publicKey) else None
  {
    hide RootUsed, IsDerived;
    if !key.Single? {
      DerivedIs(key);
    }
  }

  /** It exposes a coordinate exactly when it is a literal, or a single-path extended key used at its root. */
  lemma ExposesExactly(key: DescriptorKey)
    ensures ExposedKey(key) ==
            if key.Single? || (key.XPub? && RootUsed(key)) then Some(PointOf(key)) else None
  {
    hide RootUsed, IsDerived;
    if !key.Single? {
      DerivedIs(key);
    }
  }

  lemma CoordinateIs(key: DescriptorKey)
    ensures XonlyOf(key) == PointOf(key)
    ensures RootKey(key) == if key.Single? then None else Some(key.xkey.publicKey)
  {
  }

  /** The warnings of a descriptor: the NUMS point first, then whatever may not encrypt; no others. */
  lemma WarningsAre(keys: seq<DescriptorKey>, w: Warning)
    ensures w in DescriptorWarnings(keys) <==>
            match w
            case NumsKey(k) => k in keys && PointOf(k) == NUMS_XONLY
            case DisallowedKeyExpression(k) =>
              k in keys && PointOf(k) != NUMS_XONLY && (k.Single? || RootUsed(k))
            case ExposedRoot(_) => false
  {
    hide RootUsed, PointOf, XonlyOf, EncryptionKey;
    forall k ensures WarningOf(k) ==
                     if PointOf(k) == NUMS_XONLY then Some(NumsKey(k))
                     else if k.Single? || RootUsed(k) then Some(DisallowedKeyExpression(k)) else None
    {
      CoordinateIs(k);
      MayEncryptExactly(k);
    }
  }

  /** A bare xpub: not allowed to encrypt, exposed, and warned about. */
  lemma BareXpub(origin: Option<Origin>, xkey: XKey)
    requires Xonly(xkey.publicKey) != NUMS_XONLY
    ensures var k := XPub(origin, xkey, [], NoWildcard);
            && RootUsed(k) && EncryptionKey(k) == None && ExposedKey(k) == Some(Xonly(xkey.publicKey))
            && DescriptorWarnings([k]) == [DisallowedKeyExpression(k)]
  {
    var k := XPub(origin, xkey, [], NoWildcard);
    assert StepsTaken(k, 0, 0) == [];
    assert [k][..0] == [];
    assert FilterMap(WarningOf, [k]) == FilterMap(WarningOf, []) + [DisallowedKeyExpression(k)];
  }
}
