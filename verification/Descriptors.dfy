/** Descriptors as trees of key expressions, and the keys they may encrypt to. */
module Descriptors {
  import opened Prelude
  import opened Container
  import opened Backup
  import Lex

  // A compressed public key; its order is that of its 33 bytes.
  type PublicKey = s: seq<byte> | |s| == 33 witness seq(33, i => 0)

  function Xonly(key: PublicKey): Bytes32 {
    key[1..]
  }

  // `details` stands for the fields of an extended key besides its public key.
  datatype XKey = XKey(publicKey: PublicKey, details: nat)

  datatype Origin = Origin(fingerprint: u32, path: Path)

  datatype Wildcard = NoWildcard | Unhardened | HardenedWildcard

  datatype SingleKey = FullKey(key: PublicKey) | XOnlyKey(xonly: Bytes32)

  // The paths of a multipath expression: at least one.
  type DerivPaths = s: seq<Path> | |s| >= 1 witness [[]]

  datatype DescriptorKey =
    | Single(origin: Option<Origin>, single: SingleKey)
    | XPub(origin: Option<Origin>, xkey: XKey, path: Path, wildcard: Wildcard)
    | MultiXPub(origin: Option<Origin>, xkey: XKey, paths: DerivPaths, wildcard: Wildcard)

  // A descriptor: fragments, with key expressions at the leaves. The fragment holds
  // everything that is not a key: names, thresholds, hashes, timelocks.
  datatype Tree<+K> = Leaf(key: K) | Node(fragment: nat, children: seq<Tree<K>>)

  type Descriptor = Tree<DescriptorKey>

  /** The keys of a tree, in descriptor order. */
  function Keys<K>(t: Tree<K>): seq<K>
    decreases t, 1
  {
    match t
    case Leaf(k) => [k]
    case Node(_, children) => KeysOf(children)
  }

  function KeysOf<K>(ts: seq<Tree<K>>): seq<K>
    decreases ts, 0
  {
    if ts == [] then [] else Keys(ts[0]) + KeysOf(ts[1..])
  }

  // A key expression reduced to its root, its origin path, and how it derives children.
  datatype KeyExpr =
    | Literal(xonly: Bytes32, originPath: Option<Path>)
    | Extended(root: PublicKey, originPath: Option<Path>, derived: bool, multipath: bool)

  /** Whether the root itself never appears on chain: each use derives at least one step from it. */
  predicate IsDerived(paths: seq<Path>, wildcard: Wildcard) {
    (paths != [] && forall i :: 0 <= i < |paths| ==> paths[i] != []) || !wildcard.NoWildcard?
  }

  function OriginPath(origin: Option<Origin>): Option<Path> {
    match origin
    case None => None
    case Some(o) => Some(o.path)
  }

  function Classify(key: DescriptorKey): KeyExpr {
    match key
    case Single(origin, FullKey(pk)) => Literal(Xonly(pk), OriginPath(origin))
    case Single(origin, XOnlyKey(x)) => Literal(x, OriginPath(origin))
    case XPub(origin, xkey, path, w) =>
      Extended(xkey.publicKey, OriginPath(origin), IsDerived([path], w), false)
    case MultiXPub(origin, xkey, paths, w) =>
      Extended(xkey.publicKey, OriginPath(origin), IsDerived(paths, w), true)
  }

  /** The x-coordinate of a key expression, allowed to encrypt or not. */
  function XonlyOf(key: DescriptorKey): Bytes32 {
    match Classify(key)
    case Literal(x, _) => x
    case Extended(root, _, _, _) => Xonly(root)
  }

  /** Root of an extended key, derived or not: what may decrypt. */
  function RootKey(key: DescriptorKey): Option<PublicKey> {
    match Classify(key)
    case Literal(_, _) => None
    case Extended(root, _, _, _) => Some(root)
  }

  /** Root of an extended key with a trailing derivation: what may encrypt. */
  function EncryptionKey(key: DescriptorKey): Option<PublicKey> {
    match Classify(key)
    case Extended(root, _, true, _) => Some(root)
    case _ => None
  }

  function DerivPath(key: DescriptorKey): Option<Path> {
    Classify(key).originPath
  }

  /** The x-coordinate a key expression puts on chain as is, if it does. */
  function ExposedKey(key: DescriptorKey): Option<Bytes32> {
    match Classify(key)
    case Literal(x, _) => Some(x)
    case Extended(root, _, false, false) => Some(Xonly(root))
    case _ => None
  }

  predicate MayEncrypt(key: DescriptorKey) {
    EncryptionKey(key).Some? && Xonly(EncryptionKey(key).value) != NUMS_XONLY
  }

  // ----- over all the keys of a descriptor

  /** The values `f` finds along a sequence, in order. */
  function FilterMap<A(!new), B(!new)>(f: A -> Option<B>, s: seq<A>): (r: seq<B>)
    ensures forall y :: y in r <==> exists x :: x in s && f(x) == Some(y)
  {
    if s == [] then []
    else
      var n := |s| - 1;
      assert s == s[..n] + [s[n]];
      FilterMap(f, s[..n]) + match f(s[n]) case Some(y) => [y] case None => []
  }

  lemma FilterMapNext<A(!new), B(!new)>(f: A -> Option<B>, s: seq<A>, i: nat)
    requires i < |s|
    ensures FilterMap(f, s[..i + 1]) == FilterMap(f, s[..i]) + match f(s[i]) case Some(y) => [y] case None => []
  {
    assert s[..i + 1][..i] == s[..i];
  }

  /**
   Key expressions allowed to encrypt. The source gathers them in a set ordered on
   the key expression; both its readers sort again, so the order here is the
   descriptor's.
   */
  function EncryptingKeys(keys: seq<DescriptorKey>): (r: seq<DescriptorKey>)
    ensures forall k :: k in r <==> k in keys && MayEncrypt(k)
  {
    FilterMap(k => if MayEncrypt(k) then Some(k) else None, keys)
  }

  method EncryptingKeysLoop(keys: seq<DescriptorKey>) returns (found: set<DescriptorKey>)
    ensures forall k :: k in found <==> k in EncryptingKeys(keys)
  {
    found := {};
    for i := 0 to |keys|
      invariant forall k :: k in found <==> k in keys[..i] && MayEncrypt(k)
    {
      assert keys[..i + 1] == keys[..i] + [keys[i]];
      match EncryptionKey(keys[i]) {
        case Some(pk) =>
          if Xonly(pk) != NUMS_XONLY {
            found := found + {keys[i]};
          }
        case None =>
      }
    }
    assert keys[..|keys|] == keys;
  }

  /** The x-coordinates a descriptor puts on chain as is. */
  function ExposedKeys(keys: seq<DescriptorKey>): seq<Bytes32> {
    CanonKeys(FilterMap(ExposedKey, keys))
  }

  method ExposedKeysLoop(keys: seq<DescriptorKey>) returns (exposed: seq<Bytes32>)
    ensures exposed == ExposedKeys(keys)
  {
    hide ExposedKey;
    exposed := [];
    for i := 0 to |keys|
      invariant exposed == CanonKeys(FilterMap(ExposedKey, keys[..i]))
    {
      FilterMapNext(ExposedKey, keys, i);
      match ExposedKey(keys[i]) {
        case Some(x) =>
          CanonKeysAppend(FilterMap(ExposedKey, keys[..i]), x);
          exposed := InsertKey(exposed, x);
        case None =>
          assert FilterMap(ExposedKey, keys[..i + 1]) == FilterMap(ExposedKey, keys[..i]);
      }
    }
    assert keys[..|keys|] == keys;
  }

  lemma CanonKeysAppend(keys: seq<Bytes32>, key: Bytes32)
    ensures CanonKeys(keys + [key]) == InsertKey(CanonKeys(keys), key)
  {
    assert (keys + [key])[..|keys|] == keys;
  }

  // Signals about keys left out of the encryption set.
  datatype Warning =
    | DisallowedKeyExpression(expr: DescriptorKey)
    | NumsKey(expr: DescriptorKey)
    | ExposedRoot(root: PublicKey)

  function WarningOf(key: DescriptorKey): Option<Warning> {
    if XonlyOf(key) == NUMS_XONLY then Some(NumsKey(key))
    else if EncryptionKey(key).None? then Some(DisallowedKeyExpression(key))
    else None
  }

  /** A warning for every key expression left out, in descriptor order. */
  function DescriptorWarnings(keys: seq<DescriptorKey>): seq<Warning> {
    FilterMap(WarningOf, keys)
  }

  method DescriptorWarningsLoop(keys: seq<DescriptorKey>) returns (warnings: seq<Warning>)
    ensures warnings == DescriptorWarnings(keys)
  {
    warnings := [];
    for i := 0 to |keys|
      invariant warnings == FilterMap(WarningOf, keys[..i])
    {
      FilterMapNext(WarningOf, keys, i);
      if XonlyOf(keys[i]) == NUMS_XONLY {
        warnings := warnings + [NumsKey(keys[i])];
      } else if EncryptionKey(keys[i]).None? {
        warnings := warnings + [DisallowedKeyExpression(keys[i])];
      }
    }
    assert keys[..|keys|] == keys;
  }

  // ----- roots and paths

  function CanonPublicKeys(keys: seq<PublicKey>): (r: seq<PublicKey>)
    ensures forall k :: k in r <==> k in keys
  {
    var r := Lex.Canon(keys);
    assert forall i :: 0 <= i < |r| ==> r[i] in keys;
    r
  }

  // A payload key with the path it was derived at.
  datatype KeyPath = KeyPath(key: PublicKey, path: Path)

  // Pairs compare like their concatenations, as all the keys have one length.
  function Join(kp: KeyPath): Lex.Word {
    kp.key + kp.path
  }

  predicate IsJoined(w: Lex.Word) {
    && |w| >= 33
    && (forall i :: 0 <= i < 33 ==> w[i] < 0x100)
    && (forall i :: 33 <= i < |w| ==> w[i] < 0x1_0000_0000)
  }

  function Unjoin(w: Lex.Word): (kp: KeyPath)
    requires IsJoined(w)
    ensures Join(kp) == w
  {
    assert w == w[..33] + w[33..];
    KeyPath(w[..33], w[33..])
  }

  lemma JoinInjective(a: KeyPath, b: KeyPath)
    ensures Join(a) == Join(b) ==> a == b
    ensures IsJoined(Join(a))
  {
    assert Join(a)[..33] == a.key && Join(a)[33..] == a.path;
    assert Join(b)[..33] == b.key && Join(b)[33..] == b.path;
  }

  function JoinAll(pairs: seq<KeyPath>): (r: seq<Lex.Word>)
    ensures |r| == |pairs| && forall i :: 0 <= i < |r| ==> r[i] == Join(pairs[i])
  {
    seq(|pairs|, i requires 0 <= i < |pairs| => Join(pairs[i]))
  }

  lemma JoinedMembers(pairs: seq<KeyPath>)
    ensures forall kp :: Join(kp) in JoinAll(pairs) <==> kp in pairs
    ensures forall w :: w in JoinAll(pairs) ==> IsJoined(w)
  {
    hide Join, IsJoined;
    var words := JoinAll(pairs);
    forall kp ensures Join(kp) in words <==> kp in pairs {
      if Join(kp) in words {
        var i :| 0 <= i < |words| && words[i] == Join(kp);
        JoinInjective(pairs[i], kp);
      }
      if kp in pairs {
        var i :| 0 <= i < |pairs| && pairs[i] == kp;
        assert words[i] == Join(kp);
      }
    }
    forall w | w in words ensures IsJoined(w) {
      var i :| 0 <= i < |words| && words[i] == w;
      JoinInjective(pairs[i], pairs[i]);
    }
  }

  function UnjoinAll(words: seq<Lex.Word>): (r: seq<KeyPath>)
    requires forall w :: w in words ==> IsJoined(w)
    ensures |r| == |words| && forall i :: 0 <= i < |r| ==> Join(r[i]) == words[i]
  {
    seq(|words|, i requires 0 <= i < |words| => Unjoin(words[i]))
  }

  /** The ordered set of a list of pairs. */
  function CanonKeyPaths(pairs: seq<KeyPath>): (r: seq<KeyPath>)
    ensures forall kp :: kp in r <==> kp in pairs
    ensures Lex.Ascending(JoinAll(r))
  {
    JoinedMembers(pairs);
    var sorted := Lex.Canon(JoinAll(pairs));
    var r := UnjoinAll(sorted);
    assert forall kp :: kp in r <==> Join(kp) in sorted by { UnjoinedMembers(sorted); }
    assert JoinAll(r) == sorted && Lex.Ascending(sorted) by { Lex.CanonAscending(JoinAll(pairs)); }
    r
  }

  lemma UnjoinedMembers(words: seq<Lex.Word>)
    requires forall w :: w in words ==> IsJoined(w)
    ensures forall kp :: kp in UnjoinAll(words) <==> Join(kp) in words
  {
    hide Join, IsJoined;
    var r := UnjoinAll(words);
    forall kp ensures kp in r <==> Join(kp) in words {
      if Join(kp) in words {
        var i :| 0 <= i < |words| && words[i] == Join(kp);
        JoinInjective(r[i], kp);
      }
    }
  }

  /** Root of every encrypting key, as an ordered set. */
  function EncryptionRoots(keys: seq<DescriptorKey>): seq<PublicKey> {
    CanonPublicKeys(FilterMap(EncryptionKey, EncryptingKeys(keys)))
  }

  function KeyPathOf(key: DescriptorKey): Option<KeyPath> {
    match (EncryptionKey(key), DerivPath(key))
    case (Some(pk), Some(path)) => Some(KeyPath(pk, path))
    case _ => None
  }

  /** Each encrypting root with its origin path, for those that have one. */
  function EncryptionKeyPaths(keys: seq<DescriptorKey>): seq<KeyPath> {
    CanonKeyPaths(FilterMap(KeyPathOf, EncryptingKeys(keys)))
  }

  /**
   Both readers of the encrypting keys make an ordered set of what they read, so any
   order the keys are gathered in gives the same roots and the same pairs.
   */
  lemma GatheringOrderHidden(keys: seq<DescriptorKey>, found: seq<DescriptorKey>)
    requires forall k :: k in found <==> k in EncryptingKeys(keys)
    ensures CanonPublicKeys(FilterMap(EncryptionKey, found)) == EncryptionRoots(keys)
    ensures CanonKeyPaths(FilterMap(KeyPathOf, found)) == EncryptionKeyPaths(keys)
  {
    hide EncryptionKey, KeyPathOf, EncryptingKeys, Join, IsJoined;
    Lex.CanonSameElements(FilterMap(EncryptionKey, found), FilterMap(EncryptionKey, EncryptingKeys(keys)));
    var pairs, pairs' := FilterMap(KeyPathOf, found), FilterMap(KeyPathOf, EncryptingKeys(keys));
    JoinedMembers(pairs);
    JoinedMembers(pairs');
    forall w ensures w in JoinAll(pairs) <==> w in JoinAll(pairs') {
      JoinedSame(pairs, pairs', w);
      JoinedSame(pairs', pairs, w);
    }
    Lex.CanonSameElements(JoinAll(pairs), JoinAll(pairs'));
    UnjoinUnique(CanonKeyPaths(pairs), CanonKeyPaths(pairs'));
  }

  lemma JoinedSame(pairs: seq<KeyPath>, pairs': seq<KeyPath>, w: Lex.Word)
    requires forall kp :: kp in pairs ==> kp in pairs'
    ensures w in JoinAll(pairs) ==> w in JoinAll(pairs')
  {
    hide Join;
    if w in JoinAll(pairs) {
      var i :| 0 <= i < |pairs| && JoinAll(pairs)[i] == w;
      assert pairs[i] in pairs';
      var j :| 0 <= j < |pairs'| && pairs'[j] == pairs[i];
      assert JoinAll(pairs')[j] == w;
    }
  }

  lemma UnjoinUnique(a: seq<KeyPath>, b: seq<KeyPath>)
    requires JoinAll(a) == JoinAll(b)
    ensures a == b
  {
    hide Join;
    assert |a| == |JoinAll(a)| == |b|;
    forall i | 0 <= i < |a| ensures a[i] == b[i] {
      assert JoinAll(a)[i] == JoinAll(b)[i];
      JoinInjective(a[i], b[i]);
    }
  }
}
