/**
 What the backup builder gathers from its payloads: keys, the paths they were
 derived at, the x-coordinates seen on chain, and warnings.
 */
module Pools {
  import opened Prelude
  import opened Container
  import opened Descriptors

  datatype Pool = Pool(
    paths: seq<Path>, keys: seq<PublicKey>, exposed: seq<Bytes32>, keyPaths: seq<KeyPath>, warnings: seq<Warning>)

  const EMPTY: Pool := Pool([], [], [], [], [])

  // What one payload adds.
  datatype Share = Share(
    keyPaths: seq<KeyPath>, keys: seq<PublicKey>, warnings: seq<Warning>, exposed: seq<Bytes32>)

  function PathsOf(keyPaths: seq<KeyPath>): (r: seq<Path>)
    ensures |r| == |keyPaths| && forall i :: 0 <= i < |r| ==> r[i] == keyPaths[i].path
  {
    seq(|keyPaths|, i requires 0 <= i < |keyPaths| => keyPaths[i].path)
  }

  function AddShare(p: Pool, s: Share): Pool {
    Pool(p.paths + PathsOf(s.keyPaths), p.keys + s.keys, p.exposed + s.exposed,
         p.keyPaths + s.keyPaths, p.warnings + s.warnings)
  }

  function RetainKeys(keys: seq<PublicKey>, exposed: seq<Bytes32>): seq<PublicKey> {
    if keys == [] then []
    else
      var n := |keys| - 1;
      RetainKeys(keys[..n], exposed) + if Xonly(keys[n]) in exposed then [] else [keys[n]]
  }

  lemma {:induction false} RetainMembers(keys: seq<PublicKey>, exposed: seq<Bytes32>, k: PublicKey)
    ensures k in RetainKeys(keys, exposed) <==> k in keys && Xonly(k) !in exposed
  {
    hide Xonly;
    if keys != [] {
      var n := |keys| - 1;
      assert keys == keys[..n] + [keys[n]];
      RetainMembers(keys[..n], exposed, k);
    }
  }

  /** A warning for every key that goes, once. */
  function WarnExposed(keys: seq<PublicKey>, exposed: seq<Bytes32>, warnings: seq<Warning>): (r: seq<Warning>)
    ensures forall w :: w in r <==> w in warnings || (w.ExposedRoot? && w.root in keys && Xonly(w.root) in exposed)
  {
    if keys == [] then warnings
    else
      var n := |keys| - 1;
      assert keys == keys[..n] + [keys[n]];
      var before := WarnExposed(keys[..n], exposed, warnings);
      var warning := ExposedRoot(keys[n]);
      if Xonly(keys[n]) in exposed && warning !in before then before + [warning] else before
  }

  // Some payload key that stays, or that goes, was derived at `path`.
  predicate Kept(keyPaths: seq<KeyPath>, exposed: seq<Bytes32>, path: Path) {
    exists i :: 0 <= i < |keyPaths| && keyPaths[i].path == path && Xonly(keyPaths[i].key) !in exposed
  }

  predicate Dropped(keyPaths: seq<KeyPath>, exposed: seq<Bytes32>, path: Path) {
    exists i :: 0 <= i < |keyPaths| && keyPaths[i].path == path && Xonly(keyPaths[i].key) in exposed
  }

  function RetainPaths(paths: seq<Path>, keyPaths: seq<KeyPath>, exposed: seq<Bytes32>): (r: seq<Path>)
    ensures forall p :: p in r <==> p in paths && (Kept(keyPaths, exposed, p) || !Dropped(keyPaths, exposed, p))
  {
    if paths == [] then []
    else
      var n := |paths| - 1;
      assert paths == paths[..n] + [paths[n]];
      RetainPaths(paths[..n], keyPaths, exposed)
      + if Kept(keyPaths, exposed, paths[n]) || !Dropped(keyPaths, exposed, paths[n]) then [paths[n]] else []
  }

  /** Drop exposed keys, and the paths only they use. */
  function DropExposed(p: Pool): Pool {
    p.(keys := RetainKeys(p.keys, p.exposed),
       warnings := WarnExposed(p.keys, p.exposed, p.warnings),
       paths := RetainPaths(p.paths, p.keyPaths, p.exposed))
  }

  function AddAll(p: Pool, shares: seq<Share>): Pool {
    if shares == [] then p else AddShare(AddAll(p, shares[..|shares| - 1]), shares[|shares| - 1])
  }

  /** One payload: its share, then the cleaning. */
  function SetOne(p: Pool, s: Share): Pool {
    DropExposed(AddShare(p, s))
  }

  /** Several payloads at once: all the shares, then one cleaning. */
  function SetMany(p: Pool, shares: seq<Share>): Pool {
    DropExposed(AddAll(p, shares))
  }

  /** Several payloads one call after the other. */
  function SetEach(p: Pool, shares: seq<Share>): Pool {
    if shares == [] then p else SetOne(SetEach(p, shares[..|shares| - 1]), shares[|shares| - 1])
  }

  function SetKeys(p: Pool, keys: seq<PublicKey>): Pool {
    DropExposed(p.(keys := keys))
  }

  function SetPaths(p: Pool, paths: seq<Path>): Pool {
    p.(paths := paths)
  }

  // ----- runs of the builder

  datatype Op =
    | OneOp(share: Share) | ManyOp(shares: seq<Share>) | KeysOp(keys: seq<PublicKey>) | PathsOp(paths: seq<Path>)

  function Apply(p: Pool, op: Op): Pool {
    match op
    case OneOp(s) => SetOne(p, s)
    case ManyOp(ss) => SetMany(p, ss)
    case KeysOp(ks) => SetKeys(p, ks)
    case PathsOp(ps) => SetPaths(p, ps)
  }

  function Run(ops: seq<Op>): Pool {
    if ops == [] then EMPTY else Apply(Run(ops[..|ops| - 1]), ops[|ops| - 1])
  }

  ghost predicate NoExposedKeys(p: Pool) {
    forall k :: k in p.keys ==> Xonly(k) !in p.exposed
  }

  /** The paths are exactly those of the payload keys that are not exposed. */
  ghost predicate PathsFollowKeys(p: Pool) {
    forall path :: path in p.paths <==> Kept(p.keyPaths, p.exposed, path)
  }

  ghost predicate ByPayloadsOnly(ops: seq<Op>) {
    forall i :: 0 <= i < |ops| ==> !ops[i].PathsOp?
  }

  function CountExposed(warnings: seq<Warning>, root: PublicKey): nat {
    multiset(warnings)[ExposedRoot(root)]
  }

  // Payloads do not raise the warning the builder itself raises.
  ghost predicate QuietShares(ops: seq<Op>) {
    forall i :: 0 <= i < |ops| ==>
      match ops[i]
      case OneOp(s) => QuietShare(s)
      case ManyOp(ss) => forall j :: 0 <= j < |ss| ==> QuietShare(ss[j])
      case _ => true
  }

  ghost predicate QuietShare(s: Share) {
    forall w :: w in s.warnings ==> !w.ExposedRoot?
  }

  ghost predicate WarnedOnce(p: Pool) {
    forall root: PublicKey :: CountExposed(p.warnings, root) <= 1
  }
}
