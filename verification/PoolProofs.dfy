/** Invariants of every run of the builder, and why the grouping of payloads does not matter. */
module PoolProofs {
  import opened Prelude
  import opened Container
  import opened Descriptors
  import opened Pools

  // ----- over every run

  /** In every state the builder reaches, no key has an exposed x-coordinate. */
  lemma {:induction false} KeysNeverExposed(ops: seq<Op>)
    ensures NoExposedKeys(Run(ops))
  {
    hide RetainPaths, WarnExposed, RetainKeys, Xonly, AddAll;
    if ops != [] {
      var p := Run(ops[..|ops| - 1]);
      KeysNeverExposed(ops[..|ops| - 1]);
      match ops[|ops| - 1]
      case OneOp(s) => DropHidesExposed(AddShare(p, s));
      case ManyOp(ss) => DropHidesExposed(AddAll(p, ss));
      case KeysOp(ks) => DropHidesExposed(p.(keys := ks));
      case PathsOp(_) =>
    }
  }

  lemma DropHidesExposed(p: Pool)
    ensures NoExposedKeys(DropExposed(p))
  {
    hide RetainPaths, WarnExposed, RetainKeys, Xonly;
    forall k | k in RetainKeys(p.keys, p.exposed) ensures Xonly(k) !in p.exposed {
      RetainMembers(p.keys, p.exposed, k);
    }
  }

  lemma KeptMore(keyPaths: seq<KeyPath>, more: seq<KeyPath>, exposed: seq<Bytes32>, exposed': seq<Bytes32>, path: Path)
    requires forall x :: x in exposed ==> x in exposed'
    ensures Kept(keyPaths + more, exposed', path) <==> Kept(keyPaths, exposed', path) || Kept(more, exposed', path)
    ensures Kept(keyPaths, exposed', path) ==> Kept(keyPaths, exposed, path)
    ensures Dropped(keyPaths, exposed, path) ==> Dropped(keyPaths + more, exposed', path)
  {
    var all := keyPaths + more;
    if Kept(all, exposed', path) {
      var i :| 0 <= i < |all| && all[i].path == path && Xonly(all[i].key) !in exposed';
      if i < |keyPaths| {
        assert keyPaths[i].path == path && Xonly(keyPaths[i].key) !in exposed';
      } else {
        assert more[i - |keyPaths|].path == path && Xonly(more[i - |keyPaths|].key) !in exposed';
      }
    }
    if Kept(keyPaths, exposed', path) {
      var i :| 0 <= i < |keyPaths| && keyPaths[i].path == path && Xonly(keyPaths[i].key) !in exposed';
      assert all[i].path == path && Xonly(all[i].key) !in exposed';
      assert keyPaths[i].path == path && Xonly(keyPaths[i].key) !in exposed;
    }
    if Kept(more, exposed', path) {
      var i :| 0 <= i < |more| && more[i].path == path && Xonly(more[i].key) !in exposed';
      assert all[|keyPaths| + i].path == path;
    }
    if Dropped(keyPaths, exposed, path) {
      var i :| 0 <= i < |keyPaths| && keyPaths[i].path == path && Xonly(keyPaths[i].key) in exposed;
      assert all[i].path == path && Xonly(all[i].key) in exposed';
    }
  }

  lemma PathInKeyPaths(keyPaths: seq<KeyPath>, exposed: seq<Bytes32>, path: Path)
    ensures path in PathsOf(keyPaths) <==> Kept(keyPaths, exposed, path) || Dropped(keyPaths, exposed, path)
  {
    if path in PathsOf(keyPaths) {
      var i :| 0 <= i < |keyPaths| && PathsOf(keyPaths)[i] == path;
      assert keyPaths[i].path == path;
      assert Xonly(keyPaths[i].key) in exposed || Xonly(keyPaths[i].key) !in exposed;
    }
    if Kept(keyPaths, exposed, path) || Dropped(keyPaths, exposed, path) {
      var i :| 0 <= i < |keyPaths| && keyPaths[i].path == path;
      assert PathsOf(keyPaths)[i] == path;
    }
  }

  // Before cleaning: surviving paths are all there, and every path has a payload key.
  ghost predicate PathsCovered(p: Pool) {
    forall path ::
      && (Kept(p.keyPaths, p.exposed, path) ==> path in p.paths)
      && (path in p.paths ==> path in PathsOf(p.keyPaths))
  }

  lemma CoveredAdd(p: Pool, s: Share)
    requires PathsCovered(p)
    ensures PathsCovered(AddShare(p, s))
  {
    hide Kept;
    var q := AddShare(p, s);
    forall path
      ensures Kept(q.keyPaths, q.exposed, path) ==> path in q.paths
      ensures path in q.paths ==> path in PathsOf(q.keyPaths)
    {
      KeptMore(p.keyPaths, s.keyPaths, p.exposed, q.exposed, path);
      PathInKeyPaths(s.keyPaths, q.exposed, path);
      assert PathsOf(q.keyPaths) == PathsOf(p.keyPaths) + PathsOf(s.keyPaths);
    }
  }

  lemma {:induction false} CoveredAddAll(p: Pool, shares: seq<Share>)
    requires PathsCovered(p)
    ensures PathsCovered(AddAll(p, shares))
  {
    hide PathsCovered;
    if shares != [] {
      CoveredAddAll(p, shares[..|shares| - 1]);
      CoveredAdd(AddAll(p, shares[..|shares| - 1]), shares[|shares| - 1]);
    }
  }

  lemma CoveredDrop(p: Pool)
    requires PathsCovered(p)
    ensures PathsFollowKeys(DropExposed(p)) && PathsCovered(DropExposed(p))
  {
    hide Kept, Dropped, WarnExposed;
    forall path ensures path in DropExposed(p).paths <==> Kept(p.keyPaths, p.exposed, path) {
      PathInKeyPaths(p.keyPaths, p.exposed, path);
    }
    forall path | path in DropExposed(p).paths ensures path in PathsOf(p.keyPaths) {
    }
  }

  /** Without paths set by hand, the path set is that of the unexposed payload keys. */
  lemma {:induction false} PathsAreKeyPaths(ops: seq<Op>)
    requires ByPayloadsOnly(ops)
    ensures PathsFollowKeys(Run(ops)) && PathsCovered(Run(ops))
  {
    hide PathsFollowKeys, PathsCovered, DropExposed;
    if ops == [] {
      NothingCovered();
    } else {
      var n := |ops| - 1;
      var p := Run(ops[..n]);
      PathsAreKeyPaths(ops[..n]);
      match ops[n]
      case OneOp(s) =>
        CoveredAdd(p, s);
        CoveredDrop(AddShare(p, s));
      case ManyOp(ss) =>
        CoveredAddAll(p, ss);
        CoveredDrop(AddAll(p, ss));
      case KeysOp(ks) =>
        OtherKeysCovered(p, ks);
        CoveredDrop(p.(keys := ks));
    }
  }

  lemma OtherKeysCovered(p: Pool, keys: seq<PublicKey>)
    ensures PathsCovered(p) ==> PathsCovered(p.(keys := keys))
  {
  }

  lemma NothingCovered()
    ensures PathsFollowKeys(EMPTY) && PathsCovered(EMPTY)
  {
  }

  // ----- one warning a root

  lemma {:induction false} WarnExposedOnce(
    keys: seq<PublicKey>, exposed: seq<Bytes32>, warnings: seq<Warning>, root: PublicKey)
    requires CountExposed(warnings, root) <= 1
    ensures CountExposed(WarnExposed(keys, exposed, warnings), root) <= 1
  {
    if keys != [] {
      WarnExposedOnce(keys[..|keys| - 1], exposed, warnings, root);
    }
  }

  lemma QuietAdd(p: Pool, s: Share)
    requires WarnedOnce(p) && QuietShare(s)
    ensures WarnedOnce(AddShare(p, s))
  {
    forall root: PublicKey ensures CountExposed(p.warnings + s.warnings, root) <= 1 {
      assert CountExposed(p.warnings, root) <= 1;
      assert ExposedRoot(root) !in s.warnings;
      assert multiset(p.warnings + s.warnings) == multiset(p.warnings) + multiset(s.warnings);
    }
  }

  lemma {:induction false} QuietAddAll(p: Pool, shares: seq<Share>)
    requires WarnedOnce(p) && forall j :: 0 <= j < |shares| ==> QuietShare(shares[j])
    ensures WarnedOnce(AddAll(p, shares))
  {
    hide WarnedOnce, QuietShare;
    if shares != [] {
      QuietAddAll(p, shares[..|shares| - 1]);
      QuietAdd(AddAll(p, shares[..|shares| - 1]), shares[|shares| - 1]);
    }
  }

  lemma QuietDrop(p: Pool)
    requires WarnedOnce(p)
    ensures WarnedOnce(DropExposed(p))
  {
    hide WarnExposed, RetainKeys, RetainPaths;
    forall root: PublicKey ensures CountExposed(DropExposed(p).warnings, root) <= 1 {
      assert CountExposed(p.warnings, root) <= 1;
      WarnExposedOnce(p.keys, p.exposed, p.warnings, root);
    }
  }

  /** No root is ever warned about twice. */
  lemma {:induction false} EachRootWarnedOnce(ops: seq<Op>)
    requires QuietShares(ops)
    ensures WarnedOnce(Run(ops))
  {
    hide WarnedOnce, DropExposed, QuietShare;
    if ops == [] {
      NothingWarned();
    } else {
      var n := |ops| - 1;
      var p := Run(ops[..n]);
      EachRootWarnedOnce(ops[..n]);
      match ops[n]
      case OneOp(s) =>
        QuietAdd(p, s);
        QuietDrop(AddShare(p, s));
      case ManyOp(ss) =>
        QuietAddAll(p, ss);
        QuietDrop(AddAll(p, ss));
      case KeysOp(ks) =>
        SameWarnings(p, p.(keys := ks));
        QuietDrop(p.(keys := ks));
      case PathsOp(ps) =>
        SameWarnings(p, p.(paths := ps));
    }
  }

  lemma SameWarnings(p: Pool, q: Pool)
    requires p.warnings == q.warnings
    ensures WarnedOnce(p) <==> WarnedOnce(q)
  {
  }

  lemma NothingWarned()
    ensures WarnedOnce(EMPTY)
  {
  }

  // ----- grouping

  // Two pools nobody can tell apart but for the order of paths and warnings.
  ghost predicate Alike(a: Pool, b: Pool) {
    && a.keys == b.keys && a.exposed == b.exposed && a.keyPaths == b.keyPaths
    && (forall path :: path in a.paths <==> path in b.paths)
    && (forall w :: w in a.warnings <==> w in b.warnings)
  }

  lemma AlikeAdd(a: Pool, b: Pool, s: Share)
    requires Alike(a, b)
    ensures Alike(AddShare(a, s), AddShare(b, s))
  {
    hide PathsOf;
  }

  lemma AlikeDrop(a: Pool, b: Pool)
    requires Alike(a, b)
    ensures Alike(DropExposed(a), DropExposed(b))
  {
    hide Kept, Dropped, RetainKeys;
  }

  lemma RetainLast(keys: seq<PublicKey>, key: PublicKey, exposed: seq<Bytes32>)
    ensures RetainKeys(keys + [key], exposed) ==
            RetainKeys(keys, exposed) + if Xonly(key) in exposed then [] else [key]
  {
    hide Xonly;
    assert (keys + [key])[..|keys|] == keys;
  }

  lemma RetainNothing(exposed: seq<Bytes32>)
    ensures RetainKeys([], exposed) == []
  {
  }

  lemma {:induction false} RetainConcat(a: seq<PublicKey>, b: seq<PublicKey>, exposed: seq<Bytes32>)
    ensures RetainKeys(a + b, exposed) == RetainKeys(a, exposed) + RetainKeys(b, exposed)
  {
    hide Xonly, RetainKeys;
    if b == [] {
      assert a + b == a;
      RetainNothing(exposed);
    } else {
      var n := |b| - 1;
      RetainConcat(a, b[..n], exposed);
      RetainLast(a + b[..n], b[n], exposed);
      RetainLast(b[..n], b[n], exposed);
      assert a + b == (a + b[..n]) + [b[n]];
      assert b == b[..n] + [b[n]];
    }
  }

  lemma {:induction false} RetainTwice(keys: seq<PublicKey>, exposed: seq<Bytes32>, exposed': seq<Bytes32>)
    requires forall x :: x in exposed ==> x in exposed'
    ensures RetainKeys(RetainKeys(keys, exposed), exposed') == RetainKeys(keys, exposed')
  {
    hide Xonly, RetainKeys;
    if keys == [] {
      RetainNothing(exposed);
      RetainNothing(exposed');
    } else {
      var n := |keys| - 1;
      RetainTwice(keys[..n], exposed, exposed');
      assert keys == keys[..n] + [keys[n]];
      RetainLast(keys[..n], keys[n], exposed);
      RetainLast(keys[..n], keys[n], exposed');
      var kept := RetainKeys(keys[..n], exposed);
      if Xonly(keys[n]) in exposed {
        assert kept + [] == kept;
      } else {
        RetainLast(kept, keys[n], exposed');
      }
    }
  }

  lemma DropAbsorbsKeys(p: Pool, s: Share)
    ensures DropExposed(AddShare(DropExposed(p), s)).keys == DropExposed(AddShare(p, s)).keys
  {
    hide Kept, Dropped, PathsOf, Xonly, RetainKeys, RetainPaths, WarnExposed;
    var exposed := p.exposed + s.exposed;
    RetainConcat(RetainKeys(p.keys, p.exposed), s.keys, exposed);
    RetainConcat(p.keys, s.keys, exposed);
    RetainTwice(p.keys, p.exposed, exposed);
  }

  lemma DropAbsorbsPaths(p: Pool, s: Share, path: Path)
    ensures path in DropExposed(AddShare(DropExposed(p), s)).paths <==> path in DropExposed(AddShare(p, s)).paths
  {
    hide Kept, Dropped, PathsOf, Xonly, RetainKeys, WarnExposed;
    KeptMore(p.keyPaths, s.keyPaths, p.exposed, p.exposed + s.exposed, path);
    PathInKeyPaths(s.keyPaths, p.exposed + s.exposed, path);
  }

  lemma DropAbsorbsWarnings(p: Pool, s: Share, w: Warning)
    ensures w in DropExposed(AddShare(DropExposed(p), s)).warnings <==> w in DropExposed(AddShare(p, s)).warnings
  {
    hide Kept, Dropped, PathsOf, Xonly, RetainPaths, RetainKeys;
    if w.ExposedRoot? {
      RetainMembers(p.keys, p.exposed, w.root);
    }
  }

  /** Cleaning early changes nothing once more is added and cleaned again. */
  lemma DropAbsorbs(p: Pool, s: Share)
    ensures Alike(DropExposed(AddShare(DropExposed(p), s)), DropExposed(AddShare(p, s)))
  {
    hide RetainKeys, RetainPaths, WarnExposed, PathsOf;
    var left, right := DropExposed(AddShare(DropExposed(p), s)), DropExposed(AddShare(p, s));
    DropAbsorbsKeys(p, s);
    forall path ensures path in left.paths <==> path in right.paths {
      DropAbsorbsPaths(p, s, path);
    }
    forall w ensures w in left.warnings <==> w in right.warnings {
      DropAbsorbsWarnings(p, s, w);
    }
  }

  /** Payloads given at once or one after the other leave the same pool. */
  lemma {:induction false} GroupingDoesNotMatter(p: Pool, shares: seq<Share>)
    requires shares != []
    ensures Alike(SetEach(p, shares), SetMany(p, shares))
  {
    hide Alike, DropExposed;
    var n := |shares| - 1;
    var init, last := shares[..n], shares[n];
    if n == 0 {
      assert SetEach(p, []) == p && AddAll(p, []) == p && init == [];
      AlikeSelf(SetMany(p, shares));
    } else {
      GroupingDoesNotMatter(p, init);
      var each, many := SetEach(p, init), SetMany(p, init);
      AlikeAdd(each, many, last);
      AlikeDrop(AddShare(each, last), AddShare(many, last));
      DropAbsorbs(AddAll(p, init), last);
      AlikeTrans(SetEach(p, shares), DropExposed(AddShare(many, last)), SetMany(p, shares));
    }
  }

  lemma AlikeSelf(a: Pool)
    ensures Alike(a, a)
  {
  }

  lemma AlikeTrans(a: Pool, b: Pool, c: Pool)
    requires Alike(a, b) && Alike(b, c)
    ensures Alike(a, c)
  {
  }

  // ----- order

  function Gather<T(!new)>(f: Share -> seq<T>, shares: seq<Share>): (r: seq<T>)
    ensures forall x :: x in r <==> exists s :: s in shares && x in f(s)
  {
    if shares == [] then []
    else
      var n := |shares| - 1;
      assert shares == shares[..n] + [shares[n]];
      Gather(f, shares[..n]) + f(shares[n])
  }

  function KeysIn(s: Share): seq<PublicKey> { s.keys }
  function ExposedIn(s: Share): seq<Bytes32> { s.exposed }
  function WarningsIn(s: Share): seq<Warning> { s.warnings }
  function KeyPathsIn(s: Share): seq<KeyPath> { s.keyPaths }

  lemma {:induction false} AddedShares(p: Pool, shares: seq<Share>)
    ensures var q := AddAll(p, shares);
            && q.keys == p.keys + Gather(KeysIn, shares)
            && q.exposed == p.exposed + Gather(ExposedIn, shares)
            && q.warnings == p.warnings + Gather(WarningsIn, shares)
            && q.keyPaths == p.keyPaths + Gather(KeyPathsIn, shares)
  {
    hide PathsOf;
    if shares != [] {
      AddedShares(p, shares[..|shares| - 1]);
    }
  }

  lemma GatherOrder<T(!new)>(f: Share -> seq<T>, shares: seq<Share>, shares': seq<Share>)
    requires forall s :: s in shares <==> s in shares'
    ensures forall x :: x in Gather(f, shares) <==> x in Gather(f, shares')
  {
  }

  ghost predicate SameMembers<T(!new)>(a: seq<T>, b: seq<T>) {
    forall x :: x in a <==> x in b
  }

  /** Adding payloads in another order pools the same things. */
  lemma AddedOrder(p: Pool, shares: seq<Share>, shares': seq<Share>)
    requires forall s :: s in shares <==> s in shares'
    ensures SameMembers(AddAll(p, shares).keys, AddAll(p, shares').keys)
    ensures SameMembers(AddAll(p, shares).exposed, AddAll(p, shares').exposed)
    ensures SameMembers(AddAll(p, shares).warnings, AddAll(p, shares').warnings)
    ensures SameMembers(AddAll(p, shares).keyPaths, AddAll(p, shares').keyPaths)
  {
    hide Gather, AddAll;
    AddedShares(p, shares);
    AddedShares(p, shares');
    GatherOrder(KeysIn, shares, shares');
    GatherOrder(ExposedIn, shares, shares');
    GatherOrder(WarningsIn, shares, shares');
    GatherOrder(KeyPathsIn, shares, shares');
  }

  lemma SameKeysRetained(a: Pool, b: Pool)
    requires SameMembers(a.keys, b.keys) && SameMembers(a.exposed, b.exposed) && SameMembers(a.warnings, b.warnings)
    ensures SameMembers(DropExposed(a).keys, DropExposed(b).keys)
    ensures SameMembers(DropExposed(a).warnings, DropExposed(b).warnings)
  {
    hide RetainKeys, RetainPaths, WarnExposed, Xonly;
    forall k: PublicKey ensures k in RetainKeys(a.keys, a.exposed) <==> k in RetainKeys(b.keys, b.exposed) {
      RetainMembers(a.keys, a.exposed, k);
      RetainMembers(b.keys, b.exposed, k);
    }
  }

  /** The order of the payloads changes neither the keys nor the warnings of the pool. */
  lemma PayloadOrderDoesNotMatter(p: Pool, shares: seq<Share>, shares': seq<Share>)
    requires forall s :: s in shares <==> s in shares'
    ensures SameMembers(SetMany(p, shares).keys, SetMany(p, shares').keys)
    ensures SameMembers(SetMany(p, shares).warnings, SetMany(p, shares').warnings)
  {
    hide AddAll, DropExposed, SameMembers;
    AddedOrder(p, shares, shares');
    SameKeysRetained(AddAll(p, shares), AddAll(p, shares'));
  }

  lemma KeptByMembers(a: seq<KeyPath>, b: seq<KeyPath>, exposed: seq<Bytes32>, exposed': seq<Bytes32>, path: Path)
    requires forall kp :: kp in a ==> kp in b
    requires forall x :: x in exposed' ==> x in exposed
    ensures Kept(a, exposed, path) ==> Kept(b, exposed', path)
  {
    if Kept(a, exposed, path) {
      var i :| 0 <= i < |a| && a[i].path == path && Xonly(a[i].key) !in exposed;
      assert a[i] in b;
      var j :| 0 <= j < |b| && b[j] == a[i];
    }
  }

  /** Nor, when no path was set by hand, the path set. */
  lemma PayloadOrderKeepsPaths(ops: seq<Op>, shares: seq<Share>, shares': seq<Share>)
    requires ByPayloadsOnly(ops) && forall s :: s in shares <==> s in shares'
    ensures SameMembers(SetMany(Run(ops), shares).paths, SetMany(Run(ops), shares').paths)
  {
    hide Kept, Dropped, PathsCovered, PathsOf;
    var p := Run(ops);
    PathsAreKeyPaths(ops);
    CoveredAddAll(p, shares);
    CoveredAddAll(p, shares');
    var a, a' := AddAll(p, shares), AddAll(p, shares');
    CoveredDrop(a);
    CoveredDrop(a');
    AddedOrder(p, shares, shares');
    forall path ensures Kept(a.keyPaths, a.exposed, path) <==> Kept(a'.keyPaths, a'.exposed, path) {
      KeptByMembers(a.keyPaths, a'.keyPaths, a.exposed, a'.exposed, path);
      KeptByMembers(a'.keyPaths, a.keyPaths, a'.exposed, a.exposed, path);
    }
  }
}
