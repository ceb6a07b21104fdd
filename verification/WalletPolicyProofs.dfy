/** The two translations of a wallet policy undo each other, and exactly when. */
module WalletPolicyProofs {
  import opened Prelude
  import opened Container
  import opened Descriptors
  import opened Trees
  import opened WalletPolicies
  import Lex

  predicate Convertible(key: DescriptorKey) {
    KeySuffix(key).Some?
  }

  /** A multipath expression with a single path comes back as a plain one. */
  predicate Reversible(key: DescriptorKey) {
    key.MultiXPub? ==> |key.paths| >= 2
  }

  ghost predicate AllConvertible(keys: seq<DescriptorKey>) {
    forall i :: 0 <= i < |keys| ==> Convertible(keys[i])
  }

  ghost predicate AllReversible(keys: seq<DescriptorKey>) {
    forall i :: 0 <= i < |keys| ==> Reversible(keys[i])
  }

  // ----- the key vector

  lemma {:induction false} RootsGrow(keys: seq<DescriptorKey>, i: nat)
    requires i <= |keys|
    ensures IndexRoots(keys[..i]) <= IndexRoots(keys)
    decreases |keys| - i
  {
    if i == |keys| {
      assert keys[..i] == keys;
    } else {
      RootsGrow(keys, i + 1);
      assert keys[..i + 1][..i] == keys[..i];
    }
  }

  lemma {:induction false} RootsDistinct(keys: seq<DescriptorKey>)
    ensures Lex.Distinct(IndexRoots(keys))
  {
    if keys != [] { RootsDistinct(keys[..|keys| - 1]); }
  }

  lemma {:induction false} RootsHold(keys: seq<DescriptorKey>, i: nat)
    requires i < |keys| && KeyRoot(keys[i]).Some?
    ensures KeyRoot(keys[i]).value in IndexRoots(keys)
  {
    var n := |keys| - 1;
    if i < n {
      RootsHold(keys[..n], i);
    }
  }

  lemma {:induction false} RootsBare(keys: seq<DescriptorKey>)
    ensures forall r :: r in IndexRoots(keys) ==> IsBare(r)
    ensures |IndexRoots(keys)| <= |keys|
  {
    if keys != [] { RootsBare(keys[..|keys| - 1]); }
  }

  lemma PositionInPrefix(a: seq<DescriptorKey>, b: seq<DescriptorKey>, root: DescriptorKey)
    requires a <= b && root in a && Lex.Distinct(b)
    ensures Position(b, root) == Position(a, root) < |a|
  {
    var i := Position(a, root);
    assert b[i] == root;
    assert root in b;
  }

  // ----- descriptor to policy

  /** The placeholder every visiting order gives a key. */
  function Numbered(keys: seq<DescriptorKey>, key: DescriptorKey): Placeholder
    requires Convertible(key)
  {
    PlaceholderOf(IndexRoots(keys), key).value
  }

  function NumberAll(keys: seq<DescriptorKey>): (r: seq<Placeholder>)
    requires AllConvertible(keys)
    ensures |r| == |keys|
    ensures forall i :: 0 <= i < |r| ==> r[i] == Numbered(keys, keys[i])
  {
    seq(|keys|, i requires 0 <= i < |keys| => Numbered(keys, keys[i]))
  }

  /** With all roots indexed beforehand, visiting leaves the vector alone. */
  lemma {:induction false} VisitResult(leaves: seq<DescriptorKey>, order: seq<nat>)
    requires forall i :: 0 <= i < |order| ==> order[i] < |leaves|
    ensures Visit(IndexRoots(leaves), leaves, order).Some?
            <==> forall i :: 0 <= i < |order| ==> Convertible(leaves[order[i]])
    ensures Visit(IndexRoots(leaves), leaves, order).Some? ==>
              var (keys, found) := Visit(IndexRoots(leaves), leaves, order).value;
              && keys == IndexRoots(leaves)
              && forall k :: k in order ==> Convertible(leaves[k]) && found[k] == Numbered(leaves, leaves[k])
    decreases |order|
  {
    hide IndexRoots, KeySuffix, KeyRoot;
    if order != [] {
      var n := |order| - 1;
      var k := order[n];
      VisitResult(leaves, order[..n]);
      assert order == order[..n] + [k];
      if Visit(IndexRoots(leaves), leaves, order[..n]).Some? {
        VisitOne(leaves, k);
      }
    }
  }

  lemma VisitOne(leaves: seq<DescriptorKey>, k: nat)
    requires k < |leaves|
    ensures PlaceholderOf(IndexRoots(leaves), leaves[k]).Some? <==> Convertible(leaves[k])
    ensures AddRoot(IndexRoots(leaves), leaves[k]) == IndexRoots(leaves)
  {
    if KeyRoot(leaves[k]).Some? { RootsHold(leaves, k); }
  }

  /** Numbering by first use passes the order check. */
  lemma {:induction false} NumberedInOrder(keys: seq<DescriptorKey>, i: nat)
    requires AllConvertible(keys) && i <= |keys| && |IndexRoots(keys)| < INDEX_LIMIT
    ensures |IndexRoots(keys[..i])| <= |IndexRoots(keys)|
    ensures InOrder(NumberAll(keys)[i..], |IndexRoots(keys[..i])|)
    decreases |keys| - i
  {
    hide KeyRoot, KeySuffix, IndexRoots, Numbered;
    RootsGrow(keys, i);
    if i < |keys| {
      NumberedInOrder(keys, i + 1);
      var ps := NumberAll(keys);
      assert ps[i..][0] == ps[i] && ps[i..][1..] == ps[i + 1..];
      NextIndex(keys, i);
    }
  }

  lemma IndexNext(keys: seq<DescriptorKey>, i: nat)
    requires i < |keys|
    ensures IndexRoots(keys[..i + 1]) == AddRoot(IndexRoots(keys[..i]), keys[i])
  {
    hide AddRoot;
    assert keys[..i + 1][..i] == keys[..i];
  }

  lemma NextIndex(keys: seq<DescriptorKey>, i: nat)
    requires i < |keys| && Convertible(keys[i]) && |IndexRoots(keys)| < INDEX_LIMIT
    ensures var index := Numbered(keys, keys[i]).index;
            var next, next' := |IndexRoots(keys[..i])|, |IndexRoots(keys[..i + 1])|;
            || (index == next && next' == next + 1)
            || (index < next && next' == next)
  {
    hide IndexRoots, KeySuffix;
    SuffixHasRoot(keys[i]);
    var root := KeyRoot(keys[i]).value;
    var before, after := IndexRoots(keys[..i]), IndexRoots(keys[..i + 1]);
    IndexNext(keys, i);
    RootsGrow(keys, i + 1);
    RootsDistinct(keys);
    RootsHold(keys[..i + 1], i);
    PositionInPrefix(after, IndexRoots(keys), root);
    if root in before {
      RootsGrow(keys, i);
      PositionInPrefix(before, IndexRoots(keys), root);
    } else {
      assert after[|before|] == root;
    }
  }

  /** What converting a descriptor gives, whatever the visiting order. */
  lemma ConvertResult(d: Descriptor, order: seq<nat>)
    requires VisitingOrder(order, |Keys(d)|) && |IndexRoots(Keys(d))| < INDEX_LIMIT
    ensures FromDescriptor(d, order) ==
            if AllConvertible(Keys(d))
            then Some(WalletPolicy(Fill(d, NumberAll(Keys(d))), IndexRoots(Keys(d)))) else None
  {
    hide IndexRoots, Numbered, InOrder, Fill, Keys;
    var leaves := Keys(d);
    VisitResult(leaves, order);
    var visited := Visit(IndexRoots(leaves), leaves, order);
    if AllConvertible(leaves) {
      assert visited.Some?;
      var found := visited.value.1;
      assert seq(|leaves|, i requires 0 <= i < |leaves| => found[i]) == NumberAll(leaves);
      NumberedInOrder(leaves, 0);
      assert leaves[..0] == [] && NumberAll(leaves)[0..] == NumberAll(leaves);
      NoRoots();
    } else {
      var k :| 0 <= k < |leaves| && !Convertible(leaves[k]);
      assert k in order;
      var i :| 0 <= i < |order| && order[i] == k;
      assert !Convertible(leaves[order[i]]);
    }
  }

  lemma NoRoots()
    ensures IndexRoots([]) == []
  {
  }

  // ----- and back

  lemma ResolveNumbered(keys: seq<DescriptorKey>, i: nat)
    requires AllConvertible(keys) && i < |keys| && |IndexRoots(keys)| < INDEX_LIMIT
    ensures ResolveKey(IndexRoots(keys), Numbered(keys, keys[i])).Some?
    ensures ResolveKey(IndexRoots(keys), Numbered(keys, keys[i])) == Some(keys[i]) <==> Reversible(keys[i])
  {
    hide IndexRoots;
    assert Convertible(keys[i]);
    SuffixHasRoot(keys[i]);
    RootsHold(keys, i);
    RootsBare(keys);
    var roots := IndexRoots(keys);
    var root := KeyRoot(keys[i]).value;
    var index := Position(roots, root);
    assert index < |roots| && roots[index] == root && index % INDEX_LIMIT == index;
    ResolveRoot(roots, keys[i], index);
  }

  lemma ResolveRoot(roots: seq<DescriptorKey>, key: DescriptorKey, index: u32)
    requires Convertible(key) && index < |roots| && Some(roots[index]) == KeyRoot(key)
    ensures var suffix := KeySuffix(key).value;
            var resolved := ResolveKey(roots, Placeholder(index, suffix.0, suffix.1));
            resolved.Some? && (resolved == Some(key) <==> Reversible(key))
  {
  }

  /**
   Inversion: conversion succeeds exactly when every key is an extended one with a
   wildcard, the same in every visiting order, and comes back to the same descriptor
   exactly when no multipath expression has a single path.
   */
  lemma PolicyInverts(d: Descriptor, order: seq<nat>)
    requires VisitingOrder(order, |Keys(d)|) && |IndexRoots(Keys(d))| < INDEX_LIMIT
    ensures FromDescriptor(d, order).Some? <==> AllConvertible(Keys(d))
    ensures FromDescriptor(d, order).Some? ==> IntoDescriptor(FromDescriptor(d, order).value).Some?
    ensures FromDescriptor(d, order).Some? ==>
              (IntoDescriptor(FromDescriptor(d, order).value) == Some(d) <==> AllReversible(Keys(d)))
  {
    hide IndexRoots, Numbered, InOrder, Fill, Keys, ResolveKey, FromDescriptor, Reversible;
    ConvertResult(d, order);
    var leaves := Keys(d);
    if AllConvertible(leaves) {
      var ps, roots := NumberAll(leaves), IndexRoots(leaves);
      KeysFill(d, ps);
      NumberedInOrder(leaves, 0);
      assert leaves[..0] == [] && ps[0..] == ps;
      NoRoots();
      forall i | 0 <= i < |leaves|
        ensures ResolveKey(roots, ps[i]).Some?
        ensures ResolveKey(roots, ps[i]) == Some(leaves[i]) <==> Reversible(leaves[i])
      {
        ResolveNumbered(leaves, i);
      }
      var back := ResolveAll(roots, ps).value;
      FillFill(d, ps, back);
      FillKeys(d);
      KeysFill(d, back);
      assert back == leaves <==> AllReversible(leaves);
    }
  }

  /** Such an expression: it converts, the policy resolves, and what comes back is another descriptor. */
  lemma SinglePathIsLost(origin: Option<Origin>, xkey: XKey, path: Path)
    ensures var key := MultiXPub(origin, xkey, [path], Unhardened);
            var d: Descriptor := Leaf(key);
            && VisitingOrder([0], |Keys(d)|)
            && FromDescriptor(d, [0]).Some?
            && IntoDescriptor(FromDescriptor(d, [0]).value).Some?
            && IntoDescriptor(FromDescriptor(d, [0]).value).value != d
  {
    hide FromDescriptor, IntoDescriptor;
    var d: Descriptor := Leaf(MultiXPub(origin, xkey, [path], Unhardened));
    assert Keys(d) == [d.key];
    assert 0 in [0];
    RootsBare(Keys(d));
    PolicyInverts(d, [0]);
    assert !Reversible(Keys(d)[0]);
  }

  /** Two visiting orders never disagree. */
  lemma OrderDoesNotMatter(d: Descriptor, order: seq<nat>, order': seq<nat>)
    requires VisitingOrder(order, |Keys(d)|) && VisitingOrder(order', |Keys(d)|)
    requires |IndexRoots(Keys(d))| < INDEX_LIMIT
    ensures FromDescriptor(d, order) == FromDescriptor(d, order')
  {
    hide FromDescriptor;
    ConvertResult(d, order);
    ConvertResult(d, order');
  }

  // ----- policy to descriptor and back

  // A template as the parser leaves it: every placeholder has a wildcard.
  ghost predicate Parsed(ps: seq<Placeholder>) {
    forall i :: 0 <= i < |ps| ==> !ps[i].wildcard.NoWildcard?
  }

  ghost predicate Uses(ps: seq<Placeholder>, index: nat) {
    exists i :: 0 <= i < |ps| && ps[i].index == index
  }

  // Key information as the format asks for it.
  ghost predicate ProperKeyInfo(p: WalletPolicy) {
    && Lex.Distinct(p.keyInfo)
    && (forall j :: 0 <= j < |p.keyInfo| ==> IsBare(p.keyInfo[j]))
    && (forall j :: 0 <= j < |p.keyInfo| ==> Uses(Keys(p.template), j))
  }

  /** How far the indices of a prefix reach, when they are in order. */
  function Reached(ps: seq<Placeholder>): nat {
    if ps == [] then 0
    else
      var before := Reached(ps[..|ps| - 1]);
      if ps[|ps| - 1].index == before then before + 1 else before
  }

  lemma InOrderStep(ps: seq<Placeholder>, next: u32)
    requires ps != [] && InOrder(ps, next)
    ensures InOrder(ps[1..], if ps[0].index == next then (next + 1) % INDEX_LIMIT else next)
  {
  }

  lemma {:induction false} InOrderReaches(ps: seq<Placeholder>, i: nat)
    requires i <= |ps| && InOrder(ps, 0) && |ps| < INDEX_LIMIT
    ensures Reached(ps[..i]) <= i && InOrder(ps[i..], Reached(ps[..i]))
  {
    hide InOrder;
    if i == 0 {
      assert ps[0..] == ps;
    } else {
      InOrderReaches(ps, i - 1);
      InOrderStep(ps[i - 1..], Reached(ps[..i - 1]));
      assert ps[..i][..i - 1] == ps[..i - 1];
      assert ps[i - 1..][0] == ps[i - 1] && ps[i - 1..][1..] == ps[i..];
    }
  }

  lemma {:induction false} ReachedIndices(ps: seq<Placeholder>, i: nat)
    requires i <= |ps| && InOrder(ps, 0) && |ps| < INDEX_LIMIT
    ensures forall j :: 0 <= j < i ==> ps[j].index < Reached(ps[..i])
    ensures forall n :: 0 <= n < Reached(ps[..i]) ==> Uses(ps[..i], n)
  {
    hide InOrder;
    if i > 0 {
      ReachedIndices(ps, i - 1);
      InOrderReaches(ps, i - 1);
      assert ps[..i][..i - 1] == ps[..i - 1];
      NextInOrder(ps, i - 1);
      var m := Reached(ps[..i - 1]);
      forall n | 0 <= n < Reached(ps[..i]) ensures Uses(ps[..i], n) {
        if n < m {
          assert Uses(ps[..i - 1], n);
          var j :| 0 <= j < |ps[..i - 1]| && ps[..i - 1][j].index == n;
          assert ps[..i][j].index == n;
        } else {
          assert ps[..i][i - 1].index == n;
        }
      }
    }
  }

  lemma NextInOrder(ps: seq<Placeholder>, i: nat)
    requires i < |ps| && InOrder(ps, 0) && |ps| < INDEX_LIMIT
    ensures ps[i].index <= Reached(ps[..i])
    ensures Reached(ps[..i + 1]) == if ps[i].index == Reached(ps[..i]) then Reached(ps[..i]) + 1 else Reached(ps[..i])
  {
    InOrderReaches(ps, i);
    assert ps[i..][0] == ps[i];
    assert ps[..i + 1][..i] == ps[..i];
  }

  /** Resolved keys use the vector's entries in order, so indexing them rebuilds it. */
  lemma {:induction false} RootsOfResolved(
    info: seq<DescriptorKey>, ps: seq<Placeholder>, keys: seq<DescriptorKey>, i: nat)
    requires i <= |ps| == |keys| < INDEX_LIMIT && InOrder(ps, 0)
    requires forall j :: 0 <= j < |ps| ==> ResolveKey(info, ps[j]) == Some(keys[j])
    requires Lex.Distinct(info) && forall j :: 0 <= j < |info| ==> IsBare(info[j])
    ensures Reached(ps[..i]) <= |info| && IndexRoots(keys[..i]) == info[..Reached(ps[..i])]
  {
    hide InOrder, Reached, ResolveKey, KeyRoot;
    if i == 0 {
      NoRoots();
      assert ps[..0] == [] && keys[..0] == [];
      assert Reached([]) == 0 by { NothingReached(); }
      assert info[..0] == [];
    } else {
      RootsOfResolved(info, ps, keys, i - 1);
      NextInOrder(ps, i - 1);
      var m, p := Reached(ps[..i - 1]), ps[i - 1];
      assert keys[..i][..i - 1] == keys[..i - 1];
      ResolvedRoot(info, p);
      AddResolved(info, m, p.index);
    }
  }

  lemma NothingReached()
    ensures Reached([]) == 0
  {
  }

  lemma ResolvedRoot(info: seq<DescriptorKey>, p: Placeholder)
    requires ResolveKey(info, p).Some? && p.index < |info| ==> IsBare(info[p.index])
    ensures ResolveKey(info, p).Some? ==>
              p.index < |info| && KeyRoot(ResolveKey(info, p).value) == Some(info[p.index])
  {
  }

  lemma AddResolved(info: seq<DescriptorKey>, m: nat, index: nat)
    requires index <= m <= |info| && index < |info| && Lex.Distinct(info)
    ensures (if info[index] in info[..m] then info[..m] else info[..m] + [info[index]])
            == info[..if index == m then m + 1 else m]
  {
    if index < m {
      assert info[..m][index] == info[index];
    } else {
      assert info[index] !in info[..m];
    }
  }

  lemma ResolvedSuffix(info: seq<DescriptorKey>, p: Placeholder)
    requires ResolveKey(info, p).Some? && !p.wildcard.NoWildcard?
    ensures KeySuffix(ResolveKey(info, p).value) == Some((p.paths, p.wildcard))
  {
    assert |p.paths| == 1 ==> [p.paths[0]] == p.paths;
  }

  /** Converting the resolved keys numbers them as the template did. */
  lemma ResolvedNumbered(info: seq<DescriptorKey>, ps: seq<Placeholder>, keys: seq<DescriptorKey>)
    requires |ps| == |keys| < INDEX_LIMIT && InOrder(ps, 0) && Parsed(ps)
    requires forall j :: 0 <= j < |ps| ==> ResolveKey(info, ps[j]) == Some(keys[j])
    requires Lex.Distinct(info) && forall j :: 0 <= j < |info| ==> IsBare(info[j])
    requires forall n :: 0 <= n < |info| ==> Uses(ps, n)
    ensures IndexRoots(keys) == info
    ensures AllConvertible(keys) && NumberAll(keys) == ps
  {
    hide IndexRoots, InOrder, Reached, ResolveKey, PlaceholderOf, KeySuffix, IsBare, Uses;
    RootsOfResolved(info, ps, keys, |ps|);
    ReachedIndices(ps, |ps|);
    assert ps[..|ps|] == ps && keys[..|ps|] == keys;
    assert info[..Reached(ps)] == info by { AllReached(info, ps); }
    forall i | 0 <= i < |ps| ensures Convertible(keys[i]) && PlaceholderOf(info, keys[i]) == Some(ps[i]) {
      NumberedBack(info, ps[i]);
    }
  }

  lemma NumberedBack(info: seq<DescriptorKey>, p: Placeholder)
    requires ResolveKey(info, p).Some? && !p.wildcard.NoWildcard?
    requires Lex.Distinct(info) && forall j :: 0 <= j < |info| ==> IsBare(info[j])
    ensures var key := ResolveKey(info, p).value;
            Convertible(key) && PlaceholderOf(info, key) == Some(p)
  {
    ResolvedSuffix(info, p);
    ResolvedRoot(info, p);
    hide ResolveKey, KeyRoot, KeySuffix, IsBare;
    assert Position(info, info[p.index]) == p.index;
  }

  lemma AllReached(info: seq<DescriptorKey>, ps: seq<Placeholder>)
    requires Reached(ps) <= |info| && InOrder(ps, 0) && |ps| < INDEX_LIMIT
    requires forall n :: 0 <= n < |info| ==> Uses(ps, n)
    ensures Reached(ps) == |info|
  {
    ReachedIndices(ps, |ps|);
    assert ps[..|ps|] == ps;
    assert Reached(ps) < |info| ==> Uses(ps, Reached(ps));
  }

  /**
   The other direction: a parsed template that resolves is converted back to the
   same policy exactly when its key vector is bare roots, each once and each used.
   */
  lemma PolicyRoundTrip(p: WalletPolicy, order: seq<nat>)
    requires IntoDescriptor(p).Some? && Parsed(Keys(p.template)) && |Keys(p.template)| < INDEX_LIMIT
    requires VisitingOrder(order, |Keys(p.template)|)
    ensures |Keys(IntoDescriptor(p).value)| == |Keys(p.template)|
    ensures FromDescriptor(IntoDescriptor(p).value, order) == Some(p) <==> ProperKeyInfo(p)
  {
    hide IndexRoots, InOrder, Fill, Keys, ResolveKey, FromDescriptor, Visit;
    var ps := Keys(p.template);
    var keys := ResolveAll(p.keyInfo, ps).value;
    var d := IntoDescriptor(p).value;
    KeysFill(p.template, keys);
    RootsBare(keys);
    ConvertResult(d, order);
    if ProperKeyInfo(p) {
      ResolvedNumbered(p.keyInfo, ps, keys);
      FillFill(p.template, keys, ps);
      FillKeys(p.template);
    }
    if FromDescriptor(d, order) == Some(p) {
      KeysFill(d, NumberAll(keys));
      RootsDistinct(keys);
      AllRootsNumbered(keys);
    }
  }

  lemma AllRootsNumbered(keys: seq<DescriptorKey>)
    requires AllConvertible(keys) && |keys| < INDEX_LIMIT
    ensures forall j :: 0 <= j < |IndexRoots(keys)| ==> Uses(NumberAll(keys), j)
  {
    hide KeyRoot, KeySuffix, IndexRoots;
    RootsBare(keys);
    RootsDistinct(keys);
    forall j | 0 <= j < |IndexRoots(keys)| ensures Uses(NumberAll(keys), j) {
      var i := RootUsed(keys, j);
      assert Position(IndexRoots(keys), IndexRoots(keys)[j]) == j;
      assert NumberAll(keys)[i].index == j by { SuffixHasRoot(keys[i]); }
    }
  }

  lemma SuffixHasRoot(key: DescriptorKey)
    ensures KeySuffix(key).Some? ==> KeyRoot(key).Some?
  {
  }

  lemma {:induction false} RootUsed(keys: seq<DescriptorKey>, j: nat) returns (i: nat)
    requires j < |IndexRoots(keys)|
    ensures i < |keys| && KeyRoot(keys[i]) == Some(IndexRoots(keys)[j])
  {
    var n := |keys| - 1;
    if j < |IndexRoots(keys[..n])| {
      i := RootUsed(keys[..n], j);
    } else {
      i := n;
    }
  }
}
