/**
 BIP-388 wallet policies: a descriptor becomes a template of numbered placeholders
 and a vector of key roots, and comes back.
 */
module WalletPolicies {
  import opened Prelude
  import opened Descriptors
  import opened Trees

  const INDEX_LIMIT: nat := 0x1_0000_0000

  // `@index` with the derivation that follows it.
  datatype Placeholder = Placeholder(index: u32, paths: DerivPaths, wildcard: Wildcard)

  datatype WalletPolicy = WalletPolicy(template: Tree<Placeholder>, keyInfo: seq<DescriptorKey>)

  /** An extended key with neither derivation nor wildcard. */
  function Bare(origin: Option<Origin>, xkey: XKey): DescriptorKey {
    XPub(origin, xkey, [], NoWildcard)
  }

  predicate IsBare(key: DescriptorKey) {
    key.XPub? && key.path == [] && key.wildcard.NoWildcard?
  }

  /** The key information entry of a key expression. */
  function KeyRoot(key: DescriptorKey): Option<DescriptorKey> {
    match key
    case XPub(origin, xkey, _, _) => Some(Bare(origin, xkey))
    case MultiXPub(origin, xkey, _, _) => Some(Bare(origin, xkey))
    case Single(_, _) => None
  }

  /** Derivation paths and wildcard; a key without wildcard has no placeholder. */
  function KeySuffix(key: DescriptorKey): Option<(DerivPaths, Wildcard)> {
    match key
    case XPub(_, _, path, w) => if w.NoWildcard? then None else Some(([path], w))
    case MultiXPub(_, _, paths, w) => if w.NoWildcard? then None else Some((paths, w))
    case Single(_, _) => None
  }

  function AddRoot(keys: seq<DescriptorKey>, key: DescriptorKey): seq<DescriptorKey> {
    match KeyRoot(key)
    case Some(root) => if root in keys then keys else keys + [root]
    case None => keys
  }

  /** Placeholder of a key expression against a key vector; the index is cut to 32 bits. */
  function PlaceholderOf(keys: seq<DescriptorKey>, key: DescriptorKey): Option<Placeholder> {
    match (KeyRoot(key), KeySuffix(key))
    case (Some(root), Some(suffix)) => Some(Placeholder(Position(keys, root) % INDEX_LIMIT, suffix.0, suffix.1))
    case _ => None
  }

  /** The entry a placeholder points at, with the placeholder's own derivation and wildcard. */
  function ResolveKey(keys: seq<DescriptorKey>, p: Placeholder): Option<DescriptorKey> {
    if p.index >= |keys| then None
    else
      match KeyRoot(keys[p.index])
      case None => None
      case Some(root) =>
        if |p.paths| == 1 then Some(XPub(root.origin, root.xkey, p.paths[0], p.wildcard))
        else Some(MultiXPub(root.origin, root.xkey, p.paths, p.wildcard))
  }

  // The key information vector both directions share.
  class KeySet {
    var keys: seq<DescriptorKey>

    constructor (keys: seq<DescriptorKey>)
      ensures this.keys == keys
    {
      this.keys := keys;
    }

    method AddPlaceholder(key: DescriptorKey) returns (r: Option<Placeholder>)
      modifies this
      ensures keys == AddRoot(old(keys), key)
      ensures r == PlaceholderOf(old(keys), key)
    {
      var root := KeyRoot(key);
      if root.None? {
        return None;
      }
      var index := Position(keys, root.value);
      if index == |keys| {
        keys := keys + [root.value];
        index := |keys| - 1;
      }
      var suffix := KeySuffix(key);
      if suffix.None? {
        return None;
      }
      r := Some(Placeholder(index % INDEX_LIMIT, suffix.value.0, suffix.value.1));
    }
  }

  /** The roots of a list of keys, each once, in order of first use. */
  function IndexRoots(keys: seq<DescriptorKey>): seq<DescriptorKey> {
    if keys == [] then []
    else AddRoot(IndexRoots(keys[..|keys| - 1]), keys[|keys| - 1])
  }

  /**
   Whether indices first appear as 0, 1, 2 and so on. The counter is a 32-bit one
   and wraps past the last index.
   */
  function InOrder(ps: seq<Placeholder>, next: u32): bool {
    if ps == [] then true
    else if ps[0].index == next then InOrder(ps[1..], (next + 1) % INDEX_LIMIT)
    else ps[0].index < next && InOrder(ps[1..], next)
  }

  method CheckKeyOrder(ps: seq<Placeholder>) returns (ordered: bool)
    ensures ordered == InOrder(ps, 0)
  {
    var next: u32 := 0;
    for i := 0 to |ps|
      invariant InOrder(ps, 0) == InOrder(ps[i..], next)
    {
      assert ps[i..][0] == ps[i] && ps[i..][1..] == ps[i + 1..];
      if ps[i].index == next {
        next := (next + 1) % INDEX_LIMIT;
      } else if ps[i].index >= next {
        return false;
      }
    }
    return true;
  }

  // An order in which a translator may visit `n` leaves.
  ghost predicate VisitingOrder(order: seq<nat>, n: nat) {
    && (forall i :: 0 <= i < |order| ==> order[i] < n)
    && (forall k :: 0 <= k < n ==> k in order)
  }

  /** Visit leaves in the given order, stopping at the first without a placeholder. */
  function Visit(keys: seq<DescriptorKey>, leaves: seq<DescriptorKey>, order: seq<nat>)
    : (r: Option<(seq<DescriptorKey>, map<nat, Placeholder>)>)
    requires forall i :: 0 <= i < |order| ==> order[i] < |leaves|
    ensures r.Some? ==> forall k :: k in r.value.1 <==> k in order
  {
    if order == [] then Some((keys, map[]))
    else
      var n := |order| - 1;
      assert order == order[..n] + [order[n]];
      match Visit(keys, leaves, order[..n])
      case None => None
      case Some((before, found)) =>
        match PlaceholderOf(before, leaves[order[n]])
        case None => None
        case Some(p) => Some((AddRoot(before, leaves[order[n]]), found[order[n] := p]))
  }

  function FromDescriptor(d: Descriptor, order: seq<nat>): Option<WalletPolicy>
    requires VisitingOrder(order, |Keys(d)|)
  {
    var leaves := Keys(d);
    match Visit(IndexRoots(leaves), leaves, order)
    case None => None
    case Some((keyInfo, found)) =>
      var ps := seq(|leaves|, i requires 0 <= i < |leaves| => found[i]);
      if InOrder(ps, 0) then Some(WalletPolicy(Fill(d, ps), keyInfo)) else None
  }

  method FromDescriptorLoop(d: Descriptor, order: seq<nat>) returns (r: Option<WalletPolicy>)
    requires VisitingOrder(order, |Keys(d)|)
    ensures r == FromDescriptor(d, order)
  {
    hide Fill, InOrder, Keys, PlaceholderOf, KeyRoot;
    var leaves := Keys(d);
    var translator := new KeySet([]);
    for i := 0 to |leaves|
      invariant translator.keys == IndexRoots(leaves[..i])
    {
      assert leaves[..i + 1][..i] == leaves[..i];
      var root := KeyRoot(leaves[i]);
      if root.Some? && root.value !in translator.keys {
        translator.keys := translator.keys + [root.value];
      }
    }
    assert leaves[..|leaves|] == leaves;
    var found: map<nat, Placeholder> := map[];
    for i := 0 to |order|
      invariant Visit(IndexRoots(leaves), leaves, order[..i]) == Some((translator.keys, found))
    {
      assert order[..i + 1][..i] == order[..i];
      var p := translator.AddPlaceholder(leaves[order[i]]);
      if p.None? {
        VisitStops(IndexRoots(leaves), leaves, order, i + 1);
        return None;
      }
      found := found[order[i] := p.value];
    }
    assert order[..|order|] == order;
    var ps := seq(|leaves|, i requires 0 <= i < |leaves| => found[i]);
    var ordered := CheckKeyOrder(ps);
    r := if ordered then Some(WalletPolicy(Fill(d, ps), translator.keys)) else None;
  }

  lemma {:induction false} VisitStops(keys: seq<DescriptorKey>, leaves: seq<DescriptorKey>, order: seq<nat>, n: nat)
    requires n <= |order| && forall i :: 0 <= i < |order| ==> order[i] < |leaves|
    requires Visit(keys, leaves, order[..n]).None?
    ensures Visit(keys, leaves, order).None?
    decreases |order|
  {
    if n == |order| {
      assert order[..n] == order;
    } else {
      var m := |order| - 1;
      assert order[..m][..n] == order[..n];
      VisitStops(keys, leaves, order[..m], n);
    }
  }

  function ResolveAll(keys: seq<DescriptorKey>, ps: seq<Placeholder>): (r: Option<seq<DescriptorKey>>)
    ensures r.Some? ==> |r.value| == |ps|
    ensures r.Some? ==> forall i :: 0 <= i < |ps| ==> ResolveKey(keys, ps[i]) == Some(r.value[i])
    ensures r.None? <==> exists i :: 0 <= i < |ps| && ResolveKey(keys, ps[i]).None?
  {
    if ps == [] then Some([])
    else
      match (ResolveKey(keys, ps[0]), ResolveAll(keys, ps[1..]))
      case (Some(k), Some(ks)) => Some([k] + ks)
      case (None, _) => None
      case (Some(_), None) =>
        assert exists i :: 0 <= i < |ps| && ResolveKey(keys, ps[i]).None? by {
          var i :| 0 <= i < |ps[1..]| && ResolveKey(keys, ps[1..][i]).None?;
          assert ps[i + 1] == ps[1..][i];
        }
        None
  }

  /** Resolving reads the key vector only, so the visiting order does not matter. */
  function IntoDescriptor(p: WalletPolicy): Option<Descriptor> {
    var ps := Keys(p.template);
    if !InOrder(ps, 0) then None
    else
      match ResolveAll(p.keyInfo, ps)
      case None => None
      case Some(keys) => Some(Fill(p.template, keys))
  }
}
