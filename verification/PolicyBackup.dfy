/** Backup documents holding wallet policies, and why seeding encryption from them is safe. */
module PolicyBackups {
  import opened Prelude
  import opened Descriptors
  import opened Trees
  import opened WalletPolicies
  import opened WalletPolicyProofs
  import Lex

  const VERSION: u32 := 1

  // The policy text: empty, not a template, or the tree it spells out.
  datatype PolicyText = Empty | Malformed | Template(tree: Tree<Placeholder>)

  datatype PolicySet = PolicySet(
    keys: seq<DescriptorKey>, policy: PolicyText,
    archived: bool, range: Option<(u32, u32)>, birthTime: Option<u64>)

  datatype PolicyBackup = PolicyBackup(version: u32, sets: seq<PolicySet>)

  /** A placeholder without wildcard does not parse. */
  function ParseTemplate(text: PolicyText): Option<Tree<Placeholder>> {
    match text
    case Template(tree) => if HasWildcards(Keys(tree)) then Some(tree) else None
    case _ => None
  }

  predicate HasWildcards(ps: seq<Placeholder>) {
    forall i :: 0 <= i < |ps| ==> !ps[i].wildcard.NoWildcard?
  }

  function SetDescriptor(s: PolicySet): Option<Descriptor> {
    match ParseTemplate(s.policy)
    case Some(tree) => IntoDescriptor(WalletPolicy(tree, s.keys))
    case None => None
  }

  predicate IsLiteral(key: DescriptorKey) {
    Classify(key).Literal?
  }

  predicate ValidSet(s: PolicySet) {
    && s.keys != [] && s.policy != Empty
    && (forall i :: 0 <= i < |s.keys| ==> !IsLiteral(s.keys[i]))
    && SetDescriptor(s).Some?
  }

  predicate Valid(b: PolicyBackup) {
    b.version == VERSION && b.sets != [] && forall i :: 0 <= i < |b.sets| ==> ValidSet(b.sets[i])
  }

  method Validate(b: PolicyBackup) returns (ok: bool)
    ensures ok == Valid(b)
  {
    if b.version != VERSION || b.sets == [] {
      return false;
    }
    for i := 0 to |b.sets|
      invariant forall j :: 0 <= j < i ==> ValidSet(b.sets[j])
    {
      var s := b.sets[i];
      if s.keys == [] || s.policy == Empty {
        return false;
      }
      for k := 0 to |s.keys|
        invariant forall j :: 0 <= j < k ==> !IsLiteral(s.keys[j])
      {
        if IsLiteral(s.keys[k]) {
          return false;
        }
      }
      if SetDescriptor(s).None? {
        return false;
      }
    }
    return true;
  }

  function AllKeys(sets: seq<PolicySet>): (r: seq<DescriptorKey>)
    ensures forall k :: k in r <==> exists i :: 0 <= i < |sets| && k in sets[i].keys
  {
    if sets == [] then []
    else
      assert forall i :: 0 < i < |sets| ==> sets[i] == sets[1..][i - 1];
      assert forall i :: 0 <= i < |sets| - 1 ==> sets[1..][i] == sets[i + 1];
      sets[0].keys + AllKeys(sets[1..])
  }

  /** Keys seeding encryption; none from a document that does not validate. */
  function SeedKeys(b: PolicyBackup): Option<seq<PublicKey>> {
    if Valid(b) then Some(CanonPublicKeys(FilterMap(RootKey, AllKeys(b.sets)))) else None
  }

  method SeedKeysLoop(b: PolicyBackup) returns (r: Option<seq<PublicKey>>)
    ensures r == SeedKeys(b)
  {
    hide Valid;
    var ok := Validate(b);
    if !ok {
      return None;
    }
    var all := AllKeys(b.sets);
    var keys: seq<PublicKey> := [];
    for i := 0 to |all|
      invariant keys == CanonPublicKeys(FilterMap(RootKey, all[..i]))
    {
      FilterMapNext(RootKey, all, i);
      var before := FilterMap(RootKey, all[..i]);
      match RootKey(all[i]) {
        case Some(pk) =>
          assert (before + [pk])[..|before|] == before;
          keys := InsertPublicKey(keys, pk);
        case None =>
          assert before + [] == before;
      }
    }
    assert all[..|all|] == all;
    r := Some(keys);
  }

  function InsertPublicKey(keys: seq<PublicKey>, key: PublicKey): seq<PublicKey> {
    var r := Lex.Insert(keys, key);
    assert forall i :: 0 <= i < |r| ==> r[i] in keys || r[i] == key;
    r
  }

  /** The policy set of a descriptor, without metadata. */
  function SetOf(d: Descriptor, order: seq<nat>): Option<PolicySet>
    requires VisitingOrder(order, |Keys(d)|)
  {
    match FromDescriptor(d, order)
    case Some(p) => Some(PolicySet(p.keyInfo, Template(p.template), false, None, None))
    case None => None
  }

  // ----- what validation buys

  lemma ResolvedIsDerived(info: seq<DescriptorKey>, p: Placeholder)
    requires ResolveKey(info, p).Some? && !p.wildcard.NoWildcard?
    ensures var k := ResolveKey(info, p).value;
            && Classify(k).Extended? && Classify(k).derived
            && p.index < |info| && RootKey(info[p.index]) == EncryptionKey(k) != None
  {
  }

  /**
   Every key of the descriptor a validated set spells is derived: nothing of it is
   exposed, none is disallowed, and its encrypting roots all seed the encryption.
   */
  lemma ValidatedExposesNothing(b: PolicyBackup, i: nat)
    requires Valid(b) && i < |b.sets|
    ensures SetDescriptor(b.sets[i]).Some? && SeedKeys(b).Some?
    ensures var keys := Keys(SetDescriptor(b.sets[i]).value);
            && (forall j :: 0 <= j < |keys| ==> EncryptionKey(keys[j]).Some?)
            && ExposedKeys(keys) == []
            && (forall w :: w in DescriptorWarnings(keys) ==> w.NumsKey?)
            && (forall pk :: pk in EncryptionRoots(keys) ==> pk in SeedKeys(b).value)
  {
    hide ResolveKey, InOrder, Fill, Keys, EncryptionKey, RootKey, Classify;
    assert ValidSet(b.sets[i]);
    var s := b.sets[i];
    var tree := ParseTemplate(s.policy).value;
    var ps := Keys(tree);
    var keys := ResolveAll(s.keys, ps).value;
    KeysFill(tree, keys);
    assert Keys(SetDescriptor(s).value) == keys;
    forall j | 0 <= j < |keys|
      ensures EncryptionKey(keys[j]).Some?
      ensures exists k :: k in s.keys && RootKey(k) == EncryptionKey(keys[j])
    {
      ResolvedIsDerived(s.keys, ps[j]);
      assert s.keys[ps[j].index] in s.keys;
    }
    NothingExposed(keys);
    forall pk | pk in EncryptionRoots(keys) ensures pk in SeedKeys(b).value {
      var k :| k in EncryptingKeys(keys) && EncryptionKey(k) == Some(pk);
      var j :| 0 <= j < |keys| && keys[j] == k;
      var root :| root in s.keys && RootKey(root) == EncryptionKey(keys[j]);
      assert root in AllKeys(b.sets);
    }
  }

  lemma NothingExposed(keys: seq<DescriptorKey>)
    requires forall j :: 0 <= j < |keys| ==> EncryptionKey(keys[j]).Some?
    ensures ExposedKeys(keys) == []
    ensures forall w :: w in DescriptorWarnings(keys) ==> w.NumsKey?
  {
    forall k | k in keys ensures ExposedKey(k).None? && (WarningOf(k).Some? ==> WarningOf(k).value.NumsKey?) {
      var j :| 0 <= j < |keys| && keys[j] == k;
      assert EncryptionKey(keys[j]).Some?;
    }
    FilterMapNone(ExposedKey, keys);
  }

  lemma {:induction false} FilterMapNone<A(!new), B(!new)>(f: A -> Option<B>, s: seq<A>)
    requires forall x :: x in s ==> f(x).None?
    ensures FilterMap(f, s) == []
  {
    if s != [] {
      FilterMapNone(f, s[..|s| - 1]);
      assert s[|s| - 1] in s;
    }
  }

  /** A descriptor made into a policy set comes back, and its set validates. */
  lemma SetRoundTrip(d: Descriptor, order: seq<nat>)
    requires VisitingOrder(order, |Keys(d)|) && |IndexRoots(Keys(d))| < INDEX_LIMIT
    requires AllConvertible(Keys(d)) && Keys(d) != []
    ensures SetOf(d, order).Some? && ValidSet(SetOf(d, order).value)
    ensures SetDescriptor(SetOf(d, order).value) == Some(d) <==> AllReversible(Keys(d))
  {
    hide FromDescriptor, IntoDescriptor, Fill, IndexRoots, Keys, Reversible;
    PolicyInverts(d, order);
    ConvertResult(d, order);
    var leaves := Keys(d);
    KeysFill(d, NumberAll(leaves));
    forall i | 0 <= i < |leaves| ensures !Numbered(leaves, leaves[i]).wildcard.NoWildcard? {
      NumberedWildcard(leaves, i);
    }
    RootsBare(leaves);
    SuffixHasRoot(leaves[0]);
    RootsHold(leaves, 0);
    var info := IndexRoots(leaves);
    forall i | 0 <= i < |info| ensures !IsLiteral(info[i]) {
      assert IsBare(info[i]);
    }
  }

  lemma NumberedWildcard(keys: seq<DescriptorKey>, i: nat)
    requires i < |keys| && Convertible(keys[i])
    ensures !Numbered(keys, keys[i]).wildcard.NoWildcard?
  {
  }

  /**
   Validation, spelled out: version 1, some sets, each with extended keys only and a
   template whose placeholders have wildcards, first appear in order, and find their keys.
   */
  lemma ValidatesExactly(b: PolicyBackup)
    ensures Valid(b) <==>
            && b.version == 1 && b.sets != []
            && forall s :: s in b.sets ==>
                 && s.keys != [] && (forall k :: k in s.keys ==> !k.Single?)
                 && s.policy.Template?
                 && var ps := Keys(s.policy.tree);
                    && InOrder(ps, 0)
                    && forall p :: p in ps ==> !p.wildcard.NoWildcard? && p.index < |s.keys|
  {
    hide InOrder, Keys, Fill, ResolveAll, Valid;
    forall s ensures ValidSet(s) <==>
                     && s.keys != [] && (forall k :: k in s.keys ==> !k.Single?)
                     && s.policy.Template?
                     && var ps := Keys(s.policy.tree);
                        && InOrder(ps, 0)
                        && forall p :: p in ps ==> !p.wildcard.NoWildcard? && p.index < |s.keys|
    {
      ValidSetExactly(s);
    }
    ValidIsEach(b);
  }

  lemma ValidIsEach(b: PolicyBackup)
    ensures Valid(b) <==> b.version == 1 && b.sets != [] && forall s :: s in b.sets ==> ValidSet(s)
  {
    hide ValidSet;
  }

  lemma LiteralIsSingle(k: DescriptorKey)
    ensures IsLiteral(k) <==> k.Single?
    ensures KeyRoot(k).Some? <==> !k.Single?
  {
  }

  lemma ValidSetExactly(s: PolicySet)
    ensures ValidSet(s) <==>
            && s.keys != [] && (forall k :: k in s.keys ==> !k.Single?)
            && s.policy.Template?
            && var ps := Keys(s.policy.tree);
               && InOrder(ps, 0)
               && forall p :: p in ps ==> !p.wildcard.NoWildcard? && p.index < |s.keys|
  {
    hide InOrder, Keys, Fill, IsLiteral, KeyRoot;
    forall k ensures IsLiteral(k) <==> k.Single? {
      LiteralIsSingle(k);
    }
    if s.policy.Template? && forall k :: k in s.keys ==> !k.Single? {
      var ps := Keys(s.policy.tree);
      forall i | 0 <= i < |ps|
        ensures ResolveKey(s.keys, ps[i]).Some? <==> ps[i].index < |s.keys|
      {
        if ps[i].index < |s.keys| {
          LiteralIsSingle(s.keys[ps[i].index]);
          assert s.keys[ps[i].index] in s.keys;
        }
      }
      assert HasWildcards(ps) <==> forall p :: p in ps ==> !p.wildcard.NoWildcard?;
    }
  }
}
