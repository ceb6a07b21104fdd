/** Exactly when the encoder succeeds, and which error it gives otherwise. */
module EncoderProofs {
  import opened Prelude
  import opened Contents
  import opened Payload
  import opened PaddingSizes
  import opened Container
  import opened ContainerProofs
  import opened CommonPaths
  import opened Secrets
  import opened SecretProofs
  import opened Backup
  import opened Xor
  import CanonicalContainer
  import CompactSize
  import Lex

  // ----- what is asked of the arguments

  predicate GoodItem(item: Item) {
    !item.0.NoContent? && !item.0.Unknown? && 1 <= |item.1| <= U32_MAX
  }

  ghost predicate AllGood(items: seq<Item>) {
    forall item :: item in items ==> GoodItem(item)
  }

  /** The items back to back, before padding. */
  ghost function TextOf(items: seq<Item>): seq<byte>
    requires AllGood(items)
  {
    assert Writable(items) by {
      forall i | 0 <= i < |items| ensures HasBytes(items[i].0) {
        assert items[i] in items;
      }
    }
    Concat(RawItems(items))
  }

  /** `ks` lists the keys that count: each once, in order, without the NUMS point. */
  ghost predicate KeysInOrder(keys: seq<Bytes32>, ks: seq<Bytes32>) {
    Lex.Ascending(ks) && forall k :: k in ks <==> k in keys && k != NUMS_XONLY
  }

  /** `ps` lists the paths that are kept: each once, in order, the common ones only on demand. */
  ghost predicate PathsInOrder(paths: seq<Path>, storeCommon: bool, ps: seq<Path>) {
    && Lex.Ascending(ps)
    && forall p: Path :: p in ps <==> p in paths && (storeCommon || (!IsCommon(0, p) && !IsCommon(1, p)))
  }

  function SlotsOf(crypto: Crypto, secret: Bytes32, ks: seq<Bytes32>): (r: seq<Bytes32>)
    ensures |r| == |ks| && forall i :: 0 <= i < |r| ==> r[i] == Xor32(secret, KeyMask(crypto, ks[i]))
  {
    seq(|ks|, i requires 0 <= i < |ks| => Xor32(secret, KeyMask(crypto, ks[i])))
  }

  /** With the decoys, the secrets are as many as the least count of the ladder that holds them. */
  predicate FillsLadder(slots: nat, decoys: nat) {
    slots + decoys in COUNT_LADDER && forall c :: c in COUNT_LADDER && slots <= c ==> slots + decoys <= c
  }

  ghost predicate DecoysFit(crypto: Crypto, secret: Bytes32, ks: seq<Bytes32>, decoys: seq<Bytes32>) {
    && FillsLadder(|ks|, |decoys|)
    && Lex.Distinct(decoys)
    && forall d :: d in decoys ==> d != ZERO32 && forall k :: k in ks ==> d != Xor32(secret, KeyMask(crypto, k))
  }

  /** The distinct secrets a backup stores. */
  ghost function StoredSecrets(crypto: Crypto, secret: Bytes32, ks: seq<Bytes32>, decoys: seq<Bytes32>): set<Bytes32> {
    (set k | k in ks :: Xor32(secret, KeyMask(crypto, k))) + (set d | d in decoys)
  }

  /** Bytes of a container: magic, version, counted lists, encryption, nonce, length, ciphertext. */
  function ContainerSize(ps: seq<Path>, secrets: nat, ciphertext: usize): nat {
    6 + 1 + (1 + PathsSize(ps)) + (1 + 32 * secrets) + 1 + 12 + |CompactSize.Encode(ciphertext)| + ciphertext
  }

  /** The first reason to refuse before anything is encrypted, for items that are all good. */
  ghost function EarlyRefusal(
    crypto: Crypto, ks: seq<Bytes32>, ps: seq<Path>, items: seq<Item>, padding: Padding, decoys: seq<Bytes32>)
    : Option<Error>
    requires AllGood(items)
  {
    var secret := DecryptionSecret(crypto, ks);
    if items == [] then Some(EmptyBytes)
    else if |TextOf(items)| > ISIZE_MAX then Some(CapacityOverflow)
    else if !FitsPadding(TextOf(items), padding) then Some(Error.Padding)
    else if ks == [] || |ks| > 255 then Some(KeyCount)
    else if |ps| > 255 then Some(DerivPathCount)
    else if exists k :: k in ks && KeyMask(crypto, k) == secret then Some(SecretCollapsed)
    else if !DecoysFit(crypto, secret, ks, decoys) then Some(IndividualSecretsLength)
    else None
  }

  /** Size of the container around what the cipher answers. */
  ghost function SealedSize(
    crypto: Crypto, ks: seq<Bytes32>, ps: seq<Path>, plain: Slice, nonce: Nonce, decoys: seq<Bytes32>): nat
  {
    var secret := DecryptionSecret(crypto, ks);
    match crypto.aeadEncrypt(secret, nonce, plain)
    case None => 0
    case Some(c) => ContainerSize(ps, |StoredSecrets(crypto, secret, ks, decoys)|, |c|)
  }

  /** The first reason to refuse after that; `plain` is the padded text. */
  ghost function LateRefusal(
    crypto: Crypto, ks: seq<Bytes32>, ps: seq<Path>, plain: Slice, nonce: Nonce, decoys: seq<Bytes32>): Option<Error>
  {
    var secret := DecryptionSecret(crypto, ks);
    if [] in ps then Some(DerivPathEmpty)
    else if exists p :: p in ps && |p| > 255 then Some(DerivPathLength)
    else if nonce == ZERO12 then Some(ZeroedNonce)
    else
      match crypto.aeadEncrypt(secret, nonce, plain)
      case None => Some(Encrypt)
      case Some(c) =>
        if c == [] then Some(CypherTextEmpty)
        else if SealedSize(crypto, ks, ps, plain, nonce, decoys) > ISIZE_MAX then Some(CapacityOverflow)
        else None
  }

  /** The first reason to refuse, in the order of the encoder. */
  ghost function Refusal(
    crypto: Crypto, ks: seq<Bytes32>, ps: seq<Path>, items: seq<Item>, padding: Padding, plain: Slice, nonce: Nonce,
    decoys: seq<Bytes32>): Option<Error>
    requires AllGood(items)
  {
    match EarlyRefusal(crypto, ks, ps, items, padding, decoys)
    case Some(e) => Some(e)
    case None => LateRefusal(crypto, ks, ps, plain, nonce, decoys)
  }

  // ----- the payload

  lemma {:induction false} RawPayloadAccepts(items: seq<Item>)
    ensures RawPayload(items).Ok? <==> AllGood(items)
  {
    hide ToBytes;
    if items != [] {
      RawPayloadAccepts(items[1..]);
      assert items == [items[0]] + items[1..];
      assert AllGood(items) <==> GoodItem(items[0]) && AllGood(items[1..]);
    }
  }

  /** The first bad item decides: its data before its content type. */
  lemma {:induction false} FirstBadItem(items: seq<Item>, i: nat)
    requires i < |items| && !GoodItem(items[i]) && forall j :: 0 <= j < i ==> GoodItem(items[j])
    ensures RawPayload(items) ==
            Err(if 1 <= |items[i].1| <= U32_MAX then ContentMetadata else DataLength)
  {
    if i > 0 {
      assert GoodItem(items[0]);
      assert forall j :: 0 <= j < i - 1 ==> items[1..][j] == items[j + 1];
      FirstBadItem(items[1..], i - 1);
    }
  }

  lemma TextNotEmpty(items: seq<Item>)
    requires Writable(items) && items != []
    ensures Concat(RawItems(items)) != []
  {
    hide EncodeItem;
    ConcatHead(RawItems(items));
    ItemStarts(items[0]);
  }

  lemma PayloadOutcome(items: seq<Item>, padding: Padding, plain: Slice)
    requires AllGood(items)
    requires items != [] && FitsPadding(TextOf(items), padding) ==> IsPadded(TextOf(items), padding, plain)
    ensures var text := TextOf(items);
            BuildPayload(items, padding) ==
            if items == [] then Err(EmptyBytes)
            else if |text| > ISIZE_MAX then Err(CapacityOverflow)
            else if !FitsPadding(text, padding) then Err(Error.Padding)
            else Ok(plain)
    ensures items != [] && FitsPadding(TextOf(items), padding) ==> plain != []
  {
    hide Concat, IsPadded, EncodePlaintext;
    RawPayloadAccepts(items);
    RawPayloadIs(items);
    EncodedPlaintext(RawItems(items), padding);
    var r := EncodePlaintext(RawItems(items), padding);
    if r.Ok? {
      PaddedOnce(Concat(RawItems(items)), padding, r.value, plain);
      TextNotEmpty(items);
      PaddedKeeps(Concat(RawItems(items)), padding, plain);
    }
  }

  lemma PaddedKeeps(text: seq<byte>, padding: Padding, plain: seq<byte>)
    requires IsPadded(text, padding, plain)
    ensures |text| <= |plain|
  {
  }

  // ----- the keys and the paths

  lemma KeysAre(keys: seq<Bytes32>, ks: seq<Bytes32>)
    requires KeysInOrder(keys, ks)
    ensures CanonKeys(DropNums(keys)) == ks
  {
    Lex.CanonSameElements(DropNums(keys), ks);
    Lex.CanonFixed(ks);
  }

  lemma PathsAre(paths: seq<Path>, storeCommon: bool, ps: seq<Path>)
    requires PathsInOrder(paths, storeCommon, ps)
    ensures CanonPaths(StoredPaths(paths, storeCommon)) == ps && CanonPaths(ps) == ps
  {
    hide IsCommon, FallbackPaths;
    var stored := StoredPaths(paths, storeCommon);
    forall p: Path ensures p in stored <==> p in ps {
      FallbackAre(p);
    }
    SamePaths(stored, ps);
    Lex.CanonFixed(ps);
  }

  lemma SamePaths(a: seq<Path>, b: seq<Path>)
    requires forall p: Path :: p in a <==> p in b
    ensures Lex.Canon(a) == Lex.Canon(b)
  {
    forall w ensures w in a <==> w in b {
      if w in a {
        var i :| 0 <= i < |a| && a[i] == w;
        assert a[i] in b;
      }
      if w in b {
        var i :| 0 <= i < |b| && b[i] == w;
        assert b[i] in a;
      }
    }
    Lex.CanonSameElements(a, b);
  }

  lemma SealOutcome(
    crypto: Crypto, paths: seq<Path>, storeCommon: bool, keys: seq<Bytes32>, ks: seq<Bytes32>, ps: seq<Path>)
    requires KeysInOrder(keys, ks) && PathsInOrder(paths, storeCommon, ps)
    ensures var secret := DecryptionSecret(crypto, ks);
            SealKeys(crypto, paths, storeCommon, keys) ==
            if ks == [] || |ks| > 255 then Err(KeyCount)
            else if |ps| > 255 then Err(DerivPathCount)
            else if exists k :: k in ks && KeyMask(crypto, k) == secret then Err(SecretCollapsed)
            else Ok(Sealed(ps, secret, SlotsOf(crypto, secret, ks)))
  {
    hide KeysInOrder, PathsInOrder, DecryptionSecret, StoredPaths, DropNums, CanonKeys, CanonPaths, KeyMask;
    KeysAre(keys, ks);
    PathsAre(paths, storeCommon, ps);
    var secret := DecryptionSecret(crypto, ks);
    SecretsDerive(crypto, secret, ks);
    CollapseIsTheError(crypto, secret, ks);
    var r := IndividualSecrets(crypto, secret, ks);
    if r.Ok? {
      assert r.value == SlotsOf(crypto, secret, ks);
    }
  }

  lemma {:induction false} CollapseIsTheError(crypto: Crypto, secret: Bytes32, keys: seq<Bytes32>)
    ensures IndividualSecrets(crypto, secret, keys).Err? ==>
              IndividualSecrets(crypto, secret, keys) == Err(SecretCollapsed)
  {
    hide KeyMask, Xor32;
    if keys != [] {
      CollapseIsTheError(crypto, secret, keys[1..]);
    }
  }

  // ----- the decoys

  lemma PadOutcome(crypto: Crypto, secret: Bytes32, ks: seq<Bytes32>, decoys: seq<Bytes32>)
    requires 1 <= |ks| <= 255
    ensures var slots := SlotsOf(crypto, secret, ks);
            PadWithDecoys(slots, decoys) ==
            if DecoysFit(crypto, secret, ks, decoys) then Ok(slots + decoys) else Err(IndividualSecretsLength)
  {
    hide PadWithDecoys, KeyMask, Xor32, DoublingSize;
    var slots := SlotsOf(crypto, secret, ks);
    PadAccepts(slots, decoys);
    forall d ensures d in slots <==> exists k :: k in ks && d == Xor32(secret, KeyMask(crypto, k)) {
      if d in slots {
        var i :| 0 <= i < |slots| && slots[i] == d;
        assert ks[i] in ks;
      }
      if k :| k in ks && d == Xor32(secret, KeyMask(crypto, k)) {
        var i :| 0 <= i < |ks| && ks[i] == k;
        assert slots[i] == d;
      }
    }
  }

  lemma {:induction false} DistinctCard(s: seq<Bytes32>, elements: set<Bytes32>)
    requires Lex.Distinct(s) && forall x :: x in s <==> x in elements
    ensures |s| == |elements|
  {
    if s == [] {
      assert elements == {};
    } else {
      var n := |s| - 1;
      assert s == s[..n] + [s[n]];
      DistinctCard(s[..n], elements - {s[n]});
    }
  }

  lemma StoredCount(crypto: Crypto, secret: Bytes32, ks: seq<Bytes32>, decoys: seq<Bytes32>)
    ensures |CanonKeys(SlotsOf(crypto, secret, ks) + decoys)| == |StoredSecrets(crypto, secret, ks, decoys)|
  {
    hide KeyMask, Xor32, Lex.Canon;
    var slots := SlotsOf(crypto, secret, ks);
    var stored := CanonKeys(slots + decoys);
    Lex.CanonAscending(slots + decoys);
    AscendingDistinct(stored);
    forall x ensures x in stored <==> x in StoredSecrets(crypto, secret, ks, decoys) {
      if x in slots {
        var i :| 0 <= i < |slots| && slots[i] == x;
        assert ks[i] in ks;
      }
      if k :| k in ks && Xor32(secret, KeyMask(crypto, k)) == x {
        var i :| 0 <= i < |ks| && ks[i] == k;
        assert slots[i] == x;
      }
    }
    DistinctCard(stored, StoredSecrets(crypto, secret, ks, decoys));
  }

  lemma AscendingDistinct(s: seq<Bytes32>)
    requires Lex.Ascending(s)
    ensures Lex.Distinct(s)
  {
    hide Lex.Less;
    forall i, j | 0 <= i < j < |s| ensures s[i] != s[j] {
      Lex.LessIrreflexive(s[i]);
      assert Lex.Less(s[i], s[j]);
    }
  }

  // ----- the container

  lemma FirstPathErrorIs(ps: seq<Path>)
    requires Lex.Ascending(ps)
    ensures FirstPathError(ps) ==
            if [] in ps then Some(DerivPathEmpty)
            else if exists p :: p in ps && |p| > 255 then Some(DerivPathLength)
            else None
  {
    hide Lex.Less;
    if [] in ps {
      EmptyFirst(ps);
    } else {
      NoEmptyPath(ps);
    }
  }

  lemma EmptyFirst(ps: seq<Path>)
    requires Lex.Ascending(ps) && [] in ps
    ensures ps[0] == []
  {
    if ps[0] != [] {
      Lex.LeastFirst(ps, []);
    }
  }

  lemma {:induction false} NoEmptyPath(ps: seq<Path>)
    requires [] !in ps
    ensures FirstPathError(ps) == if exists p :: p in ps && |p| > 255 then Some(DerivPathLength) else None
  {
    if ps != [] {
      assert ps == [ps[0]] + ps[1..];
      assert ps[0] in ps;
      NoEmptyPath(ps[1..]);
    }
  }

  lemma AssembleOutcome(
    crypto: Crypto, ks: seq<Bytes32>, ps: seq<Path>, decoys: seq<Bytes32>, plain: Slice, nonce: Nonce)
    requires Lex.Ascending(ps) && |ps| <= 255 && CanonPaths(ps) == ps
    requires ks != [] && |ks| + |decoys| <= 255 && plain != []
    ensures var secret := DecryptionSecret(crypto, ks);
            var slots := SlotsOf(crypto, secret, ks);
            var r := Assemble(crypto, Sealed(ps, secret, slots), slots + decoys, plain, nonce);
            match LateRefusal(crypto, ks, ps, plain, nonce, decoys)
            case Some(e) => r == Err(e)
            case None =>
              r.Ok? && |r.value| == SealedSize(crypto, ks, ps, plain, nonce, decoys)
  {
    hide CanonPaths, CanonKeys, PathListBytes, SecretListBytes, PathsSize, StoredSecrets, Xor32, KeyMask,
         FirstPathError, DecryptionSecret, CompactSize.Encode;
    var secret := DecryptionSecret(crypto, ks);
    var padded := SlotsOf(crypto, secret, ks) + decoys;
    FirstPathErrorIs(ps);
    StoredCount(crypto, secret, ks, decoys);
    CanonicalContainer.ListSizes(ps, CanonKeys(padded));
    assert padded[0] in CanonKeys(padded);
  }

  lemma EarlyOutcome(
    crypto: Crypto, paths: seq<Path>, storeCommon: bool, items: seq<Item>, keys: seq<Bytes32>, padding: Padding,
    nonce: Nonce, decoys: seq<Bytes32>, ks: seq<Bytes32>, ps: seq<Path>, plain: Slice)
    requires KeysInOrder(keys, ks) && PathsInOrder(paths, storeCommon, ps) && AllGood(items)
    requires items != [] && FitsPadding(TextOf(items), padding) ==> IsPadded(TextOf(items), padding, plain)
    ensures var secret := DecryptionSecret(crypto, ks);
            var slots := SlotsOf(crypto, secret, ks);
            EncryptWithDecoys(crypto, paths, storeCommon, items, keys, padding, nonce, decoys) ==
            match EarlyRefusal(crypto, ks, ps, items, padding, decoys)
            case Some(e) => Err(e)
            case None => Assemble(crypto, Sealed(ps, secret, slots), slots + decoys, plain, nonce)
    ensures EarlyRefusal(crypto, ks, ps, items, padding, decoys).None? ==>
              ks != [] && |ks| + |decoys| <= 255 && |ps| <= 255 && plain != []
  {
    hide KeysInOrder, PathsInOrder, TextOf, FitsPadding, IsPadded, DecryptionSecret, DecoysFit, SlotsOf,
         BuildPayload, SealKeys, PadWithDecoys, Assemble, KeyMask;
    var secret := DecryptionSecret(crypto, ks);
    PayloadOutcome(items, padding, plain);
    SealOutcome(crypto, paths, storeCommon, keys, ks, ps);
    if 1 <= |ks| <= 255 {
      PadOutcome(crypto, secret, ks, decoys);
      if DecoysFit(crypto, secret, ks, decoys) {
        FitsByte(crypto, secret, ks, decoys);
      }
    }
  }

  /**
   The encoder's outcome for every argument: with good items, the first reason to
   refuse is its error, and without any it succeeds, with a container of the size
   its parts add up to.
   */
  lemma EncoderOutcome(
    crypto: Crypto, paths: seq<Path>, storeCommon: bool, items: seq<Item>, keys: seq<Bytes32>, padding: Padding,
    nonce: Nonce, decoys: seq<Bytes32>, ks: seq<Bytes32>, ps: seq<Path>, plain: Slice)
    requires KeysInOrder(keys, ks) && PathsInOrder(paths, storeCommon, ps) && AllGood(items)
    requires items != [] && FitsPadding(TextOf(items), padding) ==> IsPadded(TextOf(items), padding, plain)
    ensures match Refusal(crypto, ks, ps, items, padding, plain, nonce, decoys)
            case Some(e) =>
              EncryptWithDecoys(crypto, paths, storeCommon, items, keys, padding, nonce, decoys) == Err(e)
            case None =>
              var r := EncryptWithDecoys(crypto, paths, storeCommon, items, keys, padding, nonce, decoys);
              r.Ok? && |r.value| == SealedSize(crypto, ks, ps, plain, nonce, decoys)
  {
    hide KeysInOrder, PathsInOrder, TextOf, FitsPadding, IsPadded, DecryptionSecret, StoredSecrets, SlotsOf,
         ContainerSize, EncryptWithDecoys, Assemble, EarlyRefusal, LateRefusal;
    EarlyOutcome(crypto, paths, storeCommon, items, keys, padding, nonce, decoys, ks, ps, plain);
    PathsAre(paths, storeCommon, ps);
    OrderedPaths(paths, storeCommon, ps);
    if EarlyRefusal(crypto, ks, ps, items, padding, decoys).None? {
      AssembleOutcome(crypto, ks, ps, decoys, plain, nonce);
    }
  }

  lemma OrderedPaths(paths: seq<Path>, storeCommon: bool, ps: seq<Path>)
    requires PathsInOrder(paths, storeCommon, ps)
    ensures Lex.Ascending(ps)
  {
  }

  lemma FitsByte(crypto: Crypto, secret: Bytes32, ks: seq<Bytes32>, decoys: seq<Bytes32>)
    requires DecoysFit(crypto, secret, ks, decoys)
    ensures |ks| + |decoys| <= 255
  {
  }

  /** With an item that is not good, the first such item decides, whatever else is wrong. */
  lemma BadItemRefused(
    crypto: Crypto, paths: seq<Path>, storeCommon: bool, items: seq<Item>, keys: seq<Bytes32>, padding: Padding,
    nonce: Nonce, decoys: seq<Bytes32>, i: nat)
    requires i < |items| && !GoodItem(items[i]) && forall j :: 0 <= j < i ==> GoodItem(items[j])
    ensures EncryptWithDecoys(crypto, paths, storeCommon, items, keys, padding, nonce, decoys) ==
            Err(if 1 <= |items[i].1| <= U32_MAX then ContentMetadata else DataLength)
  {
    FirstBadItem(items, i);
  }

  /** Every argument has its ordered keys, its ordered paths, and its padded text. */
  lemma Arguments(keys: seq<Bytes32>, paths: seq<Path>, storeCommon: bool, items: seq<Item>, padding: Padding)
    returns (ks: seq<Bytes32>, ps: seq<Path>, plain: Slice)
    requires AllGood(items)
    ensures KeysInOrder(keys, ks) && PathsInOrder(paths, storeCommon, ps)
    ensures items != [] && FitsPadding(TextOf(items), padding) ==> IsPadded(TextOf(items), padding, plain)
  {
    hide Lex.Canon, IsCommon, FallbackPaths, Concat, IsPadded, FitsPadding;
    Lex.CanonAscending(DropNums(keys));
    ks := CanonKeys(DropNums(keys));
    var kept := StoredPaths(paths, storeCommon);
    Lex.CanonAscending(kept);
    ps := CanonPaths(kept);
    forall p: Path ensures p in ps <==> p in paths && (storeCommon || (!IsCommon(0, p) && !IsCommon(1, p))) {
      FallbackAre(p);
    }
    RawPayloadAccepts(items);
    RawPayloadIs(items);
    EncodedPlaintext(RawItems(items), padding);
    var r := EncodePlaintext(RawItems(items), padding);
    plain := if r.Ok? then r.value else [];
  }

  // ----- drawn nonce and decoys

  lemma {:induction false} AcceptedGrows(secrets: seq<Bytes32>, tape: seq<byte>, m: nat, n: nat)
    requires m <= n && 32 * n <= |tape|
    ensures Accepted(secrets, tape, m) <= Accepted(secrets, tape, n)
  {
    hide Accepted;
    if m < n {
      AcceptedGrows(secrets, tape, m, n - 1);
      AcceptedNext(secrets, tape, n - 1);
    }
  }

  /** Drawing succeeds as soon as the tape holds enough fresh draws. */
  lemma {:induction false} EnoughDraws(secrets: seq<Bytes32>, target: nat, tape: seq<byte>, n: nat)
    requires 32 * n <= |tape| && |secrets| + |Accepted(secrets, tape, n)| >= target
    ensures DrawDecoys(secrets, target, tape).Ok?
    decreases n
  {
    hide Accepted;
    if n == 0 {
      NothingAccepted(secrets, tape);
    } else if |secrets| < target {
      var d: Bytes32 := tape[..32];
      AcceptedShifts(secrets, tape, n - 1);
      if d != ZERO32 && d !in secrets {
        EnoughDraws(secrets + [d], target, tape[32..], n - 1);
      } else {
        EnoughDraws(secrets, target, tape[32..], n - 1);
      }
    }
  }

  lemma DrawnIf(secrets: seq<Bytes32>, target: nat, tape: seq<byte>, n: nat)
    requires 32 * n <= |tape| && |secrets| + |Accepted(secrets, tape, n)| == target
    ensures DrawDecoys(secrets, target, tape).Ok?
    ensures DrawDecoys(secrets, target, tape).value.0 == Accepted(secrets, tape, n)
  {
    hide Accepted, DrawDecoys;
    EnoughDraws(secrets, target, tape, n);
    DrawnAreFresh(secrets, target, tape);
    var m := DrawnAreTheTape(secrets, target, tape);
    if m <= n {
      AcceptedGrows(secrets, tape, m, n);
    } else {
      AcceptedGrows(secrets, tape, n, m);
    }
  }

  /**
   With a random source: it succeeds exactly when the tape gives a nonce and, among
   some number of draws, fresh ones that serve as decoys given by hand.
   */
  lemma RandomOutcome(
    crypto: Crypto, tape: seq<byte>, paths: seq<Path>, storeCommon: bool, items: seq<Item>, keys: seq<Bytes32>,
    padding: Padding, ks: seq<Bytes32>, ps: seq<Path>, plain: Slice)
    requires KeysInOrder(keys, ks) && PathsInOrder(paths, storeCommon, ps) && AllGood(items)
    requires items != [] && FitsPadding(TextOf(items), padding) ==> IsPadded(TextOf(items), padding, plain)
    ensures EncryptRandom(crypto, tape, paths, storeCommon, items, keys, padding).Ok? <==>
            && NonceFrom(tape).Ok?
            && var (nonce, rest) := NonceFrom(tape).value;
               var slots := SlotsOf(crypto, DecryptionSecret(crypto, ks), ks);
               exists n: nat :: 32 * n <= |rest|
                 && Refusal(crypto, ks, ps, items, padding, plain, nonce, Accepted(slots, rest, n)) == None
  {
    hide KeysInOrder, PathsInOrder, TextOf, FitsPadding, IsPadded, DecryptionSecret, StoredSecrets, SlotsOf,
         ContainerSize, BuildPayload, SealKeys, PadWithDecoys, Assemble, KeyMask, Accepted, Refusal,
         DrawDecoys, NonceFrom;
    if NonceFrom(tape).Ok? {
      var (nonce, rest) := NonceFrom(tape).value;
      var secret := DecryptionSecret(crypto, ks);
      var slots := SlotsOf(crypto, secret, ks);
      SealOutcome(crypto, paths, storeCommon, keys, ks, ps);
      if EncryptRandom(crypto, tape, paths, storeCommon, items, keys, padding).Ok? {
        RandomRefinesDecoys(slots, rest);
        var target := DoublingSize(|slots|).value;
        var n := DrawnAreTheTape(slots, target, rest);
        var decoys := Accepted(slots, rest, n);
        EncoderOutcome(crypto, paths, storeCommon, items, keys, padding, nonce, decoys, ks, ps, plain);
        assert Refusal(crypto, ks, ps, items, padding, plain, nonce, Accepted(slots, rest, n)) == None;
      }
      if n: nat :| 32 * n <= |rest|
                   && Refusal(crypto, ks, ps, items, padding, plain, nonce, Accepted(slots, rest, n)) == None
      {
        var decoys := Accepted(slots, rest, n);
        EncoderOutcome(crypto, paths, storeCommon, items, keys, padding, nonce, decoys, ks, ps, plain);
        PadAccepts(slots, decoys);
        DrawnIf(slots, DoublingSize(|slots|).value, rest, n);
        RandomRefinesDecoys(slots, rest);
      }
    }
  }
}
