/** Secret derivation, masking, and the padding of the secret set with decoys. */
module Secrets {
  import opened Prelude
  import opened Framing
  import opened PaddingSizes
  import opened Container
  import opened Xor
  import Lex

  // The primitives the caller supplies.
  datatype Crypto = Crypto(
    sha256: seq<byte> -> Bytes32,
    aeadEncrypt: (Bytes32, Nonce, Slice) -> Option<Slice>,
    aeadDecrypt: (Bytes32, Nonce, Slice) -> Option<Slice>)

  // "BIP138_DECRYPTION_SECRET" and "BIP138_INDIVIDUAL_SECRET".
  const DECRYPTION_SECRET: seq<byte> :=
    [0x42, 0x49, 0x50, 0x31, 0x33, 0x38, 0x5F, 0x44, 0x45, 0x43, 0x52, 0x59, 0x50, 0x54, 0x49, 0x4F,
     0x4E, 0x5F, 0x53, 0x45, 0x43, 0x52, 0x45, 0x54]
  const INDIVIDUAL_SECRET: seq<byte> :=
    [0x42, 0x49, 0x50, 0x31, 0x33, 0x38, 0x5F, 0x49, 0x4E, 0x44, 0x49, 0x56, 0x49, 0x44, 0x55, 0x41,
     0x4C, 0x5F, 0x53, 0x45, 0x43, 0x52, 0x45, 0x54]

  function TaggedHash(crypto: Crypto, tag: seq<byte>, bytes: seq<byte>): Bytes32 {
    var tagHash := crypto.sha256(tag);
    crypto.sha256(tagHash + tagHash + bytes)
  }

  /** The secret depends on the set of keys only. */
  function DecryptionSecret(crypto: Crypto, keys: seq<Bytes32>): Bytes32 {
    TaggedHash(crypto, DECRYPTION_SECRET, Flatten(CanonKeys(keys)))
  }

  method DecryptionSecretLoop(crypto: Crypto, keys: seq<Bytes32>) returns (secret: Bytes32)
    ensures secret == DecryptionSecret(crypto, keys)
  {
    var canon := CanonKeys(keys);
    var bytes: seq<byte> := [];
    for i := 0 to |canon|
      invariant bytes == Flatten(canon[..i])
    {
      FlattenAppend(canon[..i], canon[i]);
      assert canon[..i + 1] == canon[..i] + [canon[i]];
      bytes := bytes + canon[i];
    }
    assert canon[..|canon|] == canon;
    secret := TaggedHash(crypto, DECRYPTION_SECRET, bytes);
  }

  /** The mask of a key. */
  function KeyMask(crypto: Crypto, key: Bytes32): Bytes32 {
    TaggedHash(crypto, INDIVIDUAL_SECRET, key)
  }

  function IndividualSecret(crypto: Crypto, secret: Bytes32, key: Bytes32): Result<Bytes32> {
    var ci := Xor32(secret, KeyMask(crypto, key));
    if ci == ZERO32 then Err(SecretCollapsed) else Ok(ci)
  }

  function IndividualSecrets(crypto: Crypto, secret: Bytes32, keys: seq<Bytes32>): (r: Result<seq<Bytes32>>)
    ensures r.Ok? ==> |r.value| == |keys|
    ensures r.Ok? ==> forall i :: 0 <= i < |keys| ==> r.value[i] == Xor32(secret, KeyMask(crypto, keys[i]))
  {
    if keys == [] then Ok([])
    else
      var first :- IndividualSecret(crypto, secret, keys[0]);
      var rest :- IndividualSecrets(crypto, secret, keys[1..]);
      Ok([first] + rest)
  }

  /** Deriving the secrets fails exactly when the secret collides with a mask. */
  lemma {:induction false} SecretsDerive(crypto: Crypto, secret: Bytes32, keys: seq<Bytes32>)
    ensures IndividualSecrets(crypto, secret, keys).Ok? <==> forall k :: k in keys ==> KeyMask(crypto, k) != secret
    ensures IndividualSecrets(crypto, secret, keys).Ok? ==> ZERO32 !in IndividualSecrets(crypto, secret, keys).value
  {
    hide KeyMask, Xor32;
    if keys != [] {
      XorZero(secret, KeyMask(crypto, keys[0]));
      SecretsDerive(crypto, secret, keys[1..]);
      assert keys == [keys[0]] + keys[1..];
    }
  }

  // ----- decoys

  function AddDecoys(secrets: seq<Bytes32>, decoys: seq<Bytes32>): Result<seq<Bytes32>>
    decreases |decoys|
  {
    if decoys == [] then Ok(secrets)
    else if decoys[0] == ZERO32 || decoys[0] in secrets then Err(IndividualSecretsLength)
    else AddDecoys(secrets + [decoys[0]], decoys[1..])
  }

  function PadWithDecoys(secrets: seq<Bytes32>, decoys: seq<Bytes32>): Result<seq<Bytes32>> {
    var target :- DoublingSize(|secrets|);
    if |decoys| != target - |secrets| then Err(IndividualSecretsLength)
    else AddDecoys(secrets, decoys)
  }

  method PadWithDecoysLoop(secrets: seq<Bytes32>, decoys: seq<Bytes32>) returns (r: Result<seq<Bytes32>>)
    ensures r == PadWithDecoys(secrets, decoys)
  {
    var bucket := DoublingBucket(|secrets|);
    var target :- bucket;
    if |decoys| != target - |secrets| {
      return Err(IndividualSecretsLength);
    }
    var padded := secrets;
    for i := 0 to |decoys|
      invariant AddDecoys(secrets, decoys) == AddDecoys(padded, decoys[i..])
    {
      assert decoys[i..][1..] == decoys[i + 1..];
      if decoys[i] == ZERO32 || decoys[i] in padded {
        return Err(IndividualSecretsLength);
      }
      padded := padded + [decoys[i]];
    }
    r := Ok(padded);
  }

  /** Decoys the padding takes: none zero, none repeated, none a real secret. */
  ghost predicate FreshDecoys(secrets: seq<Bytes32>, decoys: seq<Bytes32>) {
    && Lex.Distinct(decoys)
    && forall d :: d in decoys ==> d != ZERO32 && d !in secrets
  }

  lemma {:induction false} AddDecoysAccepts(secrets: seq<Bytes32>, decoys: seq<Bytes32>)
    ensures AddDecoys(secrets, decoys) ==
            if FreshDecoys(secrets, decoys) then Ok(secrets + decoys) else Err(IndividualSecretsLength)
    decreases |decoys|
  {
    if decoys == [] {
      assert secrets + [] == secrets;
    } else {
      var head, tail := decoys[0], decoys[1..];
      assert decoys == [head] + tail;
      AddDecoysAccepts(secrets + [head], tail);
      assert secrets + decoys == (secrets + [head]) + tail;
      assert FreshDecoys(secrets, decoys) <==>
             head != ZERO32 && head !in secrets && FreshDecoys(secrets + [head], tail) by {
        FreshHead(secrets, head, tail);
      }
    }
  }

  lemma FreshHead(secrets: seq<Bytes32>, head: Bytes32, tail: seq<Bytes32>)
    ensures FreshDecoys(secrets, [head] + tail) <==>
            head != ZERO32 && head !in secrets && FreshDecoys(secrets + [head], tail)
  {
    var all := [head] + tail;
    assert forall i :: 0 <= i < |tail| ==> all[i + 1] == tail[i];
    assert all[0] == head;
    if FreshDecoys(secrets, all) {
      assert head in all;
      forall i, j | 0 <= i < j < |tail| ensures tail[i] != tail[j] {
        assert all[i + 1] != all[j + 1];
      }
      forall d | d in tail ensures d != ZERO32 && d !in secrets + [head] {
        var i :| 0 <= i < |tail| && tail[i] == d;
        assert all[0] != all[i + 1] && all[i + 1] in all;
      }
    }
    if head != ZERO32 && head !in secrets && FreshDecoys(secrets + [head], tail) {
      assert head in secrets + [head];
      forall i, j | 0 <= i < j < |all| ensures all[i] != all[j] {
        assert all[j] == tail[j - 1];
        if i > 0 { assert all[i] == tail[i - 1]; }
      }
    }
  }

  /** Exactly when padding with given decoys succeeds, and with what. */
  lemma PadAccepts(secrets: seq<Bytes32>, decoys: seq<Bytes32>)
    ensures PadWithDecoys(secrets, decoys) ==
            if |secrets| <= U8_MAX && |secrets| + |decoys| == DoublingSize(|secrets|).value
               && FreshDecoys(secrets, decoys)
            then Ok(secrets + decoys) else Err(IndividualSecretsLength)
  {
    hide FreshDecoys;
    AddDecoysAccepts(secrets, decoys);
  }

  lemma DistinctPermutation(a: seq<Bytes32>, b: seq<Bytes32>)
    requires multiset(a) == multiset(b) && Lex.Distinct(a)
    ensures Lex.Distinct(b)
  {
    forall i, j | 0 <= i < j < |b| ensures b[i] != b[j] {
      if b[i] == b[j] {
        Twice(b, i, j);
        OnlyOnce(a, b[i]);
      }
    }
  }

  lemma Twice(s: seq<Bytes32>, i: nat, j: nat)
    requires i < j < |s| && s[i] == s[j]
    ensures multiset(s)[s[i]] >= 2
  {
    var x := s[i];
    assert s == s[..j] + s[j..];
    assert x in s[..j] by { assert s[..j][i] == x; }
    assert x in s[j..] by { assert s[j..][0] == x; }
    assert multiset(s) == multiset(s[..j]) + multiset(s[j..]);
  }

  lemma {:induction false} OnlyOnce(s: seq<Bytes32>, x: Bytes32)
    requires Lex.Distinct(s)
    ensures multiset(s)[x] <= 1
  {
    if s != [] {
      OnlyOnce(s[1..], x);
      assert s == [s[0]] + s[1..];
      if s[0] == x {
        assert x !in s[1..];
        assert x !in multiset(s[1..]);
      }
    }
  }

  /** The order of the decoys decides neither acceptance nor the encoded set. */
  lemma DecoyOrder(secrets: seq<Bytes32>, decoys: seq<Bytes32>, decoys': seq<Bytes32>)
    requires multiset(decoys) == multiset(decoys')
    ensures var r, r' := PadWithDecoys(secrets, decoys), PadWithDecoys(secrets, decoys');
            if r.Ok? then r'.Ok? && EncodeIndividualSecrets(r.value) == EncodeIndividualSecrets(r'.value)
            else r == r'
  {
    PadAccepts(secrets, decoys);
    PadAccepts(secrets, decoys');
    assert |decoys| == |multiset(decoys)| == |decoys'|;
    SameMembers(decoys, decoys');
    if Lex.Distinct(decoys) { DistinctPermutation(decoys, decoys'); }
    if Lex.Distinct(decoys') { DistinctPermutation(decoys', decoys); }
    Lex.CanonSameElements(secrets + decoys, secrets + decoys');
  }

  lemma SameMembers<T>(a: seq<T>, b: seq<T>)
    requires multiset(a) == multiset(b)
    ensures forall x :: x in a <==> x in b
  {
    forall x ensures x in a <==> x in b {
      assert x in a <==> x in multiset(a);
      assert x in b <==> x in multiset(b);
    }
  }

  // ----- random decoys

  /** Decoys accepted from a tape of random bytes, and what is left of the tape. */
  function DrawDecoys(secrets: seq<Bytes32>, target: nat, tape: seq<byte>): (r: Result<(seq<Bytes32>, seq<byte>)>)
    decreases |tape|
  {
    if |secrets| >= target then Ok(([], tape))
    else if |tape| < 32 then Err(RngBlocked)
    else
      var decoy: Bytes32 := tape[..32];
      if decoy != ZERO32 && decoy !in secrets then
        var rest :- DrawDecoys(secrets + [decoy], target, tape[32..]);
        Ok(([decoy] + rest.0, rest.1))
      else DrawDecoys(secrets, target, tape[32..])
  }

  function PadRandom(secrets: seq<Bytes32>, tape: seq<byte>): Result<seq<Bytes32>> {
    var target :- DoublingSize(|secrets|);
    var drawn :- DrawDecoys(secrets, target, tape);
    Ok(secrets + drawn.0)
  }

  function Appended(secrets: seq<Bytes32>, drawn: Result<(seq<Bytes32>, seq<byte>)>): Result<seq<Bytes32>> {
    match drawn
    case Ok((decoys, _)) => Ok(secrets + decoys)
    case Err(e) => Err(e)
  }

  /** One draw, accepted or not, leaves the outcome the same. */
  lemma AppendedNext(secrets: seq<Bytes32>, target: nat, tape: seq<byte>)
    requires |secrets| < target && |tape| >= 32
    ensures var decoy: Bytes32 := tape[..32];
            var next := if decoy != ZERO32 && decoy !in secrets then secrets + [decoy] else secrets;
            Appended(next, DrawDecoys(next, target, tape[32..])) == Appended(secrets, DrawDecoys(secrets, target, tape))
  {
    var decoy: Bytes32 := tape[..32];
    if decoy != ZERO32 && decoy !in secrets {
      var rest := DrawDecoys(secrets + [decoy], target, tape[32..]);
      if rest.Ok? {
        assert secrets + ([decoy] + rest.value.0) == (secrets + [decoy]) + rest.value.0;
      }
    }
  }

  // A random source reading from a tape; it blocks at the end of it.
  class Rng {
    var tape: seq<byte>

    constructor (tape: seq<byte>)
      ensures this.tape == tape
    {
      this.tape := tape;
    }

    method FillBytes(n: nat) returns (buf: Result<seq<byte>>)
      modifies this
      ensures buf.Ok? <==> n <= |old(tape)|
      ensures buf.Ok? ==> buf.value == old(tape)[..n] && tape == old(tape)[n..]
      ensures buf.Err? ==> buf.error == RngBlocked && tape == old(tape)
    {
      if |tape| < n {
        return Err(RngBlocked);
      }
      buf := Ok(tape[..n]);
      tape := tape[n..];
    }

    /** At most two draws: a zero nonce is drawn again, once. */
    method DrawNonce() returns (r: Result<Nonce>)
      modifies this
      ensures match NonceFrom(old(tape))
              case Ok((nonce, rest)) => r == Ok(nonce) && tape == rest
              case Err(e) => r == Err(e)
    {
      var nonce: Nonce := ZERO12;
      var k := 0;
      while k < 2
        invariant 0 <= k <= 2
        invariant k == 0 ==> tape == old(tape)
        invariant k >= 1 ==> |old(tape)| >= 12 && old(tape)[..12] == ZERO12
        invariant k == 1 ==> tape == old(tape)[12..]
        invariant k == 2 ==> NonceFrom(old(tape)) == Ok((nonce, tape))
      {
        assert k == 1 && |tape| >= 12 ==> tape[..12] == old(tape)[12..24] && tape[12..] == old(tape)[24..];
        var buf := FillBytes(12);
        nonce :- buf;
        k := k + 1;
        if nonce != ZERO12 {
          break;
        }
      }
      r := Ok(nonce);
    }

    method PadIndividualSecrets(secrets: seq<Bytes32>) returns (r: Result<seq<Bytes32>>)
      modifies this
      ensures r == PadRandom(secrets, old(tape))
    {
      var bucket := DoublingBucket(|secrets|);
      var target :- bucket;
      var padded := secrets;
      assert Appended(secrets, DrawDecoys(secrets, target, tape)) == PadRandom(secrets, tape);
      while |padded| < target
        invariant Appended(padded, DrawDecoys(padded, target, tape)) == PadRandom(secrets, old(tape))
        decreases |tape|
      {
        if |tape| >= 32 { AppendedNext(padded, target, tape); }
        var buf := FillBytes(32);
        var decoy: Bytes32 :- buf;
        if decoy != ZERO32 && decoy !in padded {
          padded := padded + [decoy];
        }
      }
      assert padded + [] == padded;
      r := Ok(padded);
    }
  }

  function NonceFrom(tape: seq<byte>): Result<(Nonce, seq<byte>)> {
    if |tape| < 12 then Err(RngBlocked)
    else if tape[..12] != ZERO12 then Ok((tape[..12], tape[12..]))
    else if |tape| < 24 then Err(RngBlocked)
    else Ok((tape[12..24], tape[24..]))
  }

  /** What is drawn is fresh, and exactly as much as was asked for. */
  lemma {:induction false} DrawnAreFresh(secrets: seq<Bytes32>, target: nat, tape: seq<byte>)
    requires DrawDecoys(secrets, target, tape).Ok?
    ensures var drawn := DrawDecoys(secrets, target, tape).value.0;
            FreshDecoys(secrets, drawn) && |drawn| == if |secrets| < target then target - |secrets| else 0
    decreases |tape|
  {
    if |secrets| < target {
      var decoy: Bytes32 := tape[..32];
      if decoy != ZERO32 && decoy !in secrets {
        DrawnAreFresh(secrets + [decoy], target, tape[32..]);
        FreshHead(secrets, decoy, DrawDecoys(secrets + [decoy], target, tape[32..]).value.0);
      } else {
        DrawnAreFresh(secrets, target, tape[32..]);
      }
    }
  }

  /** Random padding is deterministic padding with the draws it accepted. */
  lemma RandomRefinesDecoys(secrets: seq<Bytes32>, tape: seq<byte>)
    requires PadRandom(secrets, tape).Ok?
    ensures var drawn := DrawDecoys(secrets, DoublingSize(|secrets|).value, tape).value.0;
            && PadRandom(secrets, tape) == Ok(secrets + drawn)
            && PadWithDecoys(secrets, drawn) == PadRandom(secrets, tape)
  {
    DrawnAreFresh(secrets, DoublingSize(|secrets|).value, tape);
    PadAccepts(secrets, DrawDecoys(secrets, DoublingSize(|secrets|).value, tape).value.0);
  }

  /** The COUNT byte of distinct secrets is the least count of the ladder that holds them. */
  lemma PaddedCount(secrets: seq<Bytes32>, decoys: seq<Bytes32>)
    requires Lex.Distinct(secrets) && PadWithDecoys(secrets, decoys).Ok?
    ensures var encoded := EncodeIndividualSecrets(PadWithDecoys(secrets, decoys).value);
            && encoded.Ok?
            && encoded.value[0] in COUNT_LADDER && |secrets| <= encoded.value[0]
            && forall c :: c in COUNT_LADDER && |secrets| <= c ==> encoded.value[0] <= c
  {
    hide PadWithDecoys, Lex.Canon, DoublingSize;
    PadAccepts(secrets, decoys);
    var padded := secrets + decoys;
    assert Lex.Distinct(padded) by {
      forall i, j | 0 <= i < j < |padded| ensures padded[i] != padded[j] {
        if i < |secrets| <= j { assert decoys[j - |secrets|] !in secrets; }
      }
    }
    Lex.CanonLength(padded);
    assert |CanonKeys(padded)| == DoublingSize(|secrets|).value;
  }
}
