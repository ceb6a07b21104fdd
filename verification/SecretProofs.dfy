/** What the secrets depend on, and where random bytes go. */
module SecretProofs {
  import opened Prelude
  import opened Framing
  import opened Container
  import opened Secrets
  import Lex

  // ----- what is hashed

  /** Two inputs on which the hash does not collide. */
  predicate NoCollision(crypto: Crypto, x: seq<byte>, y: seq<byte>) {
    crypto.sha256(x) == crypto.sha256(y) ==> x == y
  }

  /** The tag's hash twice, then the message (section "Specification" of BIP-340). */
  function Tagged(crypto: Crypto, tag: seq<byte>, message: seq<byte>): seq<byte> {
    crypto.sha256(tag) + crypto.sha256(tag) + message
  }

  /** The shared secret hashes the keys back to back, each once, in ascending order. */
  lemma SecretIs(crypto: Crypto, keys: seq<Bytes32>, sorted: seq<Bytes32>)
    requires Lex.Ascending(sorted) && forall k :: k in sorted <==> k in keys
    ensures DecryptionSecret(crypto, keys) == crypto.sha256(Tagged(crypto, DECRYPTION_SECRET, Flatten(sorted)))
  {
    hide Flatten;
    Lex.CanonSameElements(keys, sorted);
    Lex.CanonFixed(sorted);
  }

  /** A key's mask hashes that key alone, under the other tag. */
  lemma MaskIs(crypto: Crypto, key: Bytes32)
    ensures KeyMask(crypto, key) == crypto.sha256(Tagged(crypto, INDIVIDUAL_SECRET, key))
  {
  }

  lemma {:induction false} FlattenInjective(a: seq<Bytes32>, b: seq<Bytes32>)
    requires Flatten(a) == Flatten(b)
    ensures a == b
    decreases |a| + |b|
  {
    FlattenLength(a);
    FlattenLength(b);
    if a != [] {
      assert Flatten(a)[..32] == a[0] && Flatten(b)[..32] == b[0];
      assert Flatten(a)[32..] == Flatten(a[1..]) && Flatten(b)[32..] == Flatten(b[1..]);
      FlattenInjective(a[1..], b[1..]);
      assert a == [a[0]] + a[1..] == [b[0]] + b[1..] == b;
    }
  }

  lemma {:induction false} FlattenLength(a: seq<Bytes32>)
    ensures |Flatten(a)| == 32 * |a|
  {
    if a != [] {
      FlattenLength(a[1..]);
    }
  }

  lemma TaggedInjective(crypto: Crypto, tag: seq<byte>, x: seq<byte>, y: seq<byte>)
    requires Tagged(crypto, tag, x) == Tagged(crypto, tag, y)
    ensures x == y
  {
    assert Tagged(crypto, tag, x)[64..] == x && Tagged(crypto, tag, y)[64..] == y;
  }

  /**
   Unless the hash collides on the two inputs, two lists of keys share a secret
   exactly when they hold the same keys.
   */
  lemma SecretDependsOnKeys(
    crypto: Crypto, a: seq<Bytes32>, b: seq<Bytes32>, sortedA: seq<Bytes32>, sortedB: seq<Bytes32>)
    requires Lex.Ascending(sortedA) && forall k :: k in sortedA <==> k in a
    requires Lex.Ascending(sortedB) && forall k :: k in sortedB <==> k in b
    requires NoCollision(crypto, Tagged(crypto, DECRYPTION_SECRET, Flatten(sortedA)),
                         Tagged(crypto, DECRYPTION_SECRET, Flatten(sortedB)))
    ensures DecryptionSecret(crypto, a) == DecryptionSecret(crypto, b) <==> forall k :: k in a <==> k in b
  {
    hide Flatten, Tagged;
    SecretIs(crypto, a, sortedA);
    SecretIs(crypto, b, sortedB);
    if DecryptionSecret(crypto, a) == DecryptionSecret(crypto, b) {
      TaggedInjective(crypto, DECRYPTION_SECRET, Flatten(sortedA), Flatten(sortedB));
      FlattenInjective(sortedA, sortedB);
    }
    if forall k :: k in a <==> k in b {
      assert Lex.SameElements(sortedA, sortedB);
      Lex.AscendingUnique(sortedA, sortedB);
    }
  }

  /** Every list of keys has such an ascending list. */
  lemma SortedKeys(keys: seq<Bytes32>) returns (sorted: seq<Bytes32>)
    ensures Lex.Ascending(sorted) && forall k :: k in sorted <==> k in keys
  {
    hide Lex.Canon;
    Lex.CanonAscending(keys);
    sorted := CanonKeys(keys);
  }

  /** Unless the hash collides, different keys have different masks. */
  lemma MaskDependsOnKey(crypto: Crypto, a: Bytes32, b: Bytes32)
    requires NoCollision(crypto, Tagged(crypto, INDIVIDUAL_SECRET, a), Tagged(crypto, INDIVIDUAL_SECRET, b))
    ensures KeyMask(crypto, a) == KeyMask(crypto, b) <==> a == b
  {
    hide Tagged;
    MaskIs(crypto, a);
    MaskIs(crypto, b);
    if KeyMask(crypto, a) == KeyMask(crypto, b) {
      TaggedInjective(crypto, INDIVIDUAL_SECRET, a, b);
    }
  }

  /** Different tags: the secret and a mask hash different inputs, unless the tags' hashes collide. */
  lemma TagsDiffer(crypto: Crypto, x: seq<byte>, y: seq<byte>)
    requires NoCollision(crypto, DECRYPTION_SECRET, INDIVIDUAL_SECRET)
    ensures Tagged(crypto, DECRYPTION_SECRET, x) != Tagged(crypto, INDIVIDUAL_SECRET, y)
  {
    assert Tagged(crypto, DECRYPTION_SECRET, x)[..32] == crypto.sha256(DECRYPTION_SECRET);
    assert Tagged(crypto, INDIVIDUAL_SECRET, y)[..32] == crypto.sha256(INDIVIDUAL_SECRET);
    assert DECRYPTION_SECRET[7] != INDIVIDUAL_SECRET[7];
  }

  // ----- where random bytes go

  /** The nonce is the tape's first 12 bytes, or the next 12 exactly when those are zero. */
  lemma NonceIsFromTape(tape: seq<byte>)
    ensures NonceFrom(tape).Ok? <==> |tape| >= 12 && (tape[..12] != ZERO12 || |tape| >= 24)
    ensures NonceFrom(tape).Ok? ==>
              var (nonce, rest) := NonceFrom(tape).value;
              var start := if tape[..12] == ZERO12 then 12 else 0;
              nonce + rest == tape[start..]
  {
    if NonceFrom(tape).Ok? {
      var start := if tape[..12] == ZERO12 then 12 else 0;
      assert tape[start..] == tape[start..start + 12] + tape[start + 12..];
    }
  }

  /** The first `n` draws of 32 bytes. */
  function Draws(tape: seq<byte>, n: nat): (r: seq<Bytes32>)
    requires 32 * n <= |tape|
    ensures |r| == n
  {
    seq(n, j requires 0 <= j < n => tape[32 * j..32 * (j + 1)])
  }

  /** What padding keeps of a list of draws: those neither zero, nor a secret, nor kept before. */
  function Fresh(secrets: seq<Bytes32>, draws: seq<Bytes32>): seq<Bytes32> {
    if draws == [] then []
    else
      var n := |draws| - 1;
      var before := Fresh(secrets, draws[..n]);
      var d := draws[n];
      if d == ZERO32 || d in secrets || d in before then before else before + [d]
  }

  function Accepted(secrets: seq<Bytes32>, tape: seq<byte>, n: nat): seq<Bytes32>
    requires 32 * n <= |tape|
  {
    Fresh(secrets, Draws(tape, n))
  }

  lemma {:induction false} FreshFirst(secrets: seq<Bytes32>, d: Bytes32, draws: seq<Bytes32>)
    ensures Fresh(secrets, [d] + draws) ==
            if d == ZERO32 || d in secrets then Fresh(secrets, draws) else [d] + Fresh(secrets + [d], draws)
  {
    var all := [d] + draws;
    if draws == [] {
      assert all[..0] == [] && Fresh(secrets, []) == [];
    } else {
      var n := |draws| - 1;
      FreshFirst(secrets, d, draws[..n]);
      assert all[..n + 1] == [d] + draws[..n] && all[n + 1] == draws[n];
    }
  }

  lemma DrawsSplit(tape: seq<byte>, n: nat)
    requires 32 * (n + 1) <= |tape|
    ensures Draws(tape, n + 1) == [tape[..32]] + Draws(tape[32..], n)
    ensures Draws(tape, n + 1)[..n] == Draws(tape, n)
  {
    var rest := tape[32..];
    forall j | 0 <= j < n ensures Draws(tape, n + 1)[j + 1] == Draws(rest, n)[j] {
      assert rest[32 * j..32 * (j + 1)] == tape[32 * (j + 1)..32 * (j + 2)];
    }
  }

  lemma AcceptedShifts(secrets: seq<Bytes32>, tape: seq<byte>, n: nat)
    requires 32 * (n + 1) <= |tape|
    ensures var d: Bytes32 := tape[..32];
            Accepted(secrets, tape, n + 1) ==
            if d == ZERO32 || d in secrets then Accepted(secrets, tape[32..], n)
            else [d] + Accepted(secrets + [d], tape[32..], n)
  {
    hide Fresh, Draws;
    DrawsSplit(tape, n);
    FreshFirst(secrets, tape[..32], Draws(tape[32..], n));
  }

  lemma NothingAccepted(secrets: seq<Bytes32>, tape: seq<byte>)
    ensures Accepted(secrets, tape, 0) == []
  {
  }

  lemma AcceptedNext(secrets: seq<Bytes32>, tape: seq<byte>, n: nat)
    requires 32 * (n + 1) <= |tape|
    ensures Accepted(secrets, tape, n) <= Accepted(secrets, tape, n + 1)
  {
    hide Draws;
    DrawsSplit(tape, n);
  }

  lemma DrawOne(secrets: seq<Bytes32>, target: nat, tape: seq<byte>)
    requires |secrets| < target && |tape| >= 32
    ensures var d: Bytes32 := tape[..32];
            var r := DrawDecoys(secrets, target, tape);
            if d == ZERO32 || d in secrets then r == DrawDecoys(secrets, target, tape[32..])
            else
              match DrawDecoys(secrets + [d], target, tape[32..])
              case Ok((more, rest)) => r == Ok(([d] + more, rest))
              case Err(e) => r == Err(e)
  {
  }

  lemma DrawNone(secrets: seq<Bytes32>, target: nat, tape: seq<byte>)
    ensures |secrets| >= target ==> DrawDecoys(secrets, target, tape) == Ok(([], tape))
    ensures |secrets| < target && |tape| < 32 ==> DrawDecoys(secrets, target, tape).Err?
  {
  }

  /** Random padding keeps, in order, exactly the fresh draws of the tape, and no more draws than it needs. */
  lemma {:induction false} DrawnAreTheTape(secrets: seq<Bytes32>, target: nat, tape: seq<byte>) returns (n: nat)
    requires DrawDecoys(secrets, target, tape).Ok?
    ensures 32 * n <= |tape|
    ensures DrawDecoys(secrets, target, tape).value == (Accepted(secrets, tape, n), tape[32 * n..])
    ensures n > 0 ==> |secrets| + |Accepted(secrets, tape, n - 1)| < target
    decreases |tape|
  {
    hide Accepted, DrawDecoys;
    n := 0;
    NothingAccepted(secrets, tape);
    DrawNone(secrets, target, tape);
    assert tape[0..] == tape;
    if |secrets| < target {
      var d: Bytes32 := tape[..32];
      var rest := tape[32..];
      DrawOne(secrets, target, tape);
      if d == ZERO32 || d in secrets {
        n := DrawnAreTheTape(secrets, target, rest);
      } else {
        n := DrawnAreTheTape(secrets + [d], target, rest);
      }
      AcceptedShifts(secrets, tape, n);
      assert rest[32 * n..] == tape[32 * (n + 1)..];
      if n > 0 {
        AcceptedShifts(secrets, tape, n - 1);
      }
      n := n + 1;
    }
  }
}
