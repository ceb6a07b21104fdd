/** The derivation paths a decoder tries without being told. */
module CommonPaths {
  import opened Prelude
  import opened Container
  import Lex

  const HARDENED_BIT: u32 := 0x8000_0000
  const COMMON_ACCOUNT_MAX: nat := 9
  const PURPOSES: seq<u32> := [44, 49, 84, 86, 87]

  /** Set the hardened bit. */
  function Hardened(index: u32): u32 {
    if index < HARDENED_BIT then index + HARDENED_BIT else index
  }

  /** The purpose a path starts with, hardened or not; an empty path has none. */
  function FirstIndex(path: Path): Option<u32> {
    if path == [] then None
    else Some(if path[0] < HARDENED_BIT then path[0] else path[0] - HARDENED_BIT)
  }

  function MultisigPath(coin: u32, account: u32, script: u32): Path {
    [Hardened(48), Hardened(coin), Hardened(account), Hardened(script)]
  }

  function AccountPath(purpose: u32, coin: u32, account: u32): Path {
    [Hardened(purpose), Hardened(coin), Hardened(account)]
  }

  function MultisigPaths(coin: u32, n: nat): (r: seq<Path>)
    requires n <= 20
    ensures |r| == n
    ensures forall i :: 0 <= i < n ==> r[i] == MultisigPath(coin, i / 2, 1 + i % 2)
  {
    seq(n, i requires 0 <= i < n => MultisigPath(coin, i / 2, 1 + i % 2))
  }

  function AccountPaths(coin: u32, n: nat): (r: seq<Path>)
    requires n <= 50
    ensures |r| == n
    ensures forall i :: 0 <= i < n ==> r[i] == AccountPath(PURPOSES[i / 10], coin, i % 10)
  {
    seq(n, i requires 0 <= i < n => AccountPath(PURPOSES[i / 10], coin, i % 10))
  }

  /** The common paths of a coin type, in the order they are generated. */
  function CommonDerivationPaths(coin: u32): (r: seq<Path>)
    ensures |r| == 70
  {
    MultisigPaths(coin, 20) + AccountPaths(coin, 50)
  }

  method CommonDerivationPathsLoop(coin: u32) returns (paths: seq<Path>)
    ensures paths == CommonDerivationPaths(coin)
  {
    paths := [];
    for account := 0 to COMMON_ACCOUNT_MAX + 1
      invariant paths == MultisigPaths(coin, 2 * account)
    {
      paths := paths + [MultisigPath(coin, account, 1)];
      paths := paths + [MultisigPath(coin, account, 2)];
    }
    for p := 0 to |PURPOSES|
      invariant paths == MultisigPaths(coin, 20) + AccountPaths(coin, 10 * p)
    {
      for account := 0 to COMMON_ACCOUNT_MAX + 1
        invariant paths == MultisigPaths(coin, 20) + AccountPaths(coin, 10 * p + account)
      {
        paths := paths + [AccountPath(PURPOSES[p], coin, account)];
      }
    }
  }

  /** A path in one of the two shapes, for one coin type. */
  predicate IsCommon(coin: u32, path: Path) {
    || (|path| == 4 && path[0] == Hardened(48) && path[1] == Hardened(coin)
        && Hardened(0) <= path[2] <= Hardened(9) && Hardened(1) <= path[3] <= Hardened(2))
    || (|path| == 3 && FirstIndex(path).value in PURPOSES && path[0] >= HARDENED_BIT
        && path[1] == Hardened(coin) && Hardened(0) <= path[2] <= Hardened(9))
  }

  function NthPath(coin: u32, i: nat): Path
    requires i < 70
  {
    if i < 20 then MultisigPath(coin, i / 2, 1 + i % 2)
    else AccountPath(PURPOSES[(i - 20) / 10], coin, (i - 20) % 10)
  }

  lemma NthIs(coin: u32)
    ensures forall i :: 0 <= i < 70 ==> CommonDerivationPaths(coin)[i] == NthPath(coin, i)
  {
    hide MultisigPath, AccountPath;
  }

  lemma NthInjective(coin: u32, i: nat, j: nat)
    requires i < j < 70
    ensures NthPath(coin, i) != NthPath(coin, j)
  {
    var p, q := NthPath(coin, i), NthPath(coin, j);
    if j < 20 {
      assert p[2] == Hardened(i / 2) && p[3] == Hardened(1 + i % 2);
      assert q[2] == Hardened(j / 2) && q[3] == Hardened(1 + j % 2);
    } else if i < 20 {
      assert |p| != |q|;
    } else {
      var a, b := i - 20, j - 20;
      assert p[0] == Hardened(PURPOSES[a / 10]) && p[2] == Hardened(a % 10);
      assert q[0] == Hardened(PURPOSES[b / 10]) && q[2] == Hardened(b % 10);
      assert a / 10 != b / 10 ==> PURPOSES[a / 10] != PURPOSES[b / 10];
    }
  }

  lemma NthCommon(coin: u32, i: nat)
    requires i < 70
    ensures IsCommon(coin, NthPath(coin, i))
  {
    if i >= 20 {
      assert PURPOSES[(i - 20) / 10] < HARDENED_BIT;
    }
  }

  lemma CommonIndex(coin: u32, p: Path) returns (i: nat)
    requires IsCommon(coin, p)
    ensures i < 70 && NthPath(coin, i) == p
  {
    if |p| == 4 {
      i := 2 * (p[2] - HARDENED_BIT) + (p[3] - HARDENED_BIT) - 1;
    } else {
      var k :| 0 <= k < |PURPOSES| && PURPOSES[k] == FirstIndex(p).value;
      i := 20 + 10 * k + (p[2] - HARDENED_BIT);
    }
  }

  /** The generated list holds exactly the paths of the two shapes, each once. */
  lemma CommonPathsAre(coin: u32)
    ensures forall p: Path :: p in CommonDerivationPaths(coin) <==> IsCommon(coin, p)
    ensures Lex.Distinct(CommonDerivationPaths(coin))
  {
    hide NthPath, IsCommon, CommonDerivationPaths;
    var paths := CommonDerivationPaths(coin);
    NthIs(coin);
    forall p: Path ensures p in paths <==> IsCommon(coin, p) {
      if IsCommon(coin, p) {
        var i := CommonIndex(coin, p);
        assert paths[i] == p;
      }
      if p in paths {
        var i :| 0 <= i < |paths| && paths[i] == p;
        NthCommon(coin, i);
      }
    }
    forall i, j | 0 <= i < j < |paths| ensures paths[i] != paths[j] {
      NthInjective(coin, i, j);
    }
  }

  /** Paths the encoder leaves out: the common ones of both coin types. */
  function FallbackPaths(): seq<Path> {
    CommonDerivationPaths(0) + CommonDerivationPaths(1)
  }

  lemma FallbackAre(path: Path)
    ensures path in FallbackPaths() <==> IsCommon(0, path) || IsCommon(1, path)
  {
    hide IsCommon, CommonDerivationPaths;
    CommonPathsAre(0);
    CommonPathsAre(1);
  }
}
