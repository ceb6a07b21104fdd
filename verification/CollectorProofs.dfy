/** The plan visits every useful path once, in the promised order; no stored path is lost. */
module CollectorProofs {
  import opened Prelude
  import opened Contents
  import opened Payload
  import opened PaddingSizes
  import opened Container
  import opened CommonPaths
  import opened Secrets
  import opened Backup
  import opened EndToEnd
  import opened Collector
  import Lex

  // Rank first, then the path itself: the order a stable sort of an ordered map leaves.
  function RankWord(req: Request, kind: DeviceKind, path: Path): Lex.Word {
    Rank(req, kind, path) + path
  }

  ghost predicate Precedes(req: Request, kind: DeviceKind, p: Path, q: Path) {
    Lex.Less(RankWord(req, kind, p), RankWord(req, kind, q))
  }

  ghost predicate Ordered(req: Request, kind: DeviceKind, paths: seq<Path>) {
    forall i, j :: 0 <= i < j < |paths| ==> Precedes(req, kind, paths[i], paths[j])
  }

  lemma {:induction false} LessThree(a: Lex.Word, b: Lex.Word, p: Lex.Word, q: Lex.Word)
    requires |a| == |b|
    ensures Lex.Less(a, b) ==> Lex.Less(a + p, b + q)
    ensures a == b && Lex.Less(p, q) ==> Lex.Less(a + p, b + q)
  {
    if a == [] {
      assert a + p == p && b + q == q;
    } else {
      LessThree(a[1..], b[1..], p, q);
      assert (a + p)[1..] == a[1..] + p && (b + q)[1..] == b[1..] + q;
    }
  }

  lemma PrecedesTransitive(req: Request, kind: DeviceKind, p: Path, q: Path, r: Path)
    requires Precedes(req, kind, p, q) && Precedes(req, kind, q, r)
    ensures Precedes(req, kind, p, r)
  {
    Lex.LessTransitive(RankWord(req, kind, p), RankWord(req, kind, q), RankWord(req, kind, r));
  }

  /** A path larger than all the earlier ones finds its place among them. */
  lemma {:induction false} InsertOrdered(req: Request, kind: DeviceKind, sorted: seq<Path>, path: Path)
    requires Ordered(req, kind, sorted)
    requires forall q :: q in sorted ==> Lex.Less(q, path)
    ensures Ordered(req, kind, InsertStable(req, kind, sorted, path))
  {
    hide Rank, Precedes;
    if sorted != [] {
      var n := |sorted| - 1;
      var last := sorted[n];
      var init := sorted[..n];
      if Lex.Less(Rank(req, kind, path), Rank(req, kind, last)) {
        RankPrecedes(req, kind, path, last);
        assert forall q :: q in init ==> q in sorted;
        InsertOrdered(req, kind, init, path);
        var head := InsertStable(req, kind, init, path);
        forall j | 0 <= j < |head| ensures Precedes(req, kind, head[j], last) {
          assert head[j] in head;
          if head[j] != path {
            var i :| 0 <= i < n && init[i] == head[j];
            assert sorted[i] == head[j];
          }
        }
        AppendOrdered(req, kind, head, last);
      } else {
        NotBelow(req, kind, path, last);
        forall i | 0 <= i < |sorted| ensures Precedes(req, kind, sorted[i], path) {
          if i < n {
            PrecedesTransitive(req, kind, sorted[i], last, path);
          }
        }
        AppendOrdered(req, kind, sorted, path);
      }
    }
  }

  lemma RankPrecedes(req: Request, kind: DeviceKind, p: Path, q: Path)
    requires Lex.Less(Rank(req, kind, p), Rank(req, kind, q))
    ensures Precedes(req, kind, p, q)
  {
    hide Lex.Less, Rank;
    LessThree(Rank(req, kind, p), Rank(req, kind, q), p, q);
  }

  lemma NotBelow(req: Request, kind: DeviceKind, path: Path, last: Path)
    requires !Lex.Less(Rank(req, kind, path), Rank(req, kind, last))
    requires Lex.Less(last, path)
    ensures Precedes(req, kind, last, path)
  {
    hide Lex.Less, Rank;
    Lex.LessTotal(Rank(req, kind, path), Rank(req, kind, last));
    LessThree(Rank(req, kind, last), Rank(req, kind, path), last, path);
  }

  lemma AppendOrdered(req: Request, kind: DeviceKind, paths: seq<Path>, path: Path)
    requires Ordered(req, kind, paths)
    requires forall i :: 0 <= i < |paths| ==> Precedes(req, kind, paths[i], path)
    ensures Ordered(req, kind, paths + [path])
  {
    hide Precedes;
  }

  lemma {:induction false} SortOrders(req: Request, kind: DeviceKind, paths: seq<Path>)
    requires Lex.Ascending(paths)
    ensures Ordered(req, kind, StableSort(req, kind, paths))
  {
    hide Lex.Less, InsertStable;
    if paths != [] {
      var n := |paths| - 1;
      SortOrders(req, kind, paths[..n]);
      var sorted := StableSort(req, kind, paths[..n]);
      forall q | q in sorted ensures Lex.Less(q, paths[n]) {
        assert q in paths[..n];
        var i :| 0 <= i < n && paths[i] == q;
      }
      InsertOrdered(req, kind, sorted, paths[n]);
    }
  }

  lemma PlannedOrdered(req: Request, kind: DeviceKind)
    ensures Ordered(req, kind, PlannedPaths(req, kind))
  {
    hide Lex.Less, StableSort, CommonDerivationPaths;
    var all := Common(req) + req.stored;
    Lex.CanonAscending(all);
    SortOrders(req, kind, CanonPaths(all));
  }

  lemma OrderedDistinct(req: Request, kind: DeviceKind, paths: seq<Path>)
    requires Ordered(req, kind, paths)
    ensures Lex.Distinct(paths)
  {
    hide Lex.Less, RankWord;
    forall i, j | 0 <= i < j < |paths| ensures paths[i] != paths[j] {
      assert Precedes(req, kind, paths[i], paths[j]);
      Lex.LessIrreflexive(RankWord(req, kind, paths[i]));
    }
  }

  /** The plan visits the stored paths and the common ones of the coin type, each exactly once. */
  lemma PlanVisits(req: Request, kind: DeviceKind)
    ensures forall p: Path :: p in PlannedPaths(req, kind) <==>
              p in req.stored || IsCommon(if req.network == Bitcoin then 0 else 1, p)
    ensures Lex.Distinct(PlannedPaths(req, kind))
  {
    hide IsCommon, CommonDerivationPaths, StableSort;
    CommonPathsAre(CoinType(req.network));
    PlannedOrdered(req, kind);
    OrderedDistinct(req, kind, PlannedPaths(req, kind));
  }

  // ----- stored paths first

  function Others(req: Request, paths: seq<Path>): (r: seq<Path>)
    ensures forall p :: p in r <==> p in paths && p !in req.stored
  {
    if paths == [] then []
    else
      var n := |paths| - 1;
      assert paths == paths[..n] + [paths[n]];
      Others(req, paths[..n]) + if paths[n] in req.stored then [] else [paths[n]]
  }

  lemma {:induction false} OthersOrdered(req: Request, kind: DeviceKind, paths: seq<Path>)
    requires Ordered(req, kind, paths)
    ensures Ordered(req, kind, Others(req, paths))
  {
    hide Precedes;
    if paths != [] {
      var n := |paths| - 1;
      OthersOrdered(req, kind, paths[..n]);
      var before := Others(req, paths[..n]);
      forall i | 0 <= i < |before| ensures Precedes(req, kind, before[i], paths[n]) {
        assert before[i] in before;
        var j :| 0 <= j < n && paths[j] == before[i];
      }
      AppendOrdered(req, kind, before, paths[n]);
    }
  }

  lemma {:induction false} PositionGrows(a: seq<Path>, b: seq<Path>, p: Path)
    ensures Position(a + b, p) == if p in a then Position(a, p) else |a| + Position(b, p)
  {
    if a == [] {
      assert a + b == b;
    } else {
      assert (a + b)[0] == a[0] && (a + b)[1..] == a[1..] + b;
      assert a == [a[0]] + a[1..];
      PositionGrows(a[1..], b, p);
    }
  }

  ghost predicate FirstSeen(stored: seq<Path>, paths: seq<Path>) {
    forall i, j :: 0 <= i < j < |paths| ==> Position(stored, paths[i]) < Position(stored, paths[j])
  }

  lemma {:induction false} OnceInOrder(stored: seq<Path>, more: seq<Path>)
    ensures FirstSeen(stored + more, Once(stored))
  {
    if stored != [] {
      var n := |stored| - 1;
      var init, last := stored[..n], stored[n];
      assert stored == init + [last];
      assert stored + more == init + ([last] + more);
      OnceInOrder(init, [last] + more);
      var before := Once(init);
      if last !in before {
        PositionGrows(init, [last] + more, last);
        forall i | 0 <= i < |before| ensures Position(stored + more, before[i]) < Position(stored + more, last) {
          assert before[i] in before;
          PositionGrows(init, [last] + more, before[i]);
        }
      }
    }
  }

  lemma PositionPrecedes(req: Request, kind: DeviceKind, p: Path, q: Path)
    requires Position(req.stored, p) < Position(req.stored, q)
    ensures Precedes(req, kind, p, q)
  {
    RankPrecedes(req, kind, p, q);
  }

  lemma StoredThenOthersOrdered(req: Request, kind: DeviceKind, paths: seq<Path>)
    requires Ordered(req, kind, paths)
    ensures Ordered(req, kind, Once(req.stored) + Others(req, paths))
  {
    hide Precedes, Once, Others;
    var first, rest := Once(req.stored), Others(req, paths);
    OnceInOrder(req.stored, []);
    assert req.stored + [] == req.stored;
    OthersOrdered(req, kind, paths);
    var all := first + rest;
    forall i, j | 0 <= i < j < |all| ensures Precedes(req, kind, all[i], all[j]) {
      if j < |first| {
        PositionPrecedes(req, kind, all[i], all[j]);
      } else if i < |first| {
        assert first[i] in first && rest[j - |first|] in rest;
        PositionPrecedes(req, kind, all[i], all[j]);
      } else {
        assert all[i] == rest[i - |first|] && all[j] == rest[j - |first|];
      }
    }
  }

  function RankWords(req: Request, kind: DeviceKind, paths: seq<Path>): (r: seq<Lex.Word>)
    ensures |r| == |paths| && forall i :: 0 <= i < |r| ==> r[i] == RankWord(req, kind, paths[i])
  {
    seq(|paths|, i requires 0 <= i < |paths| => RankWord(req, kind, paths[i]))
  }

  lemma SamePlaces(req: Request, kind: DeviceKind, a: seq<Path>, b: seq<Path>)
    requires Ordered(req, kind, a) && Ordered(req, kind, b)
    requires forall p :: p in a <==> p in b
    ensures a == b
  {
    hide RankWord, Lex.Less;
    var words, words' := RankWords(req, kind, a), RankWords(req, kind, b);
    forall i, j | 0 <= i < j < |a| ensures Lex.Less(words[i], words[j]) {
      assert Precedes(req, kind, a[i], a[j]);
    }
    forall i, j | 0 <= i < j < |b| ensures Lex.Less(words'[i], words'[j]) {
      assert Precedes(req, kind, b[i], b[j]);
    }
    forall w ensures w in words <==> w in words' {
      if w in words {
        var i :| 0 <= i < |words| && words[i] == w;
        assert a[i] in b;
        var j :| 0 <= j < |b| && b[j] == a[i];
        assert words'[j] == w;
      }
      if w in words' {
        var j :| 0 <= j < |words'| && words'[j] == w;
        assert b[j] in a;
        var i :| 0 <= i < |a| && a[i] == b[j];
        assert words[i] == w;
      }
    }
    Lex.AscendingUnique(words, words');
    forall i | 0 <= i < |a| ensures a[i] == b[i] {
      assert words[i] == words'[i];
      SameWordSamePath(req, kind, a[i], b[i]);
    }
  }

  lemma SameWordSamePath(req: Request, kind: DeviceKind, p: Path, q: Path)
    requires RankWord(req, kind, p) == RankWord(req, kind, q)
    ensures p == q
  {
    hide Rank;
    assert RankWord(req, kind, p)[3..] == p && RankWord(req, kind, q)[3..] == q;
  }

  /** The stored paths come first, in stored order; the common ones follow. */
  lemma StoredFirst(req: Request, kind: DeviceKind)
    ensures PlannedPaths(req, kind) == Once(req.stored) + Others(req, PlannedPaths(req, kind))
    ensures Lex.Distinct(req.stored) ==> Once(req.stored) == req.stored
  {
    hide Once, Others, PlannedPaths, IsCommon;
    var plan := PlannedPaths(req, kind);
    PlannedOrdered(req, kind);
    PlanVisits(req, kind);
    StoredThenOthersOrdered(req, kind, plan);
    SamePlaces(req, kind, plan, Once(req.stored) + Others(req, plan));
    OnceDistinct(req.stored);
  }

  lemma {:induction false} OnceDistinct(s: seq<Path>)
    ensures Lex.Distinct(s) ==> Once(s) == s
  {
    if s != [] {
      var n := |s| - 1;
      OnceDistinct(s[..n]);
      assert s == s[..n] + [s[n]];
    }
  }

  /** After the stored paths: by how a failure is taken, then by purpose, then by path. */
  lemma OthersSorted(req: Request, kind: DeviceKind, i: nat, j: nat)
    requires i < j < |Others(req, PlannedPaths(req, kind))|
    ensures var rest := Others(req, PlannedPaths(req, kind));
            var p, q := rest[i], rest[j];
            && ExpectOf(req, kind, p) == CommonExpect(kind, p)
            && Lex.Less([ExpectPriority(CommonExpect(kind, p)), PurposePriority(req, p)] + p,
                        [ExpectPriority(CommonExpect(kind, q)), PurposePriority(req, q)] + q)
  {
    hide PlannedPaths, Others, CommonDerivationPaths, CommonExpect, PurposePriority, IsCommon;
    var plan := PlannedPaths(req, kind);
    var rest := Others(req, plan);
    PlannedOrdered(req, kind);
    PlanVisits(req, kind);
    CommonPathsAre(CoinType(req.network));
    OthersOrdered(req, kind, plan);
    assert rest[i] in rest && rest[j] in rest;
    assert Precedes(req, kind, rest[i], rest[j]);
    DropFirst(req, kind, rest[i], rest[j]);
  }

  /** Spelled out: what must be fetched first, preferred purposes next, then the order of paths. */
  lemma OthersGrouped(req: Request, kind: DeviceKind, i: nat, j: nat)
    requires i < j < |Others(req, PlannedPaths(req, kind))|
    ensures var rest := Others(req, PlannedPaths(req, kind));
            var p, q := rest[i], rest[j];
            var e, f := CommonExpect(kind, p), CommonExpect(kind, q);
            && !e.PromptUser? && !f.PromptUser?
            && (f.MustFetch? ==> e.MustFetch?)
            && (e == f ==> PurposePriority(req, p) <= PurposePriority(req, q))
            && (e == f && PurposePriority(req, p) == PurposePriority(req, q) ==> Lex.Less(p, q))
  {
    hide PlannedPaths, Others, CommonDerivationPaths, PurposePriority, IsCommon, Lex.Less;
    var rest := Others(req, PlannedPaths(req, kind));
    OthersSorted(req, kind, i, j);
    TwoThenPath(ExpectPriority(CommonExpect(kind, rest[i])), PurposePriority(req, rest[i]), rest[i],
                ExpectPriority(CommonExpect(kind, rest[j])), PurposePriority(req, rest[j]), rest[j]);
  }

  /** `a` is listed, and before `b` is, if `b` is at all. */
  ghost predicate ListedBefore(ordering: seq<u32>, a: u32, b: u32) {
    exists n :: 0 <= n < |ordering| && ordering[n] == a && b !in ordering[..n + 1]
  }

  lemma {:induction false} PositionFirst(s: seq<u32>, x: u32, n: nat)
    requires n < |s| && n < Position(s, x)
    ensures s[n] != x
  {
    assert s == [s[0]] + s[1..];
    if n > 0 {
      PositionFirst(s[1..], x, n - 1);
    }
  }

  lemma InFront(s: seq<u32>, m: nat, k: nat)
    requires m <= k < |s|
    ensures s[m] in s[..k + 1]
  {
    assert s[..k + 1][m] == s[m];
  }

  lemma ListedBeforeIs(ordering: seq<u32>, a: u32, b: u32)
    ensures ListedBefore(ordering, a, b) <==> Position(ordering, a) < Position(ordering, b)
  {
    var n, m := Position(ordering, a), Position(ordering, b);
    if n < m {
      forall j | 0 <= j < n + 1 ensures ordering[j] != b {
        PositionFirst(ordering, b, j);
      }
      assert ordering[n] == a && b !in ordering[..n + 1];
    }
    if k :| 0 <= k < |ordering| && ordering[k] == a && b !in ordering[..k + 1] {
      if k < n {
        PositionFirst(ordering, a, k);
      } else if m <= k {
        InFront(ordering, m, k);
      }
    }
  }

  /**
   Among common paths taken alike on failure, one whose purpose the caller lists earlier
   comes first; between purposes listed alike, paths come in their own order.
   */
  lemma PreferredFirst(req: Request, kind: DeviceKind, i: nat, j: nat)
    requires i < j < |Others(req, PlannedPaths(req, kind))|
    ensures var rest := Others(req, PlannedPaths(req, kind));
            var p, q := rest[i], rest[j];
            && FirstIndex(p).Some? && FirstIndex(q).Some?
            && var a, b := FirstIndex(p).value, FirstIndex(q).value;
               CommonExpect(kind, p) == CommonExpect(kind, q) ==>
                 && !ListedBefore(req.ordering, b, a)
                 && (!ListedBefore(req.ordering, a, b) ==> Lex.Less(p, q))
  {
    hide PlannedPaths, Others, CommonExpect, ListedBefore, Lex.Less;
    var plan := PlannedPaths(req, kind);
    var rest := Others(req, plan);
    PlanVisits(req, kind);
    assert rest[i] in rest && rest[j] in rest;
    OthersGrouped(req, kind, i, j);
    ListedBeforeIs(req.ordering, FirstIndex(rest[i]).value, FirstIndex(rest[j]).value);
    ListedBeforeIs(req.ordering, FirstIndex(rest[j]).value, FirstIndex(rest[i]).value);
  }

  lemma TwoThenPath(a: nat, b: nat, p: Lex.Word, a': nat, b': nat, p': Lex.Word)
    requires Lex.Less([a, b] + p, [a', b'] + p')
    ensures a < a' || (a == a' && (b < b' || (b == b' && Lex.Less(p, p'))))
  {
    var w, w' := [a, b] + p, [a', b'] + p';
    assert w[0] == a && w'[0] == a' && w[1..][0] == b && w'[1..][0] == b';
    assert w[1..][1..] == p && w'[1..][1..] == p';
  }

  /** A common path may fail only at purpose 87, and on a BitBox02 also at purpose 44. */
  lemma CanFailPurposes(coin: u32, kind: DeviceKind, p: Path)
    requires IsCommon(coin, p)
    ensures CommonExpect(kind, p).CanFail? <==> p[0] == Hardened(87) || (kind.BitBox02? && p[0] == Hardened(44))
    ensures !CommonExpect(kind, p).CanFail? ==> CommonExpect(kind, p).MustFetch?
  {
  }

  lemma DropFirst(req: Request, kind: DeviceKind, p: Path, q: Path)
    requires Precedes(req, kind, p, q) && Position(req.stored, p) == Position(req.stored, q)
    ensures Lex.Less([ExpectPriority(ExpectOf(req, kind, p)), PurposePriority(req, p)] + p,
                     [ExpectPriority(ExpectOf(req, kind, q)), PurposePriority(req, q)] + q)
  {
    hide ExpectOf, PurposePriority;
    assert RankWord(req, kind, p)[1..] == [ExpectPriority(ExpectOf(req, kind, p)), PurposePriority(req, p)] + p;
    assert RankWord(req, kind, q)[1..] == [ExpectPriority(ExpectOf(req, kind, q)), PurposePriority(req, q)] + q;
  }

  // ----- from the encoder's paths to the device

  /**
   A path given to the encoder is asked of the device exactly when it is not a common
   path of the other coin type, or all paths were stored.
   */
  lemma GivenPathVisited(
    crypto: Crypto, paths: seq<Path>, storeCommon: bool, items: seq<Item>, keys: seq<Bytes32>, padding: Padding,
    nonce: Nonce, decoys: seq<Bytes32>, network: Network, ordering: seq<u32>, kind: DeviceKind, p: Path)
    requires EncryptWithDecoys(crypto, paths, storeCommon, items, keys, padding, nonce, decoys).Ok?
    requires p in paths
    ensures var b := EncryptWithDecoys(crypto, paths, storeCommon, items, keys, padding, nonce, decoys).value;
            && DecodeV1(b).Ok?
            && var req := Request(DecodeV1(b).value.paths, network, ordering);
               p in PlannedPaths(req, kind) <==> storeCommon || !IsCommon(1 - CoinType(network), p)
  {
    hide EncryptWithDecoys, DecodeV1, IsCommon, PlannedPaths;
    StoredPathsEndToEnd(crypto, paths, storeCommon, items, keys, padding, nonce, decoys);
    var b := EncryptWithDecoys(crypto, paths, storeCommon, items, keys, padding, nonce, decoys).value;
    PlanVisits(Request(DecodeV1(b).value.paths, network, ordering), kind);
    if IsCommon(0, p) && IsCommon(1, p) {
      OneCoin(p);
    }
  }

  /**
   A path that is lost: common on the test networks, left out of the backup, and not
   asked of a device on the main one.
   */
  lemma OtherCoinPathMissed(key: Bytes32, nonce: Nonce, data: Slice, ordering: seq<u32>, kind: DeviceKind)
    returns (decoys: seq<Bytes32>)
    requires key != NUMS_XONLY && nonce != ZERO12 && 1 <= |data| <= 100
    ensures var path := MultisigPath(1, 0, 2);
            var b := EncryptWithDecoys(ToyCrypto(), [path], false, [(Text, data)], [key], NoPadding, nonce, decoys);
            && b.Ok? && DecodeV1(b.value).Ok?
            && path !in PlannedPaths(Request(DecodeV1(b.value).value.paths, Bitcoin, ordering), kind)
  {
    hide EncryptWithDecoys, DecodeV1, PlannedPaths, ToyCrypto, IsCommon, FallbackPaths;
    var path := MultisigPath(1, 0, 2);
    decoys := HypothesesCanBeMet(key, nonce, data);
    assert IsCommon(1, path) by { NthCommon(1, 1); }
    FallbackAre(path);
    CallerOrderHidden(ToyCrypto(), [path], [], false, [(Text, data)], [key], [key], NoPadding, nonce, decoys, decoys);
    GivenPathVisited(ToyCrypto(), [path], false, [(Text, data)], [key], NoPadding, nonce, decoys,
                     Bitcoin, ordering, kind, path);
  }

  lemma OneCoin(p: Path)
    ensures !(IsCommon(0, p) && IsCommon(1, p))
  {
  }

  /** How the plan takes a failure: stored paths that are not common ask the user. */
  lemma PlanExpects(req: Request, kind: DeviceKind, i: nat)
    requires i < |Plan(req, kind)|
    ensures |Plan(req, kind)| == |PlannedPaths(req, kind)|
    ensures var f := Plan(req, kind)[i];
            && f.path == PlannedPaths(req, kind)[i]
            && f.onFailure ==
               if !IsCommon(if req.network == Bitcoin then 0 else 1, f.path) then PromptUser
               else if f.path[0] == Hardened(87) || (kind.BitBox02? && f.path[0] == Hardened(44)) then CanFail
               else MustFetch
  {
    hide PlannedPaths, CommonDerivationPaths, IsCommon, CommonExpect;
    var coin := CoinType(req.network);
    CommonPathsAre(coin);
    var p := PlannedPaths(req, kind)[i];
    if IsCommon(coin, p) {
      CanFailPurposes(coin, kind, p);
      CommonNotEmpty(coin, p);
    }
  }

  lemma CommonNotEmpty(coin: u32, p: Path)
    requires IsCommon(coin, p)
    ensures p != []
  {
  }

  /** `at` tells which of the first `n` fetches were answered; `calls` are their paths and keys, in order. */
  ghost predicate CallsAt<X(!new)>(
    plan: seq<Fetch>, answers: nat -> Answer<X>, n: nat, calls: seq<(Path, X)>, at: seq<nat>)
    requires n <= |plan|
  {
    && |at| == |calls|
    && (forall j, k :: 0 <= j < k < |at| ==> at[j] < at[k])
    && (forall j :: 0 <= j < |at| ==>
          at[j] < n && calls[j].0 == plan[at[j]].path && answers(at[j]) == Xpub(calls[j].1))
    && (forall i :: 0 <= i < n && answers(i).Xpub? ==> i in at)
  }

  lemma CallAdded<X(!new)>(
    plan: seq<Fetch>, answers: nat -> Answer<X>, n: nat, calls: seq<(Path, X)>, at: seq<nat>, x: X)
    requires n < |plan| && CallsAt(plan, answers, n, calls, at) && answers(n) == Xpub(x)
    ensures CallsAt(plan, answers, n + 1, calls + [(plan[n].path, x)], at + [n])
  {
    var at' := at + [n];
    forall i | 0 <= i < n + 1 && answers(i).Xpub? ensures i in at' {
      if i == n { assert at'[|at|] == n; }
    }
  }

  lemma CallSkipped<X(!new)>(
    plan: seq<Fetch>, answers: nat -> Answer<X>, n: nat, calls: seq<(Path, X)>, at: seq<nat>)
    requires n < |plan| && CallsAt(plan, answers, n, calls, at) && !answers(n).Xpub?
    ensures CallsAt(plan, answers, n + 1, calls, at)
  {
  }

  /** The caller hears of exactly the keys answered, with their paths, in order. */
  lemma {:induction false} CallsAre<X(!new)>(plan: seq<Fetch>, answers: nat -> Answer<X>, n: nat)
    returns (at: seq<nat>)
    requires n <= |plan|
    ensures CallsAt(plan, answers, n, CallsOf(plan, answers, n), at)
  {
    if n == 0 {
      at := [];
    } else {
      hide CallsAt;
      at := CallsAre(plan, answers, n - 1);
      var calls := CallsOf(plan, answers, n - 1);
      match answers(n - 1)
      case Xpub(x) =>
        CallAdded(plan, answers, n - 1, calls, at, x);
        at := at + [n - 1];
      case _ =>
        CallSkipped(plan, answers, n - 1, calls, at);
        assert calls + [] == calls;
    }
  }

  /** A warning for every fetch that was refused or timed out, with its path, and for no other. */
  lemma {:induction false} WarningsAre<X>(plan: seq<Fetch>, answers: nat -> Answer<X>, n: nat, w: Collector.Warning)
    requires n <= |plan|
    ensures w in WarningsOf(plan, answers, n) <==>
            match w
            case FetchFailedAt(path, e) =>
              exists i :: 0 <= i < n && answers(i) == Answer<X>.Refused && plan[i] == Fetch(path, e)
            case TimedOutAt(path) =>
              exists i :: 0 <= i < n && answers(i) == Answer<X>.TimedOut && plan[i].path == path
  {
    if n > 0 {
      WarningsAre(plan, answers, n - 1, w);
    }
  }
}
