/** Which paths a signing device is asked for, in which order, and what becomes of its answers. */
module Collector {
  import opened Prelude
  import opened Container
  import opened CommonPaths
  import Lex

  datatype Network = Bitcoin | OtherNetwork

  datatype DeviceKind = Ledger | LedgerSimulator | Specter | SpecterSimulator | BitBox02 | Coldcard | Jade

  // How to take a failure at a path.
  datatype Expect = MustFetch | PromptUser | CanFail

  datatype Fetch = Fetch(path: Path, onFailure: Expect)

  // The stored paths, the network, and purposes in the caller's order of preference.
  datatype Request = Request(stored: seq<Path>, network: Network, ordering: seq<u32>)

  function CoinType(network: Network): u32 {
    if network.Bitcoin? then 0 else 1
  }

  function CommonExpect(kind: DeviceKind, path: Path): Expect {
    match FirstIndex(path)
    case Some(44) => if kind.BitBox02? then CanFail else MustFetch
    case Some(87) => CanFail
    case _ => MustFetch
  }

  function Common(req: Request): seq<Path> {
    CommonDerivationPaths(CoinType(req.network))
  }

  function ExpectOf(req: Request, kind: DeviceKind, path: Path): Expect {
    if path in Common(req) then CommonExpect(kind, path) else PromptUser
  }

  // ----- order

  function ExpectPriority(e: Expect): nat {
    match e
    case MustFetch => 0
    case PromptUser => 1
    case CanFail => 2
  }

  function PurposePriority(req: Request, path: Path): nat {
    match FirstIndex(path)
    case Some(purpose) => Position(req.ordering, purpose)
    case None => |req.ordering|
  }

  function Rank(req: Request, kind: DeviceKind, path: Path): (r: Lex.Word)
    ensures |r| == 3
  {
    [Position(req.stored, path), ExpectPriority(ExpectOf(req, kind, path)), PurposePriority(req, path)]
  }

  /** Put `path` after everything ranked no higher: a stable insertion. */
  function InsertStable(req: Request, kind: DeviceKind, sorted: seq<Path>, path: Path): (r: seq<Path>)
    ensures forall q :: q in r <==> q in sorted || q == path
    ensures |r| == |sorted| + 1
  {
    if sorted == [] then [path]
    else
      var n := |sorted| - 1;
      assert sorted == sorted[..n] + [sorted[n]];
      if Lex.Less(Rank(req, kind, path), Rank(req, kind, sorted[n])) then
        InsertStable(req, kind, sorted[..n], path) + [sorted[n]]
      else sorted + [path]
  }

  /** What a stable sort by rank makes of a list. */
  function StableSort(req: Request, kind: DeviceKind, paths: seq<Path>): (r: seq<Path>)
    ensures forall q :: q in r <==> q in paths
    ensures |r| == |paths|
  {
    if paths == [] then []
    else
      var n := |paths| - 1;
      assert paths == paths[..n] + [paths[n]];
      InsertStable(req, kind, StableSort(req, kind, paths[..n]), paths[n])
  }

  /** Every path once, sorted. */
  function PlannedPaths(req: Request, kind: DeviceKind): seq<Path> {
    StableSort(req, kind, CanonPaths(Common(req) + req.stored))
  }

  function WithExpect(req: Request, kind: DeviceKind, paths: seq<Path>): (r: seq<Fetch>)
    ensures |r| == |paths|
    ensures forall i :: 0 <= i < |r| ==> r[i] == Fetch(paths[i], ExpectOf(req, kind, paths[i]))
  {
    seq(|paths|, i requires 0 <= i < |paths| => Fetch(paths[i], ExpectOf(req, kind, paths[i])))
  }

  function Plan(req: Request, kind: DeviceKind): seq<Fetch> {
    WithExpect(req, kind, PlannedPaths(req, kind))
  }

  /** Fill an ordered map, common paths first; a stored path never replaces an entry. */
  method PlanLoop(req: Request, kind: DeviceKind) returns (plan: seq<Fetch>)
    ensures plan == Plan(req, kind)
  {
    hide CommonExpect, CommonDerivationPaths, InsertStable, Rank, StableSort, CanonPaths, InsertPath;
    var common := CommonDerivationPathsLoop(CoinType(req.network));
    var order: seq<Path>, entries: map<Path, Expect> := [], map[];
    for i := 0 to |common|
      invariant order == CanonPaths(common[..i])
      invariant forall p :: p in entries <==> p in common[..i]
      invariant forall p :: p in entries ==> entries[p] == CommonExpect(kind, p)
    {
      CanonPathsNext(common, i);
      assert common[..i + 1] == common[..i] + [common[i]];
      order := InsertPath(order, common[i]);
      entries := entries[common[i] := CommonExpect(kind, common[i])];
    }
    assert common[..|common|] == common && common + req.stored[..0] == common;
    for i := 0 to |req.stored|
      invariant order == CanonPaths(common + req.stored[..i])
      invariant forall p :: p in entries <==> p in common || p in req.stored[..i]
      invariant forall p :: p in entries ==> entries[p] == ExpectOf(req, kind, p)
    {
      assert req.stored[..i + 1] == req.stored[..i] + [req.stored[i]];
      assert common + req.stored[..i + 1] == (common + req.stored[..i]) + [req.stored[i]];
      CanonPathsSnoc(common + req.stored[..i], req.stored[i]);
      order := InsertPath(order, req.stored[i]);
      if req.stored[i] !in entries {
        entries := entries[req.stored[i] := PromptUser];
      }
    }
    assert req.stored[..|req.stored|] == req.stored;
    var sorted := StableSort(req, kind, order);
    plan := [];
    for i := 0 to |sorted|
      invariant plan == WithExpect(req, kind, sorted)[..i]
    {
      assert sorted[i] in sorted;
      plan := plan + [Fetch(sorted[i], entries[sorted[i]])];
    }
  }

  lemma CanonPathsSnoc(paths: seq<Path>, path: Path)
    ensures CanonPaths(paths + [path]) == InsertPath(CanonPaths(paths), path)
  {
    assert (paths + [path])[..|paths|] == paths;
  }

  lemma CanonPathsNext(paths: seq<Path>, i: nat)
    requires i < |paths|
    ensures CanonPaths(paths[..i + 1]) == InsertPath(CanonPaths(paths[..i]), paths[i])
  {
    assert paths[..i + 1] == paths[..i] + [paths[i]];
    CanonPathsSnoc(paths[..i], paths[i]);
  }

  // ----- asking the device

  // An answer, or none within the time limit.
  datatype Answer<+X> = Xpub(xpub: X) | Refused | TimedOut

  datatype Warning = FetchFailedAt(path: Path, onFailure: Expect) | TimedOutAt(path: Path)

  datatype Collection<X> =
    | Collected(xpubs: set<X>, warnings: seq<Warning>)
    | FailedAt(path: Path, onFailure: Expect)

  function WarningOf<X>(f: Fetch, a: Answer<X>): seq<Warning> {
    match a
    case Xpub(_) => []
    case Refused => [FetchFailedAt(f.path, f.onFailure)]
    case TimedOut => [TimedOutAt(f.path)]
  }

  /** Warnings of the first `n` fetches, in order. */
  function WarningsOf<X>(plan: seq<Fetch>, answers: nat -> Answer<X>, n: nat): seq<Warning>
    requires n <= |plan|
  {
    if n == 0 then [] else WarningsOf(plan, answers, n - 1) + WarningOf(plan[n - 1], answers(n - 1))
  }

  /** The calls the first `n` fetches make to the caller, in order. */
  function CallsOf<X>(plan: seq<Fetch>, answers: nat -> Answer<X>, n: nat): seq<(Path, X)>
    requires n <= |plan|
  {
    if n == 0 then []
    else
      CallsOf(plan, answers, n - 1)
      + match answers(n - 1) case Xpub(x) => [(plan[n - 1].path, x)] case _ => []
  }

  // A failure that ends the collection.
  predicate Fatal<X>(f: Fetch, a: Answer<X>) {
    f.onFailure.MustFetch? && !a.Xpub?
  }

  // The fetches before `n` were all made and none was fatal.
  ghost predicate Reached<X>(plan: seq<Fetch>, answers: nat -> Answer<X>, stops: nat -> bool, n: nat)
    requires n <= |plan|
  {
    forall i :: 0 <= i < n ==> !stops(i) && !Fatal(plan[i], answers(i))
  }

  /** The path a BitBox02 is unlocked with: the first common one of purpose 48. */
  function UnlockPath(network: Network): Path {
    MultisigPath(CoinType(network), 0, 1)
  }

  lemma UnlockPathIsFirst(network: Network)
    ensures CommonDerivationPaths(CoinType(network))[0] == UnlockPath(network)
    ensures FirstIndex(UnlockPath(network)) == Some(48)
  {
  }

  /**
   Walk the plan until asked to stop, a fatal failure, or the end. `answers(i)` is
   what the device says to the i-th fetch, `stops(i)` what the caller says before it.
   */
  method CollectUntil<X(==)>(
    req: Request, device: Option<DeviceKind>, unlock: Answer<X>, answers: nat -> Answer<X>, stops: nat -> bool)
    returns (r: Collection<X>, calls: seq<(Path, X)>, ghost n: nat)
    ensures device.None? ==> r == Collected({}, []) && calls == []
    ensures device == Some(BitBox02) && !unlock.Xpub? ==>
              r == FailedAt(UnlockPath(req.network), PromptUser) && calls == []
    ensures device.Some? && !(device.value.BitBox02? && !unlock.Xpub?) ==>
              var plan := Plan(req, device.value);
              && n <= |plan| && Reached(plan, answers, stops, n)
              && calls == CallsOf(plan, answers, n)
              && match r
                 case Collected(xpubs, warnings) =>
                   && (n < |plan| ==> stops(n))
                   && (forall x :: x in xpubs <==> exists c :: c in calls && c.1 == x)
                   && warnings == WarningsOf(plan, answers, n)
                 case FailedAt(path, onFailure) =>
                   n < |plan| && !stops(n) && Fatal(plan[n], answers(n)) && plan[n] == Fetch(path, onFailure)
  {
    hide Plan;
    calls, n := [], 0;
    if device.None? {
      return Collected({}, []), calls, n;
    }
    if device.value.BitBox02? && !unlock.Xpub? {
      return FailedAt(UnlockPath(req.network), PromptUser), calls, n;
    }
    var plan := PlanLoop(req, device.value);
    var xpubs: set<X>, warnings: seq<Warning> := {}, [];
    var i := 0;
    while i < |plan|
      invariant i <= |plan| && n == i && Reached(plan, answers, stops, i)
      invariant calls == CallsOf(plan, answers, i)
      invariant warnings == WarningsOf(plan, answers, i)
      invariant forall x :: x in xpubs <==> exists c :: c in calls && c.1 == x
    {
      if stops(i) {
        break;
      }
      match answers(i) {
        case Xpub(x) =>
          ghost var before := calls;
          xpubs := xpubs + {x};
          calls := calls + [(plan[i].path, x)];
          assert (plan[i].path, x) in calls;
          assert forall c :: c in calls <==> c in before || c == (plan[i].path, x);
        case Refused =>
          if plan[i].onFailure.MustFetch? {
            return FailedAt(plan[i].path, plan[i].onFailure), calls, n;
          }
          warnings := warnings + [FetchFailedAt(plan[i].path, plan[i].onFailure)];
        case TimedOut =>
          if plan[i].onFailure.MustFetch? {
            return FailedAt(plan[i].path, plan[i].onFailure), calls, n;
          }
          warnings := warnings + [TimedOutAt(plan[i].path)];
      }
      i := i + 1;
      n := i;
    }
    r := Collected(xpubs, warnings);
  }
}
