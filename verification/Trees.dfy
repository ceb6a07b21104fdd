/** Trees with their keys taken out and put back. */
module Trees {
  import opened Descriptors

  /** The same tree with other keys, given in descriptor order. */
  function Fill<K, L>(t: Tree<K>, ls: seq<L>): (r: Tree<L>)
    requires |ls| == |Keys(t)|
    decreases t, 1
  {
    match t
    case Leaf(_) => Leaf(ls[0])
    case Node(f, children) => Node(f, FillOf(children, ls))
  }

  function FillOf<K, L>(ts: seq<Tree<K>>, ls: seq<L>): (r: seq<Tree<L>>)
    requires |ls| == |KeysOf(ts)|
    ensures |r| == |ts|
    decreases ts, 0
  {
    if ts == [] then []
    else
      var n := |Keys(ts[0])|;
      [Fill(ts[0], ls[..n])] + FillOf(ts[1..], ls[n..])
  }

  lemma {:induction false} KeysFill<K, L>(t: Tree<K>, ls: seq<L>)
    requires |ls| == |Keys(t)|
    ensures Keys(Fill(t, ls)) == ls
    decreases t, 1
  {
    match t
    case Leaf(_) =>
    case Node(_, children) => KeysFillOf(children, ls);
  }

  lemma {:induction false} KeysFillOf<K, L>(ts: seq<Tree<K>>, ls: seq<L>)
    requires |ls| == |KeysOf(ts)|
    ensures KeysOf(FillOf(ts, ls)) == ls
    decreases ts, 0
  {
    hide Fill, Keys;
    if ts != [] {
      var n := |Keys(ts[0])|;
      var head, tail := Fill(ts[0], ls[..n]), FillOf(ts[1..], ls[n..]);
      KeysFill(ts[0], ls[..n]);
      KeysFillOf(ts[1..], ls[n..]);
      KeysOfCons(head, tail);
      assert ls == ls[..n] + ls[n..];
    }
  }

  lemma KeysOfCons<K>(t: Tree<K>, ts: seq<Tree<K>>)
    ensures KeysOf([t] + ts) == Keys(t) + KeysOf(ts)
  {
    hide Keys;
    assert ([t] + ts)[1..] == ts;
  }

  /** Filling twice keeps the last keys. */
  lemma {:induction false} FillFill<K, L, M>(t: Tree<K>, ls: seq<L>, ms: seq<M>)
    requires |ls| == |ms| == |Keys(t)|
    ensures |Keys(Fill(t, ls))| == |ms| && Fill(Fill(t, ls), ms) == Fill(t, ms)
    decreases t, 1
  {
    KeysFill(t, ls);
    match t
    case Leaf(_) =>
    case Node(_, children) => FillFillOf(children, ls, ms);
  }

  lemma {:induction false} FillFillOf<K, L, M>(ts: seq<Tree<K>>, ls: seq<L>, ms: seq<M>)
    requires |ls| == |ms| == |KeysOf(ts)|
    ensures |KeysOf(FillOf(ts, ls))| == |ms| && FillOf(FillOf(ts, ls), ms) == FillOf(ts, ms)
    decreases ts, 0
  {
    KeysFillOf(ts, ls);
    if ts != [] {
      var n := |Keys(ts[0])|;
      KeysFill(ts[0], ls[..n]);
      FillFill(ts[0], ls[..n], ms[..n]);
      FillFillOf(ts[1..], ls[n..], ms[n..]);
      assert FillOf(ts, ls)[1..] == FillOf(ts[1..], ls[n..]);
    }
  }

  /** A tree filled with its own keys is itself. */
  lemma {:induction false} FillKeys<K>(t: Tree<K>)
    ensures Fill(t, Keys(t)) == t
    decreases t, 1
  {
    match t
    case Leaf(_) =>
    case Node(_, children) => FillKeysOf(children);
  }

  lemma {:induction false} FillKeysOf<K>(ts: seq<Tree<K>>)
    ensures FillOf(ts, KeysOf(ts)) == ts
    decreases ts, 0
  {
    if ts != [] {
      var ks := KeysOf(ts);
      var n := |Keys(ts[0])|;
      assert ks[..n] == Keys(ts[0]) && ks[n..] == KeysOf(ts[1..]);
      FillKeys(ts[0]);
      FillKeysOf(ts[1..]);
      assert ts == [ts[0]] + ts[1..];
    }
  }
}
