/** Byte strings found at an offset of a larger one, and concatenations of many. */
module Framing {
  import opened Prelude

  /** `x` stands in `b` at offset `off`. */
  ghost predicate At<T>(b: seq<T>, off: nat, x: seq<T>) {
    off + |x| <= |b| && b[off..off + |x|] == x
  }

  lemma AtPrefix<T>(b: seq<T>, off: nat, x: seq<T>)
    requires off <= |b|
    ensures At(b, off, x) <==> x <= b[off..]
  {
    if off + |x| <= |b| {
      assert b[off..][..|x|] == b[off..off + |x|];
    }
  }

  lemma AtConcat<T>(b: seq<T>, off: nat, x: seq<T>, y: seq<T>)
    ensures At(b, off, x + y) <==> At(b, off, x) && At(b, off + |x|, y)
  {
    var n := off + |x|;
    if n + |y| <= |b| {
      var w := b[off..n + |y|];
      assert w[..|x|] == b[off..n] && w[|x|..] == b[n..n + |y|];
      assert (x + y)[..|x|] == x && (x + y)[|x|..] == y;
      assert w == w[..|x|] + w[|x|..];
    }
  }

  lemma PrefixConcat<T>(b: seq<T>, x: seq<T>, y: seq<T>)
    ensures x + y <= b <==> x <= b && y <= b[|x|..]
  {
    if |x + y| <= |b| {
      var w := b[..|x| + |y|];
      assert w[..|x|] == b[..|x|] && w[|x|..] == b[|x|..][..|y|];
      assert (x + y)[..|x|] == x && (x + y)[|x|..] == y;
      assert w == w[..|x|] + w[|x|..];
    }
  }

  lemma DropDrop<T>(b: seq<T>, i: nat, j: nat)
    requires i + j <= |b|
    ensures b[i..][j..] == b[i + j..]
  {
  }

  lemma HeadTail<T>(x: T, xs: seq<T>, y: T, ys: seq<T>)
    ensures [x] + xs == [y] + ys <==> x == y && xs == ys
  {
    assert ([x] + xs)[0] == x && ([x] + xs)[1..] == xs;
    assert ([y] + ys)[0] == y && ([y] + ys)[1..] == ys;
  }

  /** Put what was read before in front of what a parser reads next. */
  function Prepend<T>(xs: seq<T>, r: Result<seq<T>>): Result<seq<T>> {
    if r.Ok? then Ok(xs + r.value) else r
  }

  lemma PrependNothing<T>(r: Result<seq<T>>)
    ensures Prepend([], r) == r
  {
    if r.Ok? { assert [] + r.value == r.value; }
  }

  lemma PrependMore<T>(xs: seq<T>, x: T, r: Result<seq<T>>)
    ensures Prepend(xs, Prepend([x], r)) == Prepend(xs + [x], r)
  {
    if r.Ok? { assert xs + ([x] + r.value) == (xs + [x]) + r.value; }
  }

  lemma PrependError<T>(xs: seq<T>, e: Error)
    ensures Prepend(xs, Err(e)) == Err(e)
  {
  }

  lemma PrependLast<T>(xs: seq<T>)
    ensures Prepend(xs, Ok([])) == Ok(xs)
  {
    assert xs + [] == xs;
  }

  function Flatten<T>(parts: seq<seq<T>>): seq<T> {
    if parts == [] then [] else parts[0] + Flatten(parts[1..])
  }

  lemma {:induction false} FlattenAppend<T>(parts: seq<seq<T>>, part: seq<T>)
    ensures Flatten(parts + [part]) == Flatten(parts) + part
  {
    if parts == [] {
      assert [part][1..] == [];
    } else {
      FlattenAppend(parts[1..], part);
      assert (parts + [part])[1..] == parts[1..] + [part];
      assert parts[0] + (Flatten(parts[1..]) + part) == (parts[0] + Flatten(parts[1..])) + part;
    }
  }
}
