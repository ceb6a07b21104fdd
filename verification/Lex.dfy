/**
 Lexicographic order on words, and ordered sets of words kept as strictly
 ascending sequences: what `BTreeSet` iterates over and what `sort` followed by
 `dedup` leaves behind.
 */
module Lex {

  type Word = seq<nat>

  predicate Less(a: Word, b: Word) {
    b != [] && (a == [] || a[0] < b[0] || (a[0] == b[0] && Less(a[1..], b[1..])))
  }

  lemma LessIrreflexive(a: Word)
    ensures !Less(a, a)
  {
  }

  lemma {:induction false} LessTransitive(a: Word, b: Word, c: Word)
    requires Less(a, b) && Less(b, c)
    ensures Less(a, c)
  {
    if a != [] && a[0] == b[0] == c[0] {
      LessTransitive(a[1..], b[1..], c[1..]);
    }
  }

  lemma {:induction false} LessTotal(a: Word, b: Word)
    ensures Less(a, b) || a == b || Less(b, a)
  {
    if a != [] && b != [] && a[0] == b[0] {
      LessTotal(a[1..], b[1..]);
      if a[1..] == b[1..] {
        assert a == [a[0]] + a[1..] == b;
      }
    }
  }

  ghost predicate Ascending(s: seq<Word>) {
    forall i, j :: 0 <= i < j < |s| ==> Less(s[i], s[j])
  }

  ghost predicate SameElements(a: seq<Word>, b: seq<Word>) {
    forall x :: x in a <==> x in b
  }

  /** Insert into an ordered set; an element already there is not repeated. */
  function Insert(s: seq<Word>, x: Word): (r: seq<Word>)
    ensures forall y :: y in r <==> y in s || y == x
    ensures |s| <= |r| <= |s| + 1
  {
    if s == [] then [x]
    else if s[0] == x then s
    else if Less(x, s[0]) then [x] + s
    else
      var r := Insert(s[1..], x);
      assert s == [s[0]] + s[1..];
      [s[0]] + r
  }

  lemma {:induction false} InsertAscending(s: seq<Word>, x: Word)
    requires Ascending(s)
    ensures Ascending(Insert(s, x))
  {
    if s == [] || s[0] == x {
    } else if Less(x, s[0]) {
      forall j | 0 < j < |s| ensures Less(x, s[j]) {
        LessTransitive(x, s[0], s[j]);
      }
    } else {
      InsertAscending(s[1..], x);
      var r := Insert(s[1..], x);
      forall j | 0 <= j < |r| ensures Less(s[0], r[j]) {
        LessTotal(x, s[0]);
        assert r[j] in r;
        if r[j] != x {
          var i :| 0 <= i < |s[1..]| && s[1..][i] == r[j];
          assert s[i + 1] == r[j];
        }
      }
    }
  }

  /** The ordered set of the elements of a sequence. */
  function Canon(s: seq<Word>): (r: seq<Word>)
    ensures |r| <= |s|
    ensures forall y :: y in r <==> y in s
  {
    if s == [] then []
    else
      var n := |s| - 1;
      assert s == s[..n] + [s[n]];
      Insert(Canon(s[..n]), s[n])
  }

  lemma {:induction false} CanonAscending(s: seq<Word>)
    ensures Ascending(Canon(s))
  {
    if s != [] {
      CanonAscending(s[..|s| - 1]);
      InsertAscending(Canon(s[..|s| - 1]), s[|s| - 1]);
    }
  }

  lemma LeastFirst(a: seq<Word>, x: Word)
    requires Ascending(a) && x in a && a[0] != x
    ensures Less(a[0], x)
  {
  }

  /** An ordered set is determined by its elements. */
  lemma {:induction false} AscendingUnique(a: seq<Word>, b: seq<Word>)
    requires Ascending(a) && Ascending(b)
    requires SameElements(a, b)
    ensures a == b
    decreases |a| + |b|, if |a| < |b| then 1 else 0
  {
    if |a| < |b| {
      AscendingUnique(b, a);
    } else if a != [] {
      assert a[0] in b;
      assert b[0] in a;
      if a[0] != b[0] {
        LeastFirst(a, b[0]);
        LeastFirst(b, a[0]);
        LessTransitive(a[0], b[0], a[0]);
        LessIrreflexive(a[0]);
      }
      var a', b' := a[1..], b[1..];
      forall x ensures x in a' <==> x in b' {
        TailMembers(a, x);
        TailMembers(b, x);
      }
      AscendingUnique(a', b');
      assert a == [a[0]] + a' == b;
    }
  }

  lemma TailMembers(a: seq<Word>, x: Word)
    requires Ascending(a) && a != []
    ensures x in a[1..] <==> x in a && x != a[0]
  {
    forall j | 0 < j < |a| ensures a[j] != a[0] {
      LessIrreflexive(a[0]);
      assert Less(a[0], a[j]);
    }
    assert a == [a[0]] + a[1..];
  }

  lemma CanonFixed(s: seq<Word>)
    requires Ascending(s)
    ensures Canon(s) == s
  {
    CanonAscending(s);
    AscendingUnique(Canon(s), s);
  }

  lemma CanonSameElements(a: seq<Word>, b: seq<Word>)
    requires SameElements(a, b)
    ensures Canon(a) == Canon(b)
  {
    CanonAscending(a);
    CanonAscending(b);
    AscendingUnique(Canon(a), Canon(b));
  }

  ghost predicate Distinct<T(!new)>(s: seq<T>) {
    forall i, j :: 0 <= i < j < |s| ==> s[i] != s[j]
  }

  /** Only a sequence without repetitions keeps its length. */
  lemma {:induction false} CanonLength(s: seq<Word>)
    ensures |Canon(s)| == |s| <==> Distinct(s)
  {
    if s != [] {
      var n := |s| - 1;
      var init := s[..n];
      CanonLength(init);
      CanonAscending(init);
      InsertLength(Canon(init), s[n]);
      if Distinct(s) {
        assert s[n] !in init;
        assert Distinct(init);
      } else if s[n] !in init {
        assert forall i :: 0 <= i < n ==> init[i] == s[i];
      }
    }
  }

  lemma {:induction false} InsertLength(s: seq<Word>, x: Word)
    requires Ascending(s)
    ensures |Insert(s, x)| == if x in s then |s| else |s| + 1
  {
    if s != [] && s[0] != x {
      assert s == [s[0]] + s[1..];
      if x in s {
        LeastFirst(s, x);
        NotBoth(x, s[0]);
      }
      InsertLength(s[1..], x);
    }
  }

  lemma NotBoth(a: Word, b: Word)
    requires Less(b, a)
    ensures !Less(a, b)
  {
    if Less(a, b) {
      LessTransitive(a, b, a);
      LessIrreflexive(a);
    }
  }
}
