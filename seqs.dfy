/** Sequence helpers shared by the model.

    JavaScript arrays are sequences; a JavaScript `Set` built from an array is
    the sequence of its distinct elements in insertion order (first occurrence
    wins), which is what `Dedup` computes.  Every function here recurses on the
    LAST element, so that a loop which pushes onto an array keeps an invariant
    of the form `acc == F(input[..i])`. */
module Seqs {

  /** No element occurs twice. */
  predicate NoDup<T(==)>(s: seq<T>) {
    forall i, j :: 0 <= i < j < |s| ==> s[i] != s[j]
  }

  /** `a` is `b` with some elements deleted, the rest kept in order. */
  predicate Subseq<T(==)>(a: seq<T>, b: seq<T>)
    decreases |b|
  {
    if a == [] then true
    else if b == [] then false
    else if a[|a| - 1] == b[|b| - 1] then Subseq(a[..|a| - 1], b[..|b| - 1])
    else Subseq(a, b[..|b| - 1])
  }

  lemma {:induction false} SubseqDropLast<T>(a: seq<T>, b: seq<T>)
    requires a != [] && Subseq(a, b)
    ensures Subseq(a[..|a| - 1], b)
    decreases |b|, 0
  {
    var b' := b[..|b| - 1];
    if a[|a| - 1] != b[|b| - 1] {
      SubseqDropLast(a, b');
    }
    SubseqSnoc(a[..|a| - 1], b', b[|b| - 1]);
    assert b' + [b[|b| - 1]] == b;
  }

  /** Appending to the longer sequence keeps the relation. */
  lemma {:induction false} SubseqSnoc<T>(a: seq<T>, b: seq<T>, x: T)
    requires Subseq(a, b)
    ensures Subseq(a, b + [x])
    decreases |b|, 1
  {
    var b' := b + [x];
    assert b'[..|b'| - 1] == b;
    if a != [] && a[|a| - 1] == x {
      SubseqDropLast(a, b);
    }
  }

  /** Appending the same element to both sides keeps the relation. */
  lemma SubseqBothSnoc<T>(a: seq<T>, b: seq<T>, x: T)
    requires Subseq(a, b)
    ensures Subseq(a + [x], b + [x])
  {
    assert (a + [x])[..|a|] == a;
    assert (b + [x])[..|b|] == b;
  }

  /** Order-preserving filter (`Array.prototype.filter`): every occurrence
      of an element that satisfies `p` is kept, and no other. */
  function Filter<T(==,!new)>(s: seq<T>, p: T -> bool): (r: seq<T>)
    ensures |r| <= |s|
    ensures forall x :: x in r <==> x in s && p(x)
    ensures Subseq(r, s)
    ensures NoDup(s) ==> NoDup(r)
  {
    if s == [] then []
    else
      var init, last := s[..|s| - 1], s[|s| - 1];
      assert s == init + [last];
      var f := Filter(init, p);
      if p(last) then
        SubseqBothSnoc(f, init, last);
        f + [last]
      else
        SubseqSnoc(f, init, last);
        f
  }

  /** `filter` keeps every occurrence of an element that satisfies `p`, and
      no occurrence of any other. */
  lemma {:induction false} FilterKeepsOccurrences<T(!new)>(s: seq<T>, p: T -> bool)
    ensures forall x :: multiset(Filter(s, p))[x] == if p(x) then multiset(s)[x] else 0
  {
    if s != [] {
      var init, last := s[..|s| - 1], s[|s| - 1];
      assert s == init + [last];
      FilterKeepsOccurrences(init, p);
      assert multiset(s) == multiset(init) + multiset{last};
      if p(last) {
        assert Filter(s, p) == Filter(init, p) + [last];
        assert multiset(Filter(s, p)) == multiset(Filter(init, p)) + multiset{last};
      } else {
        assert Filter(s, p) == Filter(init, p);
      }
    }
  }

  /** The distinct elements of `s` in order of first occurrence: the
      iteration order of `new Set(s)`. */
  function Dedup<T(==,!new)>(s: seq<T>): (r: seq<T>)
    ensures NoDup(r)
    ensures forall x :: x in r <==> x in s
    ensures Subseq(r, s)
    ensures |r| <= |s|
  {
    if s == [] then []
    else
      var init, last := s[..|s| - 1], s[|s| - 1];
      assert s == init + [last];
      var d := Dedup(init);
      if last in d then
        SubseqSnoc(d, init, last);
        d
      else
        SubseqBothSnoc(d, init, last);
        d + [last]
  }

  /** A sequence that is already duplicate-free is its own `Dedup`. */
  lemma {:induction false} DedupOfNoDup<T(!new)>(s: seq<T>)
    requires NoDup(s)
    ensures Dedup(s) == s
  {
    if s != [] {
      var init := s[..|s| - 1];
      DedupOfNoDup(init);
      assert s == init + [s[|s| - 1]];
    }
  }

  /** `x` occurs in `s` before any occurrence of `y`. */
  ghost predicate OccursBefore<T>(s: seq<T>, x: T, y: T) {
    exists k :: 0 <= k < |s| && s[k] == x && forall l :: 0 <= l <= k ==> s[l] != y
  }

  /** `Dedup` keeps first occurrences: each element it lists comes, in `s`,
      before any occurrence of the elements listed after it. */
  lemma {:induction false} DedupFirstAppearance<T(!new)>(s: seq<T>)
    ensures var r := Dedup(s);
      forall i, j :: 0 <= i < j < |r| ==> OccursBefore(s, r[i], r[j])
  {
    if s != [] {
      var init, last := s[..|s| - 1], s[|s| - 1];
      DedupFirstAppearance(init);
      assert forall i, j :: 0 <= i < j < |Dedup(init)| ==> OccursBefore(init, Dedup(init)[i], Dedup(init)[j]);
      var d, r := Dedup(init), Dedup(s);
      assert s == init + [last];
      assert r == if last in d then d else d + [last];
      forall i, j | 0 <= i < j < |r|
        ensures OccursBefore(s, r[i], r[j])
      {
        assert r[i] == d[i];
        if j < |d| {
          assert r[j] == d[j];
          assert OccursBefore(init, d[i], d[j]);
          OccursBeforeSnoc(init, last, d[i], d[j]);
        } else {
          assert d[i] in init;
          OccursBeforeNew(init, last, d[i]);
        }
      }
    }
  }

  lemma OccursBeforeSnoc<T>(s: seq<T>, last: T, x: T, y: T)
    requires OccursBefore(s, x, y)
    ensures OccursBefore(s + [last], x, y)
  {
    var k :| 0 <= k < |s| && s[k] == x && forall l :: 0 <= l <= k ==> s[l] != y;
    assert (s + [last])[k] == x;
    assert forall l :: 0 <= l <= k ==> (s + [last])[l] == s[l];
  }

  lemma OccursBeforeNew<T>(s: seq<T>, last: T, x: T)
    requires x in s && last !in s
    ensures OccursBefore(s + [last], x, last)
  {
    var k :| 0 <= k < |s| && s[k] == x;
    assert (s + [last])[k] == x;
    assert forall l :: 0 <= l <= k ==> (s + [last])[l] == s[l] && s[l] in s;
  }

  /** `Array.prototype.map`. */
  function Map<A, B>(s: seq<A>, f: A -> B): (r: seq<B>)
    ensures |r| == |s|
    ensures forall i :: 0 <= i < |s| ==> r[i] == f(s[i])
  {
    seq(|s|, i requires 0 <= i < |s| => f(s[i]))
  }

  /** A non-empty sequence is its prefix followed by its last element. */
  lemma InitLast<T>(s: seq<T>)
    requires s != []
    ensures s[..|s| - 1] + [s[|s| - 1]] == s
  {
  }

  /** Appending five pieces, grouped either way. */
  lemma AppendFour<T>(a: seq<T>, b: seq<T>, c: seq<T>, d: seq<T>, e: seq<T>)
    ensures a + (b + ((c + d) + e)) == (((a + b) + c) + d) + e
  {
  }

  /** A filter that rejects every element keeps nothing. */
  lemma {:induction false} FilterNone<T(!new)>(s: seq<T>, p: T -> bool)
    requires forall x :: x in s ==> !p(x)
    ensures Filter(s, p) == []
  {
    if s != [] {
      var init := s[..|s| - 1];
      assert forall x :: x in init ==> x in s;
      FilterNone(init, p);
      assert s[|s| - 1] in s;
    }
  }

  /** The elements of `s` as a set. */
  function Elements<T(!new)>(s: seq<T>): (r: set<T>)
    ensures forall x :: x in r <==> x in s
  {
    set x | x in s
  }
}
