/** The two Array.prototype operations the pages apply to their lists of
    movies, `map` and `filter`, as functions on sequences, together with the
    subsequence relation that says what `filter` keeps. */
module Lists {

  datatype Option<T> = None | Some(value: T)

  /** `a` can be obtained from `b` by deleting elements, keeping the order of
      the rest. */
  predicate Subsequence<T(==)>(a: seq<T>, b: seq<T>)
    decreases |b|
  {
    a == [] || (b != [] && ((a[0] == b[0] && Subsequence(a[1..], b[1..])) || Subsequence(a, b[1..])))
  }

  /** `s.map(f)`: same length, element i is f of element i. */
  function Map<A, B>(s: seq<A>, f: A -> B): (r: seq<B>)
    ensures |r| == |s|
    ensures forall i :: 0 <= i < |s| ==> r[i] == f(s[i])
  {
    if s == [] then [] else [f(s[0])] + Map(s[1..], f)
  }

  /** `s.filter(p)`. */
  function Filter<T>(s: seq<T>, p: T -> bool): seq<T>
  {
    if s == [] then []
    else if p(s[0]) then [s[0]] + Filter(s[1..], p)
    else Filter(s[1..], p)
  }

  /** What `filter` keeps: the elements satisfying p, each as often as in s,
      in their original order. */
  lemma {:induction false} FilterSpec<T(!new)>(s: seq<T>, p: T -> bool)
    ensures Subsequence(Filter(s, p), s)
    ensures forall x :: x in Filter(s, p) <==> x in s && p(x)
    ensures forall x :: multiset(Filter(s, p))[x] == if p(x) then multiset(s)[x] else 0
  {
    if s != [] {
      var rest := Filter(s[1..], p);
      FilterSpec(s[1..], p);
      assert s == [s[0]] + s[1..];
      if p(s[0]) {
        var r := [s[0]] + rest;
        assert r[1..] == rest;
      } else {
        assert rest == [] || Subsequence(rest, s[1..]);
      }
    }
  }

  /** A filter that keeps every element is the identity. */
  lemma {:induction false} FilterKeepsAll<T>(s: seq<T>, p: T -> bool)
    requires forall x :: x in s ==> p(x)
    ensures Filter(s, p) == s
  {
    if s != [] {
      assert s == [s[0]] + s[1..];
      FilterKeepsAll(s[1..], p);
    }
  }

  /** Filtering twice with the same predicate is filtering once. */
  lemma FilterIdempotent<T(!new)>(s: seq<T>, p: T -> bool)
    ensures Filter(Filter(s, p), p) == Filter(s, p)
  {
    FilterSpec(s, p);
    FilterKeepsAll(Filter(s, p), p);
  }

  /** Filtering distributes over concatenation. */
  lemma {:induction false} FilterConcat<T>(a: seq<T>, b: seq<T>, p: T -> bool)
    ensures Filter(a + b, p) == Filter(a, p) + Filter(b, p)
  {
    if a == [] {
      assert a + b == b;
      assert Filter(a, p) == [];
    } else {
      var ab := a + b;
      assert ab[0] == a[0] && ab[1..] == a[1..] + b;
      FilterConcat(a[1..], b, p);
      if p(a[0]) {
        assert Filter(ab, p) == [a[0]] + Filter(ab[1..], p);
        assert Filter(a, p) == [a[0]] + Filter(a[1..], p);
        assert [a[0]] + (Filter(a[1..], p) + Filter(b, p)) == ([a[0]] + Filter(a[1..], p)) + Filter(b, p);
      } else {
        assert Filter(ab, p) == Filter(ab[1..], p);
        assert Filter(a, p) == Filter(a[1..], p);
      }
    }
  }

  /** Exchanging two neighbours of which at most one is kept does not change
      what a filter keeps. */
  lemma FilterSwapNeighbours<T>(s: seq<T>, j: int, p: T -> bool)
    requires 0 < j < |s| && !(p(s[j - 1]) && p(s[j]))
    ensures Filter(s[j - 1 := s[j]][j := s[j - 1]], p) == Filter(s, p)
  {
    var front, back := s[..j - 1], s[j + 1..];
    assert s == front + [s[j - 1], s[j]] + back;
    assert s[j - 1 := s[j]][j := s[j - 1]] == front + [s[j], s[j - 1]] + back;
    FilterConcat(front + [s[j - 1], s[j]], back, p);
    FilterConcat(front, [s[j - 1], s[j]], p);
    FilterConcat(front + [s[j], s[j - 1]], back, p);
    FilterConcat(front, [s[j], s[j - 1]], p);
    assert [s[j - 1], s[j]][1..] == [s[j]];
    assert [s[j], s[j - 1]][1..] == [s[j - 1]];
  }

  /** Mapping then filtering is filtering then mapping when the map does not
      change what the filter decides. */
  lemma {:induction false} FilterMapCommute<A, B>(s: seq<A>, f: A -> B, p: A -> bool, q: B -> bool)
    requires forall x :: q(f(x)) == p(x)
    ensures Filter(Map(s, f), q) == Map(Filter(s, p), f)
  {
    if s != [] {
      FilterMapCommute(s[1..], f, p, q);
      assert Map(s, f) == [f(s[0])] + Map(s[1..], f);
      assert Map(s, f)[1..] == Map(s[1..], f);
      if p(s[0]) {
        assert Map(Filter(s, p), f) == [f(s[0])] + Map(Filter(s[1..], p), f);
      }
    }
  }

  /** A map that fixes every element is the identity. */
  lemma MapFixes<A>(s: seq<A>, f: A -> A)
    requires forall i :: 0 <= i < |s| ==> f(s[i]) == s[i]
    ensures Map(s, f) == s
  {
  }

  /** Membership in a filter: kept elements of the input, and only those. */
  lemma FilterMember<T(!new)>(s: seq<T>, p: T -> bool, x: T)
    ensures x in Filter(s, p) <==> x in s && p(x)
  {
    FilterSpec(s, p);
  }
}
