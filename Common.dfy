/** Values shared by every part of the model: Java's nullable references as
    `Option`, and the order-preserving filter that both the JPQL queries and
    the Java stream pipelines amount to. */
module Common {

  /** A Java reference that may be null. */
  datatype Option<+T> = None | Some(value: T)

  /** The elements of `s` that satisfy `p`, in their original order
      (a stream `filter` or a SQL WHERE over a listing). */
  function Filter<T>(s: seq<T>, p: T -> bool): seq<T> {
    if s == [] then []
    else if p(s[0]) then [s[0]] + Filter(s[1..], p)
    else Filter(s[1..], p)
  }

  /** A filter keeps exactly the elements that satisfy the predicate, each
      no more often than the input holds it. */
  lemma {:induction false} FilterSound<T>(s: seq<T>, p: T -> bool)
    ensures |Filter(s, p)| <= |s|
    ensures multiset(Filter(s, p)) <= multiset(s)
    ensures forall i :: 0 <= i < |Filter(s, p)| ==> Filter(s, p)[i] in s && p(Filter(s, p)[i])
    ensures forall i :: 0 <= i < |s| && p(s[i]) ==> s[i] in Filter(s, p)
  {
    if s != [] {
      FilterSound(s[1..], p);
      assert s == [s[0]] + s[1..];
      if p(s[0]) {
        var r := Filter(s, p);
        assert r == [s[0]] + Filter(s[1..], p);
        assert forall i :: 1 <= i < |r| ==> r[i] == Filter(s[1..], p)[i - 1];
      }
      assert forall i :: 1 <= i < |s| ==> s[i] == s[1..][i - 1];
    }
  }

  /** Filtering commutes with concatenation. */
  lemma {:induction false} FilterAppend<T>(a: seq<T>, b: seq<T>, p: T -> bool)
    ensures Filter(a + b, p) == Filter(a, p) + Filter(b, p)
  {
    if a == [] {
      assert a + b == b;
    } else {
      assert (a + b)[1..] == a[1..] + b;
      FilterAppend(a[1..], b, p);
    }
  }

  /** Two predicates that agree on every element of `s` filter it alike. */
  lemma {:induction false} FilterCongruent<T>(s: seq<T>, p: T -> bool, q: T -> bool)
    requires forall i :: 0 <= i < |s| ==> (p(s[i]) <==> q(s[i]))
    ensures Filter(s, p) == Filter(s, q)
  {
    if s != [] {
      FilterCongruent(s[1..], p, q);
    }
  }

  /** Filtering twice keeps what satisfies both predicates. */
  lemma {:induction false} FilterFilter<T>(s: seq<T>, p: T -> bool, q: T -> bool)
    ensures Filter(Filter(s, p), q) == Filter(s, (x: T) => p(x) && q(x))
  {
    if s != [] {
      FilterFilter(s[1..], p, q);
      if p(s[0]) {
        assert Filter(s, p) == [s[0]] + Filter(s[1..], p);
        assert Filter(s, p)[1..] == Filter(s[1..], p);
      }
    }
  }

  /** A filter that keeps everything is the identity. */
  lemma {:induction false} FilterAll<T>(s: seq<T>, p: T -> bool)
    requires forall i :: 0 <= i < |s| ==> p(s[i])
    ensures Filter(s, p) == s
  {
    if s != [] {
      FilterAll(s[1..], p);
    }
  }

  /** A filter that keeps nothing gives the empty sequence. */
  lemma {:induction false} FilterNone<T>(s: seq<T>, p: T -> bool)
    requires forall i :: 0 <= i < |s| ==> !p(s[i])
    ensures Filter(s, p) == []
  {
    if s != [] {
      FilterNone(s[1..], p);
    }
  }
}
