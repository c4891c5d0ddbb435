/** Small shared vocabulary: optional values, and the cardinality facts the protocol proofs count with. */
module Prelude {

  /** A nullable column or a JavaScript `null`/`undefined`. */
  datatype Option<+T> = None | Some(value: T)

  function Min(a: int, b: int): int {
    if a <= b then a else b
  }

  function Max(a: int, b: int): int {
    if a >= b then a else b
  }

  ghost predicate Distinct<T>(s: seq<T>) {
    forall i, j :: 0 <= i < j < |s| ==> s[i] != s[j]
  }

  /** The elements of a sequence, forgetting order. */
  function Elements<T>(s: seq<T>): set<T> {
    set x | x in s
  }

  lemma AppendDistinct<T>(s: seq<T>, x: T)
    requires Distinct(s) && x !in Elements(s)
    ensures Distinct(s + [x]) && Elements(s + [x]) == Elements(s) + {x}
  {
    assert forall i :: 0 <= i < |s| ==> s[i] in Elements(s);
  }

  lemma NoElements<T>(s: seq<T>)
    ensures s == [] <==> Elements(s) == {}
  {
    if s != [] {
      assert s[0] in Elements(s);
    }
  }

  /** A smaller set has at most as many elements, and fewer when it misses one. */
  lemma {:induction false} SubsetCard<T>(a: set<T>, b: set<T>)
    requires a <= b
    ensures |a| <= |b|
    ensures a != b ==> |a| < |b|
  {
    assert b == a + (b - a);
    assert |b| == |a| + |b - a|;
  }

  lemma CardMinus<T>(a: set<T>, b: set<T>)
    requires b <= a
    ensures |a - b| == |a| - |b|
  {
    assert a == (a - b) + b;
  }

  lemma CardUnion<T>(a: set<T>, b: set<T>)
    requires a !! b
    ensures |a + b| == |a| + |b|
  {
  }

  lemma {:induction false} DistinctCard<T>(s: seq<T>)
    requires Distinct(s)
    ensures |Elements(s)| == |s|
  {
    if s == [] {
      assert Elements(s) == {};
    } else {
      var last := s[|s| - 1];
      var front := s[..|s| - 1];
      DistinctCard(front);
      assert Elements(s) == Elements(front) + {last};
      assert last !in Elements(front);
    }
  }

  /** Every finite set can be listed. */
  lemma {:induction false} Listed<T>(s: set<T>) returns (r: seq<T>)
    ensures Elements(r) == s && Distinct(r)
  {
    r := [];
    if s != {} {
      var x :| x in s;
      r := Listed(s - {x});
      AppendDistinct(r, x);
      r := r + [x];
      assert s == (s - {x}) + {x};
    }
  }

  /** `LIMIT n` without an order: some n of the members, or all of them. */
  method Limit<T>(s: set<T>, n: nat) returns (r: set<T>)
    ensures r <= s && |r| == Min(n, |s|)
  {
    r := {};
    while |r| < n && r != s
      invariant r <= s && |r| <= n
      decreases |s - r|
    {
      SubsetCard(r, s);
      var x :| x in s - r;
      assert s - (r + {x}) == (s - r) - {x};
      r := r + {x};
    }
    SubsetCard(r, s);
  }

  /** The members of a finite set, listed in some order without repetition. */
  method List<T>(s: set<T>) returns (r: seq<T>)
    ensures Elements(r) == s
    ensures Distinct(r)
  {
    r := [];
    var rest := s;
    while rest != {}
      invariant rest <= s
      invariant Elements(r) == s - rest
      invariant Distinct(r)
      decreases |rest|
    {
      var x :| x in rest;
      AppendDistinct(r, x);
      r := r + [x];
      rest := rest - {x};
    }
  }
}
