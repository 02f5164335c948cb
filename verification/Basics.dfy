// Vocabulary and small facts shared by the kernel models.

module Basics {

  datatype Option<+T> = None | Some(value: T)

  type Tid = nat

  ghost predicate Distinct<T>(s: seq<T>) {
    forall i, j :: 0 <= i < j < |s| ==> s[i] != s[j]
  }

  lemma DistinctFront<T>(s: seq<T>)
    requires Distinct(s) && s != []
    ensures var front, last := s[..|s| - 1], s[|s| - 1];
      Distinct(front) && last !in front && forall x :: x in s <==> x == last || x in front
  {
    assert s == s[..|s| - 1] + [s[|s| - 1]];
  }

  lemma DistinctRest<T>(s: seq<T>)
    requires Distinct(s) && s != []
    ensures Distinct(s[1..]) && s[0] !in s[1..] && forall x :: x in s <==> x == s[0] || x in s[1..]
  {
    assert s == [s[0]] + s[1..];
    assert forall i, j :: 0 <= i < j < |s[1..]| ==> s[1..][i] == s[i + 1] && s[1..][j] == s[j + 1];
  }

  lemma {:induction false} CardinalityOfDistinct<T>(s: seq<T>)
    requires Distinct(s)
    ensures |set x | x in s| == |s|
  {
    if s != [] {
      var last, front := s[|s| - 1], s[..|s| - 1];
      CardinalityOfDistinct(front);
      assert s == front + [last];
      assert (set x | x in s) == (set x | x in front) + {last};
    }
  }

  // Removal of one element from anywhere in a list.
  function Without<T(==)>(q: seq<T>, x: T): seq<T> {
    if q == [] then [] else if q[0] == x then q[1..] else [q[0]] + Without(q[1..], x)
  }

  lemma {:induction false} WithoutMembers<T>(q: seq<T>, x: T)
    requires Distinct(q)
    ensures Distinct(Without(q, x))
    ensures forall y :: y in Without(q, x) <==> y in q && y != x
  {
    if q != [] {
      DistinctRest(q);
      WithoutMembers(q[1..], x);
    }
  }

  // Removal of the element at an index.
  lemma RemoveAt<T>(q: seq<T>, i: nat)
    requires Distinct(q) && i < |q|
    ensures var r := q[..i] + q[i + 1..]; Distinct(r) && forall x :: x in r <==> x in q && x != q[i]
  {
    var r := q[..i] + q[i + 1..];
    assert forall j :: 0 <= j < |r| ==> r[j] == if j < i then q[j] else q[j + 1];
    forall x | x in q && x != q[i] ensures x in r {
      var j :| 0 <= j < |q| && q[j] == x;
      assert r[if j < i then j else j - 1] == x;
    }
  }

  lemma SubsetSize<T>(a: set<T>, b: set<T>)
    requires a <= b
    ensures |a| <= |b| && (|a| == |b| ==> a == b)
  {
    assert b == a + (b - a);
  }

  function UpTo(n: nat): (s: set<nat>)
    ensures forall b: nat :: b in s <==> b < n
    ensures |s| == n
  {
    if n == 0 then {} else UpTo(n - 1) + {n - 1}
  }

  lemma {:induction false} MulMono(a: nat, b: nat, k: nat)
    requires a < b
    ensures a * k + k <= b * k
    decreases b
  {
    assert b * k == (b - 1) * k + k;
    if a < b - 1 { MulMono(a, b - 1, k); }
  }

  lemma DivOfProduct(b: nat, k: nat)
    requires k > 0
    ensures (b * k) % k == 0 && (b * k) / k == b
  {
    var q, r := (b * k) / k, (b * k) % k;
    assert b * k == q * k + r;
    if q < b { MulMono(q, b, k); } else if b < q { MulMono(b, q, k); }
  }
}
