// Wait lists of tasks: the priority-ordered insertion of core/src/ksch.c and removal from the
// middle, on sequences. A lower number is a better priority.

module TaskQueue {
  import opened Basics

  type Prios = map<Tid, nat>

  function PrioOf(prios: Prios, t: Tid): nat {
    if t in prios then prios[t] else 0
  }

  // Every task is queued before the ones with a worse priority.
  ghost predicate Sorted(q: seq<Tid>, prios: Prios) {
    forall i, j :: 0 <= i < j < |q| ==> PrioOf(prios, q[i]) <= PrioOf(prios, q[j])
  }

  // kTCBQEnqByPrio: the place after which the list continues with a worse priority.
  function EnqPlace(q: seq<Tid>, prios: Prios, t: Tid, from: nat := 0): (i: nat)
    requires from <= |q|
    ensures from <= i <= |q|
    ensures forall j :: from <= j < i ==> PrioOf(prios, q[j]) <= PrioOf(prios, t)
    ensures i < |q| ==> PrioOf(prios, q[i]) > PrioOf(prios, t)
    decreases |q| - from
  {
    if from == |q| || PrioOf(prios, q[from]) > PrioOf(prios, t) then from else EnqPlace(q, prios, t, from + 1)
  }

  function EnqByPrio(q: seq<Tid>, prios: Prios, t: Tid): seq<Tid> {
    var i := EnqPlace(q, prios, t);
    q[..i] + [t] + q[i..]
  }

  lemma EnqIndex(q: seq<Tid>, prios: Prios, t: Tid)
    ensures var i, r := EnqPlace(q, prios, t), EnqByPrio(q, prios, t);
      |r| == |q| + 1 && forall j :: 0 <= j < |r| ==> r[j] == if j < i then q[j] else if j == i then t else q[j - 1]
  {
  }

  // The newcomer goes behind every task of a better or equal priority and before the rest.
  lemma EnqPlaceSplits(q: seq<Tid>, prios: Prios, t: Tid)
    requires Sorted(q, prios)
    ensures var i := EnqPlace(q, prios, t);
      && (forall j :: 0 <= j < i ==> PrioOf(prios, q[j]) <= PrioOf(prios, t))
      && (forall j :: i <= j < |q| ==> PrioOf(prios, q[j]) > PrioOf(prios, t))
  {
    var i := EnqPlace(q, prios, t);
    forall j | i <= j < |q| ensures PrioOf(prios, q[j]) > PrioOf(prios, t) {
      if i < j { assert PrioOf(prios, q[i]) <= PrioOf(prios, q[j]); }
    }
  }

  // q1 is q with t behind all of better or equal priority and before all of worse.
  ghost predicate Ranked(q: seq<Tid>, q1: seq<Tid>, prios: Prios, t: Tid) {
    exists i :: 0 <= i <= |q| && q1 == q[..i] + [t] + q[i..]
      && (forall j :: 0 <= j < i ==> PrioOf(prios, q[j]) <= PrioOf(prios, t))
      && (forall j :: i <= j < |q| ==> PrioOf(prios, q[j]) > PrioOf(prios, t))
  }

  lemma EnqRanks(q: seq<Tid>, prios: Prios, t: Tid)
    requires Sorted(q, prios)
    ensures Ranked(q, EnqByPrio(q, prios, t), prios, t)
  {
    var i := EnqPlace(q, prios, t);
    EnqPlaceSplits(q, prios, t);
    assert EnqByPrio(q, prios, t) == q[..i] + [t] + q[i..];
  }

  lemma RestSorted(q: seq<Tid>, prios: Prios)
    requires Sorted(q, prios) && q != []
    ensures Sorted(q[1..], prios)
  {
    assert forall i :: 0 <= i < |q[1..]| ==> q[1..][i] == q[i + 1];
  }

  // A wait list ordered by priority, first come first served among equals, stays so.
  lemma EnqKeepsOrder(q: seq<Tid>, prios: Prios, t: Tid)
    requires Sorted(q, prios)
    ensures Sorted(EnqByPrio(q, prios, t), prios)
  {
    var r := EnqByPrio(q, prios, t);
    EnqIndex(q, prios, t);
    EnqPlaceSplits(q, prios, t);
    forall a, b | 0 <= a < b < |r| ensures PrioOf(prios, r[a]) <= PrioOf(prios, r[b]) {}
  }

  lemma EnqMembers(q: seq<Tid>, prios: Prios, t: Tid)
    ensures forall x :: x in EnqByPrio(q, prios, t) <==> x == t || x in q
    ensures Distinct(q) && t !in q ==> Distinct(EnqByPrio(q, prios, t))
    ensures |EnqByPrio(q, prios, t)| == |q| + 1
  {
    var i := EnqPlace(q, prios, t);
    var r := EnqByPrio(q, prios, t);
    EnqIndex(q, prios, t);
    assert r[i] == t;
    forall x | x in q ensures x in r {
      var j :| 0 <= j < |q| && q[j] == x;
      assert r[if j < i then j else j + 1] == x;
    }
  }

  // A task leaves the list; its own priority may have changed.
  lemma {:induction false} WithoutSorted(q: seq<Tid>, t: Tid, p: Prios, p1: Prios)
    requires Distinct(q) && Sorted(q, p) && forall x :: x != t ==> PrioOf(p1, x) == PrioOf(p, x)
    ensures Sorted(Without(q, t), p1)
  {
    if q != [] {
      DistinctRest(q);
      var rest := q[1..];
      assert forall i, j :: 0 <= i < j < |rest| ==> rest[i] == q[i + 1] && rest[j] == q[j + 1];
      WithoutSorted(rest, t, p, p1);
      if q[0] == t {
        forall i, j | 0 <= i < j < |rest| ensures PrioOf(p1, rest[i]) <= PrioOf(p1, rest[j]) {
          assert PrioOf(p, q[i + 1]) <= PrioOf(p, q[j + 1]);
        }
      } else {
        WithoutMembers(rest, t);
        var r := Without(rest, t);
        forall j | 0 <= j < |r| ensures PrioOf(p1, q[0]) <= PrioOf(p1, r[j]) {
          assert r[j] in r;
          var k :| 0 <= k < |rest| && rest[k] == r[j];
          assert PrioOf(p, q[0]) <= PrioOf(p, q[k + 1]);
        }
      }
    }
  }
}
