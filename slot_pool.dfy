/**
 * Facts about the free-index stacks that DebugRenderer keeps for its line-list
 * and text-node pools: a stack is a sequence of slot indices, top last.
 */
module SlotPool {

  /** No index occurs twice. Stated on the multiset, so any reordering keeps it. */
  ghost predicate Distinct(s: seq<int>) {
    forall v :: multiset(s)[v] <= 1
  }

  /** Every index names a slot of a pool with `n` slots. */
  ghost predicate InRange(s: seq<int>, n: int) {
    forall x :: x in s ==> 0 <= x < n
  }

  /** The order in which a stack's elements come off it. */
  function Reversed(s: seq<int>): (r: seq<int>)
    ensures |r| == |s|
  {
    if s == [] then [] else Reversed(s[1..]) + [s[0]]
  }

  /** Reversing keeps the elements: the same indices, each as often. */
  lemma {:induction false} ReversedSameElements(s: seq<int>)
    ensures multiset(Reversed(s)) == multiset(s)
  {
    if s != [] {
      ReversedSameElements(s[1..]);
      assert s == [s[0]] + s[1..];
    }
  }

  /** Element k of the reversal is element k from the back. */
  lemma {:induction false} ReversedOrder(s: seq<int>)
    ensures forall k :: 0 <= k < |s| ==> Reversed(s)[k] == s[|s| - 1 - k]
  {
    if s != [] {
      ReversedOrder(s[1..]);
    }
  }

  /** Taking one more element off the back of a stack extends the order in which it came off. */
  lemma ReversedStep(s: seq<int>, n: nat)
    requires 0 < n <= |s|
    ensures Reversed(s[n..]) + [s[n - 1]] == Reversed(s[n - 1..])
  {
    assert s[n - 1..][1..] == s[n..];
  }

  /** Pigeonhole: a pool of `n` slots cannot have more than `n` distinct free indices. */
  lemma {:induction false} DistinctBound(s: seq<int>, n: nat)
    requires Distinct(s) && InRange(s, n)
    ensures |s| <= n
    decreases n
  {
    if |s| > 0 {
      assert s[0] in s && 0 <= s[0] < n;
      var m := n - 1;
      if m in s {
        var p :| 0 <= p < |s| && s[p] == m;
        var t := s[..p] + s[p + 1..];
        assert s == s[..p] + [m] + s[p + 1..];
        assert multiset(s) == multiset(t) + multiset{m};
        assert multiset(s)[m] <= 1;
        forall v ensures multiset(t)[v] <= 1 {
          assert multiset(s)[v] <= 1;
        }
        forall x | x in t ensures 0 <= x < m {
          assert x in multiset(t) && x in s;
        }
        DistinctBound(t, m);
      } else {
        DistinctBound(s, m);
      }
    }
  }

  /** A strictly increasing sequence of indices has no duplicates. */
  lemma {:induction false} IncreasingDistinct(s: seq<int>)
    requires forall j, k :: 0 <= j < k < |s| ==> s[j] < s[k]
    ensures Distinct(s)
  {
    if |s| > 0 {
      var p := s[..|s| - 1];
      var last := s[|s| - 1];
      IncreasingDistinct(p);
      assert s == p + [last];
      assert forall k :: 0 <= k < |p| ==> p[k] < last;
      assert last !in p;
      assert multiset(s) == multiset(p) + multiset{last};
    }
  }

  /** Pushing an index that is not yet on a stack keeps the stack free of duplicates. */
  lemma PushDistinct(s: seq<int>, x: int)
    requires Distinct(s) && x !in s
    ensures Distinct(s + [x])
  {
    assert multiset(s + [x]) == multiset(s) + multiset{x};
    assert multiset(s)[x] == 0;
  }

  /** Taking the top off a stack leaves a duplicate-free stack that no longer holds it. */
  lemma PopDistinct(s: seq<int>)
    requires Distinct(s) && |s| > 0
    ensures Distinct(s[..|s| - 1])
    ensures s[|s| - 1] !in s[..|s| - 1]
  {
    var p := s[..|s| - 1];
    var top := s[|s| - 1];
    assert s == p + [top];
    assert multiset(s) == multiset(p) + multiset{top};
    assert multiset(s)[top] <= 1;
    forall v ensures multiset(p)[v] <= 1 {
      assert multiset(s)[v] <= 1;
    }
  }

  /** Joining two duplicate-free stacks with no index in common gives a duplicate-free stack. */
  lemma DisjointDistinct(a: seq<int>, b: seq<int>)
    requires Distinct(a) && Distinct(b)
    requires forall x :: x in b ==> x !in a
    ensures Distinct(a + b)
  {
    assert multiset(a + b) == multiset(a) + multiset(b);
    forall v ensures multiset(a + b)[v] <= 1 {
      if v in b {
        assert v !in a;
        assert multiset(a)[v] == 0;
      } else {
        assert multiset(b)[v] == 0;
      }
    }
  }
}
