/**
 * The bookkeeping invariants of DebugRenderer's two slot pools, stated on
 * sequence values, and the transitions its methods make on them.
 *
 * The per-slot conditions are named predicates, so that the pool invariants
 * speak about a slot only where a proof names that slot.
 */
module PoolInvariants {
  import opened Wrappers
  import opened SlotPool
  import opened LineLists
  import opened TextNodes

  /** Slot x of the line pool holds an empty list. */
  predicate EmptySlot(lists: seq<seq<real>>, x: int) {
    0 <= x < |lists| && lists[x] == []
  }

  /** Slot x of the text pool has a node (it was created once). */
  predicate HasNode(nodes: seq<Option<TextNode>>, x: int) {
    0 <= x < |nodes| && nodes[x].Some?
  }

  /** Slot i is free or queued exactly when its node is not enabled. */
  ghost predicate Accounted(nodes: seq<Option<TextNode>>, free: seq<int>, i: int)
    requires 0 <= i < |nodes|
  {
    i in free <==> !Enabled(nodes[i])
  }

  /** Slot i has a node exactly when it was attached. */
  ghost predicate Recorded(nodes: seq<Option<TextNode>>, attached: seq<int>, i: int)
    requires 0 <= i < |nodes|
  {
    nodes[i].Some? <==> i in attached
  }

  /**
   * The line pool: the free stack names each slot at most once, every slot on
   * it holds an empty list, and every list holds whole vertices (6 floats). An
   * empty list need not be on the stack: a slot taken by a call that added no
   * floats is never reclaimed.
   */
  ghost predicate LinePoolOk(lists: seq<seq<real>>, stack: seq<int>) {
    && Distinct(stack)
    && (forall x :: x in stack ==> EmptySlot(lists, x))
    && (forall i :: 0 <= i < |lists| ==> |lists[i]| % 6 == 0)
  }

  /**
   * The text pool: the free stack and the freeing queue together name each
   * slot at most once and name exactly the slots whose node is not enabled
   * (so no text slot is ever lost); queued slots have a node; the attached
   * list names each created node once.
   */
  ghost predicate TextPoolOk(nodes: seq<Option<TextNode>>, avail: seq<int>, freeing: seq<int>, attached: seq<int>) {
    && Distinct(avail + freeing)
    && InRange(avail + freeing, |nodes|)
    && (forall i :: 0 <= i < |nodes| ==> Accounted(nodes, avail + freeing, i))
    && (forall x :: x in freeing ==> HasNode(nodes, x))
    && Distinct(attached)
    && InRange(attached, |nodes|)
    && (forall i :: 0 <= i < |nodes| ==> Recorded(nodes, attached, i))
  }

  /** The free stack of a valid line pool names only slots of the pool. */
  lemma LineStackInRange(lists: seq<seq<real>>, stack: seq<int>)
    requires LinePoolOk(lists, stack)
    ensures InRange(stack, |lists|)
  {
    forall x | x in stack ensures 0 <= x < |lists| {
      assert EmptySlot(lists, x);
    }
  }

  /** The state the constructor builds: every slot free, stacked 0..n-1. */
  lemma {:induction false} InitialPools(lists: seq<seq<real>>, stack: seq<int>, nodes: seq<Option<TextNode>>, avail: seq<int>)
    requires |stack| == |lists| && forall k :: 0 <= k < |lists| ==> stack[k] == k && lists[k] == []
    requires |avail| == |nodes| && forall k :: 0 <= k < |nodes| ==> avail[k] == k && nodes[k] == None
    ensures LinePoolOk(lists, stack)
    ensures TextPoolOk(nodes, avail, [], [])
  {
    IncreasingDistinct(stack);
    IncreasingDistinct(avail);
    forall x | x in stack ensures EmptySlot(lists, x) {
      var k :| 0 <= k < |stack| && stack[k] == x;
    }
    assert avail + [] == avail;
    forall x | x in avail ensures 0 <= x < |nodes| {
      var k :| 0 <= k < |avail| && avail[k] == x;
    }
    forall i | 0 <= i < |nodes| ensures Accounted(nodes, avail, i) && Recorded(nodes, [], i) {
      assert avail[i] == i;
    }
  }

  /** Taking the top line slot and loading a whole-vertex list into it. */
  lemma LinePop(lists: seq<seq<real>>, stack: seq<int>, list: seq<real>)
    requires LinePoolOk(lists, stack) && |stack| > 0 && |list| % 6 == 0
    ensures 0 <= stack[|stack| - 1] < |lists|
    ensures LinePoolOk(lists[stack[|stack| - 1] := list], stack[..|stack| - 1])
  {
    var top := stack[|stack| - 1];
    var rest := stack[..|stack| - 1];
    assert top in stack && EmptySlot(lists, top);
    PopDistinct(stack);
    var lists' := lists[top := list];
    forall x | x in rest ensures EmptySlot(lists', x) {
      assert x in stack && x != top;
      assert EmptySlot(lists, x);
    }
    forall i | 0 <= i < |lists'| ensures |lists'[i]| % 6 == 0 {
      if i != top {
        assert |lists[i]| % 6 == 0;
      }
    }
  }

  /**
   * Taking the top text slot and enabling a node in it: the slot was not
   * enabled, and the invariant holds with the node attached if it is new.
   */
  lemma TextPop(nodes: seq<Option<TextNode>>, avail: seq<int>, freeing: seq<int>, attached: seq<int>, node: TextNode)
    requires TextPoolOk(nodes, avail, freeing, attached) && |avail| > 0 && node.enabled
    ensures 0 <= avail[|avail| - 1] < |nodes|
    ensures !Enabled(nodes[avail[|avail| - 1]])
    ensures var x := avail[|avail| - 1];
      TextPoolOk(nodes[x := Some(node)], avail[..|avail| - 1], freeing,
                 if nodes[x].Some? then attached else attached + [x])
  {
    var x := avail[|avail| - 1];
    var rest := avail[..|avail| - 1];
    var free := avail + freeing;
    var free' := rest + freeing;
    assert avail == rest + [x];
    assert free == rest + [x] + freeing;
    assert x in free;
    assert 0 <= x < |nodes|;
    assert Accounted(nodes, free, x);
    assert multiset(free) == multiset(free') + multiset{x};
    assert multiset(free)[x] <= 1;
    forall v ensures multiset(free')[v] <= 1 {
      assert multiset(free)[v] <= 1;
    }
    assert x !in free' by {
      assert multiset(free')[x] == 0;
    }
    forall y | y in free' ensures y in free {
      assert y in multiset(free');
    }
    var nodes' := nodes[x := Some(node)];
    var attached' := if nodes[x].Some? then attached else attached + [x];
    assert Recorded(nodes, attached, x);
    if nodes[x].None? {
      PushDistinct(attached, x);
    }
    forall i | 0 <= i < |nodes'| ensures Accounted(nodes', free', i) && Recorded(nodes', attached', i) {
      assert Recorded(nodes, attached, i);
      if i != x {
        assert Accounted(nodes, free, i);
        assert i in free' <==> i in free by {
          assert i in multiset(free') <==> i in multiset(free);
        }
      }
    }
    forall y | y in freeing ensures HasNode(nodes', y) {
      assert HasNode(nodes, y);
    }
  }

  /**
   * Draining the freeing queue onto the free stack, top of the queue first,
   * keeps the text pool invariant: the same slots are free, each once.
   */
  lemma TextDrainAll(nodes: seq<Option<TextNode>>, avail: seq<int>, freeing: seq<int>, attached: seq<int>)
    requires TextPoolOk(nodes, avail, freeing, attached)
    ensures TextPoolOk(nodes, avail + Reversed(freeing), [], attached)
  {
    var before := avail + freeing;
    var after := avail + Reversed(freeing) + [];
    ReversedSameElements(freeing);
    assert multiset(after) == multiset(before);
    forall v ensures multiset(after)[v] <= 1 {
      assert multiset(before)[v] <= 1;
    }
    forall y ensures y in after <==> y in before {
      assert y in after <==> y in multiset(after);
      assert y in before <==> y in multiset(before);
    }
    forall i | 0 <= i < |nodes| ensures Accounted(nodes, after, i) {
      assert Accounted(nodes, before, i);
    }
  }

  // ---------------------------------------------------------------------------
  // The expiry pass

  /** The slots a line expiry pass reclaims are named once each. */
  lemma ExpiredLinesDistinct(lists: seq<seq<real>>, lifetimes: seq<real>, n: nat)
    requires n <= |lists| && n <= |lifetimes|
    ensures Distinct(ExpiredLines(lists, lifetimes, n))
  {
    ExpiredLinesMembers(lists, lifetimes, n);
    IncreasingDistinct(ExpiredLines(lists, lifetimes, n));
  }

  /** A reclaimed line slot held floats, so it was not on the free stack. */
  lemma ExpiredLinesNotFree(lists: seq<seq<real>>, lifetimes: seq<real>, stack: seq<int>, n: nat)
    requires LinePoolOk(lists, stack) && n <= |lists| && n <= |lifetimes|
    ensures forall x :: x in ExpiredLines(lists, lifetimes, n) ==> x !in stack && 0 <= x < |lists| && !EmptySlot(lists, x)
  {
    forall x | x in ExpiredLines(lists, lifetimes, n) ensures x !in stack && 0 <= x < |lists| && !EmptySlot(lists, x) {
      ExpiredLinesMembers(lists, lifetimes, n);
    }
  }

  /**
   * The line slots one expiry pass reclaims are not on the free stack already,
   * so pushing them all never overflows it: this holds for every prefix of the
   * pass.
   */
  lemma LineExpiredFits(lists: seq<seq<real>>, lifetimes: seq<real>, stack: seq<int>, n: nat)
    requires LinePoolOk(lists, stack) && n <= |lists| && n <= |lifetimes|
    ensures |stack| + |ExpiredLines(lists, lifetimes, n)| <= |lists|
  {
    var e := ExpiredLines(lists, lifetimes, n);
    ExpiredLinesDistinct(lists, lifetimes, n);
    ExpiredLinesNotFree(lists, lifetimes, stack, n);
    DisjointDistinct(stack, e);
    LineStackInRange(lists, stack);
    assert InRange(stack + e, |lists|);
    DistinctBound(stack + e, |lists|);
  }

  /**
   * A whole line expiry pass keeps the line pool invariant: the reclaimed slots
   * are emptied and pushed, every other list keeps its floats or is emptied.
   */
  lemma LineExpirePass(lists: seq<seq<real>>, lifetimes: seq<real>, lists': seq<seq<real>>, stack: seq<int>)
    requires LinePoolOk(lists, stack) && |lifetimes| == |lists| == |lists'|
    requires forall k :: 0 <= k < |lists| ==> lists'[k] == ExpireLine(LineSlot(lists[k], lifetimes[k])).floats
    ensures LinePoolOk(lists', stack + ExpiredLines(lists, lifetimes, |lists|))
  {
    var e := ExpiredLines(lists, lifetimes, |lists|);
    ExpiredLinesDistinct(lists, lifetimes, |lists|);
    ExpiredLinesNotFree(lists, lifetimes, stack, |lists|);
    DisjointDistinct(stack, e);
    LineExpirePassEmpty(lists, lifetimes, lists', stack);
    LineExpirePassWhole(lists, lifetimes, lists', stack);
  }

  /** A line expiry pass keeps every list a whole number of vertices. */
  lemma LineExpirePassWhole(lists: seq<seq<real>>, lifetimes: seq<real>, lists': seq<seq<real>>, stack: seq<int>)
    requires LinePoolOk(lists, stack) && |lifetimes| == |lists| == |lists'|
    requires forall k :: 0 <= k < |lists| ==> lists'[k] == ExpireLine(LineSlot(lists[k], lifetimes[k])).floats
    ensures forall i :: 0 <= i < |lists'| ==> |lists'[i]| % 6 == 0
  {
    forall i | 0 <= i < |lists'| ensures |lists'[i]| % 6 == 0 {
      assert |lists[i]| % 6 == 0;
    }
  }

  /** After a line expiry pass every slot on the grown free stack holds an empty list. */
  lemma LineExpirePassEmpty(lists: seq<seq<real>>, lifetimes: seq<real>, lists': seq<seq<real>>, stack: seq<int>)
    requires LinePoolOk(lists, stack) && |lifetimes| == |lists| == |lists'|
    requires forall k :: 0 <= k < |lists| ==> lists'[k] == ExpireLine(LineSlot(lists[k], lifetimes[k])).floats
    ensures forall x :: x in stack + ExpiredLines(lists, lifetimes, |lists|) ==> EmptySlot(lists', x)
  {
    var e := ExpiredLines(lists, lifetimes, |lists|);
    forall x | x in stack + e ensures EmptySlot(lists', x) {
      if x in stack {
        assert EmptySlot(lists, x);
      } else {
        ExpiredLinesMembers(lists, lifetimes, |lists|);
      }
    }
  }

  /** The slots a text expiry pass queues are named once each. */
  lemma ExpiredTextDistinct(nodes: seq<Option<TextNode>>, lifetimes: seq<real>, n: nat)
    requires n <= |nodes| && n <= |lifetimes|
    ensures Distinct(ExpiredText(nodes, lifetimes, n))
  {
    ExpiredTextMembers(nodes, lifetimes, n);
    IncreasingDistinct(ExpiredText(nodes, lifetimes, n));
  }

  /** A queued text slot was enabled, so it was neither free nor queued. */
  lemma ExpiredTextNotFree(nodes: seq<Option<TextNode>>, lifetimes: seq<real>, avail: seq<int>, freeing: seq<int>,
                           attached: seq<int>, n: nat)
    requires TextPoolOk(nodes, avail, freeing, attached) && n <= |nodes| && n <= |lifetimes|
    ensures forall x :: x in ExpiredText(nodes, lifetimes, n) ==> x !in avail + freeing && 0 <= x < |nodes|
  {
    forall x | x in ExpiredText(nodes, lifetimes, n) ensures x !in avail + freeing && 0 <= x < |nodes| {
      ExpiredTextMembers(nodes, lifetimes, n);
      assert Accounted(nodes, avail + freeing, x);
    }
  }

  /**
   * The text slots one expiry pass queues are all enabled, so none is free or
   * queued already, and queueing them all never overflows the queue: this
   * holds for every prefix of the pass.
   */
  lemma TextExpiredFits(nodes: seq<Option<TextNode>>, lifetimes: seq<real>, avail: seq<int>, freeing: seq<int>,
                        attached: seq<int>, n: nat)
    requires TextPoolOk(nodes, avail, freeing, attached) && n <= |nodes| && n <= |lifetimes|
    ensures |avail| + |freeing| + |ExpiredText(nodes, lifetimes, n)| <= |nodes|
  {
    var e := ExpiredText(nodes, lifetimes, n);
    ExpiredTextDistinct(nodes, lifetimes, n);
    ExpiredTextNotFree(nodes, lifetimes, avail, freeing, attached, n);
    DisjointDistinct(avail + freeing, e);
    assert InRange(avail + freeing + e, |nodes|);
    DistinctBound(avail + freeing + e, |nodes|);
  }

  /**
   * A whole text expiry pass keeps the text pool invariant: the expired nodes
   * are disabled and queued behind the slots already queued.
   */
  lemma TextExpirePass(nodes: seq<Option<TextNode>>, lifetimes: seq<real>, nodes': seq<Option<TextNode>>,
                       avail: seq<int>, freeing: seq<int>, attached: seq<int>)
    requires TextPoolOk(nodes, avail, freeing, attached) && |lifetimes| == |nodes| == |nodes'|
    requires forall k :: 0 <= k < |nodes| ==> nodes'[k] == ExpireText(TextSlot(nodes[k], lifetimes[k])).node
    ensures TextPoolOk(nodes', avail, freeing + ExpiredText(nodes, lifetimes, |nodes|), attached)
  {
    TextExpirePassDistinct(nodes, lifetimes, avail, freeing, attached);
    TextExpirePassSlots(nodes, lifetimes, nodes', avail, freeing, attached);
  }

  /** After a text expiry pass the free stack and the queue name each slot once, and only slots of the pool. */
  lemma TextExpirePassDistinct(nodes: seq<Option<TextNode>>, lifetimes: seq<real>,
                               avail: seq<int>, freeing: seq<int>, attached: seq<int>)
    requires TextPoolOk(nodes, avail, freeing, attached) && |lifetimes| == |nodes|
    ensures Distinct(avail + (freeing + ExpiredText(nodes, lifetimes, |nodes|)))
    ensures InRange(avail + (freeing + ExpiredText(nodes, lifetimes, |nodes|)), |nodes|)
  {
    var e := ExpiredText(nodes, lifetimes, |nodes|);
    var free := avail + freeing;
    ExpiredTextDistinct(nodes, lifetimes, |nodes|);
    ExpiredTextNotFree(nodes, lifetimes, avail, freeing, attached, |nodes|);
    DisjointDistinct(free, e);
    assert avail + (freeing + e) == free + e;
  }

  /** After a text expiry pass each slot is accounted for, queued slots have nodes, and the attached list still matches. */
  lemma TextExpirePassSlots(nodes: seq<Option<TextNode>>, lifetimes: seq<real>, nodes': seq<Option<TextNode>>,
                            avail: seq<int>, freeing: seq<int>, attached: seq<int>)
    requires TextPoolOk(nodes, avail, freeing, attached) && |lifetimes| == |nodes| == |nodes'|
    requires forall k :: 0 <= k < |nodes| ==> nodes'[k] == ExpireText(TextSlot(nodes[k], lifetimes[k])).node
    ensures forall i :: 0 <= i < |nodes'| ==>
      Accounted(nodes', avail + (freeing + ExpiredText(nodes, lifetimes, |nodes|)), i) && Recorded(nodes', attached, i)
    ensures forall x :: x in freeing + ExpiredText(nodes, lifetimes, |nodes|) ==> HasNode(nodes', x)
  {
    var e := ExpiredText(nodes, lifetimes, |nodes|);
    var free := avail + freeing;
    var free' := avail + (freeing + e);
    assert free' == free + e;
    forall i | 0 <= i < |nodes'| ensures Accounted(nodes', free', i) && Recorded(nodes', attached, i) {
      ExpiredTextMembers(nodes, lifetimes, |nodes|);
      assert Accounted(nodes, free, i);
      assert Recorded(nodes, attached, i);
    }
    forall x | x in freeing + e ensures HasNode(nodes', x) {
      ExpiredTextMembers(nodes, lifetimes, |nodes|);
      if x in freeing {
        assert HasNode(nodes, x);
      }
    }
  }
}
