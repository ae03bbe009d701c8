/**
 * DebugRenderer: the debug-draw coordinator. It owns two fixed-capacity slot
 * pools (line lists and text nodes), each with a stack of free indices, per-slot
 * lifetimes, a deferred-free queue for text slots, and two mesh/instance pairs
 * that line geometry is uploaded to in turn.
 */
module DebugDraw {
  import opened Wrappers
  import opened SlotPool
  import opened LineLists
  import opened TextNodes
  import opened PoolInvariants

  /** One of the two line mesh / mesh instance pairs: what is enabled and what was last uploaded. */
  datatype LineMeshPair = LineMeshPair(meshEnabled: bool, instanceEnabled: bool, vertices: seq<real>, vertexCount: int)

  class DebugRenderer {
    /** NUM_LineLists and NUM_TextSceneNodes. */
    const numLineLists: nat
    const numTextNodes: nat

    // Line-list pool
    /** m_lineLists: one growable float list per slot. */
    const lineLists: array<seq<real>>
    /** m_lineListLifetimes */
    const lineListLifetimes: array<real>
    /** m_availableLineLists / m_numAvailableLineLists: the free-slot stack, top last. */
    const availableLineLists: array<int>
    var numAvailableLineLists: nat

    // Text-node pool
    /** m_hSNPool: the node handle of each slot, None until the slot is first used. */
    const textNodes: array<Option<TextNode>>
    /** m_lifetimes */
    const lifetimes: array<real>
    /** m_hAvailableSNs / m_numAvaialble: the free-slot stack, top last. */
    const availableTextNodes: array<int>
    var numAvailableTextNodes: nat
    /** m_hFreeingSNs / m_numFreeing: slots disabled by the last expiry pass, freed at the next. */
    const freeingTextNodes: array<int>
    var numFreeing: nat
    /** Slots whose node was attached to this scene node (addComponent), in creation order. */
    var attachedTextNodes: seq<int>

    // Double-buffered line meshes
    /** m_hLineMeshes / m_hLineMeshInstances */
    const lineMeshes: array<LineMeshPair>
    /** m_currentlyDrawnLineMesh */
    var currentlyDrawnLineMesh: nat

    ghost function Repr(): set<object> {
      {lineLists, lineListLifetimes, availableLineLists, textNodes, lifetimes,
       availableTextNodes, freeingTextNodes, lineMeshes}
    }

    ghost predicate Valid()
      reads this, Repr()
    {
      && lineLists.Length == numLineLists
      && lineListLifetimes.Length == numLineLists
      && availableLineLists.Length == numLineLists
      && textNodes.Length == numTextNodes
      && lifetimes.Length == numTextNodes
      && availableTextNodes.Length == numTextNodes
      && freeingTextNodes.Length == numTextNodes
      && lineListLifetimes != lifetimes
      && availableLineLists != availableTextNodes
      && availableLineLists != freeingTextNodes
      && availableTextNodes != freeingTextNodes
      && lineMeshes.Length == 2
      && currentlyDrawnLineMesh < 2
      && numAvailableLineLists <= numLineLists
      && numAvailableTextNodes + numFreeing <= numTextNodes
      && LinePoolOk(lineLists[..], availableLineLists[..numAvailableLineLists])
      && TextPoolOk(textNodes[..], availableTextNodes[..numAvailableTextNodes],
                    freeingTextNodes[..numFreeing], attachedTextNodes)
    }

    /**
     * The constructor with addDefaultComponents: every slot is free, stacked
     * 0..N-1, the freeing queue is empty, and mesh pair 0 is current with both
     * pairs disabled.
     */
    constructor (numLineLists: nat, numTextNodes: nat)
      ensures Valid() && fresh(Repr())
      ensures this.numLineLists == numLineLists && this.numTextNodes == numTextNodes
      ensures numAvailableLineLists == numLineLists
      ensures forall k :: 0 <= k < numLineLists ==> availableLineLists[k] == k && lineLists[k] == []
      ensures numAvailableTextNodes == numTextNodes
      ensures forall k :: 0 <= k < numTextNodes ==> availableTextNodes[k] == k && textNodes[k] == None
      ensures numFreeing == 0 && attachedTextNodes == []
      ensures currentlyDrawnLineMesh == 0
      ensures forall k :: 0 <= k < 2 ==> !lineMeshes[k].meshEnabled && !lineMeshes[k].instanceEnabled
    {
      this.numLineLists := numLineLists;
      this.numTextNodes := numTextNodes;
      lineLists := new seq<real>[numLineLists](_ => []);
      lineListLifetimes := new real[numLineLists];
      availableLineLists := new int[numLineLists];
      textNodes := new Option<TextNode>[numTextNodes](_ => None);
      lifetimes := new real[numTextNodes];
      availableTextNodes := new int[numTextNodes];
      freeingTextNodes := new int[numTextNodes];
      numFreeing := 0;
      attachedTextNodes := [];
      lineMeshes := new LineMeshPair[2](_ => LineMeshPair(false, false, [], 0));
      currentlyDrawnLineMesh := 0;
      numAvailableTextNodes := numTextNodes;
      numAvailableLineLists := numLineLists;
      new;
      StackAll(availableTextNodes);
      StackAll(availableLineLists);
      assert freeingTextNodes[..0] == [];
      InitialPools(lineLists[..], availableLineLists[..numLineLists], textNodes[..], availableTextNodes[..numTextNodes]);
    }

    // -------------------------------------------------------------------------
    // Authoring

    /**
     * createLineMesh: with no free line slot, nothing happens. Otherwise the top
     * of the free stack (the slot freed most recently) is taken, its lifetime set
     * to `timeToLive`, and its list reset and filled with the gizmo and the
     * transformed raw point pairs.
     */
    method CreateLineMesh(hasTransform: bool, transform: Transform, rawData: Option<seq<real>>,
                          numInRawData: nat, timeToLive: real, scale: real)
      requires Valid()
      requires rawData.Some? ==> 6 * numInRawData <= |rawData.value|
      modifies this`numAvailableLineLists, lineLists, lineListLifetimes
      ensures Valid()
      ensures old(numAvailableLineLists) == 0 ==>
        numAvailableLineLists == 0 && lineLists[..] == old(lineLists[..]) && lineListLifetimes[..] == old(lineListLifetimes[..])
      ensures old(numAvailableLineLists) > 0 ==> 0 <= availableLineLists[old(numAvailableLineLists) - 1] < numLineLists
      ensures old(numAvailableLineLists) > 0 ==>
        var index := availableLineLists[old(numAvailableLineLists) - 1];
        && numAvailableLineLists == old(numAvailableLineLists) - 1
        && lineLists[..] == old(lineLists[..])[index := LineMeshFloats(hasTransform, transform, rawData, numInRawData, scale)]
        && lineListLifetimes[..] == old(lineListLifetimes[..])[index := timeToLive]
    {
      if numAvailableLineLists > 0 {
        ghost var stack := availableLineLists[..numAvailableLineLists];
        LineMeshFillsReservation(hasTransform, transform, rawData, numInRawData, scale);
        LinePop(lineLists[..], stack, LineMeshFloats(hasTransform, transform, rawData, numInRawData, scale));

        numAvailableLineLists := numAvailableLineLists - 1;
        var index := availableLineLists[numAvailableLineLists];
        assert index == stack[|stack| - 1];
        assert availableLineLists[..numAvailableLineLists] == stack[..|stack| - 1];

        lineListLifetimes[index] := timeToLive;
        FillLineList(index, hasTransform, transform, rawData, numInRawData, scale);
      }
    }

    /** Lines 157-200: reset list `index`, then append the gizmo and the transformed raw point pairs. */
    method FillLineList(index: int, hasTransform: bool, transform: Transform, rawData: Option<seq<real>>,
                        numInRawData: nat, scale: real)
      requires 0 <= index < lineLists.Length
      requires rawData.Some? ==> 6 * numInRawData <= |rawData.value|
      modifies lineLists
      ensures lineLists[..] == old(lineLists[..])[index := LineMeshFloats(hasTransform, transform, rawData, numInRawData, scale)]
    {
      lineLists[index] := [];
      if hasTransform {
        lineLists[index] := lineLists[index] + GizmoFloats(transform, scale);
        assert [] + GizmoFloats(transform, scale) == GizmoFloats(transform, scale);
      }
      if rawData.Some? {
        AppendRawLines(index, transform.apply, rawData.value, numInRawData);
      } else {
        assert lineLists[index] + [] == lineLists[index];
      }
    }

    /** Lines 176-200: append entry i of the raw data as its two points, transformed, for every i below `numInRawData`. */
    method AppendRawLines(index: int, apply: Vec3 -> Vec3, raw: seq<real>, numInRawData: nat)
      requires 0 <= index < lineLists.Length
      requires 6 * numInRawData <= |raw|
      modifies lineLists
      ensures lineLists[..] == old(lineLists[..])[index := old(lineLists[index]) + RawLineFloats(apply, raw, numInRawData)]
    {
      ghost var front := lineLists[index];
      assert front + RawLineFloats(apply, raw, 0) == front;
      var i := 0;
      while i < numInRawData
        invariant 0 <= i <= numInRawData
        invariant lineLists[..] == old(lineLists[..])[index := front + RawLineFloats(apply, raw, i)]
      {
        var first := apply(RawPoint(raw, 2 * i));
        var second := apply(RawPoint(raw, 2 * i + 1));
        lineLists[index] := lineLists[index] + Floats(first) + Floats(second);
        ghost var done := RawLineFloats(apply, raw, i);
        assert front + done + Floats(first) + Floats(second) == front + (done + Floats(first) + Floats(second));
        i := i + 1;
      }
    }

    /**
     * createLineMeshForDummies: like CreateLineMesh, but with data it always
     * copies points 0..23 as twelve lines, untransformed and without colour;
     * `hasTransform`, `transform`, `scale` and `numInRawData` do not shape the list.
     */
    method CreateLineMeshForDummies(hasTransform: bool, transform: Transform, rawData: Option<seq<Vec3>>,
                                    numInRawData: nat, timeToLive: real, scale: real)
      requires Valid()
      requires rawData.Some? ==> 2 * DummyLines <= |rawData.value|
      modifies this`numAvailableLineLists, lineLists, lineListLifetimes
      ensures Valid()
      ensures old(numAvailableLineLists) == 0 ==>
        numAvailableLineLists == 0 && lineLists[..] == old(lineLists[..]) && lineListLifetimes[..] == old(lineListLifetimes[..])
      ensures old(numAvailableLineLists) > 0 ==> 0 <= availableLineLists[old(numAvailableLineLists) - 1] < numLineLists
      ensures old(numAvailableLineLists) > 0 ==>
        var index := availableLineLists[old(numAvailableLineLists) - 1];
        && numAvailableLineLists == old(numAvailableLineLists) - 1
        && lineLists[..] == old(lineLists[..])[index := DummyFloats(rawData)]
        && lineListLifetimes[..] == old(lineListLifetimes[..])[index := timeToLive]
    {
      if numAvailableLineLists > 0 {
        ghost var stack := availableLineLists[..numAvailableLineLists];
        DummyFloatsCount(rawData, numInRawData);
        LinePop(lineLists[..], stack, DummyFloats(rawData));

        numAvailableLineLists := numAvailableLineLists - 1;
        var index := availableLineLists[numAvailableLineLists];
        assert index == stack[|stack| - 1];
        assert availableLineLists[..numAvailableLineLists] == stack[..|stack| - 1];

        lineListLifetimes[index] := timeToLive;
        FillDummyList(index, rawData);
      }
    }

    /** Lines 258-274: reset list `index`, then append points 0..23 of the data, if any, three floats each. */
    method FillDummyList(index: int, rawData: Option<seq<Vec3>>)
      requires 0 <= index < lineLists.Length
      requires rawData.Some? ==> 2 * DummyLines <= |rawData.value|
      modifies lineLists
      ensures lineLists[..] == old(lineLists[..])[index := DummyFloats(rawData)]
    {
      lineLists[index] := [];
      if rawData.Some? {
        var pts := rawData.value;
        var i := 0;
        while i < 2 * DummyLines
          invariant 0 <= i <= 2 * DummyLines && i % 2 == 0
          invariant lineLists[index] == BoxFloats(pts, i / 2)
          invariant forall k :: 0 <= k < lineLists.Length && k != index ==> lineLists[k] == old(lineLists[k])
          modifies lineLists
        {
          lineLists[index] := lineLists[index] + Floats(pts[i]) + Floats(pts[i + 1]);
          assert lineLists[index] == BoxFloats(pts, (i + 2) / 2);
          i := i + 2;
        }
      }
      assert lineLists[..] == old(lineLists[..])[index := DummyFloats(rawData)];
    }

    /**
     * createTextMesh: with no free text slot, nothing happens. Otherwise the top
     * of the free stack is taken; its node is re-enabled if it exists (it is
     * never enabled while free) or created and attached; the string, draw type,
     * position and scale are loaded and the lifetime set.
     */
    method CreateTextMesh(text: string, isOverlay2D: bool, is3D: bool, is3DFacedToCamera: bool,
                          is3DFacedToCameraLockedYAxis: bool, timeToLive: real, pos: Vec3, scale: real)
      requires Valid()
      modifies this`numAvailableTextNodes, this`attachedTextNodes, textNodes, lifetimes
      ensures Valid()
      ensures old(numAvailableTextNodes) == 0 ==>
        && numAvailableTextNodes == 0 && attachedTextNodes == old(attachedTextNodes)
        && textNodes[..] == old(textNodes[..]) && lifetimes[..] == old(lifetimes[..])
      ensures old(numAvailableTextNodes) > 0 ==> 0 <= availableTextNodes[old(numAvailableTextNodes) - 1] < numTextNodes
      ensures old(numAvailableTextNodes) > 0 ==>
        var index := availableTextNodes[old(numAvailableTextNodes) - 1];
        var placement := TextPlacement(isOverlay2D, is3DFacedToCamera, pos);
        && numAvailableTextNodes == old(numAvailableTextNodes) - 1
        && !Enabled(old(textNodes[index]))
        && textNodes[..] == old(textNodes[..])[index := Some(TextNode(true, text, placement.0, placement.1, scale))]
        && lifetimes[..] == old(lifetimes[..])[index := timeToLive]
        && attachedTextNodes == if old(textNodes[index]).Some? then old(attachedTextNodes) else old(attachedTextNodes) + [index]
    {
      if numAvailableTextNodes > 0 {
        ghost var nodes0 := textNodes[..];
        ghost var avail := availableTextNodes[..numAvailableTextNodes];
        var placement := TextPlacement(isOverlay2D, is3DFacedToCamera, pos);
        ghost var loaded := TextNode(true, text, placement.0, placement.1, scale);
        TextPop(nodes0, avail, freeingTextNodes[..numFreeing], attachedTextNodes, loaded);

        numAvailableTextNodes := numAvailableTextNodes - 1;
        var index := availableTextNodes[numAvailableTextNodes];
        assert index == avail[|avail| - 1];
        assert availableTextNodes[..numAvailableTextNodes] == avail[..|avail| - 1];

        var node := textNodes[index];
        if node.Some? {
          // A free slot's node is never enabled (the assert at line 290).
          assert !node.value.enabled;
        } else {
          attachedTextNodes := attachedTextNodes + [index];
        }
        lifetimes[index] := timeToLive;
        textNodes[index] := Some(TextNode(true, text, placement.0, placement.1, scale));
        assert textNodes[..] == nodes0[index := Some(loaded)];
      }
    }

    // -------------------------------------------------------------------------
    // The per-frame expiry pass

    /**
     * do_PRE_GATHER_DRAWCALLS: first the freeing queue is drained onto the text
     * free stack (top of the queue first); then every enabled text node that
     * has expired is disabled and queued, to be freed at the next pass, and
     * every enabled node counts down; then every non-empty line list that has
     * expired is emptied and its slot pushed back at once, and every non-empty
     * list counts down.
     */
    method PreGatherDrawCalls()
      requires Valid()
      modifies this`numAvailableTextNodes, this`numFreeing, availableTextNodes, freeingTextNodes, textNodes, lifetimes
      modifies this`numAvailableLineLists, availableLineLists, lineLists, lineListLifetimes
      ensures Valid()
      ensures availableTextNodes[..numAvailableTextNodes]
        == old(availableTextNodes[..numAvailableTextNodes]) + Reversed(old(freeingTextNodes[..numFreeing]))
      ensures freeingTextNodes[..numFreeing] == ExpiredText(old(textNodes[..]), old(lifetimes[..]), numTextNodes)
      ensures forall i :: 0 <= i < numTextNodes ==>
        TextSlot(textNodes[i], lifetimes[i]) == ExpireText(TextSlot(old(textNodes[i]), old(lifetimes[i])))
      ensures availableLineLists[..numAvailableLineLists]
        == old(availableLineLists[..numAvailableLineLists]) + ExpiredLines(old(lineLists[..]), old(lineListLifetimes[..]), numLineLists)
      ensures forall i :: 0 <= i < numLineLists ==>
        LineSlot(lineLists[i], lineListLifetimes[i]) == ExpireLine(LineSlot(old(lineLists[i]), old(lineListLifetimes[i])))
    {
      DrainFreeingTextNodes();
      ExpireTextNodes();
      ExpireLineLists();
    }

    /** Lines 324-327, on the whole renderer: the drained queue keeps the text pool invariant. */
    method DrainFreeingTextNodes()
      requires Valid()
      modifies this`numAvailableTextNodes, this`numFreeing, availableTextNodes
      ensures Valid()
      ensures numFreeing == 0
      ensures availableTextNodes[..numAvailableTextNodes]
        == old(availableTextNodes[..numAvailableTextNodes]) + Reversed(old(freeingTextNodes[..numFreeing]))
    {
      TextDrainAll(textNodes[..], availableTextNodes[..numAvailableTextNodes], freeingTextNodes[..numFreeing], attachedTextNodes);
      DrainQueue();
      assert freeingTextNodes[..numFreeing] == [];
    }

    /** Lines 324-327: move every queued text slot onto the free stack, top of the queue first. */
    method DrainQueue()
      requires availableTextNodes.Length == numTextNodes && freeingTextNodes.Length == numTextNodes
      requires availableTextNodes != freeingTextNodes
      requires numAvailableTextNodes + numFreeing <= numTextNodes
      modifies this`numAvailableTextNodes, this`numFreeing, availableTextNodes
      ensures numFreeing == 0
      ensures numAvailableTextNodes == old(numAvailableTextNodes) + old(numFreeing)
      ensures availableTextNodes[..numAvailableTextNodes]
        == old(availableTextNodes[..numAvailableTextNodes]) + Reversed(old(freeingTextNodes[..numFreeing]))
    {
      ghost var a0 := availableTextNodes[..numAvailableTextNodes];
      ghost var f0 := freeingTextNodes[..numFreeing];
      while numFreeing > 0
        invariant numFreeing <= |f0|
        invariant numAvailableTextNodes + numFreeing == |a0| + |f0|
        invariant freeingTextNodes[..numFreeing] == f0[..numFreeing]
        invariant availableTextNodes[..numAvailableTextNodes] == a0 + Reversed(f0[numFreeing..])
        modifies this`numAvailableTextNodes, this`numFreeing, availableTextNodes
      {
        ghost var avail := availableTextNodes[..numAvailableTextNodes];
        numFreeing := numFreeing - 1;
        var slot := freeingTextNodes[numFreeing];
        availableTextNodes[numAvailableTextNodes] := slot;
        numAvailableTextNodes := numAvailableTextNodes + 1;

        assert availableTextNodes[..numAvailableTextNodes] == avail + [slot];
        ReversedStep(f0, numFreeing + 1);
        assert a0 + Reversed(f0[numFreeing + 1..]) + [slot] == a0 + (Reversed(f0[numFreeing + 1..]) + [slot]);
      }
      assert f0[0..] == f0;
    }

    /** Lines 329-346, on the whole renderer: the expired nodes are queued and the text pool invariant is kept. */
    method ExpireTextNodes()
      requires Valid()
      modifies this`numFreeing, freeingTextNodes, textNodes, lifetimes
      ensures Valid()
      ensures freeingTextNodes[..numFreeing]
        == old(freeingTextNodes[..numFreeing]) + ExpiredText(old(textNodes[..]), old(lifetimes[..]), numTextNodes)
      ensures forall i :: 0 <= i < numTextNodes ==>
        TextSlot(textNodes[i], lifetimes[i]) == ExpireText(TextSlot(old(textNodes[i]), old(lifetimes[i])))
    {
      ghost var nodes0 := textNodes[..];
      ghost var lifetimes0 := lifetimes[..];
      ghost var avail := availableTextNodes[..numAvailableTextNodes];
      ghost var f0 := freeingTextNodes[..numFreeing];
      TextExpiredFits(nodes0, lifetimes0, avail, f0, attachedTextNodes, numTextNodes);
      ExpireTextSlots();
      TextExpirePass(nodes0, lifetimes0, textNodes[..], avail, f0, attachedTextNodes);
    }

    /** Lines 329-346: disable and queue every expired enabled node; count every enabled node down. */
    method ExpireTextSlots()
      requires textNodes.Length == numTextNodes && lifetimes.Length == numTextNodes
      requires freeingTextNodes.Length == numTextNodes
      requires numFreeing + |ExpiredText(textNodes[..], lifetimes[..], numTextNodes)| <= numTextNodes
      modifies this`numFreeing, freeingTextNodes, textNodes, lifetimes
      ensures numFreeing == old(numFreeing) + |ExpiredText(old(textNodes[..]), old(lifetimes[..]), numTextNodes)|
      ensures freeingTextNodes[..numFreeing]
        == old(freeingTextNodes[..numFreeing]) + ExpiredText(old(textNodes[..]), old(lifetimes[..]), numTextNodes)
      ensures forall i :: 0 <= i < numTextNodes ==>
        TextSlot(textNodes[i], lifetimes[i]) == ExpireText(TextSlot(old(textNodes[i]), old(lifetimes[i])))
    {
      ghost var f0 := freeingTextNodes[..numFreeing];
      ghost var nodes0 := textNodes[..];
      ghost var lifetimes0 := lifetimes[..];
      var i := 0;
      while i < numTextNodes
        invariant 0 <= i <= numTextNodes
        invariant numFreeing <= numTextNodes
        invariant freeingTextNodes[..numFreeing] == f0 + ExpiredText(nodes0, lifetimes0, i)
        invariant forall k :: 0 <= k < numTextNodes ==>
          TextSlot(textNodes[k], lifetimes[k])
            == if k < i then ExpireText(TextSlot(nodes0[k], lifetimes0[k])) else TextSlot(nodes0[k], lifetimes0[k])
        modifies this`numFreeing, freeingTextNodes, textNodes, lifetimes
      {
        ExpiredTextGrow(nodes0, lifetimes0, i + 1, numTextNodes);
        ExpireTextSlot(i);
        i := i + 1;
      }
    }

    /** Lines 331-345, one slot: an expired enabled node is disabled and queued, an enabled one counts down. */
    method ExpireTextSlot(i: nat)
      requires textNodes.Length == numTextNodes && lifetimes.Length == numTextNodes
      requires freeingTextNodes.Length == numTextNodes
      requires i < numTextNodes && numFreeing <= numTextNodes
      requires TextExpires(TextSlot(textNodes[i], lifetimes[i])) ==> numFreeing < numTextNodes
      modifies this`numFreeing, freeingTextNodes, textNodes, lifetimes
      ensures TextSlot(textNodes[i], lifetimes[i]) == ExpireText(TextSlot(old(textNodes[i]), old(lifetimes[i])))
      ensures forall k :: 0 <= k < numTextNodes && k != i ==>
        textNodes[k] == old(textNodes[k]) && lifetimes[k] == old(lifetimes[k])
      ensures numFreeing <= numTextNodes
      ensures freeingTextNodes[..numFreeing] == old(freeingTextNodes[..numFreeing])
        + (if TextExpires(TextSlot(old(textNodes[i]), old(lifetimes[i]))) then [i] else [])
    {
      var node := textNodes[i];
      if node.Some? && node.value.enabled {
        if lifetimes[i] < 0.0 {
          ghost var queue := freeingTextNodes[..numFreeing];
          textNodes[i] := Some(node.value.(enabled := false));
          freeingTextNodes[numFreeing] := i;
          numFreeing := numFreeing + 1;
          assert freeingTextNodes[..numFreeing] == queue + [i];
        }
        lifetimes[i] := lifetimes[i] - 1.0;
      }
    }

    /** Lines 348-363, on the whole renderer: the reclaimed slots are pushed and the line pool invariant is kept. */
    method ExpireLineLists()
      requires Valid()
      modifies this`numAvailableLineLists, availableLineLists, lineLists, lineListLifetimes
      ensures Valid()
      ensures availableLineLists[..numAvailableLineLists]
        == old(availableLineLists[..numAvailableLineLists]) + ExpiredLines(old(lineLists[..]), old(lineListLifetimes[..]), numLineLists)
      ensures forall i :: 0 <= i < numLineLists ==>
        LineSlot(lineLists[i], lineListLifetimes[i]) == ExpireLine(LineSlot(old(lineLists[i]), old(lineListLifetimes[i])))
    {
      ghost var s0 := availableLineLists[..numAvailableLineLists];
      ghost var lists0 := lineLists[..];
      ghost var lifetimes0 := lineListLifetimes[..];
      LineExpiredFits(lists0, lifetimes0, s0, numLineLists);
      ExpireLineSlots();
      LineExpirePass(lists0, lifetimes0, lineLists[..], s0);
    }

    /** Lines 348-363: reclaim every expired non-empty line list at once; count every non-empty list down. */
    method ExpireLineSlots()
      requires lineLists.Length == numLineLists && lineListLifetimes.Length == numLineLists
      requires availableLineLists.Length == numLineLists
      requires numAvailableLineLists + |ExpiredLines(lineLists[..], lineListLifetimes[..], numLineLists)| <= numLineLists
      modifies this`numAvailableLineLists, availableLineLists, lineLists, lineListLifetimes
      ensures numAvailableLineLists == old(numAvailableLineLists) + |ExpiredLines(old(lineLists[..]), old(lineListLifetimes[..]), numLineLists)|
      ensures availableLineLists[..numAvailableLineLists]
        == old(availableLineLists[..numAvailableLineLists]) + ExpiredLines(old(lineLists[..]), old(lineListLifetimes[..]), numLineLists)
      ensures forall i :: 0 <= i < numLineLists ==>
        LineSlot(lineLists[i], lineListLifetimes[i]) == ExpireLine(LineSlot(old(lineLists[i]), old(lineListLifetimes[i])))
    {
      ghost var s0 := availableLineLists[..numAvailableLineLists];
      ghost var lists0 := lineLists[..];
      ghost var lifetimes0 := lineListLifetimes[..];
      var i := 0;
      while i < numLineLists
        invariant 0 <= i <= numLineLists
        invariant numAvailableLineLists <= numLineLists
        invariant availableLineLists[..numAvailableLineLists] == s0 + ExpiredLines(lists0, lifetimes0, i)
        invariant forall k :: 0 <= k < numLineLists ==>
          LineSlot(lineLists[k], lineListLifetimes[k])
            == if k < i then ExpireLine(LineSlot(lists0[k], lifetimes0[k])) else LineSlot(lists0[k], lifetimes0[k])
        modifies this`numAvailableLineLists, availableLineLists, lineLists, lineListLifetimes
      {
        ExpiredLinesGrow(lists0, lifetimes0, i + 1, numLineLists);
        ExpireLineSlot(i);
        i := i + 1;
      }
    }

    /** Lines 350-362, one slot: an expired non-empty list is emptied and pushed, a non-empty one counts down. */
    method ExpireLineSlot(i: nat)
      requires lineLists.Length == numLineLists && lineListLifetimes.Length == numLineLists
      requires availableLineLists.Length == numLineLists
      requires i < numLineLists && numAvailableLineLists <= numLineLists
      requires LineExpires(LineSlot(lineLists[i], lineListLifetimes[i])) ==> numAvailableLineLists < numLineLists
      modifies this`numAvailableLineLists, availableLineLists, lineLists, lineListLifetimes
      ensures LineSlot(lineLists[i], lineListLifetimes[i]) == ExpireLine(LineSlot(old(lineLists[i]), old(lineListLifetimes[i])))
      ensures forall k :: 0 <= k < numLineLists && k != i ==>
        lineLists[k] == old(lineLists[k]) && lineListLifetimes[k] == old(lineListLifetimes[k])
      ensures numAvailableLineLists <= numLineLists
      ensures availableLineLists[..numAvailableLineLists] == old(availableLineLists[..numAvailableLineLists])
        + (if LineExpires(LineSlot(old(lineLists[i]), old(lineListLifetimes[i]))) then [i] else [])
    {
      if lineLists[i] != [] {
        if lineListLifetimes[i] < 0.0 {
          ghost var stack := availableLineLists[..numAvailableLineLists];
          availableLineLists[numAvailableLineLists] := i;
          numAvailableLineLists := numAvailableLineLists + 1;
          assert availableLineLists[..numAvailableLineLists] == stack + [i];
          lineLists[i] := [];
        }
        lineListLifetimes[i] := lineListLifetimes[i] - 1.0;
      }
    }

    // -------------------------------------------------------------------------
    // Merge and submit

    /** The first loop of postPreDraw: the total size of the live lists. */
    method LiveListsSize() returns (totalSize: int)
      requires Valid()
      ensures totalSize == |LiveFloats(lineLists[..], lineListLifetimes[..], numLineLists)|
    {
      totalSize := 0;
      var i := 0;
      while i < numLineLists
        invariant 0 <= i <= numLineLists
        invariant totalSize == LiveSize(lineLists[..], lineListLifetimes[..], i)
      {
        if lineLists[i] != [] && lineListLifetimes[i] >= 0.0 {
          totalSize := totalSize + |lineLists[i]|;
        }
        i := i + 1;
      }
      LiveSizeIsLength(lineLists[..], lineListLifetimes[..], numLineLists);
    }

    /** The second loop of postPreDraw: the live lists copied float by float, in slot order. */
    method MergeLiveLists() returns (vertexData: seq<real>)
      requires Valid()
      ensures vertexData == LiveFloats(lineLists[..], lineListLifetimes[..], numLineLists)
    {
      vertexData := [];
      var j := 0;
      while j < numLineLists
        invariant 0 <= j <= numLineLists
        invariant vertexData == LiveFloats(lineLists[..], lineListLifetimes[..], j)
      {
        var list := lineLists[j];
        if list != [] && lineListLifetimes[j] >= 0.0 {
          var iv := 0;
          while iv < |list|
            invariant 0 <= iv <= |list|
            invariant vertexData == LiveFloats(lineLists[..], lineListLifetimes[..], j) + list[..iv]
          {
            vertexData := vertexData + [list[iv]];
            iv := iv + 1;
          }
          assert list[..|list|] == list;
        }
        j := j + 1;
      }
    }

    /**
     * postPreDraw: the live lists (non-empty, lifetime >= 0) are concatenated in
     * slot order; the current mesh pair is disabled, the other pair becomes
     * current, and it is loaded with the merged buffer and enabled only if that
     * buffer is non-empty. Pools, lists and lifetimes are left as they are.
     */
    method PostPreDraw()
      requires Valid()
      modifies this`currentlyDrawnLineMesh, lineMeshes
      ensures Valid()
      ensures currentlyDrawnLineMesh == 1 - old(currentlyDrawnLineMesh)
      ensures lineMeshes[old(currentlyDrawnLineMesh)]
        == old(lineMeshes[currentlyDrawnLineMesh]).(meshEnabled := false, instanceEnabled := false)
      ensures var merged := LiveFloats(lineLists[..], lineListLifetimes[..], numLineLists);
        && |merged| % 6 == 0
        && lineMeshes[currentlyDrawnLineMesh]
          == if merged != [] then LineMeshPair(true, true, merged, |merged| / 6)
             else old(lineMeshes[..])[currentlyDrawnLineMesh].(meshEnabled := false, instanceEnabled := false)
    {
      var totalSize := LiveListsSize();
      var vertexData := MergeLiveLists();
      LiveFloatsWholeVertices(lineLists[..], lineListLifetimes[..], numLineLists);

      lineMeshes[currentlyDrawnLineMesh] := lineMeshes[currentlyDrawnLineMesh].(meshEnabled := false, instanceEnabled := false);
      currentlyDrawnLineMesh := (currentlyDrawnLineMesh + 1) % 2;
      if totalSize > 0 {
        lineMeshes[currentlyDrawnLineMesh] := LineMeshPair(true, true, vertexData, totalSize / 6);
      } else {
        lineMeshes[currentlyDrawnLineMesh] := lineMeshes[currentlyDrawnLineMesh].(meshEnabled := false, instanceEnabled := false);
      }
    }
  }

  /** The constructor's loops: a free stack holding every slot, 0 at the bottom. */
  method StackAll(stack: array<int>)
    modifies stack
    ensures forall k :: 0 <= k < stack.Length ==> stack[k] == k
  {
    for i := 0 to stack.Length
      invariant forall k :: 0 <= k < i ==> stack[k] == k
    {
      stack[i] := i;
    }
  }

  /**
   * Double buffering over two frames: after two postPreDraw calls the original
   * pair is current again, and the pair enabled by the first call has been
   * disabled by the second.
   */
  method TwoFrames(r: DebugRenderer)
    requires r.Valid()
    modifies r`currentlyDrawnLineMesh, r.lineMeshes
    ensures r.Valid()
    ensures r.currentlyDrawnLineMesh == old(r.currentlyDrawnLineMesh)
    ensures !r.lineMeshes[1 - r.currentlyDrawnLineMesh].meshEnabled
    ensures !r.lineMeshes[1 - r.currentlyDrawnLineMesh].instanceEnabled
  {
    r.PostPreDraw();
    r.PostPreDraw();
  }
}
