/**
 * The pooled text scene nodes of DebugRenderer: how createTextMesh chooses a
 * draw type and a position, and how the per-frame expiry pass treats one text
 * slot.
 */
module TextNodes {
  import opened Wrappers
  import opened LineLists

  /** TextSceneNode::DrawType values that createTextMesh can choose. */
  datatype DrawType = InWorld | Overlay2D | Overlay2D_3DPos

  /**
   * The state of a TextSceneNode that createTextMesh and the expiry pass touch:
   * enabled (self and mesh asset), the string loaded, its draw type, its
   * position and its scale.
   */
  datatype TextNode = TextNode(enabled: bool, text: string, drawType: DrawType, pos: Vec3, scale: real)

  /** A pool slot whose node has been created and is enabled. */
  predicate Enabled(node: Option<TextNode>) {
    node.Some? && node.value.enabled
  }

  // ---------------------------------------------------------------------------
  // Draw type and position (createTextMesh)

  /** Overlay position remap: [0,1] with the origin top-left to clip space [-1,1] with y up. */
  function OverlayToClip(p: Vec3): Vec3 {
    Vec3(-1.0 + 2.0 * p.x, -1.0 + 2.0 * (1.0 - p.y), p.z)
  }

  /** The inverse remap, from clip space back to overlay coordinates. */
  function ClipToOverlay(p: Vec3): Vec3 {
    Vec3((p.x + 1.0) / 2.0, 1.0 - (p.y + 1.0) / 2.0, p.z)
  }

  /** The remap is a bijection: each direction undoes the other. */
  lemma OverlayRoundTrip(p: Vec3)
    ensures ClipToOverlay(OverlayToClip(p)) == p
    ensures OverlayToClip(ClipToOverlay(p)) == p
  {
  }

  /** Top-left maps to (-1, 1), bottom-right to (1, -1), the centre to the origin. */
  lemma OverlayCorners(z: real)
    ensures OverlayToClip(Vec3(0.0, 0.0, z)) == Vec3(-1.0, 1.0, z)
    ensures OverlayToClip(Vec3(1.0, 1.0, z)) == Vec3(1.0, -1.0, z)
    ensures OverlayToClip(Vec3(0.5, 0.5, z)) == Vec3(0.0, 0.0, z)
  {
  }

  /**
   * The draw type and position createTextMesh hands to the node. Camera facing
   * wins over the overlay flag for the draw type, yet an overlay position is
   * remapped even then. `is3D` and `is3DFacedToCameraLockedYAxis` play no part.
   */
  function TextPlacement(isOverlay2D: bool, is3DFacedToCamera: bool, pos: Vec3): (r: (DrawType, Vec3))
    ensures r.0 == Overlay2D_3DPos <==> is3DFacedToCamera
    ensures r.0 == Overlay2D <==> isOverlay2D && !is3DFacedToCamera
    ensures r.0 == InWorld <==> !isOverlay2D && !is3DFacedToCamera
    ensures isOverlay2D ==> ClipToOverlay(r.1) == pos
    ensures !isOverlay2D ==> r.1 == pos
  {
    var drawType := if isOverlay2D then Overlay2D else InWorld;
    var p := if isOverlay2D then OverlayToClip(pos) else pos;
    OverlayRoundTrip(pos);
    (if is3DFacedToCamera then Overlay2D_3DPos else drawType, p)
  }

  // ---------------------------------------------------------------------------
  // One text slot across expiry passes (do_PRE_GATHER_DRAWCALLS)

  /** A text slot: its node handle (None until first use) and its lifetime. */
  datatype TextSlot = TextSlot(node: Option<TextNode>, lifetime: real)

  /** The expiry pass disables the node and queues its slot. */
  predicate TextExpires(s: TextSlot) {
    Enabled(s.node) && s.lifetime < 0.0
  }

  /** One expiry pass on one slot: only an enabled node is touched; it is disabled if expired, and counts down either way. */
  function ExpireText(s: TextSlot): TextSlot {
    if !Enabled(s.node) then s
    else
      TextSlot(
        if s.lifetime < 0.0 then Some(s.node.value.(enabled := false)) else s.node,
        s.lifetime - 1.0)
  }

  function ExpireTextTimes(s: TextSlot, passes: nat): TextSlot
    decreases passes
  {
    if passes == 0 then s else ExpireTextTimes(ExpireText(s), passes - 1)
  }

  /** A slot whose node is not enabled is left alone by every pass. */
  lemma {:induction false} DisabledTextUntouched(s: TextSlot, passes: nat)
    requires !Enabled(s.node)
    ensures ExpireTextTimes(s, passes) == s
    decreases passes
  {
    if passes > 0 {
      DisabledTextUntouched(ExpireText(s), passes - 1);
    }
  }

  /**
   * An enabled node whose lifetime lies in [t, t+1) stays enabled through pass
   * t+1 and is disabled and queued by pass t+2 (the state after t+1 passes is
   * the one that expires), so its slot is back on the available stack only when
   * pass t+3 drains the queue: one pass later than a line list with the same
   * lifetime.
   */
  lemma {:induction false} TextSchedule(s: TextSlot, t: nat, passes: nat)
    requires Enabled(s.node) && t as real <= s.lifetime < t as real + 1.0
    ensures Enabled(ExpireTextTimes(s, passes).node) <==> passes <= t + 1
    ensures TextExpires(ExpireTextTimes(s, passes)) <==> passes == t + 1
    ensures ExpireTextTimes(s, passes).node.Some?
    decreases passes
  {
    if passes > 0 {
      var s1 := ExpireText(s);
      if t > 0 {
        TextSchedule(s1, t - 1, passes - 1);
      } else if passes > 1 {
        var s2 := ExpireText(s1);
        assert !Enabled(s2.node) && s2.node.Some?;
        DisabledTextUntouched(s2, passes - 2);
      }
    }
  }

  /** The slots the expiry pass queues among the first n, in the order it queues them. */
  function ExpiredText(nodes: seq<Option<TextNode>>, lifetimes: seq<real>, n: nat): seq<int>
    requires n <= |nodes| && n <= |lifetimes|
  {
    if n == 0 then []
    else ExpiredText(nodes, lifetimes, n - 1) + (if TextExpires(TextSlot(nodes[n - 1], lifetimes[n - 1])) then [n - 1] else [])
  }

  /** Exactly the expiring slots among the first n are listed, in increasing slot order. */
  lemma {:induction false} ExpiredTextMembers(nodes: seq<Option<TextNode>>, lifetimes: seq<real>, n: nat)
    requires n <= |nodes| && n <= |lifetimes|
    ensures forall x :: x in ExpiredText(nodes, lifetimes, n) <==> 0 <= x < n && TextExpires(TextSlot(nodes[x], lifetimes[x]))
    ensures forall j, k :: 0 <= j < k < |ExpiredText(nodes, lifetimes, n)| ==> ExpiredText(nodes, lifetimes, n)[j] < ExpiredText(nodes, lifetimes, n)[k]
    decreases n
  {
    if n > 0 {
      var earlier := ExpiredText(nodes, lifetimes, n - 1);
      ExpiredTextMembers(nodes, lifetimes, n - 1);
      assert forall j :: 0 <= j < |earlier| ==> earlier[j] in earlier;
    }
  }

  /** A longer stretch of the pass queues at least as many slots as a shorter one. */
  lemma {:induction false} ExpiredTextGrow(nodes: seq<Option<TextNode>>, lifetimes: seq<real>, n: nat, m: nat)
    requires n <= m <= |nodes| && m <= |lifetimes|
    ensures |ExpiredText(nodes, lifetimes, n)| <= |ExpiredText(nodes, lifetimes, m)|
    decreases m
  {
    if n < m {
      ExpiredTextGrow(nodes, lifetimes, n, m - 1);
    }
  }
}
