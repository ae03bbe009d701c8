/**
 * The float lists behind DebugRenderer's debug lines: what createLineMesh and
 * createLineMeshForDummies put into a list, how the per-frame expiry pass treats
 * one line slot, and how postPreDraw concatenates the live lists.
 *
 * Floats are modelled as `real` (no rounding); the matrix transform is left
 * uninterpreted, as the `apply` field of a Transform.
 */
module LineLists {
  import opened Wrappers

  /** A position or a colour: three floats. */
  datatype Vec3 = Vec3(x: real, y: real, z: real)

  /**
   * The parts of a Matrix4x4 that line authoring reads: the translation, the
   * three basis vectors, and `transform * point`, which is not modelled further.
   */
  datatype Transform = Transform(pos: Vec3, u: Vec3, v: Vec3, n: Vec3, apply: Vec3 -> Vec3)

  function Floats(p: Vec3): seq<real> {
    [p.x, p.y, p.z]
  }

  // ---------------------------------------------------------------------------
  // createLineMesh: the transform gizmo

  /** Colour of gizmo axis k: red for U, green for V, blue for N. */
  function AxisColour(k: nat): Vec3
    requires k < 3
  {
    if k == 0 then Vec3(1.0, 0.0, 0.0)
    else if k == 1 then Vec3(0.0, 1.0, 0.0)
    else Vec3(0.0, 0.0, 1.0)
  }

  /** The far end of gizmo axis k: `pos + basis_k * scale`. */
  function AxisTip(t: Transform, k: nat, scale: real): Vec3
    requires k < 3
  {
    var b := if k == 0 then t.u else if k == 1 then t.v else t.n;
    Vec3(t.pos.x + b.x * scale, t.pos.y + b.y * scale, t.pos.z + b.z * scale)
  }

  /** One gizmo line: two vertices of position and colour, six floats each. */
  function AxisLine(t: Transform, k: nat, scale: real): seq<real>
    requires k < 3
  {
    Floats(t.pos) + Floats(AxisColour(k)) + Floats(AxisTip(t, k, scale)) + Floats(AxisColour(k))
  }

  function GizmoFloats(t: Transform, scale: real): seq<real> {
    AxisLine(t, 0, scale) + AxisLine(t, 1, scale) + AxisLine(t, 2, scale)
  }

  /**
   * The gizmo is three lines, 36 floats; line k starts at the transform's
   * position, ends at its axis tip, and both its vertices carry axis k's colour.
   */
  lemma GizmoLayout(t: Transform, scale: real)
    ensures |GizmoFloats(t, scale)| == 36
    ensures forall k :: 0 <= k < 3 ==>
      && GizmoFloats(t, scale)[12 * k .. 12 * k + 3] == Floats(t.pos)
      && GizmoFloats(t, scale)[12 * k + 3 .. 12 * k + 6] == Floats(AxisColour(k))
      && GizmoFloats(t, scale)[12 * k + 6 .. 12 * k + 9] == Floats(AxisTip(t, k, scale))
      && GizmoFloats(t, scale)[12 * k + 9 .. 12 * k + 12] == Floats(AxisColour(k))
  {
    var g := GizmoFloats(t, scale);
    forall k | 0 <= k < 3
      ensures g[12 * k .. 12 * k + 12] == AxisLine(t, k, scale)
    {
      if k == 0 {
        assert g[..12] == AxisLine(t, 0, scale);
      } else if k == 1 {
        assert g[12..24] == AxisLine(t, 1, scale);
      } else {
        assert g[24..36] == AxisLine(t, 2, scale);
      }
    }
  }

  // ---------------------------------------------------------------------------
  // createLineMesh: raw point pairs

  /** Point j of a raw float buffer: the floats at 3j, 3j+1 and 3j+2. */
  function RawPoint(raw: seq<real>, j: nat): Vec3
    requires 3 * j + 3 <= |raw|
  {
    Vec3(raw[3 * j], raw[3 * j + 1], raw[3 * j + 2])
  }

  /**
   * What the raw-data loop appends for its first `count` entries: entry i reads
   * six floats, two points, and appends both points transformed, three floats
   * each, with no colour floats.
   */
  function RawLineFloats(apply: Vec3 -> Vec3, raw: seq<real>, count: nat): (r: seq<real>)
    requires 6 * count <= |raw|
    ensures |r| == 6 * count
    decreases count
  {
    if count == 0 then []
    else
      RawLineFloats(apply, raw, count - 1)
        + Floats(apply(RawPoint(raw, 2 * (count - 1))))
        + Floats(apply(RawPoint(raw, 2 * (count - 1) + 1)))
  }

  /** Entry k of the raw data lands at floats 6k..6k+6: its two transformed points, in order. */
  lemma {:induction false} RawLineAt(apply: Vec3 -> Vec3, raw: seq<real>, count: nat, k: nat)
    requires 6 * count <= |raw| && k < count
    ensures RawLineFloats(apply, raw, count)[6 * k .. 6 * k + 3] == Floats(apply(RawPoint(raw, 2 * k)))
    ensures RawLineFloats(apply, raw, count)[6 * k + 3 .. 6 * k + 6] == Floats(apply(RawPoint(raw, 2 * k + 1)))
    decreases count
  {
    var r := RawLineFloats(apply, raw, count);
    var prefix := RawLineFloats(apply, raw, count - 1);
    if k < count - 1 {
      RawLineAt(apply, raw, count - 1, k);
      assert r == prefix + r[|prefix|..];
      assert r[6 * k .. 6 * k + 3] == prefix[6 * k .. 6 * k + 3];
      assert r[6 * k + 3 .. 6 * k + 6] == prefix[6 * k + 3 .. 6 * k + 6];
    } else {
      var first := Floats(apply(RawPoint(raw, 2 * k)));
      assert r == prefix + first + Floats(apply(RawPoint(raw, 2 * k + 1)));
      assert |prefix| == 6 * k && |first| == 3;
    }
  }

  /** The whole list createLineMesh leaves in its slot. */
  function LineMeshFloats(hasTransform: bool, t: Transform, rawData: Option<seq<real>>, numInRawData: nat, scale: real): seq<real>
    requires rawData.Some? ==> 6 * numInRawData <= |rawData.value|
  {
    (if hasTransform then GizmoFloats(t, scale) else [])
      + (if rawData.Some? then RawLineFloats(t.apply, rawData.value, numInRawData) else [])
  }

  /**
   * The list is empty exactly when there is no transform and no raw entry; the
   * slot is taken all the same, and the expiry pass never gives it back.
   */
  lemma LineMeshFloatsEmpty(hasTransform: bool, t: Transform, rawData: Option<seq<real>>, numInRawData: nat, scale: real)
    requires rawData.Some? ==> 6 * numInRawData <= |rawData.value|
    ensures LineMeshFloats(hasTransform, t, rawData, numInRawData, scale) == []
      <==> !hasTransform && (rawData.None? || numInRawData == 0)
  {
    LineMeshFillsReservation(hasTransform, t, rawData, numInRawData, scale);
  }

  /** The capacity createLineMesh reserves: `numPoints * 6` floats. */
  function ReservedFloats(hasTransform: bool, hasRawData: bool, numInRawData: int): int {
    var numPoints := (if hasTransform then 3 * 2 else 0) + (if hasRawData then numInRawData else 0);
    numPoints * 6
  }

  /**
   * createLineMesh fills exactly the capacity it reserved, always in whole
   * six-float vertices: 36 floats for the gizmo and 6 per raw entry.
   */
  lemma LineMeshFillsReservation(hasTransform: bool, t: Transform, rawData: Option<seq<real>>, numInRawData: nat, scale: real)
    requires rawData.Some? ==> 6 * numInRawData <= |rawData.value|
    ensures |LineMeshFloats(hasTransform, t, rawData, numInRawData, scale)|
      == ReservedFloats(hasTransform, rawData.Some?, numInRawData)
      == (if hasTransform then 36 else 0) + (if rawData.Some? then 6 * numInRawData else 0)
    ensures |LineMeshFloats(hasTransform, t, rawData, numInRawData, scale)| % 6 == 0
  {
    GizmoLayout(t, scale);
  }

  // ---------------------------------------------------------------------------
  // createLineMeshForDummies

  /** The first `lines` point pairs of a Vector3 buffer, three floats per point. */
  function BoxFloats(pts: seq<Vec3>, lines: nat): (r: seq<real>)
    requires 2 * lines <= |pts|
    ensures |r| == 6 * lines
  {
    if lines == 0 then []
    else BoxFloats(pts, lines - 1) + Floats(pts[2 * lines - 2]) + Floats(pts[2 * lines - 1])
  }

  /** Point pair k lands at floats 6k..6k+6: point 2k, then point 2k+1, untransformed and without colour. */
  lemma {:induction false} BoxLineAt(pts: seq<Vec3>, lines: nat, k: nat)
    requires 2 * lines <= |pts| && k < lines
    ensures BoxFloats(pts, lines)[6 * k .. 6 * k + 3] == Floats(pts[2 * k])
    ensures BoxFloats(pts, lines)[6 * k + 3 .. 6 * k + 6] == Floats(pts[2 * k + 1])
    decreases lines
  {
    var r := BoxFloats(pts, lines);
    var prefix := BoxFloats(pts, lines - 1);
    if k < lines - 1 {
      BoxLineAt(pts, lines - 1, k);
      assert r == prefix + r[|prefix|..];
      assert r[6 * k .. 6 * k + 3] == prefix[6 * k .. 6 * k + 3];
      assert r[6 * k + 3 .. 6 * k + 6] == prefix[6 * k + 3 .. 6 * k + 6];
    } else {
      var first := Floats(pts[2 * k]);
      assert r == prefix + first + Floats(pts[2 * k + 1]);
      assert |prefix| == 6 * k && |first| == 3;
    }
  }

  /** Number of lines createLineMeshForDummies always copies: points 0..23, in pairs. */
  const DummyLines: nat := 12

  function DummyFloats(rawData: Option<seq<Vec3>>): seq<real>
    requires rawData.Some? ==> 2 * DummyLines <= |rawData.value|
  {
    if rawData.Some? then BoxFloats(rawData.value, DummyLines) else []
  }

  /** The capacity createLineMeshForDummies reserves; gizmo points are not counted. */
  function DummyReservedFloats(hasRawData: bool, numInRawData: int): int {
    (if hasRawData then numInRawData else 0) * 6
  }

  /**
   * With data, exactly 72 floats are appended whatever `numInRawData` says;
   * they fit the reserved capacity only when `numInRawData` is at least 12.
   */
  lemma DummyFloatsCount(rawData: Option<seq<Vec3>>, numInRawData: int)
    requires rawData.Some? ==> 2 * DummyLines <= |rawData.value|
    ensures |DummyFloats(rawData)| == if rawData.Some? then 72 else 0
    ensures rawData.Some? ==>
      (|DummyFloats(rawData)| <= DummyReservedFloats(true, numInRawData) <==> numInRawData >= 12)
  {
  }

  // ---------------------------------------------------------------------------
  // One line slot across expiry passes (do_PRE_GATHER_DRAWCALLS)

  /** A line slot: its float list and its lifetime counter. */
  datatype LineSlot = LineSlot(floats: seq<real>, lifetime: real)

  /** The expiry pass reclaims the slot. */
  predicate LineExpires(s: LineSlot) {
    s.floats != [] && s.lifetime < 0.0
  }

  /** postPreDraw draws the slot's list. */
  predicate LineLive(s: LineSlot) {
    s.floats != [] && s.lifetime >= 0.0
  }

  /** One expiry pass on one slot: an empty list is skipped; otherwise reclaim if expired, and count down. */
  function ExpireLine(s: LineSlot): LineSlot {
    if s.floats == [] then s
    else LineSlot(if s.lifetime < 0.0 then [] else s.floats, s.lifetime - 1.0)
  }

  function ExpireLineTimes(s: LineSlot, passes: nat): LineSlot
    decreases passes
  {
    if passes == 0 then s else ExpireLineTimes(ExpireLine(s), passes - 1)
  }

  /** An empty slot is never touched by the expiry pass, so it is never reclaimed either. */
  lemma {:induction false} EmptyLineUntouched(s: LineSlot, passes: nat)
    requires s.floats == []
    ensures ExpireLineTimes(s, passes) == s
    decreases passes
  {
    if passes > 0 {
      EmptyLineUntouched(ExpireLine(s), passes - 1);
    }
  }

  /**
   * A non-empty list whose lifetime lies in [t, t+1) is drawn after passes
   * 0..t and no later, keeps its floats through pass t+1, and is reclaimed on
   * pass t+2.
   */
  lemma {:induction false} LineSchedule(s: LineSlot, t: nat, passes: nat)
    requires s.floats != [] && t as real <= s.lifetime < t as real + 1.0
    ensures LineLive(ExpireLineTimes(s, passes)) <==> passes <= t
    ensures ExpireLineTimes(s, passes).floats == [] <==> passes >= t + 2
    ensures passes < t + 2 ==> ExpireLineTimes(s, passes).floats == s.floats
    decreases passes
  {
    if passes > 0 {
      var s1 := ExpireLine(s);
      if t > 0 {
        LineSchedule(s1, t - 1, passes - 1);
      } else if passes > 1 {
        var s2 := ExpireLine(s1);
        assert s2.floats == [];
        EmptyLineUntouched(s2, passes - 2);
      }
    }
  }

  /** The slots the expiry pass reclaims among the first n, in the order it pushes them. */
  function ExpiredLines(lists: seq<seq<real>>, lifetimes: seq<real>, n: nat): seq<int>
    requires n <= |lists| && n <= |lifetimes|
  {
    if n == 0 then []
    else ExpiredLines(lists, lifetimes, n - 1) + (if LineExpires(LineSlot(lists[n - 1], lifetimes[n - 1])) then [n - 1] else [])
  }

  /** Exactly the expiring slots among the first n are listed, in increasing slot order. */
  lemma {:induction false} ExpiredLinesMembers(lists: seq<seq<real>>, lifetimes: seq<real>, n: nat)
    requires n <= |lists| && n <= |lifetimes|
    ensures forall x :: x in ExpiredLines(lists, lifetimes, n) <==> 0 <= x < n && LineExpires(LineSlot(lists[x], lifetimes[x]))
    ensures forall j, k :: 0 <= j < k < |ExpiredLines(lists, lifetimes, n)| ==> ExpiredLines(lists, lifetimes, n)[j] < ExpiredLines(lists, lifetimes, n)[k]
    decreases n
  {
    if n > 0 {
      var earlier := ExpiredLines(lists, lifetimes, n - 1);
      ExpiredLinesMembers(lists, lifetimes, n - 1);
      assert forall j :: 0 <= j < |earlier| ==> earlier[j] in earlier;
    }
  }

  /** A slot whose list is empty is never among those the pass reclaims, whatever its lifetime. */
  lemma EmptyListNotReclaimed(lists: seq<seq<real>>, lifetimes: seq<real>, n: nat, x: int)
    requires n <= |lists| && n <= |lifetimes| && 0 <= x < |lists| && lists[x] == []
    ensures x !in ExpiredLines(lists, lifetimes, n)
  {
    ExpiredLinesMembers(lists, lifetimes, n);
  }

  /** A longer stretch of the pass reclaims at least as many slots as a shorter one. */
  lemma {:induction false} ExpiredLinesGrow(lists: seq<seq<real>>, lifetimes: seq<real>, n: nat, m: nat)
    requires n <= m <= |lists| && m <= |lifetimes|
    ensures |ExpiredLines(lists, lifetimes, n)| <= |ExpiredLines(lists, lifetimes, m)|
    decreases m
  {
    if n < m {
      ExpiredLinesGrow(lists, lifetimes, n, m - 1);
    }
  }

  // ---------------------------------------------------------------------------
  // postPreDraw: merging the live lists

  /** Total size of the live lists among the first n (the first loop of postPreDraw). */
  function LiveSize(lists: seq<seq<real>>, lifetimes: seq<real>, n: nat): int
    requires n <= |lists| && n <= |lifetimes|
  {
    if n == 0 then 0
    else
      LiveSize(lists, lifetimes, n - 1)
        + (if LineLive(LineSlot(lists[n - 1], lifetimes[n - 1])) then |lists[n - 1]| else 0)
  }

  /** The live lists among the first n, concatenated in slot order (the second loop). */
  function LiveFloats(lists: seq<seq<real>>, lifetimes: seq<real>, n: nat): seq<real>
    requires n <= |lists| && n <= |lifetimes|
  {
    if n == 0 then []
    else
      LiveFloats(lists, lifetimes, n - 1)
        + (if LineLive(LineSlot(lists[n - 1], lifetimes[n - 1])) then lists[n - 1] else [])
  }

  /** The size summed by the first loop is the length of the buffer the second loop builds. */
  lemma {:induction false} LiveSizeIsLength(lists: seq<seq<real>>, lifetimes: seq<real>, n: nat)
    requires n <= |lists| && n <= |lifetimes|
    ensures |LiveFloats(lists, lifetimes, n)| == LiveSize(lists, lifetimes, n)
  {
    if n > 0 {
      LiveSizeIsLength(lists, lifetimes, n - 1);
    }
  }

  /** Merging fewer slots yields a prefix of merging more. */
  lemma {:induction false} LiveFloatsPrefix(lists: seq<seq<real>>, lifetimes: seq<real>, m: nat, n: nat)
    requires m <= n <= |lists| && n <= |lifetimes|
    ensures LiveFloats(lists, lifetimes, m) <= LiveFloats(lists, lifetimes, n)
    decreases n - m
  {
    if m < n {
      LiveFloatsPrefix(lists, lifetimes, m, n - 1);
    }
  }

  /**
   * Slot order is kept: a live list k sits in the merged buffer right after the
   * live lists of the slots before it.
   */
  lemma LiveFloatsPlacement(lists: seq<seq<real>>, lifetimes: seq<real>, n: nat, k: nat)
    requires n <= |lists| && n <= |lifetimes| && k < n
    requires LineLive(LineSlot(lists[k], lifetimes[k]))
    ensures 0 <= LiveSize(lists, lifetimes, k)
    ensures LiveSize(lists, lifetimes, k) + |lists[k]| <= |LiveFloats(lists, lifetimes, n)|
    ensures LiveFloats(lists, lifetimes, n)[LiveSize(lists, lifetimes, k) .. LiveSize(lists, lifetimes, k) + |lists[k]|] == lists[k]
  {
    LiveSizeIsLength(lists, lifetimes, k);
    LiveFloatsPrefix(lists, lifetimes, k + 1, n);
    var merged := LiveFloats(lists, lifetimes, k + 1);
    assert merged == LiveFloats(lists, lifetimes, k) + lists[k];
  }

  /** When every list holds whole six-float vertices, so does the merged buffer. */
  lemma {:induction false} LiveFloatsWholeVertices(lists: seq<seq<real>>, lifetimes: seq<real>, n: nat)
    requires n <= |lists| && n <= |lifetimes|
    requires forall i :: 0 <= i < n ==> |lists[i]| % 6 == 0
    ensures |LiveFloats(lists, lifetimes, n)| % 6 == 0
  {
    if n > 0 {
      LiveFloatsWholeVertices(lists, lifetimes, n - 1);
    }
  }

  /** The merged buffer is empty exactly when no slot is live. */
  lemma {:induction false} LiveFloatsEmpty(lists: seq<seq<real>>, lifetimes: seq<real>, n: nat)
    requires n <= |lists| && n <= |lifetimes|
    ensures LiveFloats(lists, lifetimes, n) == [] <==> forall i :: 0 <= i < n ==> !LineLive(LineSlot(lists[i], lifetimes[i]))
  {
    if n > 0 {
      LiveFloatsEmpty(lists, lifetimes, n - 1);
    }
  }
}
