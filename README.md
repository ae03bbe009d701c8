# Debug draw and asset cache of PrimeEngine, in Dafny

This project models two stateful components of the PrimeEngine scene layer and
proves what they promise.

**DebugRenderer** is the debug-draw coordinator. It keeps two fixed-capacity
slot pools, each with a stack of free indices:

- line lists: one float list and one lifetime per slot;
- text scene nodes: a lazily created node, an enabled flag and a lifetime per slot, plus a
  deferred-free queue.

Each frame, `do_PRE_GATHER_DRAWCALLS` does three things:

- it drains the queue onto the text stack;
- it disables and queues expired text nodes;
- it reclaims expired line lists at once, and counts every active slot down.

`postPreDraw` then concatenates the live line lists in slot order and flips
between two line mesh / mesh instance pairs.

The class `DebugDraw.DebugRenderer` holds the pools as arrays with counts, like
the source. Its invariant `Valid` (through `PoolInvariants.LinePoolOk` and
`PoolInvariants.TextPoolOk`) states:

- no free stack or queue names a slot twice;
- every free line slot holds an empty list;
- a text slot is free or queued exactly when its node is not enabled;
- queued slots have nodes;
- created nodes are the ones attached to the renderer.

Every operation keeps that invariant. Each one states its new state in terms of
the pure functions in `LineLists` and `TextNodes`:

- `LineMeshFloats` is what a list holds;
- `ExpireLine` and `ExpireText` say what one pass does to one slot;
- `ExpiredLines` and `ExpiredText` give the slots a pass frees, in order;
- `LiveFloats` is the merged buffer.

Lemmas then state what those functions mean: lifetimes in passes, sizes,
placement, order and emptiness.

**MeshManager** is the asset cache, a map from string keys to handles.
`getAsset` builds the key `package/asset` and returns a cached handle. On a miss
it loads a skeleton (`skela` suffix) or a mesh (`mesha` suffix) and files it.
`registerAsset` files a handle made elsewhere under `__generated_<n>`, with a
counter. The class `Meshes.MeshManager` keeps the map and the counter. It also
keeps the created handles and what they refer to. Its invariant ties every key
getAsset filed to the asset loaded for it, with one handle per such key, and
says that no key the counter will still generate is taken. Key building and key generation
are pure functions with injectivity and disjointness lemmas.

Module layout:

- `Wrappers`: Option and Result;
- `SlotPool`: duplicate-free index stacks and their reversal;
- `LineLists`: line-list contents, the line expiry step and the merge;
- `TextNodes`: draw type and position, and the text expiry step;
- `PoolInvariants`: the pool invariants and one lemma per operation that keeps them;
- `DebugDraw`: the renderer class;
- `Meshes`: the asset cache.

What the code does with lifetimes and empty lists:

- An active slot is counted down on every pass, including the pass that frees
  it (DebugRenderer.cpp lines 343 and 360 run after the freeing branch).
- A line list with lifetime T (a whole number) is live after up to T passes.
  The pass that makes its lifetime negative does not free it; pass T+2 does
  (`LineSchedule`).
- A text node with the same lifetime is disabled and queued on pass T+2
  (`TextSchedule`). Its slot goes back on the free stack on pass T+3, when that
  pass drains the queue first (the drain clause of
  `DebugDraw.DebugRenderer.PreGatherDrawCalls`).
- Expiry is not idempotent. Each pass counts the lifetimes down again and drains
  the queue the previous pass filled.
- A slot whose list is empty is not free. If `createLineMesh` gets no transform
  and no raw data, it takes a slot and leaves the list empty. The expiry pass
  skips empty lists, so that slot never returns to the stack
  (`LineMeshFloatsEmpty`, `EmptyListNotReclaimed`, `EmptyLineUntouched`).

## Model

| member | source | states |
|---|---|---|
| SlotPool.Reversed | Code/PrimeEngine/Scene/DebugRenderer.cpp:324-327 | The order in which the drain loop takes slots off the back of the queue; it has the queue's length |
| SlotPool.ReversedSameElements | Code/PrimeEngine/Scene/DebugRenderer.cpp:324-327 | Draining the queue moves exactly the queued slots, each as often as it was queued |
| SlotPool.ReversedOrder | Code/PrimeEngine/Scene/DebugRenderer.cpp:324-327 | The drain pushes the queue from its back: the k-th slot pushed is the k-th from the end of the queue |
| SlotPool.DistinctBound | Code/PrimeEngine/Scene/DebugRenderer.cpp:55-57 | Pigeonhole: a stack of distinct slot indices of an N-slot pool holds at most N entries, so the stack count never exceeds the capacity |
| SlotPool.IncreasingDistinct | Code/PrimeEngine/Scene/DebugRenderer.cpp:349-357 | Slots pushed in increasing index order are pushed once each |
| SlotPool.PushDistinct | Code/PrimeEngine/Scene/DebugRenderer.cpp:357 | Pushing a slot that is not on the stack keeps the stack free of duplicates |
| SlotPool.PopDistinct | Code/PrimeEngine/Scene/DebugRenderer.cpp:141 | Popping the top leaves a duplicate-free stack that no longer holds the popped slot |
| SlotPool.DisjointDistinct | Code/PrimeEngine/Scene/DebugRenderer.cpp:324-340 | The free stack and the freeing queue together stay duplicate-free when the queue gains slots the stack lacks |
| LineLists.GizmoFloats | Code/PrimeEngine/Scene/DebugRenderer.cpp:159-171 | The gizmo block: the U, V and N axis lines, each from the position to its tip, with the axis colour after each point (laid out by `GizmoLayout`) |
| LineLists.LineMeshFloats | Code/PrimeEngine/Scene/DebugRenderer.cpp:146-199 | The whole list createLineMesh leaves in its slot: the gizmo if there is a transform, then the transformed raw lines if there is data (sized by `LineMeshFillsReservation`) |
| LineLists.GizmoLayout | Code/PrimeEngine/Scene/DebugRenderer.cpp:159-171 | The gizmo is 36 floats: three lines, each from the transform's position to `pos + axis * scale`, in U, V, N order, with both vertices coloured (1,0,0), (0,1,0) and (0,0,1) respectively |
| LineLists.RawLineFloats | Code/PrimeEngine/Scene/DebugRenderer.cpp:176-199 | The raw-data loop appends exactly six floats per entry |
| LineLists.RawLineAt | Code/PrimeEngine/Scene/DebugRenderer.cpp:178-191 | Raw entry k lands at floats 6k..6k+6 as its first point, then its second point, each transformed, with no colour floats |
| LineLists.LineMeshFillsReservation | Code/PrimeEngine/Scene/DebugRenderer.cpp:146-199 | The list createLineMesh builds has length 36 when there is a transform plus 6·numInRawData when there is raw data. This is exactly the capacity reserved at line 157, and always whole six-float vertices |
| LineLists.LineMeshFloatsEmpty | Code/PrimeEngine/Scene/DebugRenderer.cpp:146-176 | The list is empty if and only if there is no transform and either no raw data or no entries |
| LineLists.BoxLineAt | Code/PrimeEngine/Scene/DebugRenderer.cpp:265-273 | Point pair k of the data lands at floats 6k..6k+6: point 2k, then point 2k+1, untransformed and without colour |
| LineLists.DummyFloats | Code/PrimeEngine/Scene/DebugRenderer.cpp:244-274 | The list createLineMeshForDummies leaves: the first twelve point pairs of the data, or nothing without data |
| LineLists.BoxFloats | Code/PrimeEngine/Scene/DebugRenderer.cpp:265-273 | The dummies loop appends six floats per point pair |
| LineLists.DummyFloatsCount | Code/PrimeEngine/Scene/DebugRenderer.cpp:244-274 | With data, createLineMeshForDummies appends exactly 72 floats whatever numInRawData says. This fits the reserved capacity exactly when numInRawData >= 12 |
| LineLists.LineExpires | Code/PrimeEngine/Scene/DebugRenderer.cpp:352-354 | The pass frees a line slot exactly when its list is non-empty and its lifetime is negative |
| LineLists.LineLive | Code/PrimeEngine/Scene/DebugRenderer.cpp:379-381 | postPreDraw draws a list exactly when it is non-empty and its lifetime is at least 0 |
| LineLists.ExpireLine | Code/PrimeEngine/Scene/DebugRenderer.cpp:351-361 | One pass on one line slot: an empty list is skipped; a non-empty one is emptied if its lifetime is negative and counted down by 1 either way |
| LineLists.ExpiredLines | Code/PrimeEngine/Scene/DebugRenderer.cpp:349-359 | The slots the scan pushes on the free stack, in push order (characterised by `ExpiredLinesMembers`) |
| LineLists.EmptyLineUntouched | Code/PrimeEngine/Scene/DebugRenderer.cpp:352 | Any number of expiry passes leave a slot with an empty list unchanged, lifetime included |
| LineLists.LineSchedule | Code/PrimeEngine/Scene/DebugRenderer.cpp:352-360 | For a non-empty list with lifetime in [T, T+1): after k passes it is live (postPreDraw draws it) if and only if k <= T; it keeps its floats through pass T+1; pass T+2 empties it, and it stays empty |
| LineLists.ExpiredLinesMembers | Code/PrimeEngine/Scene/DebugRenderer.cpp:349-359 | The pass frees exactly the slots whose list is non-empty and whose lifetime is negative, and pushes them in increasing index order |
| LineLists.EmptyListNotReclaimed | Code/PrimeEngine/Scene/DebugRenderer.cpp:352-358 | A slot with an empty list is never among the slots the pass frees, whatever its lifetime |
| LineLists.ExpiredLinesGrow | Code/PrimeEngine/Scene/DebugRenderer.cpp:349-357 | The scan never pushes fewer slots over more of the pool |
| LineLists.LiveSize | Code/PrimeEngine/Scene/DebugRenderer.cpp:374-386 | The total size postPreDraw's first loop sums: the sizes of the live lists |
| LineLists.LiveFloats | Code/PrimeEngine/Scene/DebugRenderer.cpp:388-402 | The buffer the second loop builds: the live lists concatenated in slot order (placed by `LiveFloatsPlacement`) |
| LineLists.LiveSizeIsLength | Code/PrimeEngine/Scene/DebugRenderer.cpp:374-402 | The total size summed by postPreDraw's first loop is the length of the buffer its second loop builds |
| LineLists.LiveFloatsPrefix | Code/PrimeEngine/Scene/DebugRenderer.cpp:391-402 | Merging the first m slots gives a prefix of merging the first n slots, for m <= n |
| LineLists.LiveFloatsPlacement | Code/PrimeEngine/Scene/DebugRenderer.cpp:391-402 | A live list k appears whole in the merged buffer, right after the live lists of lower slots, in slot order |
| LineLists.LiveFloatsWholeVertices | Code/PrimeEngine/Scene/DebugRenderer.cpp:414-416 | When every list holds whole vertices, so does the merged buffer, so `totalSize/6` is its vertex count |
| LineLists.LiveFloatsEmpty | Code/PrimeEngine/Scene/DebugRenderer.cpp:414-424 | The merged buffer is empty if and only if no slot is live |
| TextNodes.OverlayToClip | Code/PrimeEngine/Scene/DebugRenderer.cpp:307-308 | The overlay remap of a position from [0,1] with y down to [-1,1] with y up; z is kept |
| TextNodes.OverlayRoundTrip | Code/PrimeEngine/Scene/DebugRenderer.cpp:307-308 | The overlay remap `x' = -1+2x`, `y' = -1+2(1-y)` is a bijection, with its inverse stated and proved both ways |
| TextNodes.OverlayCorners | Code/PrimeEngine/Scene/DebugRenderer.cpp:307-308 | The remap sends the top-left (0,0) to (-1,1), the bottom-right (1,1) to (1,-1) and the centre to the origin |
| TextNodes.TextPlacement | Code/PrimeEngine/Scene/DebugRenderer.cpp:301-313 | The draw type is Overlay2D_3DPos if and only if the node faces the camera, Overlay2D if and only if it is an overlay and does not face the camera, and InWorld otherwise. An overlay position is remapped even when the camera flag overrides the draw type; otherwise the position is kept |
| TextNodes.TextExpires | Code/PrimeEngine/Scene/DebugRenderer.cpp:332-337 | The pass disables and queues a text slot exactly when it has a node, the node is enabled, and its lifetime is negative |
| TextNodes.ExpireText | Code/PrimeEngine/Scene/DebugRenderer.cpp:331-345 | One pass on one text slot: a missing or disabled node is skipped; an enabled one is disabled if its lifetime is negative and counted down by 1 either way |
| TextNodes.ExpiredText | Code/PrimeEngine/Scene/DebugRenderer.cpp:329-341 | The slots the scan queues, in queue order (characterised by `ExpiredTextMembers`) |
| TextNodes.DisabledTextUntouched | Code/PrimeEngine/Scene/DebugRenderer.cpp:332-335 | Any number of passes leave a slot with no node, or a disabled node, unchanged |
| TextNodes.TextSchedule | Code/PrimeEngine/Scene/DebugRenderer.cpp:335-343 | For an enabled node with lifetime in [T, T+1): it stays enabled for exactly the first T+1 passes; pass T+2 disables and queues it, and is the only pass that does; its handle is kept |
| TextNodes.ExpiredTextMembers | Code/PrimeEngine/Scene/DebugRenderer.cpp:329-341 | The pass queues exactly the slots whose node is enabled and whose lifetime is negative, in increasing index order |
| TextNodes.ExpiredTextGrow | Code/PrimeEngine/Scene/DebugRenderer.cpp:329-340 | The scan never queues fewer slots over more of the pool |
| PoolInvariants.LinePoolOk | Code/PrimeEngine/Scene/DebugRenderer.cpp:55-57 | The line pool invariant: the free stack names no slot twice, every slot on it holds an empty list, and every list holds whole six-float vertices |
| PoolInvariants.TextPoolOk | Code/PrimeEngine/Scene/DebugRenderer.cpp:51-53 | The text pool invariant: the free stack and the queue together name each slot at most once and only slots of the pool. A slot is on one of them exactly when its node is not enabled. Queued slots have nodes. A slot has a node exactly when it is on the attached list, which names no slot twice |
| PoolInvariants.LineStackInRange | Code/PrimeEngine/Scene/DebugRenderer.cpp:141 | Every index on a valid line free stack names a slot of the pool, so the pop reads a real list |
| PoolInvariants.InitialPools | Code/PrimeEngine/Scene/DebugRenderer.cpp:46-57 | Stacks holding 0..N-1 over empty lists and uncreated nodes, with an empty queue, satisfy both pool invariants |
| PoolInvariants.LinePop | Code/PrimeEngine/Scene/DebugRenderer.cpp:141-157 | Popping the top line slot and loading a whole-vertex list into it keeps the line pool invariant |
| PoolInvariants.TextPop | Code/PrimeEngine/Scene/DebugRenderer.cpp:283-300 | The popped text slot's node is not enabled (the assertion at line 290 holds). Loading an enabled node into it, and attaching the node if it is new, keeps the text pool invariant |
| PoolInvariants.TextDrainAll | Code/PrimeEngine/Scene/DebugRenderer.cpp:324-327 | Moving the whole queue onto the free stack, back first, keeps the text pool invariant with an empty queue |
| PoolInvariants.ExpiredLinesDistinct | Code/PrimeEngine/Scene/DebugRenderer.cpp:349-357 | The pass pushes each slot at most once |
| PoolInvariants.ExpiredLinesNotFree | Code/PrimeEngine/Scene/DebugRenderer.cpp:352-357 | A slot the pass frees was not already free: it held floats |
| PoolInvariants.LineExpiredFits | Code/PrimeEngine/Scene/DebugRenderer.cpp:357 | The free stack plus the slots the pass pushes never exceed the capacity, so `m_availableLineLists[m_numAvailableLineLists++]` stays in bounds |
| PoolInvariants.LineExpirePass | Code/PrimeEngine/Scene/DebugRenderer.cpp:349-363 | A whole line expiry pass keeps the line pool invariant with the freed slots pushed |
| PoolInvariants.LineExpirePassWhole | Code/PrimeEngine/Scene/DebugRenderer.cpp:358 | After the pass every list still holds whole vertices |
| PoolInvariants.LineExpirePassEmpty | Code/PrimeEngine/Scene/DebugRenderer.cpp:357-358 | After the pass every slot on the grown free stack holds an empty list |
| PoolInvariants.ExpiredTextDistinct | Code/PrimeEngine/Scene/DebugRenderer.cpp:329-340 | The pass queues each slot at most once |
| PoolInvariants.ExpiredTextNotFree | Code/PrimeEngine/Scene/DebugRenderer.cpp:335-340 | A slot the pass queues was neither free nor already queued |
| PoolInvariants.TextExpiredFits | Code/PrimeEngine/Scene/DebugRenderer.cpp:340 | Free stack plus queue plus the newly queued slots never exceed the capacity, so `m_hFreeingSNs[m_numFreeing++]` stays in bounds |
| PoolInvariants.TextExpirePass | Code/PrimeEngine/Scene/DebugRenderer.cpp:329-346 | A whole text expiry pass keeps the text pool invariant with the expired slots appended to the queue |
| PoolInvariants.TextExpirePassDistinct | Code/PrimeEngine/Scene/DebugRenderer.cpp:340 | After the pass the free stack and the queue together name each slot at most once, and only slots of the pool |
| PoolInvariants.TextExpirePassSlots | Code/PrimeEngine/Scene/DebugRenderer.cpp:335-341 | After the pass a slot is free or queued if and only if its node is not enabled; queued slots have nodes; the attached list still matches |
| DebugDraw.DebugRenderer.Valid | Code/PrimeEngine/Scene/DebugRenderer.cpp:43-58 | The renderer invariant: array sizes match the pool capacities, the stacks and the queue are distinct arrays, both counts stay within capacity, the current pair index is 0 or 1, and both pool invariants hold |
| DebugDraw.DebugRenderer.constructor | Code/PrimeEngine/Scene/DebugRenderer.cpp:43-91 | Every list is empty and every node uncreated. Both stacks hold 0..N-1 with count N. The queue is empty. Pair 0 is current and both pairs are disabled. The pool invariant holds |
| DebugDraw.StackAll | Code/PrimeEngine/Scene/DebugRenderer.cpp:52-57 | The constructor's loops leave index k at stack position k |
| DebugDraw.DebugRenderer.CreateLineMesh | Code/PrimeEngine/Scene/DebugRenderer.cpp:137-203 | With an empty stack nothing changes. Otherwise the top slot (the one freed last) is popped. Its lifetime becomes timeToLive, and its list becomes the gizmo followed by the transformed raw lines. Every other slot is unchanged and the pool invariant is kept |
| DebugDraw.DebugRenderer.FillLineList | Code/PrimeEngine/Scene/DebugRenderer.cpp:157-200 | Resetting and filling list `index` leaves it holding exactly `LineMeshFloats`; every other list is unchanged |
| DebugDraw.DebugRenderer.AppendRawLines | Code/PrimeEngine/Scene/DebugRenderer.cpp:176-200 | The raw-data loop appends exactly the transformed point pairs of the first numInRawData entries to list `index`, and touches no other list |
| DebugDraw.DebugRenderer.CreateLineMeshForDummies | Code/PrimeEngine/Scene/DebugRenderer.cpp:228-277 | With an empty stack nothing changes. Otherwise the top slot is popped with lifetime timeToLive. Its list holds points 0..23 of the data as twelve untransformed lines, or nothing without data, independent of hasTransform, transform, scale and numInRawData. The pool invariant is kept |
| DebugDraw.DebugRenderer.FillDummyList | Code/PrimeEngine/Scene/DebugRenderer.cpp:249-274 | Resetting and filling list `index` leaves it holding exactly `DummyFloats`; every other list is unchanged |
| DebugDraw.DebugRenderer.CreateTextMesh | Code/PrimeEngine/Scene/DebugRenderer.cpp:279-316 | With an empty stack nothing changes. Otherwise the top slot is popped; its old node was not enabled. The slot now holds an enabled node with the string, the draw type and position of `TextPlacement`, and the scale. Its lifetime is timeToLive. The node is attached only if it was created now. The pool invariant is kept |
| DebugDraw.DebugRenderer.PreGatherDrawCalls | Code/PrimeEngine/Scene/DebugRenderer.cpp:318-364 | The text stack gains the old queue back first. The queue becomes exactly the text slots that expire. Every text and line slot undergoes one `ExpireText` or `ExpireLine` step. The line stack gains exactly the expiring line slots in index order. The pool invariant is kept |
| DebugDraw.DebugRenderer.DrainFreeingTextNodes | Code/PrimeEngine/Scene/DebugRenderer.cpp:324-327 | The queue is emptied onto the text stack, back first, and the pool invariant is kept |
| DebugDraw.DebugRenderer.DrainQueue | Code/PrimeEngine/Scene/DebugRenderer.cpp:324-327 | The drain loop ends with an empty queue; the stack grows by the reversed queue and its count by the queue's length |
| DebugDraw.DebugRenderer.ExpireTextNodes | Code/PrimeEngine/Scene/DebugRenderer.cpp:329-346 | The text scan appends the expiring slots to the queue, steps every slot once, and keeps the pool invariant |
| DebugDraw.DebugRenderer.ExpireTextSlots | Code/PrimeEngine/Scene/DebugRenderer.cpp:329-346 | The scan loop appends exactly `ExpiredText` to the queue and applies `ExpireText` to every slot |
| DebugDraw.DebugRenderer.ExpireTextSlot | Code/PrimeEngine/Scene/DebugRenderer.cpp:331-345 | One iteration steps slot i, queues it if and only if it expires, and leaves every other slot unchanged |
| DebugDraw.DebugRenderer.ExpireLineLists | Code/PrimeEngine/Scene/DebugRenderer.cpp:348-363 | The line scan pushes the expiring slots, steps every slot once, and keeps the pool invariant |
| DebugDraw.DebugRenderer.ExpireLineSlots | Code/PrimeEngine/Scene/DebugRenderer.cpp:349-363 | The scan loop pushes exactly `ExpiredLines` and applies `ExpireLine` to every slot |
| DebugDraw.DebugRenderer.ExpireLineSlot | Code/PrimeEngine/Scene/DebugRenderer.cpp:351-361 | One iteration steps slot i, pushes it if and only if it expires, and leaves every other slot unchanged |
| DebugDraw.DebugRenderer.LiveListsSize | Code/PrimeEngine/Scene/DebugRenderer.cpp:374-386 | The first loop of postPreDraw computes the length of the merged buffer |
| DebugDraw.DebugRenderer.MergeLiveLists | Code/PrimeEngine/Scene/DebugRenderer.cpp:388-402 | The second loop builds exactly the live lists concatenated in slot order |
| DebugDraw.DebugRenderer.PostPreDraw | Code/PrimeEngine/Scene/DebugRenderer.cpp:367-426 | The current pair is disabled and the index flips to the other pair. The new pair holds the merged buffer with `size/6` vertices and is enabled if the buffer is non-empty; otherwise it is disabled. The buffer is whole vertices. Lists, lifetimes and pools are not modified |
| DebugDraw.TwoFrames | Code/PrimeEngine/Scene/DebugRenderer.cpp:404-424 | Two postPreDraw calls restore the current index and leave the other pair disabled |
| Meshes.AssetKey | Code/PrimeEngine/Scene/MeshManager.cpp:54-55 | The key is the package, then '/', then the asset name, so it always contains '/' |
| Meshes.AssetKeyInjective | Code/PrimeEngine/Scene/MeshManager.cpp:55 | For packages without '/', two keys are equal if and only if both packages and both names are |
| Meshes.AssetKeyCollision | Code/PrimeEngine/Scene/MeshManager.cpp:55 | Without that restriction the key is not injective: ("a/b", "c") and ("a", "b/c") share a key, and so a cache entry |
| Meshes.Decimal | Code/PrimeEngine/Scene/MeshManager.cpp:252 | `%d` of a counter value is a non-empty string of decimal digits |
| Meshes.DecimalRoundTrip | Code/PrimeEngine/Scene/MeshManager.cpp:252 | Reading the digits back gives the counter value |
| Meshes.GeneratedKey | Code/PrimeEngine/Scene/MeshManager.cpp:252 | A generated key contains no '/' |
| Meshes.GeneratedKeyInjective | Code/PrimeEngine/Scene/MeshManager.cpp:249-252 | Two generated keys are equal if and only if their counter values are |
| Meshes.GeneratedKeyIsNoAssetKey | Code/PrimeEngine/Scene/MeshManager.cpp:55 | No generated key equals a key getAsset builds |
| Meshes.EndsWith | Code/PrimeEngine/Scene/MeshManager.cpp:64-73 | `StringOps::endswith`: the name's last characters are the suffix |
| Meshes.LoaderFor | Code/PrimeEngine/Scene/MeshManager.cpp:64-92 | A name gets the skeleton loader if and only if it ends in "skela", the mesh loader if and only if it ends in "mesha", and no loader if and only if it ends in neither |
| Meshes.SuffixesExclusive | Code/PrimeEngine/Scene/MeshManager.cpp:64-73 | No name ends in both suffixes, so checking "skela" first decides nothing |
| Meshes.Load | Code/PrimeEngine/Scene/MeshManager.cpp:64-91 | A loader keeps the name and package, the mesh loader and only it makes a mesh, and a mesh always has bounding-volume culling on |
| Meshes.LoadedAs | Code/PrimeEngine/Scene/MeshManager.cpp:64-91 | An asset as getAsset creates it: its name has a loader, and the asset is what that loader makes of the name and package |
| Meshes.AssetKeySplit | Code/PrimeEngine/Scene/MeshManager.cpp:55 | A key built from a package and a name that both lack '/' equals another key if and only if that key has the same package and the same name |
| Meshes.CacheOk | Code/PrimeEngine/Scene/MeshManager.cpp:54-99 | The cache invariant. Every key getAsset filed refers to a created asset whose own package and name give back that key. Two such keys never share a handle. Every created asset is what the loader chosen by its name makes of it. Every created handle has been handed out. No key the counter will still generate is taken, which is why the assertion at line 255 holds |
| Meshes.CacheInsert | Code/PrimeEngine/Scene/MeshManager.cpp:97-98 | Filing a fresh handle under a new key, for an asset loaded for that key, keeps the cache invariant. The fresh handle was not in use |
| Meshes.MeshManager.Valid | Code/PrimeEngine/Scene/MeshManager.cpp:54-99 | The cache invariant over the manager's current state |
| Meshes.MeshManager.constructor | Code/PrimeEngine/Scene/MeshManager.cpp:39-43 | The cache starts empty with capacity 256 and the counter at 0 |
| Meshes.MeshManager.GetAsset | Code/PrimeEngine/Scene/MeshManager.cpp:45-102 | On a hit the stored handle is returned and nothing changes. On a miss with no loader the call fails and nothing changes. On a miss with a loader, one new handle holding the loaded asset is created and attached to the root, and it is filed under the key, which was absent. The counter is never touched. A success refers to a created asset whose package and name give back the requested key, made by the loader its name calls for |
| Meshes.MeshManager.RegisterAsset | Code/PrimeEngine/Scene/MeshManager.cpp:247-259 | The counter moves on by one first. The handle is filed under the key generated from the new value, which was absent (the assertion at line 255 holds), and attached to the root. Nothing else changes |
| Meshes.GetAssetTwice | Code/PrimeEngine/Scene/MeshManager.cpp:57-99 | Asking twice for the same asset gives the same result. A success is filed under the key. The two calls attach at most one handle |
| Meshes.FoundAs | Code/PrimeEngine/Scene/MeshManager.cpp:55-99 | For a package and a name without '/', a created asset filed under their key is exactly what the loader for that name makes of them |
| Meshes.ExampleNames | Code/PrimeEngine/Scene/MeshManager.cpp:64-73 | "foo.skela" gets the skeleton loader and "foo.mesha" the mesh loader |
| Meshes.SkeletonAndMeshApart | Code/PrimeEngine/Scene/MeshManager.cpp:45-99 | Asking for "foo.skela" and then "foo.mesha" in package "core" succeeds twice, with two different handles. Whatever was cached before, the first refers to that skeleton and the second to that mesh, with culling on |
| Meshes.RegisterTwice | Code/PrimeEngine/Scene/MeshManager.cpp:249-258 | Two registrations use two different keys and keep both handles |

## Left out

- Floating point: floats and lifetimes are `real`, so there is no rounding. A lifetime is only compared with 0 and decremented by 1.
- Vector and matrix arithmetic: `transform * point` is an uninterpreted function, the `apply` field of `LineLists.Transform`. The gizmo tip `pos + axis * scale` is computed on reals.
- GPU, scene-graph and framework calls are not modelled as calls. These include handle allocation, `setEnabled`, `setSelfAndMeshAssetEnabled`, `loadFrom3DPoints_needsRC`, `loadFromString_needsRC`, `initFromRegisteredAsset`, `PE_REGISTER_EVENT_HANDLER` and the singleton. What they leave behind is kept as data: an enabled flag, a loaded string, the vertices and vertex count of a mesh pair, or the attached handles.
- DebugDraw.DebugRenderer.constructor: the two line meshes registered with the mesh manager and their instances (lines 70-89) are reduced to a disabled mesh/instance pair.
- `threadOwnershipMask` is an opaque pass-through, so it is left out.
- `EnableDebugRendering` is the constant `true` (DebugRenderer.cpp line 19), so the create operations test only the stack count.
- `NUM_LineLists` and `NUM_TextSceneNodes` are defined in a header that is not part of this model; they are constructor parameters. The freeing queue is assumed to have room for every text slot.
- DebugDraw.DebugRenderer.CreateTextMesh: a newly created TextSceneNode is taken to be enabled once loaded, since its constructor is not part of this model.
- DebugDraw.DebugRenderer.CreateLineMeshForDummies: the data must hold 24 points. The source reads 24 whatever numInRawData says, and reading past a shorter buffer is undefined.
- DebugDraw.DebugRenderer.CreateLineMesh: `numInRawData` is a `nat` where the source takes an `int`. When there is raw data a negative count appends nothing; without raw data the count is ignored. Either way the list is the same as for 0, but the reserved capacity `numPoints * 6` for a negative count is not modelled. The same narrowing applies to DebugDraw.DebugRenderer.CreateLineMeshForDummies.
- DebugDraw.DebugRenderer.CreateLineMesh: the raw data must hold 6·numInRawData floats, which the source also reads unchecked. `Array<float>` growth past the reserved capacity is not modelled, because `Array` is not part of this model.
- `createRootLineMesh` (DebugRenderer.cpp lines 92-125) only builds a fixed grid of points for createLineMesh, so it is not modelled.
- Meshes.AssetKey: the fixed-size key buffer filled by `sprintf` is not modelled, so overlong keys are not truncated and do not overflow.
- Meshes.MeshManager.RegisterAsset: the `static int` counter does not wrap at 2^31. It is a field of one manager, whereas the source shares it across all managers.
- Meshes.MeshManager: the map has unbounded size. `PEMap` beyond its initial capacity of 256 is not part of this model.
- Meshes.MeshManager.GetAsset: the failed `PEASSERT` for a name with no loader is a `Failure` result with no state change. Debug builds stop there. In release builds the invalid handle would be attached and filed; that path is not modelled.
- Asset loading I/O (`MeshCPU::ReadMesh`, `Skeleton::initFromFiles`, `loadFromMeshCPU_needsRC`) is reduced to the asset kind, name and package. The debug prints in getAsset are dropped.
- `MeshManager::getBox` (MeshManager.cpp lines 106-245) is float min/max over file-loaded vertices, outside the cache logic, so it is not modelled.
