# Overlay engine of xrizer, modelled in Dafny

xrizer implements the OpenVR overlay interface (`IVROverlay027`) on top of
OpenXR. Its overlay engine, `src/overlay.rs`, has four parts, and each has a
counterpart here:

- **The overlay store.** `OverlayMan` holds three pieces of state:
  - a slot map from handles to overlays;
  - a key index from key strings to handles;
  - the list of skybox handles.

  The interface methods create, find and destroy overlays, and read or
  write their fields. Each returns an `EVROverlayError` status code.
  In the model this is the class `OverlayManager.OverlayMan`:
  - the slot map's contents are the field `overlays: map<Handle, Overlay>`;
  - the slot map's layout is the field `table: Slots.SlotTable`. This is the vector of slots and the free list. `Order()` is the iteration order, which lists the occupied slots by index;
  - the key index is `keyToOverlay`, and the skybox list is `skybox`.
- **The skybox.** `set_skybox` first clears the previous skybox. It then builds one of two shapes from internal overlays:
  - one equirect sphere, for one or two textures;
  - six cube faces, for six textures.

  These overlays sit at the sentinel z-order -1 and are never put in the key index.
- **The per-frame layer list.** `get_layers` turns every overlay to be drawn into a composition layer:
  - a quad, a cylinder or an equirect sphere;
  - with an alpha payload when the overlay has one.

  It then sorts the layers stably by z-order. This part is modelled as values in module `Layers`. A method in `OverlayManager` walks the store.
- **Texture submission.** `Overlay::set_texture` (module `Overlays`):
  - binds the overlay to a graphics backend once;
  - creates the session's swapchain map on first use;
  - reuses or recreates the overlay's swapchain;
  - records the copied extent as the overlay's rect.

  The session side is in module `Sessions`.

Modelling decisions:
- Handles are fresh naturals that are never reused. Slots are reused:
  - `SlotMap::insert` takes the most recently freed slot, or appends a slot when none is free;
  - `SlotMap::remove` empties the handle's slot and pushes it on the free list;
  - iteration visits the slots by index, so a new overlay can come before an older one. `OverlayManager.ReusedSlotComesFirst` shows this: create a, create b, destroy a, create c, and the order is [c, b];
  - a second six-texture skybox refills the freed face slots in reverse (`Slots.RefillReverses`).
- `f32` values are `real`s that are only stored, compared and forwarded.
- The graphics backend and the OpenXR runtime are reduced to the values they return. These are the fields of `Sessions.GraphicsEnv`:
  - the swapchain a texture needs;
  - the runtime's format adjustment;
  - the usability verdict of `is_usable_swapchain`;
  - the extent a copy writes.
- A Rust panic is a `panicked` result. After a panic the process ends, so contracts say nothing about the state except that the store invariant still holds.
- A null out-pointer is a `bool` argument. A null in-pointer is an `Option` argument.
- A status code together with the value written through an out-pointer is a `Types.Reply`.

The store invariant `OverlayManager.StoreValid` (`OverlayMan.Valid`) holds after every operation. It says:
- the slot table is well formed, each live handle occupies exactly one slot, and no slot holds a dead handle;
- every handle in the key index names a live overlay that carries that key;
- no skybox overlay is in the key index;
- only skybox overlays have a negative z-order, and that z-order is the sentinel.

The predicate `Synced` says that every overlay with a rect has a swapchain in the session's map. Every operation preserves it, and `GetLayers` uses it to exclude the panic on a missing swapchain.

Two behaviours of the code that the model keeps:
- **Keys are not unique.** `CreateOverlay` does not check whether a key is already in use. A second overlay with the same key takes over the index entry. Destroying either overlay then removes that entry (src/overlay.rs:581-584 and 1235-1244). `OverlayManager.ReusedKeyIsLost` shows the consequence: the key is no longer found although an overlay with it is still live.
- **Which API the panic compares.** Texture submission panics when the session's swapchain map serves another API than the backend the overlay is already bound to. That backend comes from the overlay's *first* texture, not the texture being submitted (src/overlay.rs:458-460 and 489-494). `Overlays.SetTexture` states it that way.

## Model

| member | source | states |
|---|---|---|
| Sessions.Session.constructor | src/overlay.rs:404-407 | A session starts without a swapchain map and with no swapchain created. |
| Sessions.Session.CreateSwapchain | src/overlay.rs:498-516 | A new swapchain gets a fresh identity. It is created with the runtime-adjusted info and remembers the format the texture asked for. |
| Overlays.NewOverlay | src/overlay.rs:431-450 | A new overlay keeps its key and name and takes the defaults: hidden, 1 m wide, a quad at z-order 0, full bounds, no alpha, no transform, no backend, no rect. |
| Overlays.Clamp01 | src/overlay.rs:1102-1104 | The curvature written is within [0, 1]. It equals the value when that is in range, and the nearer end otherwise. |
| Overlays.CurvatureOf | src/overlay.rs:1083-1086 | A curved overlay reports its own curvature; a quad or a sphere reports 0. |
| Overlays.BoundApi | src/overlay.rs:458-460 | A submission uses the backend already bound, or else the texture's own. |
| Overlays.Textured | src/overlay.rs:537-548 | After a submission the backend is bound and the rect is the copied extent at offset (0, 0). No other field changes. |
| Overlays.BackendNeverReplaced | src/overlay.rs:458-460 | The backend chosen by the first texture stays bound through every later submission. |
| Overlays.SetTexture | src/overlay.rs:452-549 | The call panics exactly when the session's map serves another API than the bound backend. Otherwise the swapchain map exists and serves that API, and only this overlay's entry changes. An existing swapchain that is usable for the new texture is reused and none is created. Otherwise a new swapchain with the adjusted info replaces it. The overlay becomes `Textured`. |
| Layers.ShapeFor | src/overlay.rs:213-282 | Quad gives a quad layer, curved a cylinder layer and sphere an equirect layer. The overlay's width and curvature are carried over. |
| Layers.AlphaPayloadAsWritten | src/overlay.rs:309-318 | The payload as the source builds it maps every colour to red, green and blue 0, and scales its alpha by the overlay alpha. |
| Layers.AlphaAsWrittenBlanksWhite | src/overlay.rs:309-318 | Under that payload at alpha 0.5, an opaque white pixel becomes (0, 0, 0, 0.5). |
| Layers.AlphaPayload | src/overlay.rs:302-325 | The corrected payload keeps every colour's red, green and blue and scales its alpha by the overlay alpha. |
| Layers.AlphaKeepsWhite | src/overlay.rs:302-325 | Under the corrected payload at alpha 0.5, an opaque white pixel becomes (1, 1, 1, 0.5). |
| Layers.SetAlpha | src/overlay.rs:302-325 | Attaching alpha to a layer that has none adds exactly the payload `AlphaPayload(alpha)` and changes nothing else. Because of the finding below, that is the corrected payload: it scales only the alpha. |
| Layers.LayerFor | src/overlay.rs:155-228 | A layer samples the overlay's swapchain at its rect. It has the overlay's origin and pose when a transform is set, else the session origin and the pose half a metre ahead. It carries a payload exactly when the overlay has an alpha, and that payload is `AlphaPayload` of the alpha. |
| Layers.LayersOf | src/overlay.rs:288 | The z-orders are dropped and the layers kept in order. |
| Layers.CandidatesSound | src/overlay.rs:144-154 | Every collected layer comes from an overlay in the store that is visible, has a rect and a swapchain, and is not a hidden skybox. It is the layer `LayerFor` builds for that overlay. |
| Layers.CandidatesComplete | src/overlay.rs:144-154 | Every overlay that should be drawn contributes a layer. |
| Layers.CandidatesFollowOrder | src/overlay.rs:144 | The collected layers follow the store's iteration order. |
| Layers.InsertPermutes | src/overlay.rs:286 | One insertion step of the sort keeps every element and adds exactly the new one. |
| Layers.InsertSorted | src/overlay.rs:286 | One insertion step keeps the sequence ascending by z-order. |
| Layers.InsertKeepsTies | src/overlay.rs:286 | Inserting an element that ranks above all others keeps equal z-orders in rank order. |
| Layers.StableSortByZCorrect | src/overlay.rs:285-286 | The sort orders ascending by z-order and permutes its input. Elements with equal z-order keep their input order. |
| Layers.FrameLayers | src/overlay.rs:143-289 | A frame's list is ascending by z-order. It holds one layer per overlay to be drawn and nothing else. Layers with equal z-order appear in store iteration order. |
| Types.WithoutMembers | src/overlay.rs:1239 | Filtering handles out of a sequence keeps exactly the elements outside the set. |
| Slots.OccupiedMembers | src/overlay.rs:144 | Iterating the slot map visits exactly the handles held in its slots. |
| Slots.OccupiedAppend | src/overlay.rs:144 | Iterating a slot vector visits its first part and then its second. |
| Slots.OccupiedDistinct | src/overlay.rs:144 | When no handle sits in two slots, the iteration visits each handle once. |
| Slots.InsertValid | src/overlay.rs:582 | `SlotMap::insert` of a new handle keeps the slot table well formed. It adds exactly that handle to the slots. |
| Slots.RemoveValid | src/overlay.rs:1239 | `SlotMap::remove` keeps the slot table well formed and drops exactly that handle. A live handle's slot becomes empty and goes to the head of the free list. |
| Slots.RemoveOrder | src/overlay.rs:1239 | Removing a handle takes it out of the iteration order. The other handles keep their order. |
| Slots.EmptySlotOrder | src/overlay.rs:1239 | Emptying the slot of a handle takes just that handle out of the iteration order. |
| Slots.RemoveAllValid | src/overlay.rs:116-121 | Removing a list of handles keeps the table well formed and drops exactly those handles. |
| Slots.RemoveAllOrder | src/overlay.rs:116-121 | Removing a list of handles takes exactly them out of the iteration order. The rest keep their order. |
| Slots.RemoveAllVisits | src/overlay.rs:116-121 | After a list of removals, the iteration visits exactly the handles it visited before that are not in the list. |
| Slots.InsertOrder | src/overlay.rs:582 | With no free slot, a new handle is visited last. Otherwise it is visited at the position of the most recently freed slot, between the handles of the slots before and after it. |
| Slots.FillSlotOrder | src/overlay.rs:582 | Filling an empty slot puts the new handle after the handles of lower slots and before those of higher ones. |
| Slots.ReuseLastFreed | src/overlay.rs:582 | A removal followed by an insertion gives the new handle the slot just freed. The free list is the same as before. |
| Slots.FreedSlotVisitedFirst | src/overlay.rs:144 | Insert a, insert b, remove a, insert c into an empty table: the iteration order is [c, b]. |
| Slots.RemoveAllEmpties | src/overlay.rs:116-121 | Removing handles keeps the number of slots and only empties slots. |
| Slots.RemoveAllFreesInReverse | src/overlay.rs:116-121 | Removing live, distinct handles pushes their slots on the free list. The slot of the last removed handle comes first, and the old free list follows. |
| Slots.InsertAllFillsFreed | src/overlay.rs:64-68 | While free slots last, the `i`-th inserted handle takes the `i`-th most recently freed slot, and the free list loses exactly those slots. |
| Slots.RefillReverses | src/overlay.rs:41-68 | When a skybox is rebuilt (remove the old handles, insert the new), the `i`-th new handle takes the slot of the `i`-th old handle counted from the last. |
| OverlayManager.OrderCoversStore | src/overlay.rs:144 | Under the store invariant, the iteration order lists every live overlay exactly once. |
| OverlayManager.ReusedSlotComesFirst | src/overlay.rs:568-592 | Create two overlays, destroy the first, create a third: the store iterates the third before the second, although its handle is newer. |
| OverlayManager.SkyboxName | src/overlay.rs:54-67 | The sphere is named "__xrizer_skybox". Face `i` has that name as a prefix, then "_", then the digit `i` as the last character, and nothing else. |
| OverlayManager.SkyboxOverlayBuilt | src/overlay.rs:50-111 | A skybox overlay is built as a new overlay named after its face, then textured, then given its shape. It is visible, at z-order -1 and has a rect. The sphere is 500 wide with no transform. A face is a quad 1000 wide, standing at that face's pose. |
| OverlayManager.CubeFaces | src/overlay.rs:64-111 | There is one face per texture, and face `i` is built from texture `i`. |
| OverlayManager.PlacedAt | src/overlay.rs:64-111 | After the faces are added, face `i` sits at the `i`-th fresh handle and every earlier overlay is kept unchanged. |
| OverlayManager.SkyboxCount | src/overlay.rs:50-111 | Six textures give six overlays, and one or two give one. |
| OverlayManager.Normalized | src/overlay.rs:998-1009 | The stored pose keeps the position and normalises the orientation. |
| OverlayManager.EditKeepsValid | src/overlay.rs:552-565 | An edit through `get_overlay!` that keeps the key and adds no negative z-order keeps the store invariant. |
| OverlayManager.InsertKeepsValid | src/overlay.rs:581-582 | Inserting into the slot map (`Slots.SlotInsert`) with a fresh handle keeps the invariant. |
| OverlayManager.IndexKeepsValid | src/overlay.rs:583-584 | Indexing a non-skybox overlay under its key keeps the invariant. |
| OverlayManager.DestroyKeepsValid | src/overlay.rs:1235-1244 | Removing an overlay from the slot map (`Slots.SlotRemove`) and removing its key's index entry keeps the invariant. No index entry names the overlay afterwards. |
| OverlayManager.ClearKeepsValid | src/overlay.rs:116-121 | Removing all skybox overlays from the slot map (`Slots.SlotRemoveAll`) and emptying the list keeps the invariant. |
| OverlayManager.InsertSkyboxKeepsValid | src/overlay.rs:52-63 | Inserting and recording a skybox overlay without indexing it keeps the invariant. |
| OverlayManager.OverlayMan.constructor | src/overlay.rs:31-39 | A new manager has an empty store, key index, skybox and slot table. The first handle it gives out is 0. |
| OverlayManager.OverlayMan.InsertOverlay | src/overlay.rs:582 | Insertion takes a fresh handle and places it as `SlotMap::insert` does (`Slots.SlotInsert`): in the most recently freed slot, or else in a new last slot. |
| OverlayManager.OverlayMan.Lookup | src/overlay.rs:552-561 | A read succeeds exactly on a live handle, and otherwise fails with UnknownOverlay and writes nothing. |
| OverlayManager.OverlayMan.Update | src/overlay.rs:552-565 | A write changes exactly the live overlay it names. An unknown handle gives UnknownOverlay and changes nothing. |
| OverlayManager.OverlayMan.CreateOverlay | src/overlay.rs:568-592 | A null handle pointer gives InvalidParameter and changes nothing. Otherwise there is a new overlay with the defaults under the next fresh handle. The overlay is placed in the slot table as an insertion is, the key maps to that handle, and `FindOverlay` returns it. |
| OverlayManager.OverlayMan.FindOverlay | src/overlay.rs:594-612 | A null pointer gives InvalidParameter. The call succeeds exactly when the key is indexed, and then returns a live overlay that carries that key. |
| OverlayManager.OverlayMan.DestroyOverlay | src/overlay.rs:1235-1244 | The call always returns None. A live overlay is removed from the store, from its slot (`Slots.SlotRemove`, which frees the slot for the next insertion) and from the index entry of its key. No index entry names it afterwards. An unknown handle changes nothing. |
| OverlayManager.OverlayMan.ShowOverlay | src/overlay.rs:614-620 | A live overlay becomes visible and nothing else changes. An unknown handle gives UnknownOverlay. |
| OverlayManager.OverlayMan.HideOverlay | src/overlay.rs:622-628 | A live overlay becomes hidden and nothing else changes. An unknown handle gives UnknownOverlay. |
| OverlayManager.OverlayMan.SetOverlayAlpha | src/overlay.rs:630-653 | An unknown handle gives UnknownOverlay. Without the colour scale/bias extension nothing is stored. With it, 1.0 clears the alpha, any other value is stored, and `GetOverlayAlpha` returns the value set. |
| OverlayManager.OverlayMan.GetOverlayAlpha | src/overlay.rs:1148-1156 | The call returns the stored alpha, or 1.0 when none is stored. An unknown handle gives UnknownOverlay. |
| OverlayManager.OverlayMan.SetOverlayWidthInMeters | src/overlay.rs:655-665 | Only the width changes, and the getter returns the value set. An unknown handle gives UnknownOverlay. |
| OverlayManager.OverlayMan.GetOverlayWidthInMeters | src/overlay.rs:1108-1118 | The call returns the stored width, or UnknownOverlay. |
| OverlayManager.OverlayMan.SetOverlaySortOrder | src/overlay.rs:1128-1140 | The `u32` is stored widened and the getter returns it unchanged. An unknown handle gives UnknownOverlay. |
| OverlayManager.OverlayMan.GetOverlaySortOrder | src/overlay.rs:1119-1127 | A `u32`-range z-order is returned as is. The skybox sentinel -1 reads back as 2^32 - 1. |
| OverlayManager.OverlayMan.SetOverlayTextureBounds | src/overlay.rs:1038-1051 | An unknown handle gives UnknownOverlay and a null pointer gives InvalidParameter, neither with any change. Otherwise the bounds are stored and read back unchanged. |
| OverlayManager.OverlayMan.GetOverlayTextureBounds | src/overlay.rs:1025-1037 | The call returns the stored bounds, UnknownOverlay, or InvalidParameter for a null pointer. |
| OverlayManager.OverlayMan.SetOverlayCurvature | src/overlay.rs:1090-1107 | Without the cylinder extension the call returns None without looking anything up. With it the overlay becomes curved with the clamped value (0 included), and the getter returns that value. |
| OverlayManager.OverlayMan.GetOverlayCurvature | src/overlay.rs:1076-1089 | A curved overlay returns its curvature and any other returns 0. An unknown handle gives UnknownOverlay. |
| OverlayManager.OverlayMan.SetOverlayTransformAbsolute | src/overlay.rs:987-1017 | An unknown handle gives UnknownOverlay and a null pointer gives InvalidParameter. Otherwise the transform is stored with its origin and normalised orientation. |
| OverlayManager.OverlayMan.SetOverlayTexture | src/overlay.rs:667-682 | An unknown handle or a null texture returns an error and changes nothing. Otherwise the submission panics exactly as `Overlays.SetTexture` does. If it does not panic, the overlay is textured and gains a rect, and `Synced` is kept. The session's map then exists and serves the overlay's bound backend. Only the overlay's entry changes: a usable swapchain is kept and none is created, and otherwise a new one with the adjusted info replaces it. |
| OverlayManager.OverlayMan.IsDashboardVisible | src/overlay.rs:763-765 | The dashboard is never visible. |
| OverlayManager.OverlayMan.ShowKeyboard | src/overlay.rs:727-739 | Every keyboard request fails with RequestFailed. |
| OverlayManager.OverlayMan.RemoveOverlays | src/overlay.rs:116-121 | Removing the listed handles one at a time removes exactly those handles from the store. The slot table becomes `Slots.SlotRemoveAll` of the list: their slots are freed in turn, each pushed on the free list. |
| OverlayManager.OverlayMan.ClearSkybox | src/overlay.rs:116-121 | Exactly the skybox overlays are removed and their slots freed in list order. The iteration then visits exactly the handles it visited before, minus the skybox ones. The list is left empty and the invariant holds. |
| OverlayManager.OverlayMan.AddSkyboxOverlay | src/overlay.rs:52-63 | It panics exactly when the session's map exists and serves another API than the texture. Otherwise one skybox overlay is inserted under a fresh handle as `SlotMap::insert` places it. It is textured and shaped (`SkyboxOverlay`), recorded in the skybox list, and given a swapchain. The map then serves the texture's API. |
| OverlayManager.OverlayMan.AddSkyboxFaces | src/overlay.rs:64-111 | It panics exactly when some texture is of another API than the map serves, or, with no map yet, than the first texture. Otherwise the six faces go to consecutive fresh handles in texture order, and those handles become the skybox list. They are inserted into the slot table in that order (`Slots.SlotInsertAll`). Each has a swapchain, and the map serves that API. |
| OverlayManager.OverlayMan.AddSkyboxSphere | src/overlay.rs:50-63 | It panics exactly when the map exists and serves another API than the texture. Otherwise a single sphere is added under a fresh handle and inserted into the slot table. That handle becomes the skybox list and has a swapchain, and the map serves the texture's API. |
| OverlayManager.OverlayMan.SetSkyboxSphere | src/overlay.rs:41-63 | The old skybox is cleared and replaced by one sphere. It panics exactly as `AddSkyboxSphere` does. Otherwise the slot table is the old one with the old skybox removed and the new handle inserted, and the new handle has a swapchain. |
| OverlayManager.OverlayMan.SetSkyboxCube | src/overlay.rs:41-111 | The old skybox is cleared and replaced by the six faces. It panics exactly as `AddSkyboxFaces` does. Otherwise the slot table is the old one with the old skybox removed and the new handles inserted, and each new handle has a swapchain. |
| OverlayManager.OverlayMan.SetSkybox | src/overlay.rs:41-114 | The old skybox overlays are removed. One sphere (for one or two textures) or six faces (for six) are added under fresh handles. It panics exactly when a texture in use is of another API than the map serves, or, with no map yet, than the first texture. Otherwise the slot table removes the old handles and then inserts the new ones, so the new handles refill the freed slots (`Slots.RefillReverses`). Each new handle has a swapchain, and the map serves that API. All other overlays and the key index are unchanged, and the invariant and `Synced` hold. |
| OverlayManager.OverlayMan.GetLayers | src/overlay.rs:123-292 | Without a swapchain map the list is empty. A panic happens exactly on an API mismatch or a drawn overlay without a swapchain, and never with a matching API on a `Synced` store. Otherwise the result is the stably z-sorted layers of the drawn overlays, taken in slot order `Order()` (see `Layers.FrameLayers`). |
| OverlayManager.CollectCandidates | src/overlay.rs:143-282 | The loop over the store panics exactly when a drawn overlay has no swapchain. Otherwise it collects exactly `Candidates`, the drawn overlays' layers in the order given. |
| OverlayManager.ReusedKeyIsLost | src/overlay.rs:568-592 | Two overlays are created under one key and the first is destroyed. The key is then not found, although the second overlay is still live. |

## Left out

- Locking. `RwLock` and `Mutex` only serialise access, and the model is sequential.
- The `slotmap` crate is not part of this model. Module `Slots` models the crate's `insert`, `remove` and iteration from that crate's documented behaviour. Free slots are reused most recently freed first, and iteration goes by slot index.
- Slot-map keys. A key of the crate holds a slot index and a version. The model's handles are fresh naturals instead. The version counters, their wrap-around and the crate's reserved slot 0 are not modelled. A destroyed handle stays unknown in both.
- OverlayManager.OverlayMan.DestroyOverlay states the new slot table, not the new iteration order. `ClearSkybox` states which handles the iteration still visits, but not their order. The order follows from `Slots.RemoveOrder` and `Slots.RemoveAllOrder` on the new table.
- Layers.SetAlpha and `Layers.LayerFor` attach the corrected payload `Layers.AlphaPayload`, not the payload as written; see Findings.
- OpenXR and GPU calls are reduced to the results in `GraphicsEnv`. These include swapchain creation, image enumeration, acquire, wait and release, the copy, `check_format` and `is_usable_swapchain`. Their own failures, which are `unwrap` panics, are not modelled.
- `get_space_for_origin` is not modelled. A layer records the tracking origin, not the runtime's space handle.
- `Layers.LayerFor`: the geometry computed from `f32`s is not modelled. This includes the quad height from the aspect ratio, the cylinder radius, central angle and aspect ratio, and the equirect angles. The cylinder layer's pose is the overlay's pose, whereas the source moves its position to the cylinder's centre.
- `OverlayManager.OverlayMan.SetOverlayTransformAbsolute`: the conversion between `HmdMatrix34_t` and a pose is taken as lossless. Quaternion normalisation is the `normalize` parameter.
- `Overlays.Clamp01` models `f32::clamp` on non-NaN values only. NaN and other floating-point effects are not modelled.
- The layer list is sorted in place by a merge sort (`sort_by`). It is modelled by the insertion sort `Layers.StableSortByZ`, and only the result matters: sorted, a permutation, stable.
- The unsafe splicing into a layer's next-chain and the lifetime-extension transmute are not modelled. The alpha payload is an `Option` field of the layer.
- `OverlayManager.OverlayMan.SetSkybox` requires 1, 2 or 6 textures. The source reaches `unreachable!()` for any other count.
- Getters with a null value pointer write through it without a check in the source; the model assumes a valid pointer. Key and name pointers of `CreateOverlay` and `FindOverlay` are taken as valid strings.
- `ShowKeyboard`'s arguments are ignored by the source and are not modelled.
- Debug logging and `warn_once!` messages are not modelled.
- The `todo!()` and `unimplemented!()` stubs of the overlay interface and its older versions are not modelled; they only panic. The same goes for the methods that only return a constant without touching the store.
- `xbuild/src/main.rs`, `build.rs` and `src/screenshots.rs` are not part of this model: they are process and file I/O, build configuration, and constant stubs.

## Findings

| source | as written | input that shows it | evidently intended | confidence | as-written member | corrected member |
|---|---|---|---|---|---|---|
| src/overlay.rs:309-318 | `set_alpha` builds the colour scale as `Color4f { a: alpha, ..Default::default() }`. The red, green and blue scales are therefore 0, and the bias is 0. | Overlay alpha 0.5 on an opaque white pixel (1, 1, 1, 1) gives (0, 0, 0, 0.5): the overlay is drawn black at half opacity. | The scale (1, 1, 1, alpha) with no bias, which changes only the opacity | medium, not executed | `Layers.AlphaPayloadAsWritten`, with `Layers.AlphaAsWrittenBlanksWhite` | `Layers.AlphaPayload`, with `Layers.AlphaKeepsWhite`; `Layers.SetAlpha` and `Layers.LayerFor` use it |
