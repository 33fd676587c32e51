/**
 * `OverlayMan`: the overlay store behind the IVROverlay027 interface, the
 * skybox built from internal overlays, and the per-frame layer list.
 *
 * The slot map of overlays is `overlays` together with its slot table
 * `table`: handles are never reused, but slots are, the most recently
 * freed first, and the map iterates by slot (`Order()`). `keyToOverlay`
 * is the key index and `skybox` the list of skybox handles.
 * Status codes come back as `OverlayError`, out-pointers as `Reply`.
 */
module OverlayManager {
  import opened Types
  import opened Sessions
  import opened Overlays
  import opened Layers
  import opened Slots

  /** The runtime extensions the setters consult. */
  datatype Extensions = Extensions(colorScaleBias: bool, cylinder: bool)

  /** Radius of the skybox sphere, and half the edge of the skybox cube. */
  const SKYBOX_SIZE: real := 500.0

  const SKYBOX_NAME: string := "__xrizer_skybox"

  /** A decimal approximation of 1/√2 (`FRAC_1_SQRT_2`); the value is only stored. */
  const FRAC_1_SQRT_2: real := 0.70710677

  /** Poses of the six cube faces: front, back, left, right, up, down. */
  const QUAD_POSES: seq<Pose> := [
    Pose(Vector3(0.0, 0.0, -SKYBOX_SIZE), Quaternion(0.0, 0.0, 1.0, 0.0)),
    Pose(Vector3(0.0, 0.0, SKYBOX_SIZE), Quaternion(1.0, 0.0, 0.0, 0.0)),
    Pose(Vector3(-SKYBOX_SIZE, 0.0, 0.0), Quaternion(FRAC_1_SQRT_2, 0.0, FRAC_1_SQRT_2, 0.0)),
    Pose(Vector3(SKYBOX_SIZE, 0.0, 0.0), Quaternion(-FRAC_1_SQRT_2, 0.0, FRAC_1_SQRT_2, 0.0)),
    Pose(Vector3(0.0, SKYBOX_SIZE, 0.0), Quaternion(0.0, -FRAC_1_SQRT_2, FRAC_1_SQRT_2, 0.0)),
    Pose(Vector3(0.0, -SKYBOX_SIZE, 0.0), Quaternion(0.0, FRAC_1_SQRT_2, FRAC_1_SQRT_2, 0.0))
  ]

  /** A skybox overlay is the sphere (`None`) or cube face `Some(i)`. */
  predicate ValidFace(face: Option<nat>) {
    face.Some? ==> face.value < 6
  }

  /** Key and name of a skybox overlay: the sphere's, or the face's with its index. */
  function SkyboxName(face: Option<nat>): (name: string)
    requires ValidFace(face)
    ensures face.None? ==> name == SKYBOX_NAME
    ensures face.Some? ==>
      && |name| == |SKYBOX_NAME| + 2 && name[..|SKYBOX_NAME|] == SKYBOX_NAME
      && name[|SKYBOX_NAME|] == '_' && name[|name| - 1] == "012345"[face.value]
  {
    match face
    case None => SKYBOX_NAME
    case Some(i) => SKYBOX_NAME + "_" + ["012345"[i]]
  }

  /**
   * A skybox overlay after its texture submission: visible, at the skybox
   * sentinel z-order, bound to the texture's backend with the copied rect,
   * and a sphere of radius `SKYBOX_SIZE` or a quad of twice that width
   * standing at the face's pose.
   */
  function SkyboxOverlay(face: Option<nat>, texture: Texture, env: GraphicsEnv): Overlay
    requires ValidFace(face)
  {
    var name := SkyboxName(face);
    Overlay(
      key := name, name := name, alpha := None,
      width := if face.None? then SKYBOX_SIZE else SKYBOX_SIZE * 2.0,
      visible := true,
      kind := if face.None? then Sphere else Quad,
      zOrder := SKYBOX_Z_ORDER,
      bounds := FULL_BOUNDS,
      transform := if face.None? then None else Some(Transform(Standing, QUAD_POSES[face.value])),
      compositor := Some(texture.api),
      rect := Some(Rect2D(Offset2D(0, 0), env.copyExtent(texture.api, texture, FULL_BOUNDS))))
  }

  /** The fields `set_skybox` writes after the texture submission. */
  function SkyboxShape(ov: Overlay, face: Option<nat>): Overlay
    requires ValidFace(face)
  {
    match face
    case None => ov.(visible := true, width := SKYBOX_SIZE, kind := Sphere, zOrder := SKYBOX_Z_ORDER)
    case Some(i) => ov.(visible := true, width := SKYBOX_SIZE * 2.0, kind := Quad, zOrder := SKYBOX_Z_ORDER,
                        transform := Some(Transform(Standing, QUAD_POSES[i])))
  }

  /**
   * Building a skybox overlay as `set_skybox` does (a new overlay named
   * after the face, its texture submitted, then its shape written) gives
   * `SkyboxOverlay`; in particular it is drawn, at the sentinel z-order,
   * never in the key index's range of sort orders.
   */
  lemma SkyboxOverlayBuilt(face: Option<nat>, texture: Texture, env: GraphicsEnv)
    requires ValidFace(face)
    ensures SkyboxShape(Textured(NewOverlay(SkyboxName(face), SkyboxName(face)), texture, env), face)
            == SkyboxOverlay(face, texture, env)
    ensures SkyboxOverlay(face, texture, env).visible && SkyboxOverlay(face, texture, env).zOrder < 0
    ensures SkyboxOverlay(face, texture, env).rect.Some?
    ensures face.None? ==> SkyboxOverlay(face, texture, env).kind == Sphere
                           && SkyboxOverlay(face, texture, env).width == 500.0
                           && SkyboxOverlay(face, texture, env).transform == None
    ensures face.Some? ==> SkyboxOverlay(face, texture, env).kind == Quad
                           && SkyboxOverlay(face, texture, env).width == 1000.0
                           && SkyboxOverlay(face, texture, env).transform == Some(Transform(Standing, QUAD_POSES[face.value]))
  {
  }

  /** `n` consecutive handles from `base`: the handles `n` insertions get. */
  function Range(base: nat, n: nat): (r: seq<Handle>)
    ensures |r| == n && forall i :: 0 <= i < n ==> r[i] == base + i
  {
    if n == 0 then [] else Range(base, n - 1) + [base + n - 1]
  }

  /** One more handle extends the range by that handle. */
  lemma RangeSnoc(base: nat, n: nat)
    ensures Range(base, n + 1) == Range(base, n) + [base + n]
  {
  }

  /** The store `m` after the sphere was added at handle `base`. */
  ghost function WithSphere(m: map<Handle, Overlay>, base: nat, texture: Texture, env: GraphicsEnv)
    : map<Handle, Overlay>
  {
    m[base := SkyboxOverlay(None, texture, env)]
  }

  /** The six cube faces `set_skybox` builds, face `i` from texture `i`. */
  function CubeFaces(textures: seq<Texture>, env: GraphicsEnv): (faces: seq<Overlay>)
    requires |textures| <= 6
    ensures |faces| == |textures|
    ensures forall i :: 0 <= i < |textures| ==> faces[i] == SkyboxOverlay(Some(i), textures[i], env)
  {
    seq(|textures|, i requires 0 <= i < |textures| => SkyboxOverlay(Some(i), textures[i], env))
  }

  /** The store `m` with the first `n` of `faces` added at handles `base`, `base + 1`, ... */
  ghost function Placed(m: map<Handle, Overlay>, base: nat, faces: seq<Overlay>, n: nat): map<Handle, Overlay>
    requires n <= |faces|
  {
    if n == 0 then m else Placed(m, base, faces, n - 1)[base + n - 1 := faces[n - 1]]
  }

  /**
   * What adding the faces does: when all handles of `m` are below `base`,
   * face `i` sits at `base + i` and every overlay of `m` is kept as it was.
   */
  lemma {:induction false} PlacedAt(m: map<Handle, Overlay>, base: nat, faces: seq<Overlay>, n: nat, h: Handle)
    requires n <= |faces|
    requires forall k :: k in m ==> k < base
    ensures h in Placed(m, base, faces, n) <==> h in m || base <= h < base + n
    ensures h in m ==> Placed(m, base, faces, n)[h] == m[h]
    ensures base <= h < base + n ==> Placed(m, base, faces, n)[h] == faces[h - base]
  {
    if n > 0 {
      PlacedAt(m, base, faces, n - 1, h);
      PlacedSnoc(m, base, faces, n - 1);
    }
  }

  /** Adding face `n` extends the store of the first `n` faces by that face. */
  lemma PlacedSnoc(m: map<Handle, Overlay>, base: nat, faces: seq<Overlay>, n: nat)
    requires n < |faces|
    ensures Placed(m, base, faces, n + 1) == Placed(m, base, faces, n)[base + n := faces[n]]
  {
  }

  /**
   * One step of adding the cube faces: with the handles of faces
   * `0 .. idx - 1` recorded, recording face `idx` at the next handle gives
   * the handles of faces `0 .. idx`.
   */
  lemma FaceRecorded(base: nat, idx: nat, h: Handle, table0: SlotTable,
                     skybox: seq<Handle>, table: SlotTable, skybox': seq<Handle>, table': SlotTable)
    requires skybox == Range(base, idx) && table == SlotInsertAll(table0, skybox)
    requires h == base + idx
    requires skybox' == skybox + [h] && table' == SlotInsert(table, h)
    ensures skybox' == Range(base, idx + 1) && table' == SlotInsertAll(table0, skybox')
  {
    RangeSnoc(base, idx);
    assert skybox'[..|skybox'| - 1] == skybox;
  }

  /** The same step on the store: face `idx` joins faces `0 .. idx - 1`. */
  lemma FaceStored(base: nat, idx: nat, h: Handle, overlays0: map<Handle, Overlay>, faces: seq<Overlay>,
                   overlays: map<Handle, Overlay>, overlays': map<Handle, Overlay>, face: Overlay)
    requires idx < |faces| && face == faces[idx]
    requires overlays == Placed(overlays0, base, faces, idx)
    requires h == base + idx
    requires overlays' == overlays[h := face]
    ensures overlays' == Placed(overlays0, base, faces, idx + 1)
  {
    PlacedSnoc(overlays0, base, faces, idx);
  }

  /** Removing `handles[i]` after `handles[..i]` removes `handles[..i + 1]`. */
  lemma RemovedOneMore(handles: seq<Handle>, i: nat, overlays0: map<Handle, Overlay>, table0: SlotTable,
                       overlays: map<Handle, Overlay>, table: SlotTable)
    requires i < |handles|
    requires overlays == overlays0 - Elements(handles[..i])
    requires table == SlotRemoveAll(table0, handles[..i])
    ensures overlays - {handles[i]} == overlays0 - Elements(handles[..i + 1])
    ensures SlotRemove(table, handles[i]) == SlotRemoveAll(table0, handles[..i + 1])
  {
    var h := handles[i];
    assert handles[..i + 1] == handles[..i] + [h];
    assert handles[..i + 1][..i] == handles[..i];
    ElementsSnoc(handles[..i], h);
    MapMinusTwice(overlays0, Elements(handles[..i]), {h});
  }

  /** The sphere branch's single handle is the range of length one at `h`. */
  lemma SphereAdded(h: Handle, table0: SlotTable, skybox: seq<Handle>, table: SlotTable)
    requires skybox == [] + [h] && table == SlotInsert(table0, h)
    ensures skybox == Range(h, 1) && table == SlotInsertAll(table0, skybox)
  {
    RangeSnoc(h, 0);
    assert skybox[..0] == [];
  }

  /**
   * The API a session's swapchain map serves once `first` has been
   * submitted without a panic: the map's own when it exists, else the one
   * the texture creates it with.
   */
  function MapApi(swapchains: Option<SwapchainMap>, first: Texture): GraphicsApi {
    if swapchains.Some? then swapchains.value.api else first.api
  }

  /**
   * The session's map `now` after the first `n` of `textures` went to
   * `handles` without a panic, starting from map `prev`: it is `prev`
   * until a texture went in, serves `MapApi(prev, textures[0])` once it
   * exists, each of those textures is of that API, and each handle has a
   * swapchain.
   */
  ghost predicate Submitted(prev: Option<SwapchainMap>, now: Option<SwapchainMap>, textures: seq<Texture>,
                            n: nat, handles: seq<Handle>)
    requires 0 < |textures|
  {
    && (n == 0 ==> now == prev)
    && (n > 0 || prev.Some? ==> now.Some? && now.value.api == MapApi(prev, textures[0]))
    && (forall j :: 0 <= j < n && j < |textures| ==> textures[j].api == MapApi(prev, textures[0]))
    && (forall k :: k in handles ==> k in EntriesOf(now))
  }

  /** Submitting texture `n` without a panic to handle `h` extends `Submitted` by one. */
  lemma SubmittedOneMore(prev: Option<SwapchainMap>, mid: Option<SwapchainMap>, now: Option<SwapchainMap>,
                         textures: seq<Texture>, n: nat, handles: seq<Handle>, h: Handle)
    requires n < |textures| && Submitted(prev, mid, textures, n, handles)
    requires !(mid.Some? && mid.value.api != textures[n].api)
    requires now.Some? && now.value.api == textures[n].api
    requires EntriesOf(mid).Keys <= EntriesOf(now).Keys && h in EntriesOf(now)
    ensures Submitted(prev, now, textures, n + 1, handles + [h])
  {
  }

  /** A panic on texture `n` means that texture is not of the map's API. */
  lemma SubmittedPanics(prev: Option<SwapchainMap>, mid: Option<SwapchainMap>, textures: seq<Texture>,
                        n: nat, handles: seq<Handle>)
    requires n < |textures| && Submitted(prev, mid, textures, n, handles)
    requires mid.Some? && mid.value.api != textures[n].api
    ensures textures[n].api != MapApi(prev, textures[0])
  {
  }

  /** With one texture in use, the submission panics exactly when the map serves another API. */
  lemma FirstTextureDecides(prev: Option<SwapchainMap>, textures: seq<Texture>)
    requires 0 < |textures|
    ensures (exists i :: 0 <= i < 1 && textures[i].api != MapApi(prev, textures[0]))
            <==> prev.Some? && prev.value.api != textures[0].api
  {
    if prev.Some? && prev.value.api != textures[0].api {
      assert textures[0].api != MapApi(prev, textures[0]);
    }
  }

  /** `pose` with its orientation normalised by `normalize`, its position kept. */
  function Normalized(pose: Pose, normalize: Quaternion -> Quaternion): (r: Pose)
    ensures r.position == pose.position
    ensures r.orientation == normalize(pose.orientation)
  {
    Pose(pose.position, normalize(pose.orientation))
  }

  /** How many skybox overlays `set_skybox` builds for a texture count. */
  function SkyboxCount(textures: nat): (n: nat)
    ensures textures == 6 ==> n == 6
    ensures textures != 6 ==> n == 1
  {
    if textures == 6 then 6 else 1
  }

  /** The handles of the overlays in `m` a texture has been copied for. */
  ghost function RectsOf(m: map<Handle, Overlay>): set<Handle> {
    set h | h in m && m[h].rect.Some?
  }

  /** Rewriting an overlay without touching its rect keeps the set. */
  lemma RectsKept(m: map<Handle, Overlay>, h: Handle, ov: Overlay)
    requires h in m && ov.rect == m[h].rect
    ensures RectsOf(m[h := ov]) == RectsOf(m)
  {
  }

  /** Storing an overlay with a rect adds its handle. */
  lemma RectsAdded(m: map<Handle, Overlay>, h: Handle, ov: Overlay)
    requires ov.rect.Some?
    ensures RectsOf(m[h := ov]) == RectsOf(m) + {h}
  {
  }

  /** Storing an overlay without a rect under a new handle keeps the set. */
  lemma RectsFresh(m: map<Handle, Overlay>, h: Handle, ov: Overlay)
    requires h !in m && ov.rect.None?
    ensures RectsOf(m[h := ov]) == RectsOf(m)
  {
  }

  /** Removing overlays can only shrink the set. */
  lemma RectsRemoved(m: map<Handle, Overlay>, s: set<Handle>)
    ensures RectsOf(m - s) <= RectsOf(m)
  {
  }

  /**
   * The store invariant, on the store's parts: the slot table is valid
   * and its slots hold exactly the live handles; handles come from `next`; the key index names
   * live overlays by their own key and never a skybox overlay; only skybox
   * overlays use a negative z-order, and that is the sentinel.
   */
  ghost predicate StoreValid(overlays: map<Handle, Overlay>, table: SlotTable, index: map<string, Handle>,
                             skybox: seq<Handle>, next: nat)
  {
    && TableValid(table)
    && (forall h :: h in overlays <==> Some(h) in table.slots)
    && (forall h :: h in overlays ==> h < next)
    && (forall i :: 0 <= i < |skybox| ==> skybox[i] < next)
    && (forall k :: k in index ==> index[k] in overlays && overlays[index[k]].key == k && index[k] !in skybox)
    && (forall h :: h in overlays && overlays[h].zOrder < 0 ==> h in skybox && overlays[h].zOrder == SKYBOX_Z_ORDER)
  }

  /** An edit the store invariant allows: same key, and no new negative z-order. */
  predicate KeepsIdentity(before: Overlay, after: Overlay) {
    after.key == before.key && (after.zOrder >= 0 || after.zOrder == before.zOrder)
  }

  lemma EditKeepsValid(overlays: map<Handle, Overlay>, table: SlotTable, index: map<string, Handle>,
                       skybox: seq<Handle>, next: nat, h: Handle, ov: Overlay)
    requires StoreValid(overlays, table, index, skybox, next)
    requires h in overlays && KeepsIdentity(overlays[h], ov)
    ensures StoreValid(overlays[h := ov], table, index, skybox, next)
  {
  }

  lemma InsertKeepsValid(overlays: map<Handle, Overlay>, table: SlotTable, index: map<string, Handle>,
                         skybox: seq<Handle>, next: nat, ov: Overlay)
    requires StoreValid(overlays, table, index, skybox, next)
    requires ov.zOrder >= 0
    ensures next !in overlays
    ensures StoreValid(overlays[next := ov], SlotInsert(table, next), index, skybox, next + 1)
  {
    assert Some(next) !in table.slots;
    InsertValid(table, next);
  }

  lemma IndexKeepsValid(overlays: map<Handle, Overlay>, table: SlotTable, index: map<string, Handle>,
                        skybox: seq<Handle>, next: nat, h: Handle)
    requires StoreValid(overlays, table, index, skybox, next)
    requires h in overlays && h !in skybox
    ensures StoreValid(overlays, table, index[overlays[h].key := h], skybox, next)
  {
  }

  /** Removing an overlay and its key's entry keeps the invariant, and nothing names it any more. */
  lemma DestroyKeepsValid(overlays: map<Handle, Overlay>, table: SlotTable, index: map<string, Handle>,
                          skybox: seq<Handle>, next: nat, h: Handle)
    requires StoreValid(overlays, table, index, skybox, next)
    requires h in overlays
    ensures StoreValid(overlays - {h}, SlotRemove(table, h), index - {overlays[h].key}, skybox, next)
    ensures forall k :: k in index - {overlays[h].key} ==> (index - {overlays[h].key})[k] != h
  {
    RemoveValid(table, h);
  }

  lemma ClearKeepsValid(overlays: map<Handle, Overlay>, table: SlotTable, index: map<string, Handle>,
                        skybox: seq<Handle>, next: nat)
    requires StoreValid(overlays, table, index, skybox, next)
    ensures StoreValid(overlays - Elements(skybox), SlotRemoveAll(table, skybox), index, [], next)
  {
    RemoveAllValid(table, skybox);
  }

  /** Inserting a skybox overlay, unindexed, and recording it keeps the invariant. */
  lemma InsertSkyboxKeepsValid(overlays: map<Handle, Overlay>, table: SlotTable, index: map<string, Handle>,
                               skybox: seq<Handle>, next: nat, ov: Overlay)
    requires StoreValid(overlays, table, index, skybox, next)
    requires ov.zOrder >= 0 || ov.zOrder == SKYBOX_Z_ORDER
    ensures StoreValid(overlays[next := ov], SlotInsert(table, next), index, skybox + [next], next + 1)
  {
    assert Some(next) !in table.slots;
    InsertValid(table, next);
  }

  /**
   * Under the store invariant the iteration visits every live overlay
   * exactly once, which is what the frame's layer list relies on.
   */
  lemma OrderCoversStore(overlays: map<Handle, Overlay>, table: SlotTable, index: map<string, Handle>,
                         skybox: seq<Handle>, next: nat)
    requires StoreValid(overlays, table, index, skybox, next)
    ensures Distinct(Occupied(table.slots))
    ensures forall h :: h in Occupied(table.slots) <==> h in overlays
  {
    OccupiedDistinct(table.slots);
    OccupiedMembers(table.slots);
  }

  class OverlayMan {
    const extensions: Extensions
    var overlays: map<Handle, Overlay>
    /** The slot map's slots and free list. */
    var table: SlotTable
    var keyToOverlay: map<string, Handle>
    var skybox: seq<Handle>
    /** The handle the next insertion gets. */
    var nextHandle: nat

    /** The store invariant (`StoreValid`) on this store's fields. */
    ghost predicate Valid()
      reads this
    {
      StoreValid(overlays, table, keyToOverlay, skybox, nextHandle)
    }

    /** The slot map's iteration order: the live handles by slot. */
    function Order(): seq<Handle>
      reads this
    {
      Occupied(table.slots)
    }

    /** The overlays a texture has been copied for. */
    ghost function WithRect(): set<Handle>
      reads this
    {
      RectsOf(overlays)
    }

    /** Every overlay with a copied texture has a swapchain in the session's map. */
    ghost predicate Synced(session: Session)
      reads this, session
    {
      WithRect() <= EntriesOf(session.swapchains).Keys
    }

    /** `OverlayMan::new`: an empty store. */
    constructor (extensions: Extensions)
      ensures Valid()
      ensures this.extensions == extensions
      ensures overlays == map[] && table == SlotTable([], []) && keyToOverlay == map[] && skybox == []
      ensures nextHandle == 0
    {
      this.extensions := extensions;
      overlays := map[];
      table := SlotTable([], []);
      keyToOverlay := map[];
      skybox := [];
      nextHandle := 0;
    }

    /** The slot map's `insert`: a fresh handle, in the most recently freed slot or a new one. */
    method InsertOverlay(ov: Overlay) returns (h: Handle)
      requires Valid() && ov.zOrder >= 0
      modifies this`overlays, this`table, this`nextHandle
      ensures Valid()
      ensures h == old(nextHandle) && nextHandle == h + 1 && h !in old(overlays)
      ensures overlays == old(overlays)[h := ov] && table == SlotInsert(old(table), h)
    {
      h := nextHandle;
      InsertKeepsValid(overlays, table, keyToOverlay, skybox, nextHandle, ov);
      overlays := overlays[h := ov];
      table := SlotInsert(table, h);
      nextHandle := nextHandle + 1;
    }

    /** A read through `get_overlay!`: `UnknownOverlay` unless the handle is live. */
    function Lookup<T>(h: Handle, read: Overlay -> T): (r: Reply<T>)
      reads this
      ensures r.error == NoError <==> h in overlays
      ensures h !in overlays ==> r == Reply(UnknownOverlay, None)
      ensures h in overlays ==> r.written == Some(read(overlays[h]))
    {
      if h in overlays then Reply(NoError, Some(read(overlays[h]))) else Reply(UnknownOverlay, None)
    }

    /** A write through `get_overlay!(mut)`: edit a live overlay, or `UnknownOverlay`. */
    method Update(h: Handle, edit: Overlay -> Overlay) returns (err: OverlayError)
      requires Valid()
      requires h in overlays ==> KeepsIdentity(overlays[h], edit(overlays[h]))
      modifies this`overlays
      ensures Valid()
      ensures h in old(overlays) ==> err == NoError && overlays == old(overlays)[h := edit(old(overlays)[h])]
      ensures h !in old(overlays) ==> err == UnknownOverlay && overlays == old(overlays)
    {
      if h !in overlays {
        return UnknownOverlay;
      }
      EditKeepsValid(overlays, table, keyToOverlay, skybox, nextHandle, h, edit(overlays[h]));
      overlays := overlays[h := edit(overlays[h])];
      err := NoError;
    }

    /**
     * CreateOverlay. `handleOut` is whether the handle pointer is non-null.
     * The key is not checked for uniqueness: a reused key is re-pointed at
     * the new overlay.
     */
    method CreateOverlay(key: string, name: string, handleOut: bool) returns (r: Reply<Handle>)
      requires Valid()
      modifies this`overlays, this`table, this`keyToOverlay, this`nextHandle
      ensures Valid()
      ensures !handleOut ==> r == Reply(InvalidParameter, None) && unchanged(this)
      ensures handleOut ==>
        && r == Reply(NoError, Some(old(nextHandle)))
        && nextHandle == old(nextHandle) + 1
        && old(nextHandle) !in old(overlays)
        && overlays == old(overlays)[old(nextHandle) := NewOverlay(key, name)]
        && table == SlotInsert(old(table), old(nextHandle))
        && keyToOverlay == old(keyToOverlay)[key := old(nextHandle)]
      ensures handleOut ==> FindOverlay(key, true) == r
      ensures WithRect() == old(WithRect())
    {
      if !handleOut {
        return Reply(InvalidParameter, None);
      }
      var h := InsertOverlay(NewOverlay(key, name));
      IndexKeepsValid(overlays, table, keyToOverlay, skybox, nextHandle, h);
      keyToOverlay := keyToOverlay[key := h];
      r := Reply(NoError, Some(h));
      RectsFresh(old(overlays), h, overlays[h]);
    }

    /** FindOverlay. `handleOut` is whether the handle pointer is non-null. */
    function FindOverlay(key: string, handleOut: bool): (r: Reply<Handle>)
      reads this
      ensures !handleOut ==> r == Reply(InvalidParameter, None)
      ensures handleOut ==> (r.error == NoError <==> key in keyToOverlay)
      ensures handleOut && key !in keyToOverlay ==> r == Reply(UnknownOverlay, None)
      ensures r.error == NoError ==> r.written.Some? && r.written.value == keyToOverlay[key]
      ensures r.error == NoError && Valid() ==>
        r.written.value in overlays && overlays[r.written.value].key == key
    {
      if !handleOut then Reply(InvalidParameter, None)
      else if key in keyToOverlay then Reply(NoError, Some(keyToOverlay[key]))
      else Reply(UnknownOverlay, None)
    }

    /**
     * DestroyOverlay: always `NoError`. A live overlay is removed together
     * with the index entry of its key, whichever handle that entry names.
     */
    method DestroyOverlay(h: Handle) returns (err: OverlayError)
      requires Valid()
      modifies this`overlays, this`table, this`keyToOverlay
      ensures Valid() && err == NoError
      ensures h !in old(overlays) ==> unchanged(this)
      ensures h in old(overlays) ==>
        && overlays == old(overlays) - {h}
        && table == SlotRemove(old(table), h)
        && keyToOverlay == old(keyToOverlay) - {old(overlays)[h].key}
      ensures forall k :: k in keyToOverlay ==> keyToOverlay[k] != h
      ensures WithRect() <= old(WithRect())
    {
      err := NoError;
      if h !in overlays {
        return;
      }
      var ov := overlays[h];
      DestroyKeepsValid(overlays, table, keyToOverlay, skybox, nextHandle, h);
      overlays := overlays - {h};
      table := SlotRemove(table, h);
      keyToOverlay := keyToOverlay - {ov.key};
      RectsRemoved(old(overlays), {h});
    }

    method ShowOverlay(h: Handle) returns (err: OverlayError)
      requires Valid()
      modifies this`overlays
      ensures Valid()
      ensures h !in old(overlays) ==> err == UnknownOverlay && overlays == old(overlays)
      ensures h in old(overlays) ==> err == NoError && overlays == old(overlays)[h := old(overlays)[h].(visible := true)]
      ensures WithRect() == old(WithRect())
    {
      err := Update(h, (ov: Overlay) => ov.(visible := true));
      if h in old(overlays) { RectsKept(old(overlays), h, overlays[h]); }
    }

    method HideOverlay(h: Handle) returns (err: OverlayError)
      requires Valid()
      modifies this`overlays
      ensures Valid()
      ensures h !in old(overlays) ==> err == UnknownOverlay && overlays == old(overlays)
      ensures h in old(overlays) ==> err == NoError && overlays == old(overlays)[h := old(overlays)[h].(visible := false)]
      ensures WithRect() == old(WithRect())
    {
      err := Update(h, (ov: Overlay) => ov.(visible := false));
      if h in old(overlays) { RectsKept(old(overlays), h, overlays[h]); }
    }

    /**
     * SetOverlayAlpha. Without the colour scale/bias extension the call
     * succeeds and stores nothing; with it, 1.0 clears the alpha.
     */
    method SetOverlayAlpha(h: Handle, alpha: real) returns (err: OverlayError)
      requires Valid()
      modifies this`overlays
      ensures Valid()
      ensures h !in old(overlays) ==> err == UnknownOverlay && overlays == old(overlays)
      ensures h in old(overlays) ==> err == NoError
      ensures h in old(overlays) && !extensions.colorScaleBias ==> overlays == old(overlays)
      ensures h in old(overlays) && extensions.colorScaleBias ==>
        overlays == old(overlays)[h := old(overlays)[h].(alpha := if alpha == 1.0 then None else Some(alpha))]
      ensures h in old(overlays) && extensions.colorScaleBias ==> GetOverlayAlpha(h) == Reply(NoError, Some(alpha))
      ensures WithRect() == old(WithRect())
    {
      if h !in overlays {
        return UnknownOverlay;
      }
      err := NoError;
      if extensions.colorScaleBias {
        var stored := if alpha == 1.0 then None else Some(alpha);
        EditKeepsValid(overlays, table, keyToOverlay, skybox, nextHandle, h, overlays[h].(alpha := stored));
        overlays := overlays[h := overlays[h].(alpha := stored)];
        if h in old(overlays) { RectsKept(old(overlays), h, overlays[h]); }
      }
    }

    /** GetOverlayAlpha: the stored alpha, 1.0 (opaque) when none is stored. */
    function GetOverlayAlpha(h: Handle): (r: Reply<real>)
      reads this
      ensures r.error == NoError <==> h in overlays
      ensures h !in overlays ==> r == Reply(UnknownOverlay, None)
      ensures h in overlays && overlays[h].alpha.None? ==> r.written == Some(1.0)
      ensures h in overlays && overlays[h].alpha.Some? ==> r.written == overlays[h].alpha
    {
      Lookup(h, (ov: Overlay) => ov.alpha.GetOr(1.0))
    }

    method SetOverlayWidthInMeters(h: Handle, width: real) returns (err: OverlayError)
      requires Valid()
      modifies this`overlays
      ensures Valid()
      ensures h !in old(overlays) ==> err == UnknownOverlay && overlays == old(overlays)
      ensures h in old(overlays) ==> err == NoError && overlays == old(overlays)[h := old(overlays)[h].(width := width)]
      ensures err == NoError ==> GetOverlayWidthInMeters(h) == Reply(NoError, Some(width))
      ensures WithRect() == old(WithRect())
    {
      err := Update(h, (ov: Overlay) => ov.(width := width));
      if h in old(overlays) { RectsKept(old(overlays), h, overlays[h]); }
    }

    function GetOverlayWidthInMeters(h: Handle): (r: Reply<real>)
      reads this
      ensures r.error == NoError <==> h in overlays
      ensures h !in overlays ==> r == Reply(UnknownOverlay, None)
      ensures h in overlays ==> r.written == Some(overlays[h].width)
    {
      Lookup(h, (ov: Overlay) => ov.width)
    }

    /** SetOverlaySortOrder: the `u32` is widened, so it never reaches the skybox sentinel. */
    method SetOverlaySortOrder(h: Handle, value: U32) returns (err: OverlayError)
      requires Valid()
      modifies this`overlays
      ensures Valid()
      ensures h !in old(overlays) ==> err == UnknownOverlay && overlays == old(overlays)
      ensures h in old(overlays) ==> err == NoError && overlays == old(overlays)[h := old(overlays)[h].(zOrder := value)]
      ensures err == NoError ==> GetOverlaySortOrder(h) == Reply(NoError, Some(value))
      ensures WithRect() == old(WithRect())
    {
      err := Update(h, (ov: Overlay) => ov.(zOrder := value));
      if h in old(overlays) { RectsKept(old(overlays), h, overlays[h]); }
    }

    /** GetOverlaySortOrder: the stored z-order truncated to `u32`. */
    function GetOverlaySortOrder(h: Handle): (r: Reply<U32>)
      reads this
      ensures r.error == NoError <==> h in overlays
      ensures h !in overlays ==> r == Reply(UnknownOverlay, None)
      ensures h in overlays && 0 <= overlays[h].zOrder < U32_LIMIT ==> r.written == Some(overlays[h].zOrder)
      ensures h in overlays && overlays[h].zOrder == SKYBOX_Z_ORDER ==> r.written == Some(U32_LIMIT - 1)
    {
      Lookup(h, (ov: Overlay) => (ov.zOrder % U32_LIMIT) as U32)
    }

    /** SetOverlayTextureBounds. `bounds` is `None` for a null pointer. */
    method SetOverlayTextureBounds(h: Handle, bounds: Option<TextureBounds>) returns (err: OverlayError)
      requires Valid()
      modifies this`overlays
      ensures Valid()
      ensures h !in old(overlays) ==> err == UnknownOverlay && overlays == old(overlays)
      ensures h in old(overlays) && bounds.None? ==> err == InvalidParameter && overlays == old(overlays)
      ensures h in old(overlays) && bounds.Some? ==>
        err == NoError && overlays == old(overlays)[h := old(overlays)[h].(bounds := bounds.value)]
      ensures err == NoError ==> GetOverlayTextureBounds(h, true) == Reply(NoError, bounds)
      ensures WithRect() == old(WithRect())
    {
      if h !in overlays {
        return UnknownOverlay;
      }
      if bounds.None? {
        return InvalidParameter;
      }
      EditKeepsValid(overlays, table, keyToOverlay, skybox, nextHandle, h, overlays[h].(bounds := bounds.value));
      overlays := overlays[h := overlays[h].(bounds := bounds.value)];
      err := NoError;
      if h in old(overlays) { RectsKept(old(overlays), h, overlays[h]); }
    }

    /** GetOverlayTextureBounds. `boundsOut` is whether the pointer is non-null. */
    function GetOverlayTextureBounds(h: Handle, boundsOut: bool): (r: Reply<TextureBounds>)
      reads this
      ensures h !in overlays ==> r == Reply(UnknownOverlay, None)
      ensures h in overlays && !boundsOut ==> r == Reply(InvalidParameter, None)
      ensures h in overlays && boundsOut ==> r == Reply(NoError, Some(overlays[h].bounds))
    {
      if h !in overlays then Reply(UnknownOverlay, None)
      else if !boundsOut then Reply(InvalidParameter, None)
      else Reply(NoError, Some(overlays[h].bounds))
    }

    /**
     * SetOverlayCurvature. Without the cylinder extension nothing is looked
     * up or changed; with it the overlay becomes curved, the value clamped
     * to [0, 1] (0 included, so a zero curvature is still a cylinder).
     */
    method SetOverlayCurvature(h: Handle, value: real) returns (err: OverlayError)
      requires Valid()
      modifies this`overlays
      ensures Valid()
      ensures !extensions.cylinder ==> err == NoError && overlays == old(overlays)
      ensures extensions.cylinder && h !in old(overlays) ==> err == UnknownOverlay && overlays == old(overlays)
      ensures extensions.cylinder && h in old(overlays) ==>
        err == NoError && overlays == old(overlays)[h := old(overlays)[h].(kind := Curved(Clamp01(value)))]
      ensures extensions.cylinder && err == NoError ==> GetOverlayCurvature(h) == Reply(NoError, Some(Clamp01(value)))
      ensures WithRect() == old(WithRect())
    {
      err := NoError;
      if extensions.cylinder {
        err := Update(h, (ov: Overlay) => ov.(kind := Curved(Clamp01(value))));
        if h in old(overlays) { RectsKept(old(overlays), h, overlays[h]); }
      }
    }

    /** GetOverlayCurvature: the curvature of a curved overlay, 0 for a quad or a sphere. */
    function GetOverlayCurvature(h: Handle): (r: Reply<real>)
      reads this
      ensures r.error == NoError <==> h in overlays
      ensures h !in overlays ==> r == Reply(UnknownOverlay, None)
      ensures h in overlays && overlays[h].kind.Curved? ==> r.written == Some(overlays[h].kind.curvature)
      ensures h in overlays && !overlays[h].kind.Curved? ==> r.written == Some(0.0)
    {
      Lookup(h, (ov: Overlay) => CurvatureOf(ov.kind))
    }

    /**
     * SetOverlayTransformAbsolute. `transform` is `None` for a null pointer;
     * `normalize` is the quaternion normalisation applied to its orientation.
     */
    method SetOverlayTransformAbsolute(h: Handle, origin: Origin, transform: Option<Pose>,
                                       normalize: Quaternion -> Quaternion) returns (err: OverlayError)
      requires Valid()
      modifies this`overlays
      ensures Valid()
      ensures h !in old(overlays) ==> err == UnknownOverlay && overlays == old(overlays)
      ensures h in old(overlays) && transform.None? ==> err == InvalidParameter && overlays == old(overlays)
      ensures h in old(overlays) && transform.Some? ==>
        && err == NoError
        && overlays == old(overlays)[h := old(overlays)[h].(transform := Some(Transform(origin, Normalized(transform.value, normalize))))]
      ensures WithRect() == old(WithRect())
    {
      if h !in overlays {
        return UnknownOverlay;
      }
      if transform.None? {
        return InvalidParameter;
      }
      var stored := Transform(origin, Normalized(transform.value, normalize));
      EditKeepsValid(overlays, table, keyToOverlay, skybox, nextHandle, h, overlays[h].(transform := Some(stored)));
      overlays := overlays[h := overlays[h].(transform := Some(stored))];
      err := NoError;
      if h in old(overlays) { RectsKept(old(overlays), h, overlays[h]); }
    }

    /**
     * SetOverlayTexture. `texture` is `None` for a null pointer. The
     * submission itself is `Overlay::set_texture`; `panicked` is its panic.
     */
    method SetOverlayTexture(h: Handle, texture: Option<Texture>, session: Session, env: GraphicsEnv)
      returns (err: OverlayError, panicked: bool)
      requires Valid() && session.Valid()
      modifies this`overlays, session`swapchains, session`swapchainsCreated
      ensures Valid() && session.Valid()
      ensures h !in old(overlays) ==>
        err == UnknownOverlay && !panicked && overlays == old(overlays) && unchanged(session)
      ensures h in old(overlays) && texture.None? ==>
        err == InvalidParameter && !panicked && overlays == old(overlays) && unchanged(session)
      ensures h in old(overlays) && texture.Some? ==>
        (panicked <==> old(session.swapchains).Some?
                       && old(session.swapchains).value.api != BoundApi(old(overlays)[h], texture.value))
      ensures panicked ==> overlays == old(overlays)
      ensures h in old(overlays) && texture.Some? && !panicked ==>
        && err == NoError
        && overlays == old(overlays)[h := Textured(old(overlays)[h], texture.value, env)]
        && session.swapchains.Some?
        && session.swapchains.value.api == BoundApi(old(overlays)[h], texture.value)
        && WithRect() == old(WithRect()) + {h}
      ensures h in old(overlays) && texture.Some? && !panicked ==>
        var ov := old(overlays)[h];
        var req := env.requirements(BoundApi(ov, texture.value), texture.value, ov.bounds);
        var before := EntriesOf(old(session.swapchains));
        var after := EntriesOf(session.swapchains);
        && h in after
        && after == before[h := after[h]]
        && (Reusable(before, h, req, env) ==>
              after[h] == before[h] && session.swapchainsCreated == old(session.swapchainsCreated))
        && (!Reusable(before, h, req, env) ==>
              && after[h].info == env.checkFormat(req)
              && after[h].initialFormat == req.format
              && old(session.swapchainsCreated) <= after[h].swapchain)
      ensures !panicked && old(Synced(session)) ==> Synced(session)
    {
      if h !in overlays {
        return UnknownOverlay, false;
      }
      if texture.None? {
        return InvalidParameter, false;
      }
      var updated;
      updated, panicked := SetTexture(overlays[h], h, session, texture.value, env);
      if panicked {
        return NoError, true;
      }
      EditKeepsValid(overlays, table, keyToOverlay, skybox, nextHandle, h, updated);
      overlays := overlays[h := updated];
      err := NoError;
      RectsAdded(old(overlays), h, overlays[h]);
    }

    /** IsDashboardVisible: there is no dashboard. */
    method IsDashboardVisible() returns (visible: bool)
      ensures !visible
    {
      visible := false;
    }

    /** ShowKeyboard: unsupported, so every request fails, whatever its arguments. */
    method ShowKeyboard() returns (err: OverlayError)
      ensures err == RequestFailed
    {
      err := RequestFailed;
    }

    /** Remove each overlay of `handles` from the slot map, one at a time. */
    method RemoveOverlays(handles: seq<Handle>)
      modifies this`overlays, this`table
      ensures overlays == old(overlays) - Elements(handles)
      ensures table == SlotRemoveAll(old(table), handles)
    {
      var i := 0;
      assert handles[..0] == [];
      while i < |handles|
        invariant 0 <= i <= |handles|
        invariant overlays == old(overlays) - Elements(handles[..i])
        invariant table == SlotRemoveAll(old(table), handles[..i])
      {
        var h := handles[i];
        RemovedOneMore(handles, i, old(overlays), old(table), overlays, table);
        overlays := overlays - {h};
        table := SlotRemove(table, h);
        i := i + 1;
      }
      assert handles[..i] == handles;
    }

    /** `clear_skybox`: drain the skybox list, removing each of its overlays. */
    method ClearSkybox()
      requires Valid()
      modifies this`overlays, this`table, this`skybox
      ensures Valid()
      ensures skybox == []
      ensures overlays == old(overlays) - Elements(old(skybox))
      ensures table == SlotRemoveAll(old(table), old(skybox))
      ensures forall h :: h in Order() <==> h in old(Order()) && h !in old(skybox)
      ensures WithRect() <= old(WithRect())
    {
      ghost var table0, skybox0 := table, skybox;
      ClearKeepsValid(overlays, table, keyToOverlay, skybox, nextHandle);
      RemoveOverlays(skybox);
      RectsRemoved(old(overlays), Elements(old(skybox)));
      skybox := [];
      assert forall h :: h in Order() <==> h in Occupied(table0.slots) && h !in skybox0 by {
        RemoveAllVisits(table0, skybox0);
      }
    }

    /**
     * One skybox overlay of `set_skybox`: insert it, submit its texture, give
     * it its skybox shape and record its handle.
     */
    method AddSkyboxOverlay(face: Option<nat>, texture: Texture, session: Session, env: GraphicsEnv)
      returns (panicked: bool)
      requires Valid() && session.Valid() && ValidFace(face)
      modifies this`overlays, this`table, this`skybox, this`nextHandle, session`swapchains, session`swapchainsCreated
      ensures Valid() && session.Valid()
      ensures panicked <==> old(session.swapchains).Some? && old(session.swapchains).value.api != texture.api
      ensures !panicked ==>
        && old(nextHandle) !in old(overlays)
        && nextHandle == old(nextHandle) + 1
        && overlays == old(overlays)[old(nextHandle) := SkyboxOverlay(face, texture, env)]
        && table == SlotInsert(old(table), old(nextHandle))
        && skybox == old(skybox) + [old(nextHandle)]
        && EntriesOf(old(session.swapchains)).Keys <= EntriesOf(session.swapchains).Keys
        && old(nextHandle) in EntriesOf(session.swapchains)
        && session.swapchains.Some? && session.swapchains.value.api == texture.api
        && WithRect() == old(WithRect()) + {old(nextHandle)}
      ensures !panicked && old(Synced(session)) ==> Synced(session)
    {
      var name := SkyboxName(face);
      var h := nextHandle;
      var ov := SkyboxOverlay(face, texture, env);
      SkyboxOverlayBuilt(face, texture, env);
      InsertKeepsValid(overlays, table, keyToOverlay, skybox, h, NewOverlay(name, name));
      InsertSkyboxKeepsValid(overlays, table, keyToOverlay, skybox, h, ov);
      MapUpdateTwice(overlays, h, NewOverlay(name, name), ov);
      overlays := overlays[h := NewOverlay(name, name)];
      table := SlotInsert(table, h);
      nextHandle := h + 1;
      var textured;
      textured, panicked := SetTexture(overlays[h], h, session, texture, env);
      if panicked {
        return;
      }
      assert SkyboxShape(textured, face) == ov;
      overlays := overlays[h := SkyboxShape(textured, face)];
      skybox := skybox + [h];
      RectsAdded(old(overlays), h, overlays[h]);
    }

    /** The cube branch of `set_skybox`: one face per texture, in order. */
    method AddSkyboxFaces(session: Session, textures: seq<Texture>, env: GraphicsEnv) returns (panicked: bool)
      requires Valid() && session.Valid()
      requires |textures| == 6 && skybox == []
      modifies this`overlays, this`table, this`skybox, this`nextHandle, session`swapchains, session`swapchainsCreated
      ensures Valid() && session.Valid()
      ensures !panicked ==>
        && skybox == Range(old(nextHandle), |textures|)
        && nextHandle == old(nextHandle) + |textures|
        && table == SlotInsertAll(old(table), skybox)
        && overlays == Placed(old(overlays), old(nextHandle), CubeFaces(textures, env), |textures|)
      ensures panicked <==> exists i :: 0 <= i < |textures| && textures[i].api != MapApi(old(session.swapchains), textures[0])
      ensures !panicked ==>
        && session.swapchains.Some? && session.swapchains.value.api == MapApi(old(session.swapchains), textures[0])
        && (forall k :: k in skybox ==> k in EntriesOf(session.swapchains))
      ensures !panicked && old(Synced(session)) ==> Synced(session)
    {
      ghost var faces := CubeFaces(textures, env);
      ghost var prev := session.swapchains;
      var idx := 0;
      while idx < |textures|
        invariant 0 <= idx <= |textures|
        invariant Valid() && session.Valid()
        invariant nextHandle == old(nextHandle) + idx
        invariant skybox == Range(old(nextHandle), idx)
        invariant table == SlotInsertAll(old(table), skybox)
        invariant overlays == Placed(old(overlays), old(nextHandle), faces, idx)
        invariant old(Synced(session)) ==> Synced(session)
        invariant Submitted(prev, session.swapchains, textures, idx, skybox)
      {
        ghost var skybox0, table0, overlays0 := skybox, table, overlays;
        ghost var h := nextHandle;
        ghost var mid := session.swapchains;
        panicked := AddSkyboxOverlay(Some(idx), textures[idx], session, env);
        if panicked {
          SubmittedPanics(prev, mid, textures, idx, skybox0);
          return;
        }
        SubmittedOneMore(prev, mid, session.swapchains, textures, idx, skybox0, h);
        FaceRecorded(old(nextHandle), idx, h, old(table), skybox0, table0, skybox, table);
        FaceStored(old(nextHandle), idx, h, old(overlays), faces, overlays0, overlays,
                   SkyboxOverlay(Some(idx), textures[idx], env));
        idx := idx + 1;
      }
      panicked := false;
    }

    /** The sphere branch of `set_skybox` on an empty skybox: one sphere for `texture`. */
    method AddSkyboxSphere(session: Session, texture: Texture, env: GraphicsEnv) returns (panicked: bool)
      requires Valid() && session.Valid() && skybox == []
      modifies this`overlays, this`table, this`skybox, this`nextHandle, session`swapchains, session`swapchainsCreated
      ensures Valid() && session.Valid()
      ensures !panicked ==>
        && skybox == Range(old(nextHandle), 1)
        && nextHandle == old(nextHandle) + 1
        && table == SlotInsertAll(old(table), skybox)
        && overlays == WithSphere(old(overlays), old(nextHandle), texture, env)
      ensures panicked <==> old(session.swapchains).Some? && old(session.swapchains).value.api != texture.api
      ensures !panicked ==>
        && session.swapchains.Some? && session.swapchains.value.api == texture.api
        && (forall k :: k in skybox ==> k in EntriesOf(session.swapchains))
      ensures !panicked && old(Synced(session)) ==> Synced(session)
    {
      panicked := AddSkyboxOverlay(None, texture, session, env);
      if !panicked {
        SphereAdded(old(nextHandle), old(table), skybox, table);
      }
    }

    /** The sphere branch of `set_skybox`: clear, then one sphere for `texture`. */
    method SetSkyboxSphere(session: Session, texture: Texture, env: GraphicsEnv) returns (panicked: bool)
      requires Valid() && session.Valid()
      modifies this`overlays, this`table, this`skybox, this`nextHandle, session`swapchains, session`swapchainsCreated
      ensures Valid() && session.Valid()
      ensures !panicked ==>
        && skybox == Range(old(nextHandle), 1)
        && nextHandle == old(nextHandle) + 1
        && table == SlotInsertAll(SlotRemoveAll(old(table), old(skybox)), skybox)
        && overlays == WithSphere(old(overlays) - Elements(old(skybox)), old(nextHandle), texture, env)
      ensures panicked <==> old(session.swapchains).Some? && old(session.swapchains).value.api != texture.api
      ensures !panicked ==>
        && session.swapchains.Some? && session.swapchains.value.api == texture.api
        && (forall k :: k in skybox ==> k in EntriesOf(session.swapchains))
      ensures !panicked && old(Synced(session)) ==> Synced(session)
    {
      ClearSkybox();
      panicked := AddSkyboxSphere(session, texture, env);
    }

    /** The cube branch of `set_skybox`: clear, then the six faces in order. */
    method SetSkyboxCube(session: Session, textures: seq<Texture>, env: GraphicsEnv) returns (panicked: bool)
      requires Valid() && session.Valid() && |textures| == 6
      modifies this`overlays, this`table, this`skybox, this`nextHandle, session`swapchains, session`swapchainsCreated
      ensures Valid() && session.Valid()
      ensures !panicked ==>
        && skybox == Range(old(nextHandle), 6)
        && nextHandle == old(nextHandle) + 6
        && table == SlotInsertAll(SlotRemoveAll(old(table), old(skybox)), skybox)
        && overlays == Placed(old(overlays) - Elements(old(skybox)), old(nextHandle), CubeFaces(textures, env), 6)
      ensures panicked <==> exists i :: 0 <= i < |textures| && textures[i].api != MapApi(old(session.swapchains), textures[0])
      ensures !panicked ==>
        && session.swapchains.Some? && session.swapchains.value.api == MapApi(old(session.swapchains), textures[0])
        && (forall k :: k in skybox ==> k in EntriesOf(session.swapchains))
      ensures !panicked && old(Synced(session)) ==> Synced(session)
    {
      ClearSkybox();
      panicked := AddSkyboxFaces(session, textures, env);
    }

    /**
     * `set_skybox`: replace the skybox by one sphere (1 or 2 textures, the
     * second ignored) or six cube faces (6 textures), with fresh handles.
     * The other overlays and the key index are untouched, so no skybox
     * overlay is ever found by key. `panicked` is a panic of a texture
     * submission.
     */
    method SetSkybox(session: Session, textures: seq<Texture>, env: GraphicsEnv) returns (panicked: bool)
      requires Valid() && session.Valid()
      requires |textures| == 1 || |textures| == 2 || |textures| == 6
      modifies this`overlays, this`table, this`skybox, this`nextHandle, session`swapchains, session`swapchainsCreated
      ensures Valid() && session.Valid()
      ensures !panicked ==>
        && skybox == Range(old(nextHandle), SkyboxCount(|textures|))
        && nextHandle == old(nextHandle) + |skybox|
        && table == SlotInsertAll(SlotRemoveAll(old(table), old(skybox)), skybox)
        && (|textures| != 6 ==>
              overlays == WithSphere(old(overlays) - Elements(old(skybox)), old(nextHandle), textures[0], env))
        && (|textures| == 6 ==>
              overlays == Placed(old(overlays) - Elements(old(skybox)), old(nextHandle), CubeFaces(textures, env), 6))
      ensures panicked <==>
        exists i :: 0 <= i < SkyboxCount(|textures|) && textures[i].api != MapApi(old(session.swapchains), textures[0])
      ensures !panicked ==>
        && session.swapchains.Some? && session.swapchains.value.api == MapApi(old(session.swapchains), textures[0])
        && (forall k :: k in skybox ==> k in EntriesOf(session.swapchains))
      ensures !panicked && old(Synced(session)) ==> Synced(session)
    {
      ghost var prev := session.swapchains;
      if |textures| == 6 {
        panicked := SetSkyboxCube(session, textures, env);
      } else {
        FirstTextureDecides(prev, textures);
        panicked := SetSkyboxSphere(session, textures[0], env);
      }
    }

    /**
     * `get_layers`: the layers of the visible, textured overlays (skybox
     * overlays only when `renderSkybox`), stably sorted by z-order. `api`
     * is the backend the compositor asks for. `panicked` is the panic on a
     * map serving another API or a drawn overlay without a swapchain.
     */
    method GetLayers(session: Session, renderSkybox: bool, api: GraphicsApi)
      returns (layers: seq<OverlayLayer>, panicked: bool)
      requires Valid()
      ensures session.swapchains.None? ==> layers == [] && !panicked
      ensures session.swapchains.Some? ==>
        (panicked <==> session.swapchains.value.api != api
                       || !EntriesPresent(Order(), overlays, session.swapchains.value.entries, renderSkybox))
      ensures session.swapchains.Some? && !panicked ==>
        layers == LayersOf(StableSortByZ(Candidates(Order(), overlays, session.swapchains.value.entries,
                                                    renderSkybox, session.currentOrigin)))
      ensures Synced(session) && session.swapchains.Some? && session.swapchains.value.api == api ==> !panicked
    {
      if session.swapchains.None? {
        return [], false;
      }
      var sm := session.swapchains.value;
      if sm.api != api {
        return [], true;
      }
      OrderCoversStore(overlays, table, keyToOverlay, skybox, nextHandle);
      var ranked, missing := CollectCandidates(Order(), overlays, sm.entries, renderSkybox, session.currentOrigin);
      if missing {
        return [], true;
      }
      layers := LayersOf(StableSortByZ(ranked));
      panicked := false;
    }
  }

  /**
   * The loop of `get_layers`: walk the overlays in slot order and rank the
   * eligible ones; `missing` is the panic on an eligible overlay without a
   * swapchain.
   */
  method CollectCandidates(order: seq<Handle>, overlays: map<Handle, Overlay>, entries: map<Handle, SwapchainData>,
                           renderSkybox: bool, defaultOrigin: Origin)
    returns (ranked: seq<Ranked>, missing: bool)
    requires forall h :: h in order ==> h in overlays
    ensures missing <==> !EntriesPresent(order, overlays, entries, renderSkybox)
    ensures !missing ==> ranked == Candidates(order, overlays, entries, renderSkybox, defaultOrigin)
  {
    ranked := [];
    var i := 0;
    while i < |order|
      invariant 0 <= i <= |order|
      invariant EntriesPresent(order[..i], overlays, entries, renderSkybox)
      invariant ranked == Candidates(order[..i], overlays, entries, renderSkybox, defaultOrigin)
    {
      var h := order[i];
      var ov := overlays[h];
      assert order[..i + 1] == order[..i] + [h];
      if Eligible(ov, renderSkybox) {
        if h !in entries {
          assert !EntriesPresent(order, overlays, entries, renderSkybox);
          return [], true;
        }
        ranked := ranked + [Ranked(ov.zOrder, h, LayerFor(ov, entries[h], defaultOrigin))];
      }
      assert order[..i + 1][..i] == order[..i];
      i := i + 1;
    }
    assert order[..i] == order;
    missing := false;
  }

  /**
   * The key index does not survive a reused key: after two overlays are
   * created under one key and the first is destroyed, the key is no longer
   * found although the second overlay is still live.
   */
  method ReusedKeyIsLost(extensions: Extensions) returns (found: Reply<Handle>, secondLive: bool)
    ensures found == Reply(UnknownOverlay, None)
    ensures secondLive
  {
    var store := new OverlayMan(extensions);
    var first := store.CreateOverlay("menu", "first", true);
    var second := store.CreateOverlay("menu", "second", true);
    var err := store.DestroyOverlay(first.written.value);
    found := store.FindOverlay("menu", true);
    secondLive := second.written.value in store.overlays;
  }

  /**
   * Iteration follows the slots, not creation: after two overlays are
   * created and the first destroyed, a third takes the freed slot and is
   * visited before the second, although it was created after it.
   */
  method ReusedSlotComesFirst(extensions: Extensions) returns (order: seq<Handle>, second: Handle, third: Handle)
    ensures second < third
    ensures order == [third, second]
  {
    var store := new OverlayMan(extensions);
    var first := store.CreateOverlay("first", "first", true);
    var made := store.CreateOverlay("second", "second", true);
    var err := store.DestroyOverlay(first.written.value);
    var last := store.CreateOverlay("third", "third", true);
    second, third := made.written.value, last.written.value;
    FreedSlotVisitedFirst(first.written.value, second, third);
    order := store.Order();
  }
}
