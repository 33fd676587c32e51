/**
 * One overlay (`Overlay` in the store) and the texture-submission
 * bookkeeping of `Overlay::set_texture`.
 */
module Overlays {
  import opened Types
  import opened Sessions

  /** OpenVR callers use sort orders >= 0; this one is reserved for skybox overlays. */
  const SKYBOX_Z_ORDER: int := -1

  datatype OverlayKind = Quad | Curved(curvature: real) | Sphere

  /** A pose together with the tracking origin it is relative to. */
  datatype Transform = Transform(origin: Origin, pose: Pose)

  datatype Overlay = Overlay(
    key: string,
    name: string,
    /** Only set while the colour scale/bias extension is active; None means opaque. */
    alpha: Option<real>,
    /** Metres, or the radius for a sphere. */
    width: real,
    visible: bool,
    kind: OverlayKind,
    zOrder: int,
    bounds: TextureBounds,
    transform: Option<Transform>,
    /** The backend bound by the first texture submission, by its API. */
    compositor: Option<GraphicsApi>,
    /** Where the last submitted texture was copied to in its swapchain image. */
    rect: Option<Rect2D>)

  /** `Overlay::new`: a hidden flat 1-metre overlay with nothing submitted yet. */
  function NewOverlay(key: string, name: string): (ov: Overlay)
    ensures ov.key == key && ov.name == name
    ensures !ov.visible && ov.width == 1.0 && ov.kind == Quad && ov.zOrder == 0
    ensures ov.bounds == FULL_BOUNDS && ov.alpha == None && ov.transform == None
    ensures ov.compositor == None && ov.rect == None
  {
    Overlay(key, name, None, 1.0, false, Quad, 0, FULL_BOUNDS, None, None, None)
  }

  /** Rust's `f32::clamp(0.0, 1.0)` on non-NaN values. */
  function Clamp01(value: real): (r: real)
    ensures 0.0 <= r <= 1.0
    ensures 0.0 <= value <= 1.0 ==> r == value
    ensures value < 0.0 ==> r == 0.0
    ensures value > 1.0 ==> r == 1.0
  {
    if value < 0.0 then 0.0 else if value > 1.0 then 1.0 else value
  }

  /** The curvature an overlay reports: its own when curved, 0 otherwise. */
  function CurvatureOf(kind: OverlayKind): (c: real)
    ensures kind.Curved? ==> c == kind.curvature
    ensures !kind.Curved? ==> c == 0.0
  {
    match kind
    case Curved(curvature) => curvature
    case _ => 0.0
  }

  /** The backend a texture submission uses: the one already bound, else the texture's own. */
  function BoundApi(ov: Overlay, texture: Texture): (api: GraphicsApi)
    ensures ov.compositor.Some? ==> api == ov.compositor.value
    ensures ov.compositor.None? ==> api == texture.api
  {
    ov.compositor.GetOr(texture.api)
  }

  /**
   * The overlay after a successful texture submission: its backend is bound
   * and its rect is the extent the copy wrote, at offset (0, 0).
   */
  function Textured(ov: Overlay, texture: Texture, env: GraphicsEnv): (r: Overlay)
    ensures r.compositor == Some(BoundApi(ov, texture))
    ensures r.rect == Some(Rect2D(Offset2D(0, 0), env.copyExtent(BoundApi(ov, texture), texture, ov.bounds)))
    ensures r.(compositor := ov.compositor, rect := ov.rect) == ov
  {
    var api := BoundApi(ov, texture);
    ov.(compositor := Some(api),
        rect := Some(Rect2D(Offset2D(0, 0), env.copyExtent(api, texture, ov.bounds))))
  }

  /** Once bound, the backend is never replaced by later submissions. */
  lemma BackendNeverReplaced(ov: Overlay, first: Texture, later: Texture, env: GraphicsEnv)
    ensures BoundApi(Textured(ov, first, env), later) == BoundApi(ov, first)
    ensures Textured(Textured(ov, first, env), later, env).compositor == Textured(ov, first, env).compositor
  {
  }

  /**
   * `Overlay::set_texture`: bind the backend, create the session's swapchain
   * map on first use, reuse the overlay's swapchain when it is usable for the
   * new texture and create it otherwise, then copy and record the rect.
   * `panicked` is the panic when the map serves another API; the process
   * does not survive it, so nothing is written back.
   */
  method SetTexture(ov: Overlay, key: Handle, session: Session, texture: Texture, env: GraphicsEnv)
    returns (updated: Overlay, panicked: bool)
    requires session.Valid()
    modifies session`swapchains, session`swapchainsCreated
    ensures session.Valid()
    ensures panicked <==> old(session.swapchains).Some? && old(session.swapchains).value.api != BoundApi(ov, texture)
    ensures panicked ==> updated == ov && unchanged(session)
    ensures !panicked ==> updated == Textured(ov, texture, env)
    ensures !panicked ==> session.swapchains.Some? && session.swapchains.value.api == BoundApi(ov, texture)
    ensures !panicked ==>
      var req := env.requirements(BoundApi(ov, texture), texture, ov.bounds);
      var before := EntriesOf(old(session.swapchains));
      var after := EntriesOf(session.swapchains);
      && key in after
      && after == before[key := after[key]]
      && (Reusable(before, key, req, env) ==>
            after[key] == before[key] && session.swapchainsCreated == old(session.swapchainsCreated))
      && (!Reusable(before, key, req, env) ==>
            && after[key].info == env.checkFormat(req)
            && after[key].initialFormat == req.format
            && old(session.swapchainsCreated) <= after[key].swapchain)
  {
    var api := BoundApi(ov, texture);
    if session.swapchains.None? {
      session.swapchains := Some(SwapchainMap(api, map[]));
    }
    var sm := session.swapchains.value;
    if sm.api != api {
      return ov, true;
    }
    var req := env.requirements(api, texture, ov.bounds);
    var data: SwapchainData;
    if key in sm.entries {
      data := sm.entries[key];
    } else {
      data := session.CreateSwapchain(req, env);
    }
    if !env.isUsable(data.info, data.initialFormat, req) {
      data := session.CreateSwapchain(req, env);
    }
    session.swapchains := Some(sm.(entries := sm.entries[key := data]));
    updated := Textured(ov, texture, env);
    panicked := false;
  }
}
