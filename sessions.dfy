/**
 * The per-session swapchain table (`OverlaySessionData`) together with the
 * parts of the session the overlay engine reads, and the graphics backend
 * seen only through the results it returns.
 */
module Sessions {
  import opened Types

  type Format = nat

  /** Creation info of a swapchain: format and pixel size (opaque here). */
  datatype SwapchainInfo = SwapchainInfo(format: Format, width: nat, height: nat)

  /**
   * One overlay's swapchain: an identity standing for the runtime's swapchain
   * handle, the info it was created with, and the format first negotiated.
   */
  datatype SwapchainData = SwapchainData(swapchain: nat, info: SwapchainInfo, initialFormat: Format)

  /** The session's swapchain map, tagged with the one API it serves. */
  datatype SwapchainMap = SwapchainMap(api: GraphicsApi, entries: map<Handle, SwapchainData>)

  /**
   * The graphics backend and runtime calls the engine depends on, reduced to
   * the values they return:
   *  - `requirements`: the swapchain a texture needs (`swapchain_info_for_texture`);
   *  - `checkFormat`: the runtime's adjustment of that info before creation;
   *  - `isUsable`: whether an existing swapchain can take the texture
   *    (`is_usable_swapchain`);
   *  - `copyExtent`: the extent written by the acquire, wait, copy and
   *    release cycle (`copy_overlay_to_swapchain`).
   */
  datatype GraphicsEnv = GraphicsEnv(
    requirements: (GraphicsApi, Texture, TextureBounds) -> SwapchainInfo,
    checkFormat: SwapchainInfo -> SwapchainInfo,
    isUsable: (SwapchainInfo, Format, SwapchainInfo) -> bool,
    copyExtent: (GraphicsApi, Texture, TextureBounds) -> Extent2D)

  /** The entries of an optional swapchain map; none when it does not exist yet. */
  function EntriesOf(swapchains: Option<SwapchainMap>): (m: map<Handle, SwapchainData>)
    ensures swapchains.None? ==> m == map[]
  {
    match swapchains
    case Some(sm) => sm.entries
    case None => map[]
  }

  /** Whether the existing swapchain for `key` can take a texture needing `req`. */
  predicate Reusable(entries: map<Handle, SwapchainData>, key: Handle, req: SwapchainInfo, env: GraphicsEnv)
  {
    key in entries && env.isUsable(entries[key].info, entries[key].initialFormat, req)
  }

  class Session {
    /** The tracking origin used for overlays without a transform. */
    var currentOrigin: Origin
    /** The swapchain map; absent until the first texture submission. */
    var swapchains: Option<SwapchainMap>
    /** Number of swapchains created so far; the next one gets this identity. */
    var swapchainsCreated: nat

    /** Every swapchain in the map was created by this session. */
    ghost predicate Valid()
      reads this
    {
      forall h :: h in EntriesOf(swapchains) ==> EntriesOf(swapchains)[h].swapchain < swapchainsCreated
    }

    constructor (origin: Origin)
      ensures Valid()
      ensures currentOrigin == origin && swapchains == None && swapchainsCreated == 0
    {
      currentOrigin := origin;
      swapchains := None;
      swapchainsCreated := 0;
    }

    /**
     * The `create_swapchain` closure of `set_texture`: remember the format
     * the texture asked for, let the runtime adjust the info, and create a
     * new swapchain with the adjusted info.
     */
    method CreateSwapchain(req: SwapchainInfo, env: GraphicsEnv) returns (data: SwapchainData)
      modifies this`swapchainsCreated
      ensures data == SwapchainData(old(swapchainsCreated), env.checkFormat(req), req.format)
      ensures swapchainsCreated == old(swapchainsCreated) + 1
    {
      data := SwapchainData(swapchainsCreated, env.checkFormat(req), req.format);
      swapchainsCreated := swapchainsCreated + 1;
    }
  }
}
