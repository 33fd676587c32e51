/**
 * The per-frame composition layers built from overlays (`OverlayLayer`),
 * the overlays a frame shows, and the stable ascending sort by z-order
 * the frame is submitted in.
 */
module Layers {
  import opened Types
  import opened Sessions
  import opened Overlays

  /** The three native layer shapes. Geometry derived from the swapchain
      rect (quad height, cylinder radius and angle) is not modelled. */
  datatype LayerShape =
    | QuadLayer(width: real)
    | CylinderLayer(width: real, curvature: real)
    | Equirect2Layer(radius: real)

  /** The swapchain and pixel rectangle a layer samples. */
  datatype SubImage = SubImage(swapchain: nat, rect: Rect2D)

  /** An RGBA colour, or a per-component factor or offset (`XrColor4f`). */
  datatype Color4 = Color4(r: real, g: real, b: real, a: real)

  /** `Color4f::default()`: every component zero. */
  const ZERO_COLOR: Color4 := Color4(0.0, 0.0, 0.0, 0.0)

  /** The payload of the OpenXR extension XR_KHR_composition_layer_color_scale_bias. */
  datatype ColorScaleBias = ColorScaleBias(scale: Color4, bias: Color4)

  /** What the compositor draws for a layer colour `c`: `c * scale + bias`, per component. */
  function Apply(p: ColorScaleBias, c: Color4): Color4 {
    Color4(c.r * p.scale.r + p.bias.r, c.g * p.scale.g + p.bias.g,
           c.b * p.scale.b + p.bias.b, c.a * p.scale.a + p.bias.a)
  }

  /**
   * The payload `set_alpha` builds, as written: the alpha scale is
   * `alpha`, and every other field, the colour scales included, is the
   * zero default, so the overlay's colour is blanked to black.
   */
  function AlphaPayloadAsWritten(alpha: real): (p: ColorScaleBias)
    ensures forall c :: Apply(p, c) == Color4(0.0, 0.0, 0.0, c.a * alpha)
  {
    ColorScaleBias(Color4(0.0, 0.0, 0.0, alpha), ZERO_COLOR)
  }

  /**
   * The payload an overlay alpha calls for: colour scales of one, so only
   * the alpha is scaled, and no bias.
   */
  function AlphaPayload(alpha: real): (p: ColorScaleBias)
    ensures forall c :: Apply(p, c) == Color4(c.r, c.g, c.b, c.a * alpha)
  {
    ColorScaleBias(Color4(1.0, 1.0, 1.0, alpha), ZERO_COLOR)
  }

  /** An opaque white pixel under alpha one half: the payload as written draws it black. */
  lemma AlphaAsWrittenBlanksWhite()
    ensures Apply(AlphaPayloadAsWritten(0.5), Color4(1.0, 1.0, 1.0, 1.0)) == Color4(0.0, 0.0, 0.0, 0.5)
  {
    var white := Color4(1.0, 1.0, 1.0, 1.0);
    assert Apply(AlphaPayloadAsWritten(0.5), white) == Color4(0.0, 0.0, 0.0, white.a * 0.5);
  }

  /** The same pixel under the intended payload: white at half opacity. */
  lemma AlphaKeepsWhite()
    ensures Apply(AlphaPayload(0.5), Color4(1.0, 1.0, 1.0, 1.0)) == Color4(1.0, 1.0, 1.0, 0.5)
  {
    var white := Color4(1.0, 1.0, 1.0, 1.0);
    assert Apply(AlphaPayload(0.5), white) == Color4(white.r, white.g, white.b, white.a * 0.5);
  }

  /**
   * A layer ready for submission. The optional payload stands for the
   * extension structure the source splices into the layer's next-chain.
   */
  datatype OverlayLayer = OverlayLayer(
    shape: LayerShape,
    space: Origin,
    pose: Pose,
    subImage: SubImage,
    colorScaleBias: Option<ColorScaleBias>)

  /** Half a metre straight ahead, unrotated: the pose of an overlay without a transform. */
  const DEFAULT_POSE: Pose := Pose(Vector3(0.0, 0.0, -0.5), Quaternion(0.0, 0.0, 0.0, 1.0))

  /** The layer shape an overlay kind is drawn with. */
  function ShapeFor(kind: OverlayKind, width: real): (shape: LayerShape)
    ensures kind.Quad? <==> shape.QuadLayer?
    ensures kind.Curved? <==> shape.CylinderLayer?
    ensures kind.Sphere? <==> shape.Equirect2Layer?
    ensures kind.Quad? ==> shape.width == width
    ensures kind.Curved? ==> shape.width == width && shape.curvature == kind.curvature
    ensures kind.Sphere? ==> shape.radius == width
  {
    match kind
    case Quad => QuadLayer(width)
    case Curved(curvature) => CylinderLayer(width, curvature)
    case Sphere => Equirect2Layer(width)
  }

  /**
   * `OverlayLayer::set_alpha`, with the intended payload: attach it and
   * change nothing else. Attaching a second one is a programming error (a
   * debug assertion in the source), so the layer must not carry one yet.
   */
  function SetAlpha(layer: OverlayLayer, alpha: real): (r: OverlayLayer)
    requires layer.colorScaleBias.None?
    ensures r.colorScaleBias == Some(AlphaPayload(alpha))
    ensures r.(colorScaleBias := None) == layer
  {
    layer.(colorScaleBias := Some(AlphaPayload(alpha)))
  }

  /** The layer one overlay contributes, sampling its swapchain `data`. */
  function LayerFor(ov: Overlay, data: SwapchainData, defaultOrigin: Origin): (layer: OverlayLayer)
    requires ov.rect.Some?
    ensures layer.shape == ShapeFor(ov.kind, ov.width)
    ensures layer.space == (if ov.transform.Some? then ov.transform.value.origin else defaultOrigin)
    ensures layer.pose == (if ov.transform.Some? then ov.transform.value.pose else DEFAULT_POSE)
    ensures layer.subImage == SubImage(data.swapchain, ov.rect.value)
    ensures layer.colorScaleBias.Some? <==> ov.alpha.Some?
    ensures ov.alpha.Some? ==> layer.colorScaleBias == Some(AlphaPayload(ov.alpha.value))
  {
    var space := if ov.transform.Some? then ov.transform.value.origin else defaultOrigin;
    var pose := if ov.transform.Some? then ov.transform.value.pose else DEFAULT_POSE;
    var layer := OverlayLayer(ShapeFor(ov.kind, ov.width), space, pose, SubImage(data.swapchain, ov.rect.value), None);
    if ov.alpha.Some? then SetAlpha(layer, ov.alpha.value) else layer
  }

  /** Whether an overlay is drawn this frame. */
  predicate Eligible(ov: Overlay, renderSkybox: bool) {
    ov.visible && !(ov.zOrder == SKYBOX_Z_ORDER && !renderSkybox) && ov.rect.Some?
  }

  /** Every overlay drawn this frame has a swapchain in the session's map. */
  predicate EntriesPresent(order: seq<Handle>, overlays: map<Handle, Overlay>,
                           entries: map<Handle, SwapchainData>, renderSkybox: bool)
  {
    forall h :: h in order && h in overlays && Eligible(overlays[h], renderSkybox) ==> h in entries
  }

  /** A layer with the z-order it is sorted by and the overlay it came from. */
  datatype Ranked = Ranked(z: int, overlay: Handle, layer: OverlayLayer)

  /** The layers of the drawn overlays, in the store's iteration order `order`. */
  function Candidates(order: seq<Handle>, overlays: map<Handle, Overlay>,
                      entries: map<Handle, SwapchainData>, renderSkybox: bool, defaultOrigin: Origin): seq<Ranked>
    requires EntriesPresent(order, overlays, entries, renderSkybox)
    decreases |order|
  {
    if order == [] then []
    else
      var h := order[|order| - 1];
      var init := Candidates(order[..|order| - 1], overlays, entries, renderSkybox, defaultOrigin);
      if h in overlays && Eligible(overlays[h], renderSkybox)
      then init + [Ranked(overlays[h].zOrder, h, LayerFor(overlays[h], entries[h], defaultOrigin))]
      else init
  }

  /** The layers of a ranked sequence, ranks dropped. */
  function LayersOf(s: seq<Ranked>): (r: seq<OverlayLayer>)
    ensures |r| == |s| && forall k :: 0 <= k < |s| ==> r[k] == s[k].layer
  {
    seq(|s|, k requires 0 <= k < |s| => s[k].layer)
  }

  /** Each element is the layer of a drawn overlay of `order`, as `LayerFor` builds it. */
  ghost predicate FromDrawnOverlays(c: seq<Ranked>, order: seq<Handle>, overlays: map<Handle, Overlay>,
                                    entries: map<Handle, SwapchainData>, renderSkybox: bool, defaultOrigin: Origin)
  {
    forall k :: 0 <= k < |c| ==>
      && c[k].overlay in order
      && c[k].overlay in overlays
      && Eligible(overlays[c[k].overlay], renderSkybox)
      && c[k].overlay in entries
      && c[k] == Ranked(overlays[c[k].overlay].zOrder, c[k].overlay,
                        LayerFor(overlays[c[k].overlay], entries[c[k].overlay], defaultOrigin))
  }

  /** Every drawn overlay of `order` has an element. */
  ghost predicate CoversDrawnOverlays(c: seq<Ranked>, order: seq<Handle>, overlays: map<Handle, Overlay>, renderSkybox: bool)
  {
    forall h :: h in order && h in overlays && Eligible(overlays[h], renderSkybox) ==>
      exists k :: 0 <= k < |c| && c[k].overlay == h
  }

  /** The elements' overlays occur in `order` in the same order. */
  ghost predicate FollowsOrder(c: seq<Ranked>, order: seq<Handle>) {
    forall i, j :: 0 <= i < j < |c| ==> Position(order, c[i].overlay) < Position(order, c[j].overlay)
  }

  /** Elements with equal z-order occur in the order their overlays have in `order`. */
  ghost predicate TiesFollowOrder(c: seq<Ranked>, order: seq<Handle>) {
    forall i, j :: 0 <= i < j < |c| && c[i].z == c[j].z ==> Position(order, c[i].overlay) < Position(order, c[j].overlay)
  }

  /** No overlay contributes two elements. */
  ghost predicate OncePerOverlay(c: seq<Ranked>) {
    forall i, j :: 0 <= i < j < |c| ==> c[i].overlay != c[j].overlay
  }

  /** Every candidate comes from a drawn overlay of `order`, as `LayerFor` builds it. */
  lemma {:induction false} CandidatesSound(order: seq<Handle>, overlays: map<Handle, Overlay>,
                                           entries: map<Handle, SwapchainData>, renderSkybox: bool, defaultOrigin: Origin)
    requires EntriesPresent(order, overlays, entries, renderSkybox)
    ensures FromDrawnOverlays(Candidates(order, overlays, entries, renderSkybox, defaultOrigin), order, overlays, entries, renderSkybox, defaultOrigin)
  {
    if order != [] {
      var init := order[..|order| - 1];
      var last := order[|order| - 1];
      assert order == init + [last];
      CandidatesSound(init, overlays, entries, renderSkybox, defaultOrigin);
      var c := Candidates(order, overlays, entries, renderSkybox, defaultOrigin);
      var ci := Candidates(init, overlays, entries, renderSkybox, defaultOrigin);
      forall k | 0 <= k < |c| ensures c[k].overlay in order {
        if k < |ci| {
          assert c[k] == ci[k] && ci[k].overlay in init;
        }
      }
    }
  }

  /** Every drawn overlay of `order` has a candidate. */
  lemma {:induction false} CandidatesComplete(order: seq<Handle>, overlays: map<Handle, Overlay>,
                                              entries: map<Handle, SwapchainData>, renderSkybox: bool, defaultOrigin: Origin)
    requires EntriesPresent(order, overlays, entries, renderSkybox)
    ensures CoversDrawnOverlays(Candidates(order, overlays, entries, renderSkybox, defaultOrigin), order, overlays, renderSkybox)
  {
    if order != [] {
      var init := order[..|order| - 1];
      var last := order[|order| - 1];
      assert order == init + [last];
      CandidatesComplete(init, overlays, entries, renderSkybox, defaultOrigin);
      var c := Candidates(order, overlays, entries, renderSkybox, defaultOrigin);
      var ci := Candidates(init, overlays, entries, renderSkybox, defaultOrigin);
      forall h | h in order && h in overlays && Eligible(overlays[h], renderSkybox)
        ensures exists k :: 0 <= k < |c| && c[k].overlay == h
      {
        if h == last {
          assert c[|c| - 1].overlay == h;
        } else {
          assert h in init;
          var k :| 0 <= k < |ci| && ci[k].overlay == h;
          assert c[k] == ci[k];
        }
      }
    }
  }

  /** With a repetition-free `order`, the candidates follow it strictly. */
  lemma {:induction false} CandidatesFollowOrder(order: seq<Handle>, overlays: map<Handle, Overlay>,
                                                 entries: map<Handle, SwapchainData>, renderSkybox: bool, defaultOrigin: Origin)
    requires Distinct(order)
    requires EntriesPresent(order, overlays, entries, renderSkybox)
    ensures FollowsOrder(Candidates(order, overlays, entries, renderSkybox, defaultOrigin), order)
  {
    if order != [] {
      var init := order[..|order| - 1];
      var last := order[|order| - 1];
      assert order == init + [last];
      CandidatesFollowOrder(init, overlays, entries, renderSkybox, defaultOrigin);
      CandidatesSound(init, overlays, entries, renderSkybox, defaultOrigin);
      var c := Candidates(order, overlays, entries, renderSkybox, defaultOrigin);
      var ci := Candidates(init, overlays, entries, renderSkybox, defaultOrigin);
      forall k | 0 <= k < |ci|
        ensures Position(order, ci[k].overlay) == Position(init, ci[k].overlay) < |init|
      {
        assert ci[k].overlay in init;
        assert init == order[..|order| - 1];
        PositionInPrefix(order, ci[k].overlay);
      }
      assert Position(order, last) == |init|;
      forall i, j | 0 <= i < j < |c| ensures Position(order, c[i].overlay) < Position(order, c[j].overlay) {
        assert c[i] == ci[i];
        if j < |ci| {
          assert c[j] == ci[j];
        }
      }
    }
  }

  /** In a repetition-free sequence, positions of earlier elements are unaffected by the last one. */
  lemma PositionInPrefix(s: seq<Handle>, h: Handle)
    requires Distinct(s) && s != [] && h in s[..|s| - 1]
    ensures Position(s, h) == Position(s[..|s| - 1], h)
  {
    var m :| 0 <= m < |s| - 1 && s[m] == h;
    assert s[|s| - 1] != h;
  }

  // ---------------------------------------------------------------------
  // The stable sort by z-order (`sort_by` on the z-order, ascending).
  // ---------------------------------------------------------------------

  ghost predicate SortedByZ(s: seq<Ranked>) {
    forall i, j :: 0 <= i < j < |s| ==> s[i].z <= s[j].z
  }

  /** `rank` strictly increases along `s`. */
  ghost predicate Increasing(s: seq<Ranked>, rank: Ranked -> int) {
    forall i, j :: 0 <= i < j < |s| ==> rank(s[i]) < rank(s[j])
  }

  /** Elements with equal z-order appear in increasing `rank`. */
  ghost predicate TiesOrdered(s: seq<Ranked>, rank: Ranked -> int) {
    forall i, j :: 0 <= i < j < |s| && s[i].z == s[j].z ==> rank(s[i]) < rank(s[j])
  }

  /** Insert `x` after every element whose z-order is not above its own. */
  function Insert(s: seq<Ranked>, x: Ranked): seq<Ranked> {
    if s == [] then [x]
    else if x.z < s[0].z then [x] + s
    else [s[0]] + Insert(s[1..], x)
  }

  /** Stable ascending sort by z-order. */
  function StableSortByZ(s: seq<Ranked>): seq<Ranked> {
    if s == [] then [] else Insert(StableSortByZ(s[..|s| - 1]), s[|s| - 1])
  }

  lemma {:induction false} InsertPermutes(s: seq<Ranked>, x: Ranked)
    ensures multiset(Insert(s, x)) == multiset(s) + multiset{x}
  {
    if s != [] && x.z >= s[0].z {
      InsertPermutes(s[1..], x);
      assert s == [s[0]] + s[1..];
    }
  }

  lemma {:induction false} InsertSorted(s: seq<Ranked>, x: Ranked)
    requires SortedByZ(s)
    ensures SortedByZ(Insert(s, x))
  {
    if s != [] && x.z >= s[0].z {
      var rest := Insert(s[1..], x);
      InsertSorted(s[1..], x);
      InsertPermutes(s[1..], x);
      forall j | 0 <= j < |rest| ensures s[0].z <= rest[j].z {
        assert rest[j] in multiset(rest);
        assert rest[j] in multiset(s[1..]) || rest[j] == x;
      }
    }
  }

  /** The elements of `Insert(s, x)` are those of `s` and `x`. */
  lemma InsertMembers(s: seq<Ranked>, x: Ranked)
    ensures forall y :: y in Insert(s, x) <==> y in s || y == x
  {
    InsertPermutes(s, x);
    forall y ensures y in Insert(s, x) <==> y in s || y == x {
      assert y in Insert(s, x) <==> y in multiset(Insert(s, x));
      assert y in s <==> y in multiset(s);
    }
  }

  lemma {:induction false} InsertKeepsTies(s: seq<Ranked>, x: Ranked, rank: Ranked -> int)
    requires SortedByZ(s) && TiesOrdered(s, rank)
    requires forall y :: y in s ==> rank(y) < rank(x)
    ensures TiesOrdered(Insert(s, x), rank)
  {
    if s == [] {
    } else if x.z < s[0].z {
      PrependBelow(s, x, rank);
    } else {
      InsertKeepsTies(s[1..], x, rank);
      InsertMembers(s[1..], x);
      PrependHead(s, Insert(s[1..], x), x, rank);
    }
  }

  /** Putting `x` in front of layers all above its z-order keeps ties ordered. */
  lemma PrependBelow(s: seq<Ranked>, x: Ranked, rank: Ranked -> int)
    requires s != [] && SortedByZ(s) && TiesOrdered(s, rank) && x.z < s[0].z
    ensures TiesOrdered([x] + s, rank)
  {
    var r := [x] + s;
    forall i, j | 0 <= i < j < |r| && r[i].z == r[j].z ensures rank(r[i]) < rank(r[j]) {
      assert r[i] == s[i - 1] && r[j] == s[j - 1];
    }
  }

  /** Keeping `s[0]` in front of the insertion into `s[1..]` keeps ties ordered. */
  lemma PrependHead(s: seq<Ranked>, rest: seq<Ranked>, x: Ranked, rank: Ranked -> int)
    requires s != [] && TiesOrdered(s, rank) && TiesOrdered(rest, rank)
    requires forall y :: y in rest <==> y in s[1..] || y == x
    requires rank(s[0]) < rank(x)
    ensures TiesOrdered([s[0]] + rest, rank)
  {
    var r := [s[0]] + rest;
    forall i, j | 0 <= i < j < |r| && r[i].z == r[j].z ensures rank(r[i]) < rank(r[j]) {
      if i == 0 {
        assert r[j] == rest[j - 1] && rest[j - 1] in rest;
        if rest[j - 1] != x {
          var m :| 0 <= m < |s[1..]| && s[1..][m] == rest[j - 1];
          assert s[m + 1] == r[j];
        }
      } else {
        assert r[i] == rest[i - 1] && r[j] == rest[j - 1];
      }
    }
  }

  /**
   * The sort orders by z-order and permutes its input; when the input is
   * increasing in `rank`, layers with equal z-order keep that order.
   */
  lemma {:induction false} StableSortByZCorrect(s: seq<Ranked>, rank: Ranked -> int)
    ensures SortedByZ(StableSortByZ(s))
    ensures multiset(StableSortByZ(s)) == multiset(s)
    ensures Increasing(s, rank) ==> TiesOrdered(StableSortByZ(s), rank)
  {
    if s != [] {
      var init := s[..|s| - 1];
      var x := s[|s| - 1];
      assert s == init + [x];
      StableSortByZCorrect(init, rank);
      InsertSorted(StableSortByZ(init), x);
      InsertPermutes(StableSortByZ(init), x);
      if Increasing(s, rank) {
        assert Increasing(init, rank);
        forall y | y in StableSortByZ(init) ensures rank(y) < rank(x) {
          assert y in multiset(StableSortByZ(init));
          var m :| 0 <= m < |init| && init[m] == y;
          assert s[m] == y;
        }
        InsertKeepsTies(StableSortByZ(init), x, rank);
      }
    }
  }

  /**
   * What a frame shows: the candidates sorted stably by z-order. Each layer
   * comes from a drawn overlay, every drawn overlay contributes exactly one
   * layer, z-order ascends, and layers with equal z-order keep the store's
   * iteration order.
   */
  lemma FrameLayers(order: seq<Handle>, overlays: map<Handle, Overlay>,
                    entries: map<Handle, SwapchainData>, renderSkybox: bool, defaultOrigin: Origin)
    requires Distinct(order)
    requires EntriesPresent(order, overlays, entries, renderSkybox)
    ensures SortedByZ(StableSortByZ(Candidates(order, overlays, entries, renderSkybox, defaultOrigin)))
    ensures FromDrawnOverlays(StableSortByZ(Candidates(order, overlays, entries, renderSkybox, defaultOrigin)), order, overlays, entries, renderSkybox, defaultOrigin)
    ensures CoversDrawnOverlays(StableSortByZ(Candidates(order, overlays, entries, renderSkybox, defaultOrigin)), order, overlays, renderSkybox)
    ensures OncePerOverlay(StableSortByZ(Candidates(order, overlays, entries, renderSkybox, defaultOrigin)))
    ensures TiesFollowOrder(StableSortByZ(Candidates(order, overlays, entries, renderSkybox, defaultOrigin)), order)
  {
    var c := Candidates(order, overlays, entries, renderSkybox, defaultOrigin);
    var r := StableSortByZ(c);
    var rank := (x: Ranked) => Position(order, x.overlay);
    CandidatesSound(order, overlays, entries, renderSkybox, defaultOrigin);
    CandidatesComplete(order, overlays, entries, renderSkybox, defaultOrigin);
    CandidatesFollowOrder(order, overlays, entries, renderSkybox, defaultOrigin);
    assert Increasing(c, rank);
    StableSortByZCorrect(c, rank);
    assert TiesFollowOrder(r, order) by {
      assert TiesOrdered(r, rank);
    }
    SameMembers(r, c);
    FromDrawnOverlaysOfMembers(r, c, order, overlays, entries, renderSkybox, defaultOrigin);
    CoversOfMembers(r, c, order, overlays, renderSkybox);
    OnceWhenTiesFollowOrder(r, order, overlays, entries, renderSkybox, defaultOrigin);
  }

  lemma SameMembers(r: seq<Ranked>, c: seq<Ranked>)
    requires multiset(r) == multiset(c)
    ensures forall x :: x in r <==> x in c
  {
    forall x ensures x in r <==> x in c {
      assert x in r <==> x in multiset(r);
      assert x in c <==> x in multiset(c);
    }
  }

  lemma FromDrawnOverlaysOfMembers(r: seq<Ranked>, c: seq<Ranked>, order: seq<Handle>, overlays: map<Handle, Overlay>,
                                   entries: map<Handle, SwapchainData>, renderSkybox: bool, defaultOrigin: Origin)
    requires FromDrawnOverlays(c, order, overlays, entries, renderSkybox, defaultOrigin)
    requires forall x :: x in r ==> x in c
    ensures FromDrawnOverlays(r, order, overlays, entries, renderSkybox, defaultOrigin)
  {
    forall k | 0 <= k < |r|
      ensures exists m :: 0 <= m < |c| && c[m] == r[k]
    {
      assert r[k] in r;
    }
  }

  lemma CoversOfMembers(r: seq<Ranked>, c: seq<Ranked>, order: seq<Handle>, overlays: map<Handle, Overlay>, renderSkybox: bool)
    requires CoversDrawnOverlays(c, order, overlays, renderSkybox)
    requires forall x :: x in c ==> x in r
    ensures CoversDrawnOverlays(r, order, overlays, renderSkybox)
  {
    forall h | h in order && h in overlays && Eligible(overlays[h], renderSkybox)
      ensures exists k :: 0 <= k < |r| && r[k].overlay == h
    {
      var m :| 0 <= m < |c| && c[m].overlay == h;
      assert c[m] in c;
      var k :| 0 <= k < |r| && r[k] == c[m];
    }
  }

  /** Two elements for one drawn overlay would be equal, hence a tie out of order. */
  lemma OnceWhenTiesFollowOrder(r: seq<Ranked>, order: seq<Handle>, overlays: map<Handle, Overlay>,
                                entries: map<Handle, SwapchainData>, renderSkybox: bool, defaultOrigin: Origin)
    requires FromDrawnOverlays(r, order, overlays, entries, renderSkybox, defaultOrigin)
    requires TiesFollowOrder(r, order)
    ensures OncePerOverlay(r)
  {
  }
}
