/**
 * Values shared by the overlay engine: handles, status codes, the geometry
 * values the engine stores without interpreting, and graphics-API tags.
 * `f32` quantities are modelled as `real`; the engine only stores, compares
 * and forwards them.
 */
module Types {

  datatype Option<+T> = None | Some(value: T) {
    /** The value, or `default` when there is none (Rust's `unwrap_or`). */
    function GetOr(default: T): T {
      match this
      case Some(v) => v
      case None => default
    }
  }

  /** An overlay handle as handed out to callers. Handles are never reused. */
  type Handle = nat

  const U32_LIMIT: int := 0x1_0000_0000

  /** The ABI's `u32`. */
  type U32 = x: int | 0 <= x < U32_LIMIT

  /** The status codes the overlay interface returns (`EVROverlayError`);
      `NoError` is the ABI's `None`. */
  datatype OverlayError = NoError | InvalidParameter | UnknownOverlay | RequestFailed

  /**
   * The outcome of a call that reports through an out-pointer: the status
   * code and what was written to the pointer, if anything.
   */
  datatype Reply<+T> = Reply(error: OverlayError, written: Option<T>)

  /** Tracking universe origins a transform can be expressed in. */
  datatype Origin = Seated | Standing | RawAndUncalibrated

  datatype Vector3 = Vector3(x: real, y: real, z: real)

  datatype Quaternion = Quaternion(x: real, y: real, z: real, w: real)

  datatype Pose = Pose(position: Vector3, orientation: Quaternion)

  /** Normalized UV sub-rectangle of a submitted texture. */
  datatype TextureBounds = TextureBounds(uMin: real, vMin: real, uMax: real, vMax: real)

  const FULL_BOUNDS: TextureBounds := TextureBounds(0.0, 0.0, 1.0, 1.0)

  /** Tag of one of the supported graphics backends. */
  datatype GraphicsApi = GraphicsApi(tag: nat)

  /** A texture submitted by the application: its declared backend type,
      the native handle and its colour space, all opaque here. */
  datatype Texture = Texture(api: GraphicsApi, native: nat, colorSpace: nat)

  datatype Extent2D = Extent2D(width: int, height: int)

  datatype Offset2D = Offset2D(x: int, y: int)

  datatype Rect2D = Rect2D(offset: Offset2D, extent: Extent2D)

  /** No element occurs twice. */
  predicate Distinct<T(==)>(s: seq<T>) {
    forall i, j :: 0 <= i < j < |s| ==> s[i] != s[j]
  }

  /** Where `x` occurs in `s` (its last occurrence), or `|s|` when it does not. */
  function Position<T(==)>(s: seq<T>, x: T): (p: nat)
    ensures x in s ==> p < |s| && s[p] == x
    ensures x !in s ==> p == |s|
    decreases |s|
  {
    if x !in s then |s|
    else if s[|s| - 1] == x then |s| - 1
    else
      assert s == s[..|s| - 1] + [s[|s| - 1]];
      Position(s[..|s| - 1], x)
  }

  /** The elements of `s` as a set. */
  function Elements<T(!new)>(s: seq<T>): (r: set<T>)
    ensures forall x :: x in r <==> x in s
  {
    set x | x in s
  }

  /** `s` without the elements of `xs`, in the same order. */
  function Without<T(==,!new)>(s: seq<T>, xs: set<T>): seq<T>
    decreases |s|
  {
    if s == [] then []
    else (if s[0] in xs then [] else [s[0]]) + Without(s[1..], xs)
  }

  /** `Without` keeps exactly the elements of `s` outside `xs`. */
  lemma {:induction false} WithoutMembers<T(!new)>(s: seq<T>, xs: set<T>)
    ensures forall x :: x in Without(s, xs) <==> x in s && x !in xs
    decreases |s|
  {
    if s != [] {
      WithoutMembers(s[1..], xs);
      assert s == [s[0]] + s[1..];
    }
  }

  /** Removing `a` and then `b` removes `a + b`. */
  lemma {:induction false} WithoutTwice<T(!new)>(s: seq<T>, a: set<T>, b: set<T>)
    ensures Without(Without(s, a), b) == Without(s, a + b)
    decreases |s|
  {
    if s != [] {
      WithoutTwice(s[1..], a, b);
      var t := Without(s, a);
      if s[0] in a {
        assert t == Without(s[1..], a);
      } else {
        assert t == [s[0]] + Without(s[1..], a);
        assert t[1..] == Without(s[1..], a);
      }
    }
  }

  /** Removing elements from a concatenation removes them from each part. */
  lemma {:induction false} WithoutAppend<T(!new)>(a: seq<T>, b: seq<T>, xs: set<T>)
    ensures Without(a + b, xs) == Without(a, xs) + Without(b, xs)
    decreases |a|
  {
    if a == [] {
      assert a + b == b;
    } else {
      var head := if a[0] in xs then [] else [a[0]];
      assert (a + b)[0] == a[0] && (a + b)[1..] == a[1..] + b;
      calc {
        Without(a + b, xs);
        head + Without(a[1..] + b, xs);
        { WithoutAppend(a[1..], b, xs); }
        head + (Without(a[1..], xs) + Without(b, xs));
        (head + Without(a[1..], xs)) + Without(b, xs);
        Without(a, xs) + Without(b, xs);
      }
    }
  }

  /** Removing an element from between two parts that lack it leaves the two parts. */
  lemma WithoutSplice<T(!new)>(a: seq<T>, x: T, b: seq<T>)
    requires x !in a && x !in b
    ensures Without(a + [x] + b, {x}) == a + b
  {
    calc {
      Without(a + [x] + b, {x});
      { WithoutAppend(a + [x], b, {x}); }
      Without(a + [x], {x}) + Without(b, {x});
      { WithoutAppend(a, [x], {x}); }
      Without(a, {x}) + Without([x], {x}) + Without(b, {x});
      { WithoutNone(a, {x}); WithoutNone(b, {x}); assert [x][1..] == []; }
      a + [] + b;
      { assert a + [] == a; }
      a + b;
    }
  }

  /** Removing elements that do not occur changes nothing. */
  lemma {:induction false} WithoutNone<T(!new)>(s: seq<T>, xs: set<T>)
    requires forall x :: x in s ==> x !in xs
    ensures Without(s, xs) == s
    decreases |s|
  {
    if s != [] {
      WithoutNone(s[1..], xs);
    }
  }

  /** Removing keys `a` and then `b` removes `a + b`. */
  lemma MapMinusTwice<K, V>(m: map<K, V>, a: set<K>, b: set<K>)
    ensures (m - a) - b == m - (a + b)
  {
  }

  /** Appending `x` adds `x` to the elements. */
  lemma ElementsSnoc<T(!new)>(s: seq<T>, x: T)
    ensures Elements(s + [x]) == Elements(s) + {x}
  {
  }

  /** A second store under a key overwrites the first. */
  lemma MapUpdateTwice<K, V>(m: map<K, V>, k: K, a: V, b: V)
    ensures m[k := a][k := b] == m[k := b]
  {
  }
}
