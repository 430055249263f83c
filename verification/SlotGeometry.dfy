/**
 Pan, wheel zoom and corner resize of a slot's image (design-reference/image-slot.js),
 in exact real arithmetic. Offsets are percentages of the frame, and the image is
 centred at (50 + x)% and (50 + y)% of it.
 */
module SlotGeometry {

  const S_MAX := 5.0

  function Min(a: real, b: real): real { if a <= b then a else b }

  function Max(a: real, b: real): real { if a <= b then b else a }

  function ClampS(s: real): (r: real)
    ensures 1.0 <= r <= S_MAX
    ensures 1.0 <= s <= S_MAX ==> r == s
  {
    Max(1.0, Min(S_MAX, s))
  }

  datatype View = View(s: real, x: real, y: real)

  /** Natural image size, frame size, and the `fit` attribute; all sizes are positive. */
  datatype Geometry = Geometry(iw: real, ih: real, fw: real, fh: real, contain: bool) {
    predicate Valid() {
      iw > 0.0 && ih > 0.0 && fw > 0.0 && fh > 0.0
    }

    /** Scale at view scale 1. */
    function Base(): (b: real)
      requires Valid()
      ensures b > 0.0
      ensures if contain then iw * b <= fw && ih * b <= fh else iw * b >= fw && ih * b >= fh
    {
      var across := fw / iw;
      var down := fh / ih;
      assert iw * across == fw && ih * down == fh;
      if contain then
        MulMono(iw, Min(across, down), across);
        MulMono(ih, Min(across, down), down);
        Min(across, down)
      else
        MulMono(iw, across, Max(across, down));
        MulMono(ih, down, Max(across, down));
        Max(across, down)
    }
  }

  lemma MulMono(a: real, b: real, c: real)
    requires a >= 0.0 && b <= c
    ensures a * b <= a * c
  {
  }

  // -------------------------------------------------------------- one axis

  /** Near and far edge of an image of extent `w` centred at (50 + x)% of a frame of extent `f`. */
  function NearEdge(f: real, w: real, x: real): real {
    (50.0 + x) / 100.0 * f - w / 2.0
  }

  function FarEdge(f: real, w: real, x: real): real {
    (50.0 + x) / 100.0 * f + w / 2.0
  }

  predicate GapFree(f: real, w: real, x: real) {
    NearEdge(f, w, x) <= 0.0 && FarEdge(f, w, x) >= f
  }

  /** Half the overflow past the frame edge, in percent of the frame. */
  function Range(f: real, w: real): (m: real)
    requires f > 0.0
    ensures m >= 0.0
  {
    Max(0.0, (w / f - 1.0) * 50.0)
  }

  function ClampTo(m: real, x: real): (r: real)
    requires m >= 0.0
    ensures -m <= r <= m
    ensures -m <= x <= m ==> r == x
  {
    Max(-m, Min(m, x))
  }

  /** A scale keeps its value within the bounds, and takes the nearer bound beyond them. */
  function Bounded(s: real): real {
    if s < 1.0 then 1.0 else if s > 5.0 then 5.0 else s
  }

  lemma ScaleIsNearest(s: real)
    ensures ClampS(s) == Bounded(s)
  {
  }

  /** Clamping moves an offset no farther than it must: no allowed offset is nearer. */
  lemma ClampMovesLeast(m: real, x: real, y: real)
    requires m >= 0.0 && -m <= y <= m
    ensures Distance(ClampTo(m, x), x) <= Distance(y, x)
  {
  }

  function Distance(a: real, b: real): real {
    if a < b then b - a else a - b
  }

  lemma EdgesInPercent(f: real, w: real, x: real)
    requires f > 0.0
    ensures NearEdge(f, w, x) == f / 100.0 * (x - (w / f - 1.0) * 50.0)
    ensures FarEdge(f, w, x) - f == f / 100.0 * (x + (w / f - 1.0) * 50.0)
  {
    var q := w / f;
    assert f * q == w;
    assert f / 100.0 * (x - (q - 1.0) * 50.0) == f / 100.0 * x - f * q / 2.0 + f / 2.0;
    assert f / 100.0 * (x + (q - 1.0) * 50.0) == f / 100.0 * x + f * q / 2.0 - f / 2.0;
  }

  lemma Sign(a: real, b: real)
    requires a > 0.0
    ensures a * b <= 0.0 <==> b <= 0.0
    ensures a * b >= 0.0 <==> b >= 0.0
  {
  }

  /** An axis shows no gap exactly when the offset is within half the overflow. */
  lemma GapFreeExactly(f: real, w: real, x: real)
    requires f > 0.0
    ensures GapFree(f, w, x) <==> -((w / f - 1.0) * 50.0) <= x <= (w / f - 1.0) * 50.0
  {
    EdgesInPercent(f, w, x);
    Sign(f / 100.0, x - (w / f - 1.0) * 50.0);
    Sign(f / 100.0, x + (w / f - 1.0) * 50.0);
  }

  /** After clamping, an axis is gap-free, or the image is shorter than the frame and centred. */
  lemma ClampedAxis(f: real, w: real, x: real)
    requires f > 0.0
    ensures var x' := ClampTo(Range(f, w), x);
            if w >= f then GapFree(f, w, x') else x' == 0.0
  {
    GapFreeExactly(f, w, ClampTo(Range(f, w), x));
    Ratio(f, w);
  }

  lemma Ratio(f: real, w: real)
    requires f > 0.0
    ensures w >= f <==> w / f >= 1.0
  {
    var q := w / f;
    assert f * (q - 1.0) == w - f;
    Sign(f, q - 1.0);
  }

  // ------------------------------------------------------------ clamp view

  function Width(g: Geometry, s: real): real
    requires g.Valid()
  {
    g.iw * g.Base() * s
  }

  function Height(g: Geometry, s: real): real
    requires g.Valid()
  {
    g.ih * g.Base() * s
  }

  /** `_clampView`; without a usable geometry the view is left alone. */
  function ClampView(g: Geometry, v: View): (r: View)
    ensures r.s == v.s
  {
    if !g.Valid() then v
    else View(v.s, ClampTo(Range(g.fw, Width(g, v.s)), v.x), ClampTo(Range(g.fh, Height(g, v.s)), v.y))
  }

  /**
   At scale 1 the image fits: a contain image lies within the frame and a cover image
   fills it, and either has exactly the frame's extent on one axis.
   */
  lemma FitsExactly(g: Geometry)
    requires g.Valid()
    ensures Width(g, 1.0) == g.fw || Height(g, 1.0) == g.fh
    ensures g.contain ==> Width(g, 1.0) <= g.fw && Height(g, 1.0) <= g.fh
    ensures !g.contain ==> Width(g, 1.0) >= g.fw && Height(g, 1.0) >= g.fh
  {
    assert g.iw * (g.fw / g.iw) == g.fw && g.ih * (g.fh / g.ih) == g.fh;
  }

  /** The view that clamping gives is the nearest, on each axis, of all that the frame allows. */
  lemma ClampedViewIsNearest(g: Geometry, v: View, y: real)
    requires g.Valid()
    ensures GapFree(g.fw, Width(g, v.s), y) ==> Distance(ClampView(g, v).x, v.x) <= Distance(y, v.x)
    ensures GapFree(g.fh, Height(g, v.s), y) ==> Distance(ClampView(g, v).y, v.y) <= Distance(y, v.y)
  {
    GapFreeExactly(g.fw, Width(g, v.s), y);
    GapFreeExactly(g.fh, Height(g, v.s), y);
    if GapFree(g.fw, Width(g, v.s), y) {
      ClampMovesLeast(Range(g.fw, Width(g, v.s)), v.x, y);
    }
    if GapFree(g.fh, Height(g, v.s), y) {
      ClampMovesLeast(Range(g.fh, Height(g, v.s)), v.y, y);
    }
  }

  /** A cover image leaves no gap on either axis. */
  lemma CoverHasNoGap(g: Geometry, v: View)
    requires g.Valid() && !g.contain && v.s >= 1.0
    ensures var c := ClampView(g, v);
            GapFree(g.fw, Width(g, c.s), c.x) && GapFree(g.fh, Height(g, c.s), c.y)
  {
    ClampedAxis(g.fw, Width(g, v.s), v.x);
    ClampedAxis(g.fh, Height(g, v.s), v.y);
    MulMono(g.iw * g.Base(), 1.0, v.s);
    MulMono(g.ih * g.Base(), 1.0, v.s);
  }

  /** A contain image is, per axis, gap-free or centred. */
  lemma ContainIsCentredOrGapFree(g: Geometry, v: View)
    requires g.Valid()
    ensures var c := ClampView(g, v);
            && (GapFree(g.fw, Width(g, c.s), c.x) || c.x == 0.0)
            && (GapFree(g.fh, Height(g, c.s), c.y) || c.y == 0.0)
  {
    ClampedAxis(g.fw, Width(g, v.s), v.x);
    ClampedAxis(g.fh, Height(g, v.s), v.y);
  }

  /** Clamping a second time changes nothing. */
  lemma ClampIdempotent(g: Geometry, v: View)
    ensures ClampView(g, ClampView(g, v)) == ClampView(g, v)
  {
  }

  // -------------------------------------------------------------- gestures

  function Panned(start: View, dx: real, dy: real): View {
    View(start.s, start.x + dx * 100.0, start.y + dy * 100.0)
  }

  /** Before clamping, a pan moves the image with the pointer: both edges, on both axes, by as much. */
  lemma PanFollowsPointer(g: Geometry, v: View, dx: real, dy: real)
    requires g.Valid()
    ensures var p := Panned(v, dx, dy);
            && p.s == v.s
            && NearEdge(g.fw, Width(g, p.s), p.x) == NearEdge(g.fw, Width(g, v.s), v.x) + dx * g.fw
            && NearEdge(g.fh, Height(g, p.s), p.y) == NearEdge(g.fh, Height(g, v.s), v.y) + dy * g.fh
  {
    Shift(g.fw, v.x, dx);
    Shift(g.fh, v.y, dy);
  }

  lemma Shift(f: real, x: real, d: real)
    ensures (50.0 + (x + d * 100.0)) / 100.0 * f == (50.0 + x) / 100.0 * f + d * f
  {
  }

  function ZoomScale(s: real, factor: real): real {
    ClampS(s * factor)
  }

  function ZoomOffset(c: real, x: real, k: real): real {
    c * (1.0 - k) + x * k
  }

  /** Wheel zoom by `factor` about the cursor (cx, cy), before clamping. */
  function Zoomed(v: View, factor: real, cx: real, cy: real): View
    requires v.s > 0.0
  {
    var next := ZoomScale(v.s, factor);
    if next == v.s then v
    else View(next, ZoomOffset(cx, v.x, next / v.s), ZoomOffset(cy, v.y, next / v.s))
  }

  /** A wheel step multiplies the scale, within its bounds. */
  lemma ZoomScalesExactly(v: View, factor: real, cx: real, cy: real)
    requires v.s > 0.0
    ensures Zoomed(v, factor, cx, cy).s == Bounded(v.s * factor)
  {
    ScaleIsNearest(v.s * factor);
  }

  /** The image point under the cursor, in units of the image at scale 1, stays put. */
  lemma ZoomFixesCursor(v: View, factor: real, cx: real, cy: real)
    requires v.s > 0.0
    ensures var z := Zoomed(v, factor, cx, cy);
            && (cx - z.x) / z.s == (cx - v.x) / v.s
            && (cy - z.y) / z.s == (cy - v.y) / v.s
  {
    var z := Zoomed(v, factor, cx, cy);
    if z.s != v.s {
      var k := z.s / v.s;
      ScaledOffset(cx, v.x, z.x, k, v.s, z.s);
      ScaledOffset(cy, v.y, z.y, k, v.s, z.s);
    }
  }

  lemma ScaledOffset(c: real, x: real, x': real, k: real, s: real, s': real)
    requires s > 0.0 && s' > 0.0 && k == s' / s
    requires x' == c * (1.0 - k) + x * k
    ensures (c - x') / s' == (c - x) / s
  {
    assert k * s == s';
    assert c - x' == k * (c - x);
    var q := (c - x) / s;
    assert q * s == c - x;
    assert c - x' == k * (q * s) == q * (k * s) == q * s';
  }

  /** Position along one axis of the corner opposite the dragged one; `dir` is 1 or -1. */
  function Anchor(f: real, w: real, x: real, dir: real): real {
    (50.0 + x) / 100.0 * f - dir * w / 2.0
  }

  /** New offset on one axis: the anchor plus half the projected diagonal. */
  function ResizedOffset(f: real, w0: real, x0: real, dir: real, diag0: real, d: real): real
    requires f > 0.0 && diag0 > 0.0
  {
    var o := (50.0 + x0) / 100.0 * f - dir * w0 / 2.0;
    var u := dir * w0 / diag0;
    (o + u * d / 2.0) / f * 100.0 - 50.0
  }

  /** The view at scale `s`, resized from `v` about the corner opposite (dx, dy). */
  function ResizedTo(g: Geometry, v: View, dx: real, dy: real, diag0: real, s: real): View
    requires g.Valid() && v.s > 0.0 && diag0 > 0.0
  {
    var d := diag0 * s / v.s;
    View(s, ResizedOffset(g.fw, Width(g, v.s), v.x, dx, diag0, d),
            ResizedOffset(g.fh, Height(g, v.s), v.y, dy, diag0, d))
  }

  /** One axis of the pointer's offset from the anchor `o`, projected on the diagonal. */
  function Leg(p: real, o: real, w0: real, dir: real, diag0: real): real
    requires diag0 > 0.0
  {
    (p - o) * (dir * w0 / diag0)
  }

  function Projection(g: Geometry, v: View, dx: real, dy: real, diag0: real, px: real, py: real): real
    requires g.Valid() && diag0 > 0.0
  {
    var w0 := Width(g, v.s);
    var h0 := Height(g, v.s);
    Leg(px, Anchor(g.fw, w0, v.x, dx), w0, dx, diag0) + Leg(py, Anchor(g.fh, h0, v.y, dy), h0, dy, diag0)
  }

  function ResizeScale(s0: real, proj: real, diag0: real): real
    requires diag0 > 0.0
  {
    ClampS(s0 * proj / diag0)
  }

  /**
   Corner resize before clamping, for a pointer at (px, py) from the frame's origin.
   `diag0` is the length of the image's diagonal when the drag starts.
   */
  function Resized(g: Geometry, v: View, dx: real, dy: real, diag0: real, px: real, py: real): (r: View)
    requires g.Valid() && v.s > 0.0 && diag0 > 0.0
    ensures 1.0 <= r.s <= S_MAX
  {
    ResizedTo(g, v, dx, dy, diag0, ResizeScale(v.s, Projection(g, v, dx, dy, diag0, px, py), diag0))
  }

  /** On one axis, growing the extent in step with the diagonal keeps the anchor. */
  lemma AnchorStays(f: real, w0: real, w1: real, x0: real, dir: real, diag0: real, d: real)
    requires f > 0.0 && diag0 > 0.0 && w0 * d == w1 * diag0
    ensures Anchor(f, w1, ResizedOffset(f, w0, x0, dir, diag0, d), dir) == Anchor(f, w0, x0, dir)
  {
    var o := Anchor(f, w0, x0, dir);
    var u := dir * w0 / diag0;
    assert u * diag0 == dir * w0;
    assert u * d == dir * w1 by {
      assert (u * d) * diag0 == (u * diag0) * d == dir * (w0 * d) == (dir * w1) * diag0;
      CancelRight(u * d, dir * w1, diag0);
    }
    var c := o + u * d / 2.0;
    var x1 := c / f * 100.0 - 50.0;
    assert (50.0 + x1) / 100.0 == c / f;
    assert c / f * f == c;
  }

  lemma CancelRight(a: real, b: real, c: real)
    requires c > 0.0 && a * c == b * c
    ensures a == b
  {
    assert (a - b) * c == 0.0;
  }

  lemma ScaleTogether(b: real, s0: real, s: real, diag0: real, d: real)
    requires s0 > 0.0 && d == diag0 * s / s0
    ensures (b * s0) * d == (b * s) * diag0
  {
    assert d * s0 == diag0 * s;
    assert (b * s0) * d == b * (d * s0) == b * (diag0 * s) == (b * s) * diag0;
  }

  /** Corner resize fixes the opposite corner, whatever the pointer does. */
  lemma ResizeFixesOppositeCorner(g: Geometry, v: View, dx: real, dy: real, diag0: real, px: real, py: real)
    requires g.Valid() && v.s > 0.0 && diag0 > 0.0
    ensures var r := Resized(g, v, dx, dy, diag0, px, py);
            && Anchor(g.fw, Width(g, r.s), r.x, dx) == Anchor(g.fw, Width(g, v.s), v.x, dx)
            && Anchor(g.fh, Height(g, r.s), r.y, dy) == Anchor(g.fh, Height(g, v.s), v.y, dy)
  {
    AnyScaleFixesCorner(g, v, dx, dy, diag0, Resized(g, v, dx, dy, diag0, px, py).s);
  }

  lemma AnyScaleFixesCorner(g: Geometry, v: View, dx: real, dy: real, diag0: real, s: real)
    requires g.Valid() && v.s > 0.0 && diag0 > 0.0
    ensures var r := ResizedTo(g, v, dx, dy, diag0, s);
            && Anchor(g.fw, Width(g, s), r.x, dx) == Anchor(g.fw, Width(g, v.s), v.x, dx)
            && Anchor(g.fh, Height(g, s), r.y, dy) == Anchor(g.fh, Height(g, v.s), v.y, dy)
  {
    var d := diag0 * s / v.s;
    ScaleTogether(g.iw * g.Base(), v.s, s, diag0, d);
    ScaleTogether(g.ih * g.Base(), v.s, s, diag0, d);
    AnchorStays(g.fw, Width(g, v.s), Width(g, s), v.x, dx, diag0, d);
    AnchorStays(g.fh, Height(g, v.s), Height(g, s), v.y, dy, diag0, d);
  }

  /** The pointer is `k` diagonals from the fixed corner along the diagonal (w, h), and `aside` of them beside it. */
  predicate PointerAt(px: real, py: real, ox: real, oy: real, w: real, h: real, k: real, aside: real) {
    px - ox == k * w - aside * h && py - oy == k * h + aside * w
  }

  /**
   A drag asks for the scale of the pointer's projection on the image's diagonal: `k` times
   the starting scale when the pointer is `k` diagonals from the fixed corner, however far
   it is aside, within the bounds. On the dragged corner itself that is the scale the
   drag started from. (w, h) is the diagonal, from the fixed corner to the dragged one.
   */
  lemma ResizeFollowsDiagonal(g: Geometry, v: View, dx: real, dy: real, w: real, h: real, diag0: real,
                              px: real, py: real, k: real, aside: real)
    requires g.Valid() && v.s > 0.0 && diag0 > 0.0
    requires w == dx * Width(g, v.s) && h == dy * Height(g, v.s) && diag0 * diag0 == w * w + h * h
    requires PointerAt(px, py, Anchor(g.fw, Width(g, v.s), v.x, dx), Anchor(g.fh, Height(g, v.s), v.y, dy),
                       w, h, k, aside)
    ensures Resized(g, v, dx, dy, diag0, px, py).s == Bounded(v.s * k)
  {
    var w0, h0 := Width(g, v.s), Height(g, v.s);
    LegsAre(px, py, Anchor(g.fw, w0, v.x, dx), Anchor(g.fh, h0, v.y, dy), w0, h0, dx, dy, w, h, diag0, k, aside);
    ResizeAtProjection(g, v, dx, dy, diag0, px, py, k);
  }

  lemma ResizeAtProjection(g: Geometry, v: View, dx: real, dy: real, diag0: real, px: real, py: real, k: real)
    requires g.Valid() && v.s > 0.0 && diag0 > 0.0
    requires Projection(g, v, dx, dy, diag0, px, py) == k * diag0
    ensures Resized(g, v, dx, dy, diag0, px, py).s == Bounded(v.s * k)
  {
    ScaleOf(v.s, Projection(g, v, dx, dy, diag0, px, py), k, diag0);
    ResizedScale(g, v, dx, dy, diag0, px, py);
  }

  lemma LegsAre(px: real, py: real, ox: real, oy: real, w0: real, h0: real, dx: real, dy: real,
                w: real, h: real, diag0: real, k: real, aside: real)
    requires diag0 > 0.0 && w == dx * w0 && h == dy * h0 && diag0 * diag0 == w * w + h * h
    requires PointerAt(px, py, ox, oy, w, h, k, aside)
    ensures Leg(px, ox, w0, dx, diag0) + Leg(py, oy, h0, dy, diag0) == k * diag0
  {
    PlaneProjection(px - ox, py - oy, w, h, diag0, k, aside);
    TwoLegs(px, py, ox, oy, w0, h0, dx, dy, w, h, diag0);
  }

  lemma TwoLegs(px: real, py: real, ox: real, oy: real, w0: real, h0: real, dx: real, dy: real,
                w: real, h: real, diag0: real)
    requires diag0 > 0.0 && w == dx * w0 && h == dy * h0
    ensures Leg(px, ox, w0, dx, diag0) + Leg(py, oy, h0, dy, diag0) ==
            (px - ox) * (w / diag0) + (py - oy) * (h / diag0)
  {
    LegIs(px, ox, w0, dx, diag0, w);
    LegIs(py, oy, h0, dy, diag0, h);
  }

  lemma LegIs(p: real, o: real, w0: real, dir: real, diag0: real, w: real)
    requires diag0 > 0.0 && w == dir * w0
    ensures Leg(p, o, w0, dir, diag0) == (p - o) * (w / diag0)
  {
  }

  lemma ResizedScale(g: Geometry, v: View, dx: real, dy: real, diag0: real, px: real, py: real)
    requires g.Valid() && v.s > 0.0 && diag0 > 0.0
    ensures Resized(g, v, dx, dy, diag0, px, py).s ==
            ResizeScale(v.s, Projection(g, v, dx, dy, diag0, px, py), diag0)
  {
  }

  /** The projection on the direction of (w, h), whose length is `diag`. */
  lemma PlaneProjection(x: real, y: real, w: real, h: real, diag: real, k: real, aside: real)
    requires diag > 0.0 && diag * diag == w * w + h * h
    requires x == k * w - aside * h && y == k * h + aside * w
    ensures x * (w / diag) + y * (h / diag) == k * diag
  {
    var u, t := w / diag, h / diag;
    assert u * diag == w && t * diag == h;
    var n := x * u + y * t;
    assert n * diag == x * w + y * h by {
      Spread(x, u, y, t, diag, w, h);
    }
    assert x * w + y * h == k * (w * w + h * h) by {
      Cross(k, aside, w, h);
    }
    assert k * (diag * diag) == (k * diag) * diag;
    CancelRight(n, k * diag, diag);
  }

  lemma Spread(x: real, u: real, y: real, t: real, d: real, w: real, h: real)
    requires u * d == w && t * d == h
    ensures (x * u + y * t) * d == x * w + y * h
  {
    assert (x * u) * d == x * (u * d) && (y * t) * d == y * (t * d);
  }

  lemma Cross(k: real, aside: real, w: real, h: real)
    ensures (k * w - aside * h) * w + (k * h + aside * w) * h == k * (w * w + h * h)
  {
  }

  lemma ScaleOf(s: real, proj: real, k: real, diag0: real)
    requires diag0 > 0.0 && proj == k * diag0
    ensures ResizeScale(s, proj, diag0) == Bounded(s * k)
  {
    Regroup(s, k, diag0);
    Cancelled(s * proj, s * k, diag0);
    assert ResizeScale(s, proj, diag0) == ClampS(s * k);
    ScaleIsNearest(s * k);
  }

  lemma Regroup(x: real, y: real, z: real)
    ensures x * (y * z) == (x * y) * z
  {
  }

  lemma Cancelled(x: real, y: real, d: real)
    requires d > 0.0 && x == y * d
    ensures x / d == y
  {
  }

  // ---------------------------------------------------------- the element

  /** The `_view` field, as the gestures update it. */
  class ReframedView {
    var view: View

    predicate Valid()
      reads this
    {
      1.0 <= view.s <= S_MAX
    }

    /** No gap where the fit promises none, and an axis is otherwise centred. */
    ghost predicate Framed(g: Geometry)
      reads this
    {
      g.Valid() ==>
        && (GapFree(g.fw, Width(g, view.s), view.x) || (g.contain && view.x == 0.0))
        && (GapFree(g.fh, Height(g, view.s), view.y) || (g.contain && view.y == 0.0))
    }

    method Clamp(g: Geometry)
      requires Valid()
      modifies this
      ensures view == ClampView(g, old(view)) && Valid() && Framed(g)
    {
      if g.Valid() {
        if g.contain {
          ContainIsCentredOrGapFree(g, view);
        } else {
          CoverHasNoGap(g, view);
        }
        var mx := Range(g.fw, Width(g, view.s));
        var my := Range(g.fh, Height(g, view.s));
        view := View(view.s, ClampTo(mx, view.x), ClampTo(my, view.y));
      }
    }

    method Pan(g: Geometry, start: View, dx: real, dy: real)
      requires Valid() && start.s == view.s
      modifies this
      ensures view == ClampView(g, Panned(start, dx, dy)) && Valid() && Framed(g)
    {
      view := View(view.s, start.x + dx * 100.0, start.y + dy * 100.0);
      Clamp(g);
    }

    method Wheel(g: Geometry, factor: real, cx: real, cy: real)
      requires Valid() && Framed(g)
      modifies this
      ensures Valid() && Framed(g)
      ensures view == if ZoomScale(old(view.s), factor) == old(view.s) then old(view)
                      else ClampView(g, Zoomed(old(view), factor, cx, cy))
    {
      var prev := view.s;
      var next := ZoomScale(prev, factor);
      if next == prev {
        return;
      }
      var k := next / prev;
      view := View(next, ZoomOffset(cx, view.x, k), ZoomOffset(cy, view.y, k));
      Clamp(g);
    }

    method Resize(g: Geometry, start: View, dx: real, dy: real, diag0: real, px: real, py: real)
      requires Valid() && g.Valid() && start.s > 0.0 && diag0 > 0.0
      modifies this
      ensures view == ClampView(g, Resized(g, start, dx, dy, diag0, px, py))
      ensures Valid() && Framed(g)
    {
      var s := ResizeScale(start.s, Projection(g, start, dx, dy, diag0, px, py), diag0);
      view := ResizedTo(g, start, dx, dy, diag0, s);
      Clamp(g);
    }
  }
}
