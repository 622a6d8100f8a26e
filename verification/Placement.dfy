/**
 Placing a window on the displays that exist now (agent/crates/sr-agent/src/restore/place.rs).
 Coordinates are unbounded in the specification; the methods compute in 32 bits, and verifying
 them shows that no step overflows on 16-bit coordinates. Scaling is over the reals with every
 product and quotient rounded, by any rounding as accurate as that of 64-bit floating point.
 */
module Placement {
  import opened Doubles
  import opened Options

  datatype Rect = Rect(x: int, y: int, w: int, h: int)

  datatype Display = Display(key: string, isPrimary: bool, bounds: Rect, work: Rect, dpi: nat)

  datatype Stored = Stored(rect: Rect, displayKey: Option<string>, dpi: nat)

  const MIN_VISIBLE_W := 120
  const MIN_VISIBLE_H := 40
  const MIN_VISIBLE := MIN_VISIBLE_W * MIN_VISIBLE_H

  function Min(a: int, b: int): int { if a <= b then a else b }
  function Max(a: int, b: int): int { if a >= b then a else b }

  /** Integer division by two rounds toward zero. */
  function Half(n: int): int { if n < 0 then -(-n / 2) else n / 2 }

  // ----- Visibility -----

  /** How much of the rectangle one display shows. */
  function Overlap(r: Rect, d: Display): int {
    var ox := Min(r.x + r.w, d.bounds.x + d.bounds.w) - Max(r.x, d.bounds.x);
    var oy := Min(r.y + r.h, d.bounds.y + d.bounds.h) - Max(r.y, d.bounds.y);
    if ox > 0 && oy > 0 then Min(ox, r.w) * Min(oy, r.h) else 0
  }

  predicate Holds(r: Rect, x: int, y: int) { r.x <= x < r.x + r.w && r.y <= y < r.y + r.h }

  /** It is the area of what the rectangle and the display have in common. */
  lemma OverlapIs(r: Rect, d: Display) returns (common: Rect)
    ensures forall x, y :: Holds(common, x, y) <==> Holds(r, x, y) && Holds(d.bounds, x, y)
    ensures common.w >= 0 && common.h >= 0 && Overlap(r, d) == common.w * common.h
  {
    var x, y := Max(r.x, d.bounds.x), Max(r.y, d.bounds.y);
    var w, h := Min(r.x + r.w, d.bounds.x + d.bounds.w) - x, Min(r.y + r.h, d.bounds.y + d.bounds.h) - y;
    common := if w > 0 && h > 0 then Rect(x, y, w, h) else Rect(0, 0, 0, 0);
  }

  /** How much of the rectangle the display that shows most of it shows. */
  function VisibleArea(r: Rect, displays: seq<Display>): (best: int)
    ensures best >= 0
    ensures forall d :: d in displays ==> Overlap(r, d) <= best
    ensures best == 0 || exists d :: d in displays && Overlap(r, d) == best
  {
    if displays == [] then 0
    else
      var last := displays[|displays|-1];
      assert displays == displays[..|displays|-1] + [last];
      Max(VisibleArea(r, displays[..|displays|-1]), Overlap(r, last))
  }

  predicate Reachable(r: Rect, displays: seq<Display>) { VisibleArea(r, displays) >= MIN_VISIBLE }

  // ----- Choosing displays -----

  function Area(r: Rect): int { r.w * r.h }

  /** `max_by_key` on the work area: the last of the largest. */
  function Biggest(displays: seq<Display>): (d: Display)
    requires displays != []
    ensures d in displays && forall e :: e in displays ==> Area(e.work) <= Area(d.work)
  {
    var last := displays[|displays|-1];
    assert displays == displays[..|displays|-1] + [last];
    if |displays| == 1 then last
    else
      var best := Biggest(displays[..|displays|-1]);
      if Area(best.work) <= Area(last.work) then last else best
  }

  function Distance(r: Rect, d: Display): int {
    var dx := d.bounds.x + Half(d.bounds.w) - (r.x + Half(r.w));
    var dy := d.bounds.y + Half(d.bounds.h) - (r.y + Half(r.h));
    dx * dx + dy * dy
  }

  /** The middle of a stretch, to within half a unit. */
  predicate MiddleOf(c: int, x: int, n: int) {
    if n >= 0 then 0 <= 2 * x + n - 2 * c <= 1 else -1 <= 2 * x + n - 2 * c <= 0
  }

  lemma DistanceIs(r: Rect, d: Display) returns (cx: int, cy: int, dx: int, dy: int)
    ensures MiddleOf(cx, r.x, r.w) && MiddleOf(cy, r.y, r.h)
    ensures MiddleOf(dx, d.bounds.x, d.bounds.w) && MiddleOf(dy, d.bounds.y, d.bounds.h)
    ensures Distance(r, d) == (dx - cx) * (dx - cx) + (dy - cy) * (dy - cy)
  {
    cx, cy := r.x + Half(r.w), r.y + Half(r.h);
    dx, dy := d.bounds.x + Half(d.bounds.w), d.bounds.y + Half(d.bounds.h);
  }

  /** `min_by_key` on the squared distance of centres: the first of the nearest. */
  function Nearest(r: Rect, displays: seq<Display>): (d: Display)
    requires displays != []
    ensures d in displays && forall e :: e in displays ==> Distance(r, d) <= Distance(r, e)
  {
    var last := displays[|displays|-1];
    assert displays == displays[..|displays|-1] + [last];
    if |displays| == 1 then last
    else
      var best := Nearest(r, displays[..|displays|-1]);
      if Distance(r, last) < Distance(r, best) then last else best
  }

  // ----- Clamping -----

  function Shrunk(r: Rect, to: Rect): Rect { r.(w := Min(r.w, to.w), h := Min(r.h, to.h)) }

  /** `clamp` to an interval that is never empty. */
  function Between(n: int, low: int, high: int): int { if n < low then low else if n > high then high else n }

  function Pulled(r: Rect, work: Rect): Rect {
    r.(x := Between(r.x, work.x, Max(work.x + work.w - MIN_VISIBLE_W, work.x)),
       y := Between(r.y, work.y, Max(work.y + work.h - MIN_VISIBLE_H, work.y)))
  }

  function Centred(r: Rect, work: Rect): Rect {
    r.(x := work.x + Max(work.w - r.w, 0) / 2, y := work.y + Max(work.h - r.h, 0) / 2)
  }

  function Clamp(r: Rect, displays: seq<Display>): Rect {
    if displays == [] then r
    else
      var shrunk := Shrunk(r, Biggest(displays).work);
      if Reachable(shrunk, displays) then shrunk
      else
        var work := Nearest(shrunk, displays).work;
        var pulled := Pulled(shrunk, work);
        if Reachable(pulled, displays) then pulled else Centred(pulled, work)
  }

  predicate BigEnough(r: Rect) { r.w >= MIN_VISIBLE_W && r.h >= MIN_VISIBLE_H }

  predicate Inside(inner: Rect, outer: Rect) {
    && outer.x <= inner.x && inner.x + inner.w <= outer.x + outer.w
    && outer.y <= inner.y && inner.y + inner.h <= outer.y + outer.h
  }

  predicate Usable(displays: seq<Display>) {
    displays != [] && forall d :: d in displays ==> BigEnough(d.work) && Inside(d.work, d.bounds)
  }

  predicate Fits(r: Rect, displays: seq<Display>)
    requires displays != []
  {
    r.w <= Biggest(displays).work.w && r.h <= Biggest(displays).work.h
  }

  lemma AtLeast(a: int, b: int, c: int, d: int)
    requires a >= c >= 0 && b >= d >= 0
    ensures a * b >= c * d
  {
    assert a * b >= c * b >= c * d;
  }

  /** A rectangle whose corner is kept a title bar's reach inside a work area can be grabbed there. */
  lemma PulledIsReachable(r: Rect, d: Display, displays: seq<Display>)
    requires d in displays && BigEnough(r) && BigEnough(d.work) && Inside(d.work, d.bounds)
    ensures Reachable(Pulled(r, d.work), displays)
  {
    var p := Pulled(r, d.work);
    var ox := Min(p.x + p.w, d.bounds.x + d.bounds.w) - Max(p.x, d.bounds.x);
    var oy := Min(p.y + p.h, d.bounds.y + d.bounds.h) - Max(p.y, d.bounds.y);
    assert ox >= MIN_VISIBLE_W && oy >= MIN_VISIBLE_H;
    AtLeast(Min(ox, p.w), Min(oy, p.h), MIN_VISIBLE_W, MIN_VISIBLE_H);
    assert Overlap(p, d) >= MIN_VISIBLE;
  }

  /**
   Whatever the layout has become, the window ends up where it can be grabbed, no larger than
   the largest work area.
   */
  lemma ClampMakesReachable(r: Rect, displays: seq<Display>)
    requires Usable(displays) && BigEnough(r)
    ensures Reachable(Clamp(r, displays), displays) && Fits(Clamp(r, displays), displays)
  {
    var shrunk := Shrunk(r, Biggest(displays).work);
    if !Reachable(shrunk, displays) {
      PulledIsReachable(shrunk, Nearest(shrunk, displays), displays);
    }
  }

  /** A window is left alone exactly when it fits and can be grabbed where it is. */
  lemma ClampLeavesReachable(r: Rect, displays: seq<Display>)
    requires displays != []
    ensures Fits(r, displays) && Reachable(r, displays) ==> Clamp(r, displays) == r
    ensures Usable(displays) && BigEnough(r) && Clamp(r, displays) == r ==> Fits(r, displays) && Reachable(r, displays)
  {
    if Usable(displays) && BigEnough(r) { ClampMakesReachable(r, displays); }
  }

  lemma ClampTwice(r: Rect, displays: seq<Display>)
    requires Usable(displays) && BigEnough(r)
    ensures Clamp(Clamp(r, displays), displays) == Clamp(r, displays)
  {
    ClampMakesReachable(r, displays);
    ClampLeavesReachable(Clamp(r, displays), displays);
  }

  /** A corner from which a title bar's reach of the work area lies to the right and below, if it holds one. */
  predicate Grabbable(r: Rect, work: Rect) {
    work.x <= r.x <= Max(work.x, work.x + work.w - 120) && work.y <= r.y <= Max(work.y, work.y + work.h - 40)
  }

  function Abs(n: int): nat { if n < 0 then -n else n }

  lemma PulledIs(r: Rect, work: Rect, other: Rect)
    requires Grabbable(other, work)
    ensures var p := Pulled(r, work);
      && Grabbable(p, work) && p.w == r.w && p.h == r.h
      && Abs(p.x - r.x) <= Abs(other.x - r.x) && Abs(p.y - r.y) <= Abs(other.y - r.y)
  {
  }

  /**
   A window takes the smaller of its own size and that of the largest work area; is then left
   where it is if it can be grabbed there; and otherwise is moved, along each axis, no further
   than it must be to be grabbed in the work area of the nearest display.
   */
  lemma ClampMovesLeast(r: Rect, displays: seq<Display>, other: Rect)
    requires Usable(displays) && BigEnough(r)
    ensures var out, big := Clamp(r, displays), Biggest(displays).work; var fitted := r.(w := out.w, h := out.h);
      && out.w == (if r.w <= big.w then r.w else big.w) && out.h == (if r.h <= big.h then r.h else big.h)
      && (Reachable(fitted, displays) ==> out == fitted)
      && (!Reachable(fitted, displays) ==>
            var work := Nearest(fitted, displays).work;
            && Grabbable(out, work)
            && (Grabbable(other, work) ==>
                  Abs(out.x - r.x) <= Abs(other.x - r.x) && Abs(out.y - r.y) <= Abs(other.y - r.y)))
  {
    var shrunk := Shrunk(r, Biggest(displays).work);
    SizeIsKept(r, displays);
    ClampCases(r, displays);
    if !Reachable(shrunk, displays) {
      var work := Nearest(shrunk, displays).work;
      PulledIs(shrunk, work, if Grabbable(other, work) then other else shrunk.(x := work.x, y := work.y));
    }
  }

  lemma ClampCases(r: Rect, displays: seq<Display>)
    requires Usable(displays) && BigEnough(r)
    ensures var shrunk := Shrunk(r, Biggest(displays).work);
      Clamp(r, displays)
      == if Reachable(shrunk, displays) then shrunk else Pulled(shrunk, Nearest(shrunk, displays).work)
  {
    var shrunk := Shrunk(r, Biggest(displays).work);
    PulledIsReachable(shrunk, Nearest(shrunk, displays), displays);
  }

  /** A rectangle with less area than a title bar's reach can be grabbed nowhere. */
  lemma TinyIsNotReachable(r: Rect, displays: seq<Display>)
    requires 0 <= r.w && 0 <= r.h && r.w * r.h < MIN_VISIBLE
    ensures !Reachable(r, displays)
  {
    forall d | d in displays ensures Overlap(r, d) < MIN_VISIBLE {
      var ox := Min(r.x + r.w, d.bounds.x + d.bounds.w) - Max(r.x, d.bounds.x);
      var oy := Min(r.y + r.h, d.bounds.y + d.bounds.h) - Max(r.y, d.bounds.y);
      if ox > 0 && oy > 0 { AtLeast(r.w, r.h, Min(ox, r.w), Min(oy, r.h)); }
    }
  }

  /** Every work area lies within its display. */
  predicate WithinBounds(displays: seq<Display>) {
    forall d :: d in displays ==> 0 <= d.work.w && 0 <= d.work.h && Inside(d.work, d.bounds)
  }

  lemma AxisShows(x: int, n: int, workX: int, workN: int, boundsX: int, boundsN: int)
    requires 0 <= n && 0 <= workN && boundsX <= workX && workX + workN <= boundsX + boundsN
    requires x == workX + Max(workN - n, 0) / 2
    ensures Min(x + n, boundsX + boundsN) - Max(x, boundsX) >= Min(n, workN)
  {
  }

  lemma ShowsProduct(r: Rect, d: Display, a: int, b: int)
    requires 0 <= a <= r.w && 0 <= b <= r.h
    requires Min(r.x + r.w, d.bounds.x + d.bounds.w) - Max(r.x, d.bounds.x) >= a
    requires Min(r.y + r.h, d.bounds.y + d.bounds.h) - Max(r.y, d.bounds.y) >= b
    ensures Overlap(r, d) >= a * b
  {
    var ox := Min(r.x + r.w, d.bounds.x + d.bounds.w) - Max(r.x, d.bounds.x);
    var oy := Min(r.y + r.h, d.bounds.y + d.bounds.h) - Max(r.y, d.bounds.y);
    if ox > 0 && oy > 0 {
      AtLeast(Min(ox, r.w), Min(oy, r.h), a, b);
    } else {
      assert a == 0 || b == 0;
    }
  }

  /** Centred in a work area, a rectangle shows there as much of itself as the area can hold. */
  lemma CentredShows(r: Rect, d: Display, displays: seq<Display>)
    requires d in displays && 0 <= r.w && 0 <= r.h && 0 <= d.work.w && 0 <= d.work.h && Inside(d.work, d.bounds)
    ensures VisibleArea(Centred(r, d.work), displays) >= Min(r.w, d.work.w) * Min(r.h, d.work.h)
  {
    var c := Centred(r, d.work);
    AxisShows(c.x, c.w, d.work.x, d.work.w, d.bounds.x, d.bounds.w);
    AxisShows(c.y, c.h, d.work.y, d.work.h, d.bounds.y, d.bounds.h);
    ShowsProduct(c, d, Min(r.w, d.work.w), Min(r.h, d.work.h));
  }

  lemma ReachableIfHeld(r: Rect, displays: seq<Display>)
    requires displays != [] && WithinBounds(displays) && 0 <= r.w && 0 <= r.h
    requires var shrunk := Shrunk(r, Biggest(displays).work); var work := Nearest(shrunk, displays).work;
      Min(shrunk.w, work.w) * Min(shrunk.h, work.h) >= MIN_VISIBLE
    ensures Reachable(Clamp(r, displays), displays)
  {
    var shrunk := Shrunk(r, Biggest(displays).work);
    var d := Nearest(shrunk, displays);
    CentredShows(Pulled(shrunk, d.work), d, displays);
  }

  /**
   Exactly when clamping makes a window reachable, of whatever size: when it fits the work area
   of the nearest display, if and only if its area is a title bar's reach; when it does not, it
   needs that area, and it is enough that the part the work area can hold has it.
   */
  lemma ReachableExactly(r: Rect, displays: seq<Display>)
    requires displays != [] && WithinBounds(displays) && 0 <= r.w && 0 <= r.h
    ensures var shrunk := Shrunk(r, Biggest(displays).work); var work := Nearest(shrunk, displays).work;
      && (Reachable(Clamp(r, displays), displays) ==> Area(shrunk) >= MIN_VISIBLE)
      && (Min(shrunk.w, work.w) * Min(shrunk.h, work.h) >= MIN_VISIBLE ==> Reachable(Clamp(r, displays), displays))
      && (shrunk.w <= work.w && shrunk.h <= work.h
          ==> (Reachable(Clamp(r, displays), displays) <==> Area(shrunk) >= MIN_VISIBLE))
  {
    var shrunk := Shrunk(r, Biggest(displays).work);
    var work := Nearest(shrunk, displays).work;
    SizeIsKept(r, displays);
    if Area(shrunk) < MIN_VISIBLE { TinyIsNotReachable(Clamp(r, displays), displays); }
    if Min(shrunk.w, work.w) * Min(shrunk.h, work.h) >= MIN_VISIBLE { ReachableIfHeld(r, displays); }
  }

  lemma SizeIsKept(r: Rect, displays: seq<Display>)
    requires displays != []
    ensures var shrunk := Shrunk(r, Biggest(displays).work);
      Clamp(r, displays).w == shrunk.w && Clamp(r, displays).h == shrunk.h
  {
  }

  /** Ties: the nearest display is the first of its kind, the biggest the last. */
  lemma {:induction false} NearestIsFirst(r: Rect, displays: seq<Display>) returns (p: nat)
    requires displays != []
    ensures p < |displays| && displays[p] == Nearest(r, displays)
    ensures forall q :: 0 <= q < p ==> Distance(r, displays[q]) > Distance(r, displays[p])
  {
    var n := |displays| - 1;
    var init := displays[..n];
    if n == 0 {
      p := 0;
    } else if Distance(r, displays[n]) < Distance(r, Nearest(r, init)) {
      p := n;
      AllFarther(r, init, displays[n]);
      forall q | 0 <= q < n ensures Distance(r, displays[q]) > Distance(r, displays[n]) {
        assert displays[q] == init[q];
      }
    } else {
      p := NearestIsFirst(r, init);
      forall q | 0 <= q < p ensures Distance(r, displays[q]) > Distance(r, displays[p]) {
        assert displays[q] == init[q];
      }
    }
  }

  lemma AllFarther(r: Rect, displays: seq<Display>, last: Display)
    requires displays != [] && Distance(r, last) < Distance(r, Nearest(r, displays))
    ensures forall q :: 0 <= q < |displays| ==> Distance(r, displays[q]) > Distance(r, last)
  {
    forall q | 0 <= q < |displays| ensures Distance(r, displays[q]) > Distance(r, last) {
      assert displays[q] in displays;
    }
  }

  lemma {:induction false} BiggestIsLast(displays: seq<Display>) returns (p: nat)
    requires displays != []
    ensures p < |displays| && displays[p] == Biggest(displays)
    ensures forall q :: p < q < |displays| ==> Area(displays[q].work) < Area(displays[p].work)
  {
    var n := |displays| - 1;
    p := n;
    if n > 0 && !(Area(Biggest(displays[..n]).work) <= Area(displays[n].work)) {
      p := BiggestIsLast(displays[..n]);
    }
  }

  /** In the middle: as far from one side as from the other, or one unit nearer. */
  predicate Middle(r: Rect, within: Rect) {
    && 0 <= (within.x + within.w) - (r.x + r.w) - (r.x - within.x) <= 1
    && 0 <= (within.y + within.h) - (r.y + r.h) - (r.y - within.y) <= 1
  }

  /** A rectangle too small to be grabbed is centred in the work area of the nearest display it fits. */
  lemma TinyIsCentred(r: Rect, displays: seq<Display>)
    requires displays != [] && 0 <= r.w && 0 <= r.h && r.w * r.h < MIN_VISIBLE
    requires forall d :: d in displays ==> r.w <= d.work.w && r.h <= d.work.h
    ensures var out, work := Clamp(r, displays), Nearest(r, displays).work;
      Inside(out, work) && Middle(out, work) && out.w == r.w && out.h == r.h
  {
    var d := Nearest(r, displays);
    assert Shrunk(r, Biggest(displays).work) == r;
    TinyIsNotReachable(r, displays);
    TinyIsNotReachable(Pulled(r, d.work), displays);
  }

  // ----- In 32 bits -----

  newtype i32 = n: int | -0x8000_0000 <= n < 0x8000_0000
  newtype i64 = n: int | -0x8000_0000_0000_0000 <= n < 0x8000_0000_0000_0000

  datatype Rect32 = Rect32(x: i32, y: i32, w: i32, h: i32)

  datatype Display32 = Display32(key: string, isPrimary: bool, bounds: Rect32, work: Rect32, dpi: nat)

  function Wide(r: Rect32): Rect { Rect(r.x as int, r.y as int, r.w as int, r.h as int) }

  function WideDisplay(d: Display32): Display { Display(d.key, d.isPrimary, Wide(d.bounds), Wide(d.work), d.dpi) }

  function WideAll(ds: seq<Display32>): (r: seq<Display>)
    ensures |r| == |ds| && forall i :: 0 <= i < |ds| ==> r[i] == WideDisplay(ds[i])
  {
    seq(|ds|, i requires 0 <= i < |ds| => WideDisplay(ds[i]))
  }

  predicate Short(n: i32) { -0x8000 <= n < 0x8000 }

  predicate ShortRect(r: Rect32) { Short(r.x) && Short(r.y) && Short(r.w) && Short(r.h) }

  /** Positions within 16 bits; a position moved onto a display may reach one display further. */
  predicate ShortDisplays(ds: seq<Display32>) {
    forall d :: d in ds ==> ShortRect(d.bounds) && ShortRect(d.work) && d.work.w >= 0 && d.work.h >= 0
  }

  predicate NearlyShort(r: Rect32) {
    -0x10000 <= r.x < 0x10000 && -0x10000 <= r.y < 0x10000 && Short(r.w) && Short(r.h)
  }

  lemma Product(a: int, b: int)
    requires -0x8000 <= a < 0x8000 && -0x8000 <= b < 0x8000
    ensures -0x4000_0000 <= a * b <= 0x4000_0000
  {
    if a >= 0 && b >= 0 { AtLeast(0x8000, 0x8000, a, b); }
    if a >= 0 && b < 0 { AtLeast(0x8000, 0x8000, a, -b); assert a * b == -(a * -b); }
    if a < 0 && b >= 0 { AtLeast(0x8000, 0x8000, -a, b); assert a * b == -(-a * b); }
    if a < 0 && b < 0 { AtLeast(0x8000, 0x8000, -a, -b); assert a * b == -a * -b; }
  }

  method Overlap32(r: Rect32, d: Rect32, ghost display: Display) returns (area: i32)
    requires NearlyShort(r) && ShortRect(d) && display.bounds == Wide(d)
    ensures area as int == Max(0, Overlap(Wide(r), display))
  {
    var right := if r.x + r.w <= d.x + d.w then r.x + r.w else d.x + d.w;
    var bottom := if r.y + r.h <= d.y + d.h then r.y + r.h else d.y + d.h;
    var ox := right - (if r.x >= d.x then r.x else d.x);
    var oy := bottom - (if r.y >= d.y then r.y else d.y);
    if ox <= 0 || oy <= 0 { return 0; }
    var w := if ox <= r.w then ox else r.w;
    var h := if oy <= r.h then oy else r.h;
    Product(w as int, h as int);
    area := if w * h >= 0 then w * h else 0;
  }

  lemma VisibleAreaSnoc(r: Rect, displays: seq<Display>, i: nat)
    requires i < |displays|
    ensures VisibleArea(r, displays[..i+1]) == Max(VisibleArea(r, displays[..i]), Overlap(r, displays[i]))
  {
    assert displays[..i+1][..i] == displays[..i];
  }

  method VisibleArea32(r: Rect32, ds: seq<Display32>) returns (best: i32)
    requires NearlyShort(r) && ShortDisplays(ds)
    ensures best as int == VisibleArea(Wide(r), WideAll(ds))
  {
    best := 0;
    for i := 0 to |ds|
      invariant best as int == VisibleArea(Wide(r), WideAll(ds)[..i])
    {
      assert ds[i] in ds;
      VisibleAreaSnoc(Wide(r), WideAll(ds), i);
      var area := Overlap32(r, ds[i].bounds, WideAll(ds)[i]);
      if best < area { best := area; }
    }
    assert WideAll(ds)[..|ds|] == WideAll(ds);
  }

  method Area32(r: Rect32) returns (area: i64)
    requires ShortRect(r)
    ensures area as int == Area(Wide(r))
  {
    Product(r.w as int, r.h as int);
    area := r.w as i64 * r.h as i64;
  }

  lemma BiggestSnoc(displays: seq<Display>, i: nat)
    requires 0 < i < |displays|
    ensures var best := Biggest(displays[..i]);
      Biggest(displays[..i+1]) == if Area(best.work) <= Area(displays[i].work) then displays[i] else best
  {
    assert displays[..i+1][..i] == displays[..i];
  }

  method Biggest32(ds: seq<Display32>) returns (d: Display32)
    requires ds != [] && ShortDisplays(ds)
    ensures d in ds && WideDisplay(d) == Biggest(WideAll(ds))
  {
    d := ds[0];
    assert WideAll(ds)[..1] == [WideDisplay(ds[0])];
    for i := 1 to |ds|
      invariant d in ds && WideDisplay(d) == Biggest(WideAll(ds)[..i])
    {
      assert ds[i] in ds;
      BiggestSnoc(WideAll(ds), i);
      var was := Area32(d.work);
      var now := Area32(ds[i].work);
      if was <= now { d := ds[i]; }
    }
    assert WideAll(ds)[..|ds|] == WideAll(ds);
  }

  lemma Square(a: int)
    requires -0x40000 <= a <= 0x40000
    ensures 0 <= a * a <= 0x10_0000_0000
  {
    if a >= 0 { AtLeast(0x40000, 0x40000, a, a); } else { AtLeast(0x40000, 0x40000, -a, -a); assert a * a == -a * -a; }
  }

  method Half32(n: i32) returns (r: i32)
    ensures r as int == Half(n as int)
  {
    if n == -0x8000_0000 { return -0x4000_0000; }
    r := if n < 0 then -(-n / 2) else n / 2;
  }

  method Distance32(r: Rect32, d: Display32) returns (distance: i64)
    requires NearlyShort(r) && ShortRect(d.bounds)
    ensures distance as int == Distance(Wide(r), WideDisplay(d))
  {
    var rw := Half32(r.w);
    var rh := Half32(r.h);
    var dw := Half32(d.bounds.w);
    var dh := Half32(d.bounds.h);
    var cx, cy := r.x + rw, r.y + rh;
    var dx, dy := (d.bounds.x + dw - cx) as i64, (d.bounds.y + dh - cy) as i64;
    Square(dx as int);
    Square(dy as int);
    distance := dx * dx + dy * dy;
  }

  lemma NearestSnoc(r: Rect, displays: seq<Display>, i: nat)
    requires 0 < i < |displays|
    ensures var best := Nearest(r, displays[..i]);
      Nearest(r, displays[..i+1]) == if Distance(r, displays[i]) < Distance(r, best) then displays[i] else best
  {
    assert displays[..i+1][..i] == displays[..i];
  }

  method Nearest32(r: Rect32, ds: seq<Display32>) returns (d: Display32)
    requires ds != [] && NearlyShort(r) && ShortDisplays(ds)
    ensures d in ds && WideDisplay(d) == Nearest(Wide(r), WideAll(ds))
  {
    d := ds[0];
    assert WideAll(ds)[..1] == [WideDisplay(ds[0])];
    for i := 1 to |ds|
      invariant d in ds && WideDisplay(d) == Nearest(Wide(r), WideAll(ds)[..i])
    {
      assert ds[i] in ds;
      NearestSnoc(Wide(r), WideAll(ds), i);
      d := Nearer32(r, d, ds[i]);
    }
    assert WideAll(ds)[..|ds|] == WideAll(ds);
  }

  method Nearer32(r: Rect32, was: Display32, now: Display32) returns (d: Display32)
    requires NearlyShort(r) && ShortRect(was.bounds) && ShortRect(now.bounds)
    ensures d == if Distance(Wide(r), WideDisplay(now)) < Distance(Wide(r), WideDisplay(was)) then now else was
  {
    var before := Distance32(r, was);
    var after := Distance32(r, now);
    d := if after < before then now else was;
  }

  method Shrink32(rect: Rect32, to: Rect32) returns (r: Rect32)
    requires ShortRect(rect) && ShortRect(to)
    ensures Wide(r) == Shrunk(Wide(rect), Wide(to)) && ShortRect(r)
  {
    r := rect;
    if r.w > to.w { r := r.(w := to.w); }
    if r.h > to.h { r := r.(h := to.h); }
  }

  /** `clamp_on_screen` in 32-bit arithmetic. */
  method ClampOnScreen(rect: Rect32, ds: seq<Display32>) returns (r: Rect32)
    requires ShortRect(rect) && ShortDisplays(ds)
    ensures Wide(r) == Clamp(Wide(rect), WideAll(ds))
  {
    if ds == [] { return rect; }
    var biggest := Biggest32(ds);
    r := Shrink32(rect, biggest.work);
    var seen := VisibleArea32(r, ds);
    if seen >= 120 * 40 { return; }
    ghost var shrunk := Wide(r);
    var target := Nearest32(r, ds);
    r := Pull32(r, target.work);
    assert Wide(r) == Pulled(shrunk, Nearest(shrunk, WideAll(ds)).work);
    seen := VisibleArea32(r, ds);
    if seen < 120 * 40 { r := Centre32(r, target.work); }
  }

  method Pull32(rect: Rect32, work: Rect32) returns (r: Rect32)
    requires NearlyShort(rect) && ShortRect(work) && work.w >= 0 && work.h >= 0
    ensures Wide(r) == Pulled(Wide(rect), Wide(work)) && NearlyShort(r)
  {
    var right := if work.x + work.w - 120 >= work.x then work.x + work.w - 120 else work.x;
    var bottom := if work.y + work.h - 40 >= work.y then work.y + work.h - 40 else work.y;
    r := rect.(x := if rect.x < work.x then work.x else if rect.x > right then right else rect.x,
               y := if rect.y < work.y then work.y else if rect.y > bottom then bottom else rect.y);
  }

  method Centre32(rect: Rect32, work: Rect32) returns (r: Rect32)
    requires NearlyShort(rect) && ShortRect(work)
    ensures Wide(r) == Centred(Wide(rect), Wide(work))
  {
    var spareW := if work.w - rect.w >= 0 then work.w - rect.w else 0;
    var spareH := if work.h - rect.h >= 0 then work.h - rect.h else 0;
    r := rect.(x := work.x + spareW / 2, y := work.y + spareH / 2);
  }

  // ----- Mapping a stored window -----

  function PickTarget(stored: Stored, current: seq<Display>): Option<Display> {
    match FindDisplay(current, (d: Display) => stored.displayKey == Some(d.key))
    case Some(d) => Some(d)
    case None =>
      match FindDisplay(current, (d: Display) => d.isPrimary)
      case Some(d) => Some(d)
      case None => if current == [] then None else Some(current[0])
  }

  function FindDisplay(current: seq<Display>, want: Display -> bool): (r: Option<Display>)
    ensures r.Some? ==> r.value in current && want(r.value)
    ensures r.None? ==> forall d :: d in current ==> !want(d)
  {
    if current == [] then None else if want(current[0]) then Some(current[0]) else FindDisplay(current[1..], want)
  }

  lemma {:induction false} FoundAt(current: seq<Display>, want: Display -> bool) returns (p: nat)
    ensures FindDisplay(current, want).Some? ==>
      p < |current| && FindDisplay(current, want).value == current[p] && forall q :: 0 <= q < p ==> !want(current[q])
  {
    p := 0;
    if current != [] && !want(current[0]) {
      p := FoundAt(current[1..], want);
      if FindDisplay(current, want).Some? {
        assert forall q | 0 < q <= p :: current[q] == current[1..][q-1];
        p := p + 1;
      }
    }
  }

  predicate Keyed(current: seq<Display>, key: string) { exists d :: d in current && d.key == key }

  predicate HasPrimary(current: seq<Display>) { exists d :: d in current && d.isPrimary }

  /**
   The window goes to the first display with the stored key; if there is none, to the first
   primary one, however many remain; without that to the first; and nowhere without a display.
   */
  lemma TargetIs(stored: Stored, current: seq<Display>) returns (p: nat)
    ensures current == [] <==> PickTarget(stored, current) == None
    ensures current != [] ==> p < |current| && PickTarget(stored, current) == Some(current[p])
    ensures stored.displayKey.Some? && Keyed(current, stored.displayKey.value) ==>
      && current[p].key == stored.displayKey.value
      && forall q :: 0 <= q < p ==> current[q].key != stored.displayKey.value
    ensures !(stored.displayKey.Some? && Keyed(current, stored.displayKey.value)) && HasPrimary(current) ==>
      current[p].isPrimary && forall q :: 0 <= q < p ==> !current[q].isPrimary
    ensures !(stored.displayKey.Some? && Keyed(current, stored.displayKey.value)) && !HasPrimary(current) ==> p == 0
  {
    var named, primary := (d: Display) => stored.displayKey == Some(d.key), (d: Display) => d.isPrimary;
    p := 0;
    if FindDisplay(current, named).Some? {
      p := FoundAt(current, named);
      assert current[p] in current && named(current[p]);
    } else if FindDisplay(current, primary).Some? {
      p := FoundAt(current, primary);
      assert current[p] in current && primary(current[p]);
    }
  }

  const I32_MAX := 0x7FFF_FFFF

  /** `as i32` drops the fraction and stops at the ends of the type. */
  function Trunc(v: real): int {
    Between(if v < 0.0 then -((-v).Floor) else v.Floor, -I32_MAX - 1, I32_MAX)
  }

  function MinR(a: real, b: real): real { if a <= b then a else b }

  /** The factor that makes the rectangle fit, never enlarging it. */
  function Scale(r: Rect, work: Rect, round: Rounding): real {
    MinR(MinR(round(work.w as real / Max(r.w, 1) as real), round(work.h as real / Max(r.h, 1) as real)), 1.0)
  }

  function Multiplied(n: int, s: real, round: Rounding): real { round(Mul(n as real, s)) }

  /** `(n as f64 * s) as i32` */
  function ScaleBy(n: int, s: real, round: Rounding): int { Trunc(Multiplied(n, s, round)) }

  function Scaled(r: Rect, work: Rect, round: Rounding): Rect {
    var s := Scale(r, work, round);
    var w, h := ScaleBy(r.w, s, round), ScaleBy(r.h, s, round);
    Rect(work.x + Half(work.w - w), work.y + Half(work.h - h), w, h)
  }

  function Ratio(target: nat, stored: nat, round: Rounding): real
    requires stored != 0
  {
    round(target as real / stored as real)
  }

  function Rescaled(r: Rect, stored: nat, target: nat, round: Rounding): Rect {
    if stored != 0 && target != 0 && stored != target then
      var ratio := Ratio(target, stored, round);
      r.(w := ScaleBy(r.w, ratio, round), h := ScaleBy(r.h, ratio, round))
    else r
  }

  function MapToCurrent(stored: Stored, current: seq<Display>, round: Rounding): Rect {
    match PickTarget(stored, current)
    case None => stored.rect
    case Some(target) =>
      var r := if stored.displayKey == Some(target.key) then stored.rect else Scaled(stored.rect, target.work, round);
      Clamp(Rescaled(r, stored.dpi, target.dpi, round), current)
  }

  method Rescale(rect: Rect, stored: nat, target: nat, round: Rounding) returns (r: Rect)
    ensures r == Rescaled(rect, stored, target, round)
  {
    r := rect;
    if stored != 0 && target != 0 && stored != target {
      var ratio := Ratio(target, stored, round);
      r := r.(w := ScaleBy(r.w, ratio, round));
      r := r.(h := ScaleBy(r.h, ratio, round));
    }
  }

  /** `map_to_current`, step by step on a local rectangle. */
  method Map(stored: Stored, current: seq<Display>, round: Rounding) returns (r: Rect)
    ensures r == MapToCurrent(stored, current, round)
  {
    var found := PickTarget(stored, current);
    if found.None? { return stored.rect; }
    var target := found.value;
    r := stored.rect;
    if stored.displayKey != Some(target.key) { r := Scaled(r, target.work, round); }
    r := Rescale(r, stored.dpi, target.dpi, round);
    r := Clamp(r, current);
  }

  /** On the layout it was captured on, a window that can be grabbed comes back exactly where it was. */
  lemma UnchangedLayout(stored: Stored, current: seq<Display>, d: Display, round: Rounding)
    requires FindDisplay(current, (e: Display) => stored.displayKey == Some(e.key)) == Some(d) && stored.dpi == d.dpi
    requires Fits(stored.rect, current) && Reachable(stored.rect, current)
    ensures MapToCurrent(stored, current, round) == stored.rect
  {
    ClampLeavesReachable(stored.rect, current);
  }

  // ----- Shrinking -----

  lemma TruncBelow(v: real, n: nat)
    requires 0.0 <= v < n as real + 1.0
    ensures 0 <= Trunc(v) <= n
  {
    assert v.Floor <= n;
  }

  lemma Quotient(n: int, limit: int)
    requires n >= 1 && limit >= 0
    ensures limit as real / n as real >= 0.0 && n as real * (limit as real / n as real) == limit as real
  {
  }

  lemma AtMost(n: real, s: real)
    requires n >= 0.0 && 0.0 <= s <= 1.0
    ensures 0.0 <= n * s <= n
  {
  }

  /** Scaling a rounded number scales its error. */
  lemma CloseTimes(n: real, a: real, u: real)
    requires n >= 0.0 && a >= 0.0 && Close(a, u)
    ensures Close(n * a, n * u) && n * a >= 0.0
  {
    var e := (u - a) * 9007199254740992.0;
    Times(n, -a, e);
    Times(n, e, a);
    assert n * e == (n * u - n * a) * 9007199254740992.0;
    assert n * -a == -(n * a);
  }

  /** Rounded and then rounded again, a number is off by at most three in 2 to the 53. */
  lemma CloseTwice(v: real, p: real, w: real)
    requires v >= 0.0 && Close(v, p) && Close(p, w)
    ensures w >= 0.0 && -3.0 * v <= (w - v) * 9007199254740992.0 <= 3.0 * v
  {
  }

  /** A smaller number than one that rounds to the limit rounds to less than one more than the limit. */
  lemma RoundsWithin(p: real, w: real, top: real, limit: real)
    requires 0.0 <= p <= top && 0.0 <= limit <= 2147483647.0 && Close(limit, top) && Close(p, w)
    ensures 0.0 <= w < limit + 1.0
  {
  }

  lemma ShrinkReal(n: real, a: real, u: real, s: real, w: real, limit: real)
    requires 1.0 <= n <= 2147483647.0 && a >= 0.0 && n * a == limit && 0.0 <= limit <= 2147483647.0
    requires Close(a, u) && 0.0 <= s <= u && s <= 1.0 && Close(n * s, w)
    ensures 0.0 <= w < limit + 1.0 && w < n + 1.0
  {
    CloseTimes(n, a, u);
    Times(n, s, u);
    AtMost(n, s);
    RoundsWithin(n * s, w, n * u, limit);
    RoundsWithin(n * s, w, n, n);
  }

  lemma ShrinkWithin(n: int, s: real, limit: int, round: Rounding)
    requires Accurate(round) && 1 <= n <= I32_MAX && 0 <= limit <= I32_MAX
    requires 0.0 <= s <= 1.0 && s <= round(limit as real / n as real)
    ensures 0 <= ScaleBy(n, s, round) <= limit && ScaleBy(n, s, round) <= n
  {
    var a := limit as real / n as real;
    var w := Multiplied(n, s, round);
    Quotient(n, limit);
    assert Close(a, round(a)) && Close(n as real * s, w);
    ShrinkReal(n as real, a, round(a), s, w, limit as real);
    TruncBelow(w, limit);
    TruncBelow(w, n);
  }

  lemma ScaleIs(r: Rect, work: Rect, round: Rounding)
    requires Accurate(round) && r.w >= 1 && r.h >= 1 && work.w >= 0 && work.h >= 0
    ensures 0.0 <= Scale(r, work, round) <= 1.0
    ensures Scale(r, work, round) <= round(work.w as real / r.w as real)
    ensures Scale(r, work, round) <= round(work.h as real / r.h as real)
  {
    Quotient(r.w, work.w);
    Quotient(r.h, work.h);
    assert Close(work.w as real / r.w as real, round(work.w as real / r.w as real));
    assert Close(work.h as real / r.h as real, round(work.h as real / r.h as real));
  }

  lemma CentredInside(n: int, size: int)
    requires 0 <= n <= size
    ensures 0 <= Half(size - n) && Half(size - n) + n <= size
  {
  }

  /** What a window and a work area in 32 bits can be. */
  predicate Sized(r: Rect, work: Rect) {
    1 <= r.w <= I32_MAX && 1 <= r.h <= I32_MAX && 0 <= work.w <= I32_MAX && 0 <= work.h <= I32_MAX
  }

  /**
   A window whose display is gone is made to fit the work area it moves to, and centred in it,
   however the sizes round.
   */
  lemma ScaledFits(r: Rect, work: Rect, round: Rounding)
    requires Accurate(round) && Sized(r, work)
    ensures var out := Scaled(r, work, round);
      Inside(out, work) && Middle(out, work) && 0 <= out.w <= r.w && 0 <= out.h <= r.h
  {
    var s := Scale(r, work, round);
    ScaleIs(r, work, round);
    ShrinkWithin(r.w, s, work.w, round);
    ShrinkWithin(r.h, s, work.h, round);
    CentredInside(ScaleBy(r.w, s, round), work.w);
    CentredInside(ScaleBy(r.h, s, round), work.h);
  }

  // ----- Another density -----

  lemma FloorIs(v: real, q: int)
    requires q as real <= v < (q + 1) as real
    ensures v.Floor == q
  {
  }

  /** A number off by less than one over k from q and a remainder over k. */
  lemma NearQuotient(w: real, q: int, rem: int, k: int)
    requires k >= 1 && 0 <= rem < k
    requires var n := (q * k + rem) as real; n - 1.0 < w * k as real < n + 1.0
    ensures (q - 1) as real < w < (q + 1) as real
    ensures rem > 0 ==> q as real < w
  {
    var m := q * k;
    assert (q + 1) * k == m + k && (q - 1) * k == m - k;
    assert rem > 0 ==> (m as real) <= (m + rem) as real - 1.0;
    TimesCast(q + 1, k);
    TimesCast(q - 1, k);
    TimesCast(q, k);
    Cancel(w, (q + 1) as real, k as real);
    Cancel((q - 1) as real, w, k as real);
    if rem > 0 { Cancel(q as real, w, k as real); }
  }

  lemma ErrorIsSmall(v: real, w: real, k: real, product: real)
    requires k >= 1.0 && v * k == product && 0.0 <= product <= 2251799813685248.0
    requires -3.0 * v <= (w - v) * 9007199254740992.0 <= 3.0 * v
    ensures product - 1.0 < w * k < product + 1.0
  {
    var e := (w - v) * 9007199254740992.0;
    Times(k, -3.0 * v, e);
    Times(k, e, 3.0 * v);
    assert k * (3.0 * v) == 3.0 * product && k * (-3.0 * v) == -3.0 * product;
    assert k * e == (w * k - product) * 9007199254740992.0;
  }

  lemma ProductClose(n: real, a: real, u: real, w: real)
    requires n >= 0.0 && a >= 0.0 && Close(a, u) && Close(n * u, w)
    ensures n * a >= 0.0 && w >= 0.0 && -3.0 * (n * a) <= (w - n * a) * 9007199254740992.0 <= 3.0 * (n * a)
  {
    CloseTimes(n, a, u);
    CloseTwice(n * a, n * u, w);
  }

  lemma ResizedClose(n: nat, stored: nat, target: nat, round: Rounding)
    requires Accurate(round) && stored > 0
    ensures var v := n as real * (target as real / stored as real);
      var w := Multiplied(n, Ratio(target, stored, round), round);
      v >= 0.0 && w >= 0.0 && -3.0 * v <= (w - v) * 9007199254740992.0 <= 3.0 * v
  {
    var a := target as real / stored as real;
    var u := Ratio(target, stored, round);
    var w := Multiplied(n, u, round);
    Quotient(stored, target);
    assert Close(a, u) && Close(n as real * u, w);
    ProductClose(n as real, a, u, w);
  }

  lemma ResizedIs(n: nat, stored: nat, target: nat, round: Rounding)
    requires Accurate(round) && stored > 0 && n * target <= 0x8_0000_0000_0000
    ensures var w := Multiplied(n, Ratio(target, stored, round), round);
      var q, rem := n * target / stored, n * target % stored;
      && 0.0 <= w && (q - 1) as real < w < (q + 1) as real && (rem > 0 ==> q as real < w)
  {
    var w := Multiplied(n, Ratio(target, stored, round), round);
    var product, q := n * target, n * target / stored;
    ResizedClose(n, stored, target, round);
    ExactRatio(n, stored, target);
    ErrorIsSmall(n as real * (target as real / stored as real), w, stored as real, product as real);
    assert product == q * stored + product % stored;
    NearQuotient(w, q, product % stored, stored);
  }

  lemma ExactRatio(n: nat, stored: nat, target: nat)
    requires stored > 0
    ensures n as real * (target as real / stored as real) * stored as real == (n * target) as real
  {
    var a := target as real / stored as real;
    assert a * stored as real == target as real;
    assert n as real * a * stored as real == n as real * (a * stored as real);
  }

  lemma TruncIs(n: nat, stored: nat, target: nat, round: Rounding)
    requires Accurate(round) && stored > 0 && n * target <= 0x8_0000_0000_0000
    ensures var w := Multiplied(n, Ratio(target, stored, round), round); var q := n * target / stored;
      Trunc(w) == Min(if w >= q as real then q else q - 1, I32_MAX)
      && (w < q as real ==> q > 0 && n * target % stored == 0)
  {
    var w, q := Multiplied(n, Ratio(target, stored, round), round), n * target / stored;
    ResizedIs(n, stored, target, round);
    FloorIs(w, if w >= q as real then q else q - 1);
  }

  /** The exact size, or one less where the division leaves no remainder. */
  predicate OrOneLess(size: int, product: nat, stored: nat)
    requires stored > 0
  {
    || size == Min(product / stored, I32_MAX)
    || (product % stored == 0 && product > 0 && size == Min(product / stored - 1, I32_MAX))
  }

  lemma SizeIs(n: nat, stored: nat, target: nat, round: Rounding)
    requires Accurate(round) && stored > 0 && n * target <= 0x8_0000_0000_0000
    ensures OrOneLess(ScaleBy(n, Ratio(target, stored, round), round), n * target, stored)
  {
    TruncIs(n, stored, target, round);
    ZeroQuotient(n * target, stored);
  }

  lemma ZeroQuotient(product: nat, stored: nat)
    requires stored > 0
    ensures product / stored > 0 ==> product > 0
  {
  }

  /**
   A change of scaling multiplies a size by the new density and divides by the old, dropping
   the fraction. However the two steps round, the result is that whole number, or one less, and
   one less only where the division leaves no remainder.
   */
  lemma RescaledIs(r: Rect, stored: nat, target: nat, round: Rounding)
    requires Accurate(round) && stored != 0 && target != 0 && stored != target && r.w >= 0 && r.h >= 0
    requires r.w * target <= 0x8_0000_0000_0000 && r.h * target <= 0x8_0000_0000_0000
    ensures var to := Rescaled(r, stored, target, round);
      && (to.x, to.y) == (r.x, r.y)
      && OrOneLess(to.w, r.w * target, stored) && OrOneLess(to.h, r.h * target, stored)
  {
    SizeIs(r.w, stored, target, round);
    SizeIs(r.h, stored, target, round);
  }

  // ----- How far a window is shrunk -----

  const FEW := 0x200_0000

  /** Sides small enough for their products to come out exact or one less. */
  predicate Small(r: Rect, work: Rect) {
    1 <= r.w <= FEW && 1 <= r.h <= FEW && 0 <= work.w <= FEW && 0 <= work.h <= FEW
  }

  lemma OrderReal(a: real, b: real, u: real, v: real, k: real, m: real, n: real)
    requires a >= 0.0 && b >= 0.0 && Close(a, u) && Close(b, v) && u <= v && k > 0.0
    requires a * k == m && b * k == n && m <= 1125899906842624.0 && n <= 1125899906842624.0
    ensures m - n < 1.0
  {
    assert (a - b) * 9007199254740992.0 <= a + b;
    Times(k, (a - b) * 9007199254740992.0, a + b);
    assert k * ((a - b) * 9007199254740992.0) == (m - n) * 9007199254740992.0;
    assert k * (a + b) == m + n;
  }

  lemma CrossProduct(p: nat, q: nat, q2: nat)
    requires q > 0
    ensures (p as real / q as real) * (q as real * q2 as real) == (p * q2) as real
  {
    var a := p as real / q as real;
    assert a * q as real == p as real;
    assert a * (q as real * q2 as real) == (a * q as real) * q2 as real;
    TimesCast(p, q2);
  }

  lemma FewSquared(a: nat, b: nat)
    requires a <= FEW && b <= FEW
    ensures a * b <= 0x4_0000_0000_0000
  {
    AtLeast(FEW, FEW, a, b);
  }

  /** Ratios of small sides are never so close that rounding could reverse them. */
  lemma OrderKept(p: nat, q: nat, u: real, p2: nat, q2: nat, v: real)
    requires 0 < q <= FEW && 0 < q2 <= FEW && p <= FEW && p2 <= FEW
    requires Close(p as real / q as real, u) && Close(p2 as real / q2 as real, v) && u <= v
    ensures p * q2 <= p2 * q
  {
    var k := q as real * q2 as real;
    CrossProduct(p, q, q2);
    CrossProduct(p2, q2, q);
    FewSquared(p, q2);
    FewSquared(p2, q);
    Times(q as real, 1.0, q2 as real);
    Quotient(q, p);
    Quotient(q2, p2);
    assert q2 as real * q as real == k;
    OrderReal(p as real / q as real, p2 as real / q2 as real, u, v, k, (p * q2) as real, (p2 * q) as real);
  }

  lemma UnscaledIs(n: nat, round: Rounding)
    requires Accurate(round) && n <= FEW
    ensures OrOneLess(ScaleBy(n, 1.0, round), n, 1)
  {
    var w := Multiplied(n, 1.0, round);
    assert Mul(n as real, 1.0) == n as real;
    assert Close(n as real, w);
    if n > 0 { FloorIs(w, if w >= n as real then n else n - 1); }
  }

  /** The sizes, as a fraction p/q of what they were, the last unit aside. */
  predicate ShrunkBy(out: Rect, r: Rect, p: nat, q: nat)
    requires r.w >= 0 && r.h >= 0 && q > 0
  {
    OrOneLess(out.w, r.w * p, q) && OrOneLess(out.h, r.h * p, q)
  }

  /** The least of the two ratios of sides and one. */
  predicate LeastRatio(r: Rect, work: Rect, p: nat, q: nat) {
    && ((p == 1 && q == 1) || (p == work.w && q == r.w) || (p == work.h && q == r.h))
    && p <= q && p * r.w <= work.w * q && p * r.h <= work.h * q
  }

  lemma ShrunkByRatio(r: Rect, work: Rect, p: nat, q: nat, round: Rounding)
    requires Accurate(round) && Small(r, work) && 0 < q <= FEW && p <= FEW
    requires Scale(r, work, round) == Ratio(p, q, round)
    ensures ShrunkBy(Scaled(r, work, round), r, p, q)
  {
    FewSquared(r.w, p);
    FewSquared(r.h, p);
    SizeIs(r.w, q, p, round);
    SizeIs(r.h, q, p, round);
  }

  /**
   A window whose display is gone is shrunk, if at all, by the least of the ratios of the new work
   area's sides to its own, both sides alike: it is not made smaller than it must be. However the
   ratios round, it is the exactly least one that is taken.
   */
  lemma ScaledIs(r: Rect, work: Rect, round: Rounding) returns (p: nat, q: nat)
    requires Accurate(round) && Small(r, work)
    ensures q > 0 && LeastRatio(r, work, p, q) && ShrunkBy(Scaled(r, work, round), r, p, q)
  {
    var a, b := Ratio(work.w, r.w, round), Ratio(work.h, r.h, round);
    assert Close(work.w as real / r.w as real, a) && Close(work.h as real / r.h as real, b);
    assert Close(1.0, 1.0) && 1.0 == 1 as real / 1 as real;
    if a <= b && a <= 1.0 {
      p, q := work.w, r.w;
      OrderKept(work.w, r.w, a, work.h, r.h, b);
      OrderKept(work.w, r.w, a, 1, 1, 1.0);
      ShrunkByRatio(r, work, p, q, round);
    } else if b <= a && b <= 1.0 {
      p, q := work.h, r.h;
      OrderKept(work.h, r.h, b, work.w, r.w, a);
      OrderKept(work.h, r.h, b, 1, 1, 1.0);
      ShrunkByRatio(r, work, p, q, round);
    } else {
      p, q := 1, 1;
      OrderKept(1, 1, 1.0, work.w, r.w, a);
      OrderKept(1, 1, 1.0, work.h, r.h, b);
      UnscaledIs(r.w, round);
      UnscaledIs(r.h, round);
    }
  }

  // ----- As `f64` rounds -----

  /** The program does lose one: 45 from a density of 120 to one of 168 is 63, and comes out 62. */
  lemma OneLessInF64(round: Rounding)
    requires Nearest53(round)
    ensures 45 * 168 / 120 == 63 && 45 * 168 % 120 == 0
    ensures ScaleBy(45, Ratio(168, 120, round), round) == 62
  {
    Pow2Is();
    var a := 168.0 / 120.0;
    var u := Ratio(168, 120, round);
    assert FullBits(a, 52) && NearestWhole(Shift(a, 52), Shift(u, 52));
    assert u * 4503599627370496.0 == 6305039478318694.0;
    var p, w := 45.0 * u, Multiplied(45, u, round);
    assert Shift(p, 47) == 8866461766385663.4375;
    assert FullBits(p, 47) && NearestWhole(Shift(p, 47), Shift(w, 47));
    assert w * 140737488355328.0 == 8866461766385663.0;
    FloorIs(w, 62);
  }

  lemma AtLeastQuotient(v: real, product: nat, stored: nat)
    requires stored > 0 && v * stored as real == product as real
    ensures (product / stored) as real <= v <= product as real && v >= 0.0
  {
    var q := product / stored;
    assert q * stored <= product;
    TimesCast(q, stored);
    CancelAtMost(q as real, v, stored as real);
    NonNegative(v, stored as real);
    Times(v, 1.0, stored as real);
    assert v * 1.0 == v;
  }

  lemma NonNegative(v: real, k: real)
    requires k > 0.0 && v * k >= 0.0
    ensures v >= 0.0
  {
    assert 0.0 * k == 0.0;
    CancelAtMost(0.0, v, k);
  }

  lemma TopIsSmall(v: real, p: real)
    requires 0.0 <= v <= 2251799813685248.0 && Close(v, p)
    ensures p < 9007199254740992.0
  {
  }

  /** As `f64` rounds, a size comes out exact unless the ratio of the densities was itself rounded down. */
  lemma RoundedUpIsExact(n: nat, stored: nat, target: nat, round: Rounding)
    requires Accurate(round) && Nearest53(round) && stored > 0 && n * target <= 0x8_0000_0000_0000
    requires Ratio(target, stored, round) >= target as real / stored as real
    ensures ScaleBy(n, Ratio(target, stored, round), round) == Min(n * target / stored, I32_MAX)
  {
    TruncIs(n, stored, target, round);
    ResizedIs(n, stored, target, round);
    if n * target / stored > 0 { ResizedAtLeast(n, stored, target, round); }
  }

  lemma ProductWithin(n: real, a: real, u: real, v: real, p: real, product: nat, stored: nat)
    requires stored > 0 && product <= 0x8_0000_0000_0000 && v * stored as real == product as real
    requires n >= 0.0 && a >= 0.0 && Close(a, u) && a <= u && v == Mul(n, a) && p == Mul(n, u)
    ensures (product / stored) as real <= p < 9007199254740992.0
  {
    MulClose(n, a, u);
    AtLeastQuotient(v, product, stored);
    TopIsSmall(v, p);
  }

  lemma MulClose(n: real, a: real, u: real)
    requires n >= 0.0 && a >= 0.0 && Close(a, u) && a <= u
    ensures Close(Mul(n, a), Mul(n, u)) && 0.0 <= Mul(n, a) <= Mul(n, u)
  {
    CloseTimes(n, a, u);
    Times(n, a, u);
  }

  lemma ProductAtLeast(n: nat, a: real, u: real, product: nat, stored: nat, round: Rounding)
    requires Nearest53(round) && stored > 0 && product <= 0x8_0000_0000_0000 && product / stored > 0
    requires a >= 0.0 && Close(a, u) && a <= u && Mul(n as real, a) * stored as real == product as real
    ensures (product / stored) as real <= Multiplied(n, u, round)
  {
    var v, p, q := Mul(n as real, a), Mul(n as real, u), product / stored;
    ProductWithin(n as real, a, u, v, p, product, stored);
    assert 1.0 <= q as real;
    NearestAtLeast(round, p, q);
  }

  lemma ResizedAtLeast(n: nat, stored: nat, target: nat, round: Rounding)
    requires Accurate(round) && Nearest53(round) && stored > 0 && n * target <= 0x8_0000_0000_0000
    requires Ratio(target, stored, round) >= target as real / stored as real && n * target / stored > 0
    ensures (n * target / stored) as real <= Multiplied(n, Ratio(target, stored, round), round)
  {
    var a, product := target as real / stored as real, n * target;
    assert a >= 0.0 by { Quotient(stored, target); }
    assert Close(a, round(a));
    assert Mul(n as real, a) * stored as real == product as real by { ExactRatio(n, stored, target); }
    ProductAtLeast(n, a, Ratio(target, stored, round), product, stored, round);
  }

  /** The undocked laptop: on one remaining display of the same scaling, the whole window is inside the work area. */
  lemma Undocked(stored: Stored, d: Display, round: Rounding)
    requires Accurate(round) && stored.displayKey != Some(d.key) && stored.dpi == d.dpi && Sized(stored.rect, d.work)
    requires Usable([d]) && BigEnough(Scaled(stored.rect, d.work, round))
    ensures var r := MapToCurrent(stored, [d], round); r == Scaled(stored.rect, d.work, round) && Inside(r, d.work)
  {
    var r := Scaled(stored.rect, d.work, round);
    ScaledFits(stored.rect, d.work, round);
    assert d in [d];
    assert Inside(r, d.bounds);
    AtLeast(r.w, r.h, MIN_VISIBLE_W, MIN_VISIBLE_H);
    assert Overlap(r, d) == r.w * r.h;
    assert Biggest([d]) == d;
    ClampLeavesReachable(r, [d]);
    assert FindDisplay([d], (e: Display) => stored.displayKey == Some(e.key)).None?;
  }
}
