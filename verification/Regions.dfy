/**
  Rectangles, and regions as the pixels they cover.

  FreeRDP's REGION16 keeps a list of rectangles; only its set meaning is used here:
  union and intersection act on the covered pixels, the extents bound them.
*/
module Regions {
  import opened Common

  datatype Point = Point(x: int, y: int)

  /** Half-open: right and bottom are outside. A rectangle may be empty. */
  datatype Rect = Rect(left: int, top: int, right: int, bottom: int)

  type Region = seq<Rect>

  predicate IsEmpty(r: Rect) {
    r.right <= r.left || r.bottom <= r.top
  }

  predicate Inside(r: Rect, p: Point) {
    r.left <= p.x < r.right && r.top <= p.y < r.bottom
  }

  function RectPoints(r: Rect): (s: set<Point>)
    ensures forall p :: p in s <==> Inside(r, p)
  {
    set x: int, y: int | r.left <= x < r.right && r.top <= y < r.bottom :: Point(x, y)
  }

  function Points(g: Region): set<Point> {
    if g == [] then {} else Points(g[..|g| - 1]) + RectPoints(g[|g| - 1])
  }

  predicate RectWithin(r: Rect, box: Rect) {
    !IsEmpty(r) && box.left <= r.left && r.right <= box.right && box.top <= r.top && r.bottom <= box.bottom
  }

  /** Exactly the rectangles all of whose pixels are in the box. */
  lemma WithinMeans(r: Rect, box: Rect)
    requires !IsEmpty(r)
    ensures RectWithin(r, box) <==> RectPoints(r) <= RectPoints(box)
  {
    if RectPoints(r) <= RectPoints(box) {
      assert Point(r.left, r.top) in RectPoints(r) && Point(r.right - 1, r.bottom - 1) in RectPoints(r);
    }
  }

  /** A region of non-empty rectangles, all inside a box. */
  predicate Within(g: Region, box: Rect) {
    forall i :: 0 <= i < |g| ==> RectWithin(g[i], box)
  }

  lemma {:induction false} WithinPoints(g: Region, box: Rect)
    requires Within(g, box)
    ensures Points(g) <= RectPoints(box)
  {
    if g != [] {
      WithinPoints(g[..|g| - 1], box);
    }
  }

  lemma {:induction false} PointsConcat(g: Region, h: Region)
    ensures Points(g + h) == Points(g) + Points(h)
  {
    if h == [] {
      assert g + h == g;
    } else {
      PointsConcat(g, h[..|h| - 1]);
      assert (g + h)[..|g + h| - 1] == g + h[..|h| - 1];
    }
  }

  function Clip(a: Rect, b: Rect): Rect {
    Rect(Max(a.left, b.left), Max(a.top, b.top), Min(a.right, b.right), Min(a.bottom, b.bottom))
  }

  /** region16_union_rect */
  function UnionRect(g: Region, r: Rect): (u: Region)
    ensures Points(u) == Points(g) + RectPoints(r)
    ensures forall box :: Within(g, box) && (IsEmpty(r) || RectWithin(r, box)) ==> Within(u, box)
  {
    if IsEmpty(r) then g
    else
      assert (g + [r])[..|g|] == g;
      g + [r]
  }

  lemma ClipWithin(a: Rect, b: Rect)
    ensures RectPoints(Clip(a, b)) == RectPoints(a) * RectPoints(b)
    ensures forall box :: RectWithin(a, box) ==> IsEmpty(Clip(a, b)) || RectWithin(Clip(a, b), box)
  {}

  lemma WithinParts(g: Region)
    requires g != []
    ensures forall box :: Within(g, box) ==> Within(g[..|g| - 1], box) && RectWithin(g[|g| - 1], box)
  {}

  /** region16_intersect_rect */
  function IntersectRect(g: Region, r: Rect): (u: Region)
    ensures Points(u) == Points(g) * RectPoints(r)
    ensures forall box :: Within(g, box) ==> Within(u, box)
  {
    if g == [] then []
    else
      var rest, b := g[..|g| - 1], g[|g| - 1];
      WithinParts(g);
      ClipWithin(b, r);
      UnionRect(IntersectRect(rest, r), Clip(b, r))
  }

  /** region16_extents: the bounding box, all zero for an empty region. */
  function Extents(g: Region): (e: Rect)
    ensures Points(g) <= RectPoints(e)
    ensures g == [] ==> e == Rect(0, 0, 0, 0)
    ensures forall box :: g != [] && Within(g, box) ==> RectWithin(e, box)
  {
    if g == [] then Rect(0, 0, 0, 0)
    else if |g| == 1 then g[0]
    else
      var rest, b := g[..|g| - 1], g[|g| - 1];
      var a := Extents(rest);
      WithinParts(g);
      Rect(Min(a.left, b.left), Min(a.top, b.top), Max(a.right, b.right), Max(a.bottom, b.bottom))
  }
}
