/**
  Sending damage as bitmap updates (ogon_send_bitmap_bits in rdp-server/graphics.c).

  Every damage rectangle is enlarged to four-pixel columns, cut into fragments that fit
  a client's request size, and the encoded fragments are packed into update PDUs.
*/
module BitmapUpdates {
  import opened Common
  import opened Regions

  /** x, y, width, height */
  datatype RdpRect = RdpRect(x: int, y: int, width: int, height: int)

  function ToRect(r: RdpRect): Rect {
    Rect(r.x, r.y, r.x + r.width, r.y + r.height)
  }

  // ------------------------------------------------------------ alignment

  /** Horizontal four-pixel alignment. */
  function Align(r: RdpRect): RdpRect {
    var width := r.width + r.x % 4;
    RdpRect(r.x - r.x % 4, r.y, if width % 4 == 0 then width else width + 4 - width % 4, r.height)
  }

  /** The aligned rectangle is the smallest one on four-pixel columns, and stays inside the scan line. */
  lemma AlignIsTight(r: RdpRect, desktopWidth: int, scanLine: int)
    requires 0 <= r.x && 1 <= r.width && r.x + r.width <= desktopWidth
    requires desktopWidth * 4 <= scanLine && scanLine % 16 == 0
    ensures var a := Align(r);
            && a.x % 4 == 0 && a.width % 4 == 0 && a.y == r.y && a.height == r.height
            && a.x <= r.x < a.x + 4 && r.x + r.width <= a.x + a.width < r.x + r.width + 4
            && 0 <= a.x && 4 <= a.width && (a.x + a.width) * 4 <= scanLine
  {
    var q, s := r.x / 4, scanLine / 16;
    var width := r.width + r.x % 4;
    var k := width / 4 + if width % 4 == 0 then 0 else 1;
    assert Align(r) == RdpRect(4 * q, r.y, 4 * k, r.height);
    assert scanLine == 16 * s;
    assert q + k <= s;
  }

  // ------------------------------------------------------------ the encoder

  const UPDATE_HEADER := 2
  const BITMAP_HEADER := 26
  const RLE_HEADER := 3

  /** What ogon_bitmap_encoder_new accepts: dimensions, scan line, request size and pixel depth. */
  datatype Encoder = Encoder(desktopWidth: int, desktopHeight: int, scanLine: int, dstBytesPerPixel: int, maxRequestSize: int)

  predicate Accepted(e: Encoder) {
    && e.desktopWidth >= 1 && e.desktopHeight >= 1 && e.scanLine >= e.desktopWidth * 4 && e.scanLine % 16 == 0
    && e.maxRequestSize >= 1024 && 2 <= e.dstBytesPerPixel <= 4
  }

  predicate OnDesktop(r: RdpRect, e: Encoder) {
    r.x >= 0 && r.y >= 0 && r.width >= 1 && r.height >= 1 && r.x + r.width <= e.desktopWidth && r.y + r.height <= e.desktopHeight
  }

  /** The most data a fragment may have. */
  function MaxRectSize(e: Encoder): int {
    e.maxRequestSize - UPDATE_HEADER - BITMAP_HEADER - RLE_HEADER
  }

  /** ogon_create_encoder_bmp_context: the buffer all bitmaps of one call are encoded into. */
  function BufferSize(e: Encoder): int {
    var raw := e.desktopWidth * e.desktopHeight * e.dstBytesPerPixel;
    raw + raw / 10
  }

  function Area(f: Rect): int {
    (f.right - f.left) * (f.bottom - f.top)
  }

  /** The room an encoded fragment may need. */
  function Raw(f: Rect, e: Encoder): int {
    Area(f) * e.dstBytesPerPixel + RLE_HEADER
  }

  function RawOf(e: Encoder): Rect -> int { (f: Rect) => Raw(f, e) }

  // -------------------------------------------------------- fragment size

  function ShrinkWidth(w: nat, bytes: nat, max: nat): nat {
    if w > 0 && w * bytes > max then ShrinkWidth(w / 2, bytes, max) else w
  }

  function ShrinkHeight(w: nat, h: nat, bytes: nat, max: nat): nat
    decreases h
  {
    if h > 0 && w * h * bytes > max then ShrinkHeight(w, if h == 3 then 2 else h / 2, bytes, max) else h
  }

  lemma {:induction false} WidthShrinks(w: nat, bytes: nat, max: nat)
    requires w >= 4 && 1 <= bytes <= 4 && max >= 7 * bytes
    ensures 4 <= ShrinkWidth(w, bytes, max) <= w && ShrinkWidth(w, bytes, max) * bytes <= max
  {
    if w * bytes > max {
      assert w > 7;
      WidthShrinks(w / 2, bytes, max);
    }
  }

  lemma Wider(a: nat, b: nat, bytes: nat)
    requires a <= b
    ensures a * bytes <= b * bytes
  {}

  /** And no further than needed: twice as wide is too large. */
  lemma {:induction false} WidthIsLargest(w: nat, bytes: nat, max: nat)
    ensures ShrinkWidth(w, bytes, max) <= w
    ensures ShrinkWidth(w, bytes, max) < w ==> (2 * ShrinkWidth(w, bytes, max) + 1) * bytes > max
  {
    if w > 0 && w * bytes > max {
      WidthIsLargest(w / 2, bytes, max);
      Wider(w, 2 * (w / 2) + 1, bytes);
    }
  }

  lemma {:induction false} HeightShrinks(w: nat, h: nat, bytes: nat, max: nat)
    requires h >= 1 && w * bytes <= max
    ensures 1 <= ShrinkHeight(w, h, bytes, max) <= h && w * ShrinkHeight(w, h, bytes, max) * bytes <= max
    decreases h
  {
    if w * h * bytes > max {
      assert h == 1 ==> w * h * bytes == w * bytes;
      HeightShrinks(w, if h == 3 then 2 else h / 2, bytes, max);
    }
  }

  lemma Higher(w: nat, a: nat, b: nat, bytes: nat)
    requires a <= b
    ensures w * a * bytes <= w * b * bytes
  {
    assert w * a <= w * b;
  }

  /** And no further than needed: twice as high is too large. */
  lemma {:induction false} HeightIsLargest(w: nat, h: nat, bytes: nat, max: nat)
    ensures ShrinkHeight(w, h, bytes, max) < h ==> w * (2 * ShrinkHeight(w, h, bytes, max) + 1) * bytes > max
    ensures ShrinkHeight(w, h, bytes, max) == 1 < h ==> w * 2 * bytes > max
    decreases h
  {
    if h > 0 && w * h * bytes > max {
      var less := if h == 3 then 2 else h / 2;
      HeightIsLargest(w, less, bytes, max);
      Higher(w, h, 2 * less + 1, bytes);
      ShrinksDown(w, less, bytes, max);
    }
  }

  lemma {:induction false} ShrinksDown(w: nat, h: nat, bytes: nat, max: nat)
    ensures ShrinkHeight(w, h, bytes, max) <= h
    decreases h
  {
    if h > 0 && w * h * bytes > max {
      ShrinksDown(w, if h == 3 then 2 else h / 2, bytes, max);
    }
  }

  /** The first shrink loop. */
  method FitWidth(width: nat, bytes: nat, maxRectSize: nat) returns (w: nat)
    ensures w == ShrinkWidth(width, bytes, maxRectSize)
  {
    w := width;
    while w * bytes > maxRectSize
      invariant ShrinkWidth(w, bytes, maxRectSize) == ShrinkWidth(width, bytes, maxRectSize)
      decreases w
    {
      w := w / 2;
    }
  }

  /** The second one. */
  method FitHeight(w: nat, height: nat, bytes: nat, maxRectSize: nat) returns (h: nat)
    ensures h == ShrinkHeight(w, height, bytes, maxRectSize)
  {
    h := height;
    while w * h * bytes > maxRectSize
      invariant ShrinkHeight(w, h, bytes, maxRectSize) == ShrinkHeight(w, height, bytes, maxRectSize)
      decreases h
    {
      h := if h == 3 then 2 else h / 2;
    }
  }

  /**
    The largest fragment of at most 64 x 64 pixels within the byte limit: the width is halved only
    if a single row is too long, then the height.
  */
  method FragmentSize(width: nat, height: nat, bytes: nat, maxRectSize: nat) returns (w: nat, h: nat)
    requires width >= 4 && height >= 1 && 1 <= bytes <= 4 && maxRectSize >= 7 * bytes
    ensures w == ShrinkWidth(Min(width, 64), bytes, maxRectSize) && h == ShrinkHeight(w, Min(height, 64), bytes, maxRectSize)
    ensures 4 <= w <= Min(width, 64) && 1 <= h <= Min(height, 64)
    ensures w * h * bytes <= maxRectSize
    ensures Min(width, 64) * bytes <= maxRectSize ==> w == Min(width, 64)
    ensures w * Min(height, 64) * bytes <= maxRectSize ==> h == Min(height, 64)
    ensures w < Min(width, 64) ==> (2 * w + 1) * bytes > maxRectSize
    ensures h < Min(height, 64) ==> w * (2 * h + 1) * bytes > maxRectSize
  {
    w := FitWidth(Min(width, 64), bytes, maxRectSize);
    WidthShrinks(Min(width, 64), bytes, maxRectSize);
    WidthIsLargest(Min(width, 64), bytes, maxRectSize);
    h := FitHeight(w, Min(height, 64), bytes, maxRectSize);
    HeightShrinks(w, Min(height, 64), bytes, maxRectSize);
    HeightIsLargest(w, Min(height, 64), bytes, maxRectSize);
  }

  // ------------------------------------------------------------ fragments

  /** No two fragments share a pixel. */
  ghost predicate Disjoint(frags: Region) {
    frags == [] || (Disjoint(frags[..|frags| - 1]) && RectPoints(frags[|frags| - 1]) !! Points(frags[..|frags| - 1]))
  }

  predicate Fits(f: Rect, w: int, h: int) {
    1 <= f.right - f.left <= w && 1 <= f.bottom - f.top <= h
  }

  ghost predicate Small(frags: Region, w: int, h: int) {
    frags == [] || (Small(frags[..|frags| - 1], w, h) && Fits(frags[|frags| - 1], w, h))
  }

  lemma {:induction false} SmallAt(frags: Region, w: int, h: int, i: nat)
    requires Small(frags, w, h) && i < |frags|
    ensures Fits(frags[i], w, h)
  {
    if i < |frags| - 1 {
      SmallAt(frags[..|frags| - 1], w, h, i);
    }
  }

  /** The number of pieces of length d that n is cut into. */
  function Pieces(n: int, d: int): nat
    requires d >= 1
    decreases n
  {
    if n <= 0 then 0 else 1 + Pieces(n - d, d)
  }

  lemma {:induction false} TimesMonotone(j: nat, k: nat, d: int)
    requires j <= k && d >= 1
    ensures 0 <= Times(j, d) <= Times(k, d)
  {
    if j < k {
      TimesMonotone(j, k - 1, d);
    } else if j > 0 {
      TimesMonotone(j - 1, k - 1, d);
    }
  }

  /** Before the last piece there is something left, behind it nothing. */
  predicate Cut(p: nat, n: int, d: int) {
    p >= 1 && Times(p - 1, d) < n <= Times(p, d)
  }

  lemma {:induction false} PiecesCut(n: int, d: int)
    requires n >= 1 && d >= 1
    ensures Cut(Pieces(n, d), n, d)
    decreases n
  {
    if n > d {
      PiecesCut(n - d, d);
    } else {
      assert Pieces(n - d, d) == 0 && Times(0, d) == 0 && Times(1, d) == d;
    }
  }

  /** The rounded-up division is that number. */
  method CountPieces(n: int, d: int) returns (p: nat)
    requires n >= 1 && d >= 1
    ensures p == Pieces(n, d)
  {
    p := (n + d - 1) / d;
    CeilDiv(n, d);
    TimesIsProduct(p, d);
    TimesIsProduct(p - 1, d);
    PiecesCut(n, d);
    CutsAgree(p, Pieces(n, d), n, d);
  }

  lemma CeilDiv(n: int, d: int)
    requires n >= 1 && d >= 1
    ensures var k := (n + d - 1) / d; k >= 1 && (k - 1) * d < n <= k * d
  {
    var k := (n + d - 1) / d;
    assert n + d - 1 == k * d + (n + d - 1) % d;
    assert (k - 1) * d == k * d - d;
  }

  lemma CutsAgree(p: nat, q: nat, n: int, d: int)
    requires d >= 1 && Cut(p, n, d) && Cut(q, n, d)
    ensures p == q
  {
    if p < q {
      TimesMonotone(p, q - 1, d);
    } else if q < p {
      TimesMonotone(q, p - 1, d);
    }
  }

  lemma PieceStart(k: nat, p: nat, n: int, d: int)
    requires d >= 1 && k <= p && Cut(p, n, d)
    ensures 0 <= Times(k, d) && (k < p <==> Times(k, d) < n)
  {
    TimesMonotone(0, k, d);
    if k < p {
      TimesMonotone(k, p - 1, d);
    }
  }

  /** The fragments done before, then the first k fragments of a row from top to bottom. */
  function CutRow(done: Region, r: RdpRect, w: int, top: int, bottom: int, k: nat): Region {
    if k == 0 then done
    else CutRow(done, r, w, top, bottom, k - 1) + [Fragment(r, w, top, bottom, k - 1)]
  }

  /** Fragment k of a row. */
  function Fragment(r: RdpRect, w: int, top: int, bottom: int, k: nat): Rect {
    var x := r.x + Times(k, w);
    Rect(x, top, Min(x + w, r.x + r.width), bottom)
  }

  /** The fragments done before, then the first k rows, each of nx. */
  function CutRows(done: Region, r: RdpRect, w: int, h: int, nx: nat, k: nat): Region {
    if k == 0 then done
    else
      var y := r.y + Times(k - 1, h);
      CutRow(CutRows(done, r, w, h, nx, k - 1), r, w, y, Min(y + h, r.y + r.height), nx)
  }

  function FragmentWidth(a: RdpRect, e: Encoder): nat
    requires a.width >= 0 && MaxRectSize(e) >= 0 && e.dstBytesPerPixel >= 0
  {
    ShrinkWidth(Min(a.width, 64), e.dstBytesPerPixel, MaxRectSize(e))
  }

  function FragmentHeight(a: RdpRect, e: Encoder): nat
    requires a.width >= 0 && a.height >= 0 && MaxRectSize(e) >= 0 && e.dstBytesPerPixel >= 0
  {
    ShrinkHeight(FragmentWidth(a, e), Min(a.height, 64), e.dstBytesPerPixel, MaxRectSize(e))
  }

  lemma SizeShrinks(r: RdpRect, e: Encoder)
    requires Accepted(e) && OnDesktop(r, e)
    ensures var a := Align(r);
            var w, h := FragmentWidth(a, e), FragmentHeight(a, e);
            && 4 <= w <= Min(a.width, 64) && 1 <= h <= Min(a.height, 64) && w * h * e.dstBytesPerPixel <= MaxRectSize(e)
            && Cut(Pieces(a.width, w), a.width, w) && Cut(Pieces(a.height, h), a.height, h)
  {
    var a := Align(r);
    AlignIsTight(r, e.desktopWidth, e.scanLine);
    WidthShrinks(Min(a.width, 64), e.dstBytesPerPixel, MaxRectSize(e));
    HeightShrinks(FragmentWidth(a, e), Min(a.height, 64), e.dstBytesPerPixel, MaxRectSize(e));
    PiecesCut(a.width, FragmentWidth(a, e));
    PiecesCut(a.height, FragmentHeight(a, e));
  }

  /** A fragment is only smaller than 64 x 64 and its rectangle because a larger one would exceed the request size. */
  lemma FragmentsAreLarge(r: RdpRect, e: Encoder)
    requires Accepted(e) && OnDesktop(r, e)
    ensures var a := Align(r);
            var w, h := FragmentWidth(a, e), FragmentHeight(a, e);
            && (w < Min(a.width, 64) ==> 2 + 26 + 3 + (2 * w + 1) * e.dstBytesPerPixel > e.maxRequestSize)
            && (h < Min(a.height, 64) ==> 2 + 26 + 3 + w * (2 * h + 1) * e.dstBytesPerPixel > e.maxRequestSize)
  {
    var a := Align(r);
    AlignIsTight(r, e.desktopWidth, e.scanLine);
    WidthIsLargest(Min(a.width, 64), e.dstBytesPerPixel, MaxRectSize(e));
    HeightIsLargest(FragmentWidth(a, e), Min(a.height, 64), e.dstBytesPerPixel, MaxRectSize(e));
  }

  /** The fragments done before, then those of one damage rectangle in the order they are encoded. */
  function CutRect(done: Region, r: RdpRect, e: Encoder): Region
    requires Accepted(e) && OnDesktop(r, e)
  {
    var a := Align(r);
    SizeShrinks(r, e);
    var w, h := FragmentWidth(a, e), FragmentHeight(a, e);
    CutRows(done, a, w, h, Pieces(a.width, w), Pieces(a.height, h))
  }

  predicate AllOnDesktop(rects: seq<RdpRect>, e: Encoder) {
    forall i :: 0 <= i < |rects| ==> OnDesktop(rects[i], e)
  }

  function AllFragments(rects: seq<RdpRect>, e: Encoder): Region
    requires Accepted(e) && AllOnDesktop(rects, e)
  {
    if rects == [] then [] else CutRect(AllFragments(rects[..|rects| - 1], e), rects[|rects| - 1], e)
  }

  lemma {:induction false} CutRowAppends(done: Region, more: Region, r: RdpRect, w: int, top: int, bottom: int, k: nat)
    ensures CutRow(done + more, r, w, top, bottom, k) == done + CutRow(more, r, w, top, bottom, k)
  {
    if k > 0 {
      CutRowAppends(done, more, r, w, top, bottom, k - 1);
    }
  }

  lemma {:induction false} CutRowsAppends(done: Region, r: RdpRect, w: int, h: int, nx: nat, k: nat)
    ensures CutRows(done, r, w, h, nx, k) == done + CutRows([], r, w, h, nx, k)
  {
    if k > 0 {
      var y := r.y + Times(k - 1, h);
      CutRowsAppends(done, r, w, h, nx, k - 1);
      CutRowAppends(done, CutRows([], r, w, h, nx, k - 1), r, w, y, Min(y + h, r.y + r.height), nx);
    } else {
      assert done + [] == done;
    }
  }

  // ---------------------------------------------------- what fragments cover

  /** The area of a box that is cut when the cutting stands at (x, top) of a row ending at bottom. */
  function CutArea(box: Rect, top: int, bottom: int, x: int): set<Point> {
    RectPoints(Rect(box.left, box.top, box.right, top)) + RectPoints(Rect(box.left, top, Min(x, box.right), bottom))
  }

  lemma {:induction false} RowSmall(above: Region, r: RdpRect, w: int, h: int, top: int, bottom: int, nx: nat, k: nat)
    requires r.width >= 1 && w >= 1 && top < bottom <= top + h && Cut(nx, r.width, w) && k <= nx && Small(above, w, h)
    ensures Small(CutRow(above, r, w, top, bottom, k), w, h)
    decreases k
  {
    if k > 0 {
      RowSmall(above, r, w, h, top, bottom, nx, k - 1);
      PieceStart(k - 1, nx, r.width, w);
    }
  }

  /** How far a row is cut after k pieces. */
  function RowEnd(r: RdpRect, w: int, k: nat): int {
    Min(r.x + Times(k, w), r.x + r.width)
  }

  lemma RowStep(r: RdpRect, w: int, nx: nat, k: nat)
    requires r.width >= 1 && w >= 1 && Cut(nx, r.width, w) && k < nx
    ensures var x := r.x + Times(k, w); RowEnd(r, w, k) == x && r.x <= x < RowEnd(r, w, k + 1) == Min(x + w, r.x + r.width)
  {
    PieceStart(k, nx, r.width, w);
  }

  /** A row cuts what its fragments cut, one after the other; area(k) is what k of them have cut. */
  lemma {:induction false} RowPoints(above: Region, r: RdpRect, w: int, top: int, bottom: int, k: nat, area: nat -> set<Point>)
    requires Disjoint(above) && Points(above) == area(0)
    requires forall j: nat :: j < k ==> Adds(area, j, RectPoints(Fragment(r, w, top, bottom, j)))
    ensures Disjoint(CutRow(above, r, w, top, bottom, k)) && Points(CutRow(above, r, w, top, bottom, k)) == area(k)
  {
    if k > 0 {
      RowPoints(above, r, w, top, bottom, k - 1, area);
      assert Adds(area, k - 1, RectPoints(Fragment(r, w, top, bottom, k - 1)));
    }
  }

  ghost predicate Adds(area: nat -> set<Point>, j: nat, s: set<Point>) {
    area(j) !! s && area(j + 1) == area(j) + s
  }

  function RowArea(r: RdpRect, w: int, top: int, bottom: int): nat -> set<Point> {
    (j: nat) => CutArea(ToRect(r), top, bottom, RowEnd(r, w, j))
  }

  lemma FragmentAdds(r: RdpRect, w: int, top: int, bottom: int, nx: nat, k: nat)
    requires r.width >= 1 && w >= 1 && r.y <= top && Cut(nx, r.width, w) && k < nx
    ensures Adds(RowArea(r, w, top, bottom), k, RectPoints(Fragment(r, w, top, bottom, k)))
  {
    RowStep(r, w, nx, k);
  }

  /** One row of fragments behind the rows above it. */
  lemma RowCovers(above: Region, r: RdpRect, w: int, top: int, bottom: int, nx: nat)
    requires r.width >= 1 && w >= 1 && r.y <= top <= bottom && top <= r.y + r.height && Cut(nx, r.width, w)
    requires Disjoint(above) && Points(above) == RectPoints(Rect(r.x, r.y, r.x + r.width, top))
    ensures Disjoint(CutRow(above, r, w, top, bottom, nx))
    ensures Points(CutRow(above, r, w, top, bottom, nx)) == RectPoints(Rect(r.x, r.y, r.x + r.width, bottom))
  {
    var area := RowArea(r, w, top, bottom);
    TopIsCut(r, top, bottom, RowEnd(r, w, nx));
    forall k: nat | k < nx
      ensures Adds(area, k, RectPoints(Fragment(r, w, top, bottom, k)))
    {
      FragmentAdds(r, w, top, bottom, nx, k);
    }
    RowPoints(above, r, w, top, bottom, nx, area);
  }

  lemma TopIsCut(r: RdpRect, top: int, bottom: int, x: int)
    requires r.y <= top <= r.y + r.height && r.width >= 1
    ensures CutArea(ToRect(r), top, bottom, r.x) == RectPoints(Rect(r.x, r.y, r.x + r.width, top))
    ensures top <= bottom && x >= r.x + r.width
            ==> CutArea(ToRect(r), top, bottom, x) == RectPoints(Rect(r.x, r.y, r.x + r.width, bottom))
  {}

  /** The first k rows are disjoint, of bounded size, and exactly cover the top of the rectangle. */
  lemma RowsCover(r: RdpRect, w: int, h: int, nx: nat, ny: nat, k: nat)
    requires r.width >= 1 && r.height >= 1 && w >= 1 && h >= 1 && Cut(nx, r.width, w) && Cut(ny, r.height, h) && k <= ny
    ensures var frags := CutRows([], r, w, h, nx, k);
            && Small(frags, w, h) && Disjoint(frags)
            && Points(frags) == RectPoints(Rect(r.x, r.y, r.x + r.width, Min(r.y + Times(k, h), r.y + r.height)))
  {
    RowsSmall(r, w, h, nx, ny, k);
    RowsPoints(r, w, h, nx, ny, k);
  }

  lemma {:induction false} RowsSmall(r: RdpRect, w: int, h: int, nx: nat, ny: nat, k: nat)
    requires r.width >= 1 && r.height >= 1 && w >= 1 && h >= 1 && Cut(nx, r.width, w) && Cut(ny, r.height, h) && k <= ny
    ensures Small(CutRows([], r, w, h, nx, k), w, h)
    decreases k
  {
    if k > 0 {
      RowsSmall(r, w, h, nx, ny, k - 1);
      PieceStart(k - 1, ny, r.height, h);
      var top := r.y + Times(k - 1, h);
      RowSmall(CutRows([], r, w, h, nx, k - 1), r, w, h, top, Min(top + h, r.y + r.height), nx, nx);
    }
  }

  lemma {:induction false} RowsPoints(r: RdpRect, w: int, h: int, nx: nat, ny: nat, k: nat)
    requires r.width >= 1 && r.height >= 1 && w >= 1 && h >= 1 && Cut(nx, r.width, w) && Cut(ny, r.height, h) && k <= ny
    ensures var frags := CutRows([], r, w, h, nx, k);
            && Disjoint(frags)
            && Points(frags) == RectPoints(Rect(r.x, r.y, r.x + r.width, Min(r.y + Times(k, h), r.y + r.height)))
    decreases k
  {
    if k > 0 {
      RowsPoints(r, w, h, nx, ny, k - 1);
      PieceStart(k - 1, ny, r.height, h);
      var top := r.y + Times(k - 1, h);
      RowCovers(CutRows([], r, w, h, nx, k - 1), r, w, top, Min(top + h, r.y + r.height), nx);
    }
  }

  /** Every fragment is at most 64 x 64 and its raw pixels leave room for the PDU headers. */
  ghost predicate FragmentsFit(frags: Region, e: Encoder) {
    forall i :: 0 <= i < |frags| ==>
      Fits(frags[i], 64, 64) && Raw(frags[i], e) + BITMAP_HEADER <= e.maxRequestSize - UPDATE_HEADER
  }

  lemma AreaBound(a: int, b: int, w: int, h: int, bytes: int, limit: int)
    requires 1 <= a <= w && 1 <= b <= h && bytes >= 1 && w * h * bytes <= limit
    ensures a * b * bytes <= limit
  {
    assert a * b <= w * b by { assert (w - a) * b >= 0; }
    assert w * b <= w * h by { assert w * (h - b) >= 0; }
    assert (w * h - a * b) * bytes >= 0;
  }

  lemma SmallFits(frags: Region, w: int, h: int, e: Encoder)
    requires Small(frags, w, h) && w <= 64 && h <= 64 && e.dstBytesPerPixel >= 1
    requires w * h * e.dstBytesPerPixel <= MaxRectSize(e)
    ensures FragmentsFit(frags, e)
  {
    forall i | 0 <= i < |frags|
      ensures Fits(frags[i], 64, 64) && Raw(frags[i], e) + BITMAP_HEADER <= e.maxRequestSize - UPDATE_HEADER
    {
      SmallAt(frags, w, h, i);
      AreaBound(frags[i].right - frags[i].left, frags[i].bottom - frags[i].top, w, h, e.dstBytesPerPixel, MaxRectSize(e));
    }
  }

  /** The fragmentation of one damage rectangle. */
  ghost predicate FragmentedRect(r: RdpRect, frags: Region, e: Encoder) {
    && Disjoint(frags) && Points(frags) == RectPoints(ToRect(Align(r))) && FragmentsFit(frags, e)
    && RectPoints(ToRect(r)) <= Points(frags) <= RectPoints(Rect(0, 0, e.scanLine / 4, e.desktopHeight))
  }

  lemma FragmentsCover(r: RdpRect, e: Encoder)
    requires Accepted(e) && OnDesktop(r, e)
    ensures FragmentedRect(r, CutRect([], r, e), e)
  {
    var a := Align(r);
    AlignIsTight(r, e.desktopWidth, e.scanLine);
    SizeShrinks(r, e);
    var w, h := FragmentWidth(a, e), FragmentHeight(a, e);
    RowsCover(a, w, h, Pieces(a.width, w), Pieces(a.height, h), Pieces(a.height, h));
    SmallFits(CutRect([], r, e), w, h, e);
  }

  lemma CutRectAppends(done: Region, r: RdpRect, e: Encoder)
    requires Accepted(e) && OnDesktop(r, e)
    ensures CutRect(done, r, e) == done + CutRect([], r, e)
  {
    var a := Align(r);
    SizeShrinks(r, e);
    var w, h := FragmentWidth(a, e), FragmentHeight(a, e);
    CutRowsAppends(done, a, w, h, Pieces(a.width, w), Pieces(a.height, h));
  }

  /** The pixels of all aligned damage rectangles. */
  function AlignedPoints(rects: seq<RdpRect>): set<Point> {
    if rects == [] then {} else AlignedPoints(rects[..|rects| - 1]) + RectPoints(ToRect(Align(rects[|rects| - 1])))
  }

  function DamagePoints(rects: seq<RdpRect>): set<Point> {
    if rects == [] then {} else DamagePoints(rects[..|rects| - 1]) + RectPoints(ToRect(rects[|rects| - 1]))
  }

  /** All fragments together cover the damage, and exactly its alignment. */
  lemma {:induction false} AllFragmentsCover(rects: seq<RdpRect>, e: Encoder)
    requires Accepted(e) && AllOnDesktop(rects, e)
    ensures var frags := AllFragments(rects, e);
            DamagePoints(rects) <= Points(frags) == AlignedPoints(rects) && FragmentsFit(frags, e)
  {
    if rects != [] {
      var front, last := rects[..|rects| - 1], rects[|rects| - 1];
      AllFragmentsCover(front, e);
      FragmentsCover(last, e);
      CutRectAppends(AllFragments(front, e), last, e);
      PointsConcat(AllFragments(front, e), CutRect([], last, e));
    }
  }

  // -------------------------------------------------------------- packing

  /** The size of the first i bitmaps together. */
  function Before(sizes: seq<nat>, i: nat): nat
    requires i <= |sizes|
  {
    if i == 0 then 0 else Before(sizes, i - 1) + sizes[i - 1]
  }

  lemma {:induction false} BeforeMonotone(sizes: seq<nat>, a: nat, b: nat)
    requires a <= b <= |sizes|
    ensures Before(sizes, a) <= Before(sizes, b)
  {
    if a < b {
      BeforeMonotone(sizes, a, b - 1);
    }
  }

  /** Positions that cut the first n bitmaps into consecutive, non-empty PDUs: each is sent once, in order. */
  ghost predicate Cuts(cuts: seq<nat>, n: nat) {
    && |cuts| >= 1 && cuts[0] == 0 && cuts[|cuts| - 1] == n
    && forall i, j :: 0 <= i < j < |cuts| ==> cuts[i] < cuts[j]
  }

  /** The data of the i-th PDU: the bitmaps between two cuts. */
  function PduSize(sizes: seq<nat>, cuts: seq<nat>, i: nat): int
    requires i + 1 < |cuts|
  {
    if cuts[i] <= cuts[i + 1] <= |sizes| then Before(sizes, cuts[i + 1]) - Before(sizes, cuts[i]) else 0
  }

  ghost predicate PdusFit(sizes: seq<nat>, cuts: seq<nat>, max: nat) {
    forall i :: 0 <= i < |cuts| - 1 ==> PduSize(sizes, cuts, i) <= max
  }

  /** A PDU was only closed because the next bitmap did not fit. */
  ghost predicate Maximal(sizes: seq<nat>, cuts: seq<nat>, max: nat) {
    forall i :: 0 <= i < |cuts| - 2 ==> PduSize(sizes, cuts, i) + (if cuts[i + 1] < |sizes| then sizes[cuts[i + 1]] else 0) > max
  }

  /** A packing that is not ahead before a full PDU is not ahead behind it. */
  lemma NotFurther(sizes: seq<nat>, max: nat, a: nat, b: nat, c: nat, d: nat)
    requires c <= a <= b <= |sizes| && c <= d <= |sizes| && Before(sizes, d) - Before(sizes, c) <= max
    requires b < |sizes| ==> Before(sizes, b + 1) - Before(sizes, a) > max
    ensures d <= b
  {
    BeforeMonotone(sizes, c, a);
    if d > b {
      BeforeMonotone(sizes, b + 1, d);
    }
  }

  /** Greedy packing stays ahead of any other packing, PDU by PDU. */
  lemma {:induction false} StaysAhead(sizes: seq<nat>, max: nat, cuts: seq<nat>, other: seq<nat>, k: nat)
    requires Cuts(cuts, |sizes|) && Maximal(sizes, cuts, max)
    requires Cuts(other, |sizes|) && PdusFit(sizes, other, max)
    requires k < |cuts| && k < |other|
    ensures other[k] <= cuts[k]
  {
    if k > 0 {
      StaysAhead(sizes, max, cuts, other, k - 1);
      var ours, theirs := PduSize(sizes, cuts, k - 1), PduSize(sizes, other, k - 1);
      NotFurther(sizes, max, cuts[k - 1], cuts[k], other[k - 1], other[k]);
    }
  }

  /** No packing that keeps the order uses fewer PDUs. */
  lemma GreedyIsOptimal(sizes: seq<nat>, max: nat, cuts: seq<nat>, other: seq<nat>)
    requires Cuts(cuts, |sizes|) && Maximal(sizes, cuts, max)
    requires Cuts(other, |sizes|) && PdusFit(sizes, other, max)
    ensures |cuts| <= |other|
  {
    if |other| < |cuts| {
      var a, b := cuts[|other| - 1], cuts[|cuts| - 1];
      StaysAhead(sizes, max, cuts, other, |other| - 1);
    }
  }

  /** The last closed PDU is full: the next bitmap did not fit. */
  ghost predicate LastFull(sizes: seq<nat>, cuts: seq<nat>, max: nat) {
    |cuts| >= 2 && cuts[|cuts| - 1] < |sizes| ==> PduSize(sizes, cuts, |cuts| - 2) + sizes[cuts[|cuts| - 1]] > max
  }

  /** Packing so far, PDU by PDU: each fits, and each but the last is full. */
  ghost predicate Packed(sizes: seq<nat>, cuts: seq<nat>, max: nat) {
    if |cuts| <= 1 then cuts == [0]
    else
      var front := cuts[..|cuts| - 1];
      && Packed(sizes, front, max) && LastFull(sizes, front, max) && cuts[|cuts| - 2] < |sizes|
      && cuts[|cuts| - 2] < cuts[|cuts| - 1] && PduSize(sizes, cuts, |cuts| - 2) <= max
  }

  lemma CloseSizes(sizes: seq<nat>, cuts: seq<nat>, i: nat, j: nat)
    requires j + 1 < |cuts|
    ensures PduSize(sizes, cuts + [i], j) == PduSize(sizes, cuts, j)
  {}

  lemma CloseCuts(cuts: seq<nat>, i: nat)
    requires |cuts| >= 1 && Cuts(cuts, cuts[|cuts| - 1]) && cuts[|cuts| - 1] < i
    ensures Cuts(cuts + [i], i)
  {}

  lemma CloseFit(sizes: seq<nat>, cuts: seq<nat>, max: nat, i: nat)
    requires |cuts| >= 1 && PdusFit(sizes, cuts, max) && PduSize(sizes, cuts + [i], |cuts| - 1) <= max
    ensures PdusFit(sizes, cuts + [i], max)
  {
    forall j | 0 <= j < |cuts|
      ensures PduSize(sizes, cuts + [i], j) <= max
    {
      if j < |cuts| - 1 {
        CloseSizes(sizes, cuts, i, j);
      }
    }
  }

  lemma CloseMaximal(sizes: seq<nat>, cuts: seq<nat>, max: nat, i: nat)
    requires |cuts| >= 1 && Maximal(sizes, cuts, max) && LastFull(sizes, cuts, max) && cuts[|cuts| - 1] < |sizes|
    ensures Maximal(sizes, cuts + [i], max)
  {
    forall j | 0 <= j < |cuts| - 1 {
      CloseSizes(sizes, cuts, i, j);
    }
  }

  lemma {:induction false} PackedMeans(sizes: seq<nat>, cuts: seq<nat>, max: nat)
    requires Packed(sizes, cuts, max)
    ensures |cuts| >= 1 && Cuts(cuts, cuts[|cuts| - 1]) && PdusFit(sizes, cuts, max) && Maximal(sizes, cuts, max)
    decreases |cuts|
  {
    if |cuts| > 1 {
      var front, last := cuts[..|cuts| - 1], cuts[|cuts| - 1];
      assert cuts == front + [last];
      PackedMeans(sizes, front, max);
      CloseCuts(front, last);
      CloseFit(sizes, front, max, last);
      CloseMaximal(sizes, front, max, last);
    }
  }

  lemma ClosePdu(sizes: seq<nat>, cuts: seq<nat>, max: nat, i: nat)
    requires |cuts| >= 1 && Packed(sizes, cuts, max) && LastFull(sizes, cuts, max) && cuts[|cuts| - 1] < i <= |sizes|
    requires Before(sizes, i) - Before(sizes, cuts[|cuts| - 1]) <= max
    requires i < |sizes| ==> Before(sizes, i) - Before(sizes, cuts[|cuts| - 1]) + sizes[i] > max
    ensures Packed(sizes, cuts + [i], max) && LastFull(sizes, cuts + [i], max)
  {
    assert (cuts + [i])[..|cuts|] == cuts;
  }

  /**
    The packing loop: bitmaps are added to the current PDU until the next one would not fit.
    Fails exactly when a single bitmap is too large; the PDUs before it have then been sent.
  */
  method Pack(sizes: seq<nat>, maxDataSize: nat) returns (ok: bool, cuts: seq<nat>)
    requires forall i :: 0 <= i < |sizes| ==> sizes[i] > 0
    ensures ok <==> forall i :: 0 <= i < |sizes| ==> sizes[i] <= maxDataSize
    ensures |cuts| >= 1 && Packed(sizes, cuts, maxDataSize)
    ensures ok ==> cuts[|cuts| - 1] == |sizes|
    ensures !ok ==> cuts[|cuts| - 1] < |sizes| && sizes[cuts[|cuts| - 1]] > maxDataSize
  {
    cuts := [0];
    var updatePduSize, i := 0, 0;
    while i < |sizes|
      invariant 0 <= i <= |sizes| && |cuts| >= 1 && Packed(sizes, cuts, maxDataSize) && LastFull(sizes, cuts, maxDataSize)
      invariant cuts[|cuts| - 1] <= i && updatePduSize == Before(sizes, i) - Before(sizes, cuts[|cuts| - 1])
      invariant cuts[|cuts| - 1] < i ==> i < |sizes| && updatePduSize + sizes[i] <= maxDataSize
      invariant forall j :: 0 <= j < i ==> sizes[j] <= maxDataSize
    {
      BeforeMonotone(sizes, cuts[|cuts| - 1], i);
      updatePduSize := updatePduSize + sizes[i];
      if updatePduSize > maxDataSize {
        return false, cuts;
      }
      var nextSize := if i + 1 < |sizes| then sizes[i + 1] else 0;
      i := i + 1;
      if nextSize == 0 || updatePduSize + nextSize > maxDataSize {
        ClosePdu(sizes, cuts, maxDataSize, i);
        cuts := cuts + [i];
        updatePduSize := 0;
      }
    }
    ok := true;
  }

  // ---------------------------------------------------- the encoder's buffer

  /** The bytes the encoded fragments take. */
  function Encoded(frags: Region, encode: Rect -> nat): nat {
    if frags == [] then 0 else Encoded(frags[..|frags| - 1], encode) + encode(frags[|frags| - 1])
  }

  /** Every fragment finds the room it may need behind the encoded fragments before it. */
  ghost predicate Room(frags: Region, buffer: int, need: Rect -> int, encode: Rect -> nat) {
    frags == []
    || (Room(frags[..|frags| - 1], buffer, need, encode)
        && Encoded(frags[..|frags| - 1], encode) + need(frags[|frags| - 1]) <= buffer)
  }

  ghost predicate FitsBuffer(frags: Region, e: Encoder, encode: Rect -> nat) {
    Room(frags, BufferSize(e), RawOf(e), encode)
  }

  lemma {:induction false} RoomPrefix(a: Region, b: Region, buffer: int, need: Rect -> int, encode: Rect -> nat)
    requires a <= b && Room(b, buffer, need, encode)
    ensures Room(a, buffer, need, encode)
  {
    if |a| < |b| {
      RoomPrefix(a, b[..|b| - 1], buffer, need, encode);
    } else {
      assert a == b;
    }
  }

  lemma RoomSnoc(frags: Region, f: Rect, buffer: int, need: Rect -> int, encode: Rect -> nat)
    ensures Encoded(frags + [f], encode) == Encoded(frags, encode) + encode(f)
    ensures Room(frags + [f], buffer, need, encode)
            <==> Room(frags, buffer, need, encode) && Encoded(frags, encode) + need(f) <= buffer
  {
    assert (frags + [f])[..|frags|] == frags;
  }

  /** What does not fit keeps not fitting, whatever follows. */
  lemma RefusedPrefix(a: Region, b: Region, buffer: int, need: Rect -> int, encode: Rect -> nat)
    requires a <= b && !Room(a, buffer, need, encode)
    ensures !Room(b, buffer, need, encode)
  {
    if Room(b, buffer, need, encode) {
      RoomPrefix(a, b, buffer, need, encode);
    }
  }

  lemma {:induction false} RowPrefix(done: Region, r: RdpRect, w: int, top: int, bottom: int, k: nat, n: nat)
    requires k <= n
    ensures CutRow(done, r, w, top, bottom, k) <= CutRow(done, r, w, top, bottom, n)
  {
    if k < n {
      RowPrefix(done, r, w, top, bottom, k, n - 1);
    }
  }

  lemma {:induction false} RowsPrefix(done: Region, r: RdpRect, w: int, h: int, nx: nat, k: nat, n: nat)
    requires k <= n
    ensures CutRows(done, r, w, h, nx, k) <= CutRows(done, r, w, h, nx, n)
  {
    if k < n {
      RowsPrefix(done, r, w, h, nx, k, n - 1);
      var y := r.y + Times(n - 1, h);
      RowPrefix(CutRows(done, r, w, h, nx, n - 1), r, w, y, Min(y + h, r.y + r.height), 0, nx);
    }
  }

  lemma {:induction false} AllPrefix(rects: seq<RdpRect>, e: Encoder, i: nat)
    requires Accepted(e) && AllOnDesktop(rects, e) && i <= |rects|
    ensures AllFragments(rects[..i], e) <= AllFragments(rects, e)
  {
    if i < |rects| {
      var front := rects[..|rects| - 1];
      assert front[..i] == rects[..i];
      AllPrefix(front, e, i);
      CutRectAppends(AllFragments(front, e), rects[|rects| - 1], e);
    } else {
      assert rects[..i] == rects;
    }
  }

  /** One fragment: checked against the room left, then encoded. */
  method EncodeFragment(done: Region, position0: nat, f: Rect, buffer: int, need: Rect -> int, encode: Rect -> nat)
    returns (ok: bool, frags: Region, position: nat)
    requires position0 == Encoded(done, encode) && Room(done, buffer, need, encode)
    ensures ok <==> Room(done + [f], buffer, need, encode)
    ensures ok ==> frags == done + [f] && position == Encoded(frags, encode)
  {
    RoomSnoc(done, f, buffer, need, encode);
    frags, position := done, position0;
    ok := buffer - position >= need(f);
    if ok {
      frags, position := frags + [f], position + encode(f);
    }
  }

  /** Where fragment k of a row lies. */
  method RowFragment(r: RdpRect, w: nat, x: int, top: int, bottom: int, ghost k: nat) returns (f: Rect)
    requires x == r.x + Times(k, w)
    ensures f == Fragment(r, w, top, bottom, k)
  {
    var width := if x + w > r.x + r.width then r.x + r.width - x else w;
    f := Rect(x, top, x + width, bottom);
  }

  method EncodeNext(frags0: Region, position0: nat, r: RdpRect, w: nat, x: int, top: int, bottom: int,
                    buffer: int, need: Rect -> int, encode: Rect -> nat, ghost done: Region, ghost k: nat)
    returns (ok: bool, frags: Region, position: nat)
    requires x == r.x + Times(k, w) && frags0 == CutRow(done, r, w, top, bottom, k)
    requires position0 == Encoded(frags0, encode) && Room(frags0, buffer, need, encode)
    ensures ok <==> Room(CutRow(done, r, w, top, bottom, k + 1), buffer, need, encode)
    ensures ok ==> frags == CutRow(done, r, w, top, bottom, k + 1) && position == Encoded(frags, encode)
  {
    var f := RowFragment(r, w, x, top, bottom, k);
    ok, frags, position := EncodeFragment(frags0, position0, f, buffer, need, encode);
  }

  /** The inner loop: the fragments of a row. */
  method EncodeRow(done: Region, position0: nat, r: RdpRect, w: nat, top: int, bottom: int, nx: nat,
                   buffer: int, need: Rect -> int, encode: Rect -> nat)
    returns (ok: bool, frags: Region, position: nat)
    requires position0 == Encoded(done, encode) && Room(done, buffer, need, encode)
    ensures ok <==> Room(CutRow(done, r, w, top, bottom, nx), buffer, need, encode)
    ensures ok ==> frags == CutRow(done, r, w, top, bottom, nx) && position == Encoded(frags, encode)
  {
    frags, position := done, position0;
    var x, k: nat := r.x, 0;
    while k < nx
      invariant k <= nx && x == r.x + Times(k, w)
      invariant frags == CutRow(done, r, w, top, bottom, k)
      invariant position == Encoded(frags, encode) && Room(frags, buffer, need, encode)
    {
      ok, frags, position := EncodeNext(frags, position, r, w, x, top, bottom, buffer, need, encode, done, k);
      if !ok {
        RowRefused(done, r, w, top, bottom, k + 1, nx, buffer, need, encode);
        return;
      }
      x, k := x + w, k + 1;
    }
    ok := true;
  }

  lemma RowRefused(done: Region, r: RdpRect, w: int, top: int, bottom: int, k: nat, n: nat, buffer: int, need: Rect -> int, encode: Rect -> nat)
    requires k <= n && !Room(CutRow(done, r, w, top, bottom, k), buffer, need, encode)
    ensures !Room(CutRow(done, r, w, top, bottom, n), buffer, need, encode)
  {
    RowPrefix(done, r, w, top, bottom, k, n);
    RefusedPrefix(CutRow(done, r, w, top, bottom, k), CutRow(done, r, w, top, bottom, n), buffer, need, encode);
  }

  lemma RowsRefused(done: Region, r: RdpRect, w: int, h: int, nx: nat, k: nat, n: nat, buffer: int, need: Rect -> int, encode: Rect -> nat)
    requires k <= n && !Room(CutRows(done, r, w, h, nx, k), buffer, need, encode)
    ensures !Room(CutRows(done, r, w, h, nx, n), buffer, need, encode)
  {
    RowsPrefix(done, r, w, h, nx, k, n);
    RefusedPrefix(CutRows(done, r, w, h, nx, k), CutRows(done, r, w, h, nx, n), buffer, need, encode);
  }

  method RowBottom(r: RdpRect, h: nat, y: int) returns (bottom: int)
    ensures bottom == Min(y + h, r.y + r.height)
  {
    var height := if y + h > r.y + r.height then r.y + r.height - y else h;
    bottom := y + height;
  }

  method EncodeNextRow(frags0: Region, position0: nat, a: RdpRect, w: nat, h: nat, y: int, nx: nat,
                       buffer: int, need: Rect -> int, encode: Rect -> nat, ghost done: Region, ghost k: nat)
    returns (ok: bool, frags: Region, position: nat)
    requires y == a.y + Times(k, h) && frags0 == CutRows(done, a, w, h, nx, k)
    requires position0 == Encoded(frags0, encode) && Room(frags0, buffer, need, encode)
    ensures ok <==> Room(CutRows(done, a, w, h, nx, k + 1), buffer, need, encode)
    ensures ok ==> frags == CutRows(done, a, w, h, nx, k + 1) && position == Encoded(frags, encode)
  {
    var bottom := RowBottom(a, h, y);
    ok, frags, position := EncodeRow(frags0, position0, a, w, y, bottom, nx, buffer, need, encode);
  }

  /** The loop over the rows of one rectangle. */
  method EncodeRows(done: Region, position0: nat, a: RdpRect, w: nat, h: nat, nx: nat, ny: nat,
                    buffer: int, need: Rect -> int, encode: Rect -> nat)
    returns (ok: bool, frags: Region, position: nat)
    requires position0 == Encoded(done, encode) && Room(done, buffer, need, encode)
    ensures ok <==> Room(CutRows(done, a, w, h, nx, ny), buffer, need, encode)
    ensures ok ==> frags == CutRows(done, a, w, h, nx, ny) && position == Encoded(frags, encode)
  {
    frags, position := done, position0;
    var y, k: nat := a.y, 0;
    while k < ny
      invariant k <= ny && y == a.y + Times(k, h)
      invariant frags == CutRows(done, a, w, h, nx, k)
      invariant position == Encoded(frags, encode) && Room(frags, buffer, need, encode)
    {
      ok, frags, position := EncodeNextRow(frags, position, a, w, h, y, nx, buffer, need, encode, done, k);
      if !ok {
        RowsRefused(done, a, w, h, nx, k + 1, ny, buffer, need, encode);
        return;
      }
      y, k := y + h, k + 1;
    }
    ok := true;
  }

  /** One damage rectangle: alignment, fragment size and the two loops. */
  method EncodeRect(done: Region, position0: nat, r: RdpRect, e: Encoder, encode: Rect -> nat)
    returns (ok: bool, frags: Region, position: nat)
    requires Accepted(e) && OnDesktop(r, e) && position0 == Encoded(done, encode) && FitsBuffer(done, e, encode)
    ensures ok <==> FitsBuffer(CutRect(done, r, e), e, encode)
    ensures ok ==> frags == CutRect(done, r, e) && position == Encoded(frags, encode)
  {
    var a := Align(r);
    AlignIsTight(r, e.desktopWidth, e.scanLine);
    SizeShrinks(r, e);
    var w, h := FragmentSize(a.width, a.height, e.dstBytesPerPixel, MaxRectSize(e));
    var nx := CountPieces(a.width, w);
    var ny := CountPieces(a.height, h);
    ok, frags, position := EncodeRows(done, position0, a, w, h, nx, ny, BufferSize(e), RawOf(e), encode);
  }

  /** The loop over the damage rectangles: fails at the first fragment without enough room. */
  method EncodeAll(rects: seq<RdpRect>, e: Encoder, encode: Rect -> nat) returns (ok: bool, frags: Region)
    requires Accepted(e) && AllOnDesktop(rects, e)
    ensures ok <==> FitsBuffer(AllFragments(rects, e), e, encode)
    ensures ok ==> frags == AllFragments(rects, e)
  {
    frags := [];
    var position := 0;
    for i := 0 to |rects|
      invariant frags == AllFragments(rects[..i], e) && position == Encoded(frags, encode) && FitsBuffer(frags, e, encode)
    {
      assert rects[..i + 1][..i] == rects[..i];
      ok, frags, position := EncodeRect(frags, position, rects[i], e, encode);
      if !ok {
        AllPrefix(rects, e, i + 1);
        RefusedPrefix(AllFragments(rects[..i + 1], e), AllFragments(rects, e), BufferSize(e), RawOf(e), encode);
        return;
      }
    }
    assert rects[..|rects|] == rects;
    ok := true;
  }

  // -------------------------------------------------- when the buffer suffices

  /** What the encoder promises for a fragment that is not empty. */
  ghost predicate Bounded(encode: Rect -> nat, e: Encoder) {
    forall f :: !IsEmpty(f) ==> encode(f) <= Raw(f, e)
  }

  function Total(frags: Region, need: Rect -> int): int {
    if frags == [] then 0 else Total(frags[..|frags| - 1], need) + need(frags[|frags| - 1])
  }

  function RawTotal(frags: Region, e: Encoder): int {
    Total(frags, RawOf(e))
  }

  /** Content that does not compress at all. */
  function Incompressible(e: Encoder): Rect -> nat {
    (f: Rect) => if Raw(f, e) < 0 then 0 else Raw(f, e)
  }

  ghost predicate NoneEmpty(frags: Region) {
    frags == [] || (NoneEmpty(frags[..|frags| - 1]) && !IsEmpty(frags[|frags| - 1]))
  }

  lemma ProductNotNegative(a: nat, b: nat)
    ensures a * b >= 0
  {}

  lemma RawPositive(f: Rect, e: Encoder)
    requires !IsEmpty(f) && e.dstBytesPerPixel >= 1
    ensures Raw(f, e) > 0
  {
    ProductNotNegative(f.right - f.left, f.bottom - f.top);
    ProductNotNegative(Area(f), e.dstBytesPerPixel);
  }

  /** No more room than the raw total is ever needed. */
  lemma {:induction false} RawTotalSuffices(frags: Region, e: Encoder, encode: Rect -> nat)
    requires NoneEmpty(frags) && e.dstBytesPerPixel >= 1 && Bounded(encode, e) && RawTotal(frags, e) <= BufferSize(e)
    ensures FitsBuffer(frags, e, encode) && Encoded(frags, encode) <= RawTotal(frags, e)
  {
    if frags != [] {
      var front, last := frags[..|frags| - 1], frags[|frags| - 1];
      RawPositive(last, e);
      RawTotalSuffices(front, e, encode);
    }
  }

  lemma {:induction false} IncompressibleNeedsAll(frags: Region, e: Encoder)
    requires NoneEmpty(frags) && e.dstBytesPerPixel >= 1
    ensures Encoded(frags, Incompressible(e)) == RawTotal(frags, e)
    ensures frags != [] && FitsBuffer(frags, e, Incompressible(e)) ==> RawTotal(frags, e) <= BufferSize(e)
  {
    if frags != [] {
      RawPositive(frags[|frags| - 1], e);
      IncompressibleNeedsAll(frags[..|frags| - 1], e);
    }
  }

  /** The buffer suffices for every content if and only if it has room for the raw fragments. */
  lemma SufficesExactly(frags: Region, e: Encoder)
    requires NoneEmpty(frags) && frags != [] && e.dstBytesPerPixel >= 1
    ensures (forall encode: Rect -> nat :: Bounded(encode, e) ==> FitsBuffer(frags, e, encode)) <==> RawTotal(frags, e) <= BufferSize(e)
  {
    if RawTotal(frags, e) <= BufferSize(e) {
      forall encode: Rect -> nat | Bounded(encode, e)
        ensures FitsBuffer(frags, e, encode)
      {
        RawTotalSuffices(frags, e, encode);
      }
    } else {
      var worst := Incompressible(e);
      forall f | !IsEmpty(f)
        ensures worst(f) <= Raw(f, e)
      {
        RawPositive(f, e);
      }
      assert Bounded(worst, e);
      IncompressibleNeedsAll(frags, e);
    }
  }

  // ------------------------------------------------------- the main result

  function BitmapSize(f: Rect, encode: Rect -> nat): nat {
    encode(f) + BITMAP_HEADER
  }

  lemma BitmapsFit(bitmaps: Region, e: Encoder, encode: Rect -> nat)
    requires FragmentsFit(bitmaps, e) && Bounded(encode, e)
    ensures forall i :: 0 <= i < |bitmaps| ==> 0 < BitmapSize(bitmaps[i], encode) <= e.maxRequestSize - UPDATE_HEADER
  {}

  /** All bitmaps once and in order, no PDU beyond the request size, and no such packing with fewer PDUs. */
  ghost predicate WellPacked(bitmaps: Region, sizes: seq<nat>, cuts: seq<nat>, e: Encoder, encode: Rect -> nat) {
    var max := e.maxRequestSize - UPDATE_HEADER;
    && max >= 0 && |sizes| == |bitmaps| && Cuts(cuts, |sizes|) && PdusFit(sizes, cuts, max)
    && (forall i :: 0 <= i < |bitmaps| ==> sizes[i] == BitmapSize(bitmaps[i], encode))
    && (forall other :: Cuts(other, |sizes|) && PdusFit(sizes, other, max) ==> |cuts| <= |other|)
  }

  method SendPacked(bitmaps: Region, e: Encoder, encode: Rect -> nat) returns (ok: bool, sizes: seq<nat>, cuts: seq<nat>)
    requires Accepted(e) && FragmentsFit(bitmaps, e) && Bounded(encode, e)
    ensures ok && WellPacked(bitmaps, sizes, cuts, e, encode)
  {
    sizes := seq(|bitmaps|, i requires 0 <= i < |bitmaps| => BitmapSize(bitmaps[i], encode));
    BitmapsFit(bitmaps, e, encode);
    ok, cuts := Pack(sizes, e.maxRequestSize - UPDATE_HEADER);
    PackedMeans(sizes, cuts, e.maxRequestSize - UPDATE_HEADER);
    forall other | Cuts(other, |sizes|) && PdusFit(sizes, other, e.maxRequestSize - UPDATE_HEADER)
      ensures |cuts| <= |other|
    {
      GreedyIsOptimal(sizes, e.maxRequestSize - UPDATE_HEADER, cuts, other);
    }
  }

  /** The bytes of an update PDU with the bitmaps from a to b: two, and 26 for each bitmap before its data. */
  function PduBytes(bitmaps: Region, encode: Rect -> nat, a: nat, b: nat): nat
    requires a <= b <= |bitmaps|
  {
    if a == b then 2 else PduBytes(bitmaps, encode, a, b - 1) + 26 + encode(bitmaps[b - 1])
  }

  lemma {:induction false} PduBytesAre(bitmaps: Region, sizes: seq<nat>, encode: Rect -> nat, a: nat, b: nat)
    requires a <= b <= |bitmaps| == |sizes| && forall i :: 0 <= i < |bitmaps| ==> sizes[i] == BitmapSize(bitmaps[i], encode)
    ensures PduBytes(bitmaps, encode, a, b) == 2 + Before(sizes, b) - Before(sizes, a)
  {
    if a < b {
      PduBytesAre(bitmaps, sizes, encode, a, b - 1);
    }
  }

  /** No PDU of a packing exceeds the request size. */
  lemma PdusWithinRequest(bitmaps: Region, sizes: seq<nat>, cuts: seq<nat>, e: Encoder, encode: Rect -> nat, i: nat)
    requires WellPacked(bitmaps, sizes, cuts, e, encode) && i + 1 < |cuts|
    ensures cuts[i] <= cuts[i + 1] <= |bitmaps| && PduBytes(bitmaps, encode, cuts[i], cuts[i + 1]) <= e.maxRequestSize
  {
    PduBytesAre(bitmaps, sizes, encode, cuts[i], cuts[i + 1]);
    assert PduSize(sizes, cuts, i) <= e.maxRequestSize - UPDATE_HEADER;
  }

  /**
    ogon_send_bitmap_bits succeeds if and only if there is damage and every fragment finds the room it may
    need in the encoder's buffer. Then the bitmaps cover the damage and are well packed. Otherwise nothing
    has been sent.
  */
  method SendBitmapBits(rects: seq<RdpRect>, e: Encoder, encode: Rect -> nat)
    returns (ok: bool, bitmaps: Region, sizes: seq<nat>, cuts: seq<nat>)
    requires Accepted(e) && AllOnDesktop(rects, e) && Bounded(encode, e)
    ensures ok <==> rects != [] && FitsBuffer(AllFragments(rects, e), e, encode)
    ensures ok ==> bitmaps == AllFragments(rects, e) && DamagePoints(rects) <= Points(bitmaps) == AlignedPoints(rects)
    ensures ok ==> WellPacked(bitmaps, sizes, cuts, e, encode)
    ensures !ok ==> cuts == [0]
  {
    sizes, cuts := [], [0];
    if rects == [] {
      return false, [], sizes, cuts;
    }
    ok, bitmaps := EncodeAll(rects, e, encode);
    if ok {
      AllFragmentsCover(rects, e);
      ok, sizes, cuts := SendPacked(bitmaps, e, encode);
    }
  }

  // ------------------------------------------------ what the buffer must hold

  /** The room a rectangle may need: its aligned area, and a header for each fragment. */
  function Needs(r: RdpRect, e: Encoder): int
    requires Accepted(e) && OnDesktop(r, e)
  {
    var a := Align(r);
    SizeShrinks(r, e);
    a.height * (a.width * e.dstBytesPerPixel)
    + RLE_HEADER * (Pieces(a.height, FragmentHeight(a, e)) * Pieces(a.width, FragmentWidth(a, e)))
  }

  function NeedsAll(rects: seq<RdpRect>, e: Encoder): int
    requires Accepted(e) && AllOnDesktop(rects, e)
  {
    if rects == [] then 0 else NeedsAll(rects[..|rects| - 1], e) + Needs(rects[|rects| - 1], e)
  }

  lemma Distribute(a: int, b: int, c: int)
    ensures (a + b) * c == a * c + b * c
  {}

  lemma TotalSnoc(frags: Region, f: Rect, need: Rect -> int)
    ensures Total(frags + [f], need) == Total(frags, need) + need(f)
  {
    assert (frags + [f])[..|frags|] == frags;
  }

  /** Fragment j needs its part of the row, and a header. */
  ghost predicate Part(r: RdpRect, w: int, top: int, bottom: int, need: Rect -> int, part: nat -> int, j: nat) {
    need(Fragment(r, w, top, bottom, j)) == part(j + 1) - part(j) + RLE_HEADER
  }

  lemma {:induction false} RowTotal(done: Region, r: RdpRect, w: int, top: int, bottom: int, k: nat, need: Rect -> int, part: nat -> int)
    requires part(0) == 0 && forall j: nat :: j < k ==> Part(r, w, top, bottom, need, part, j)
    ensures Total(CutRow(done, r, w, top, bottom, k), need) == Total(done, need) + part(k) + RLE_HEADER * k
  {
    if k > 0 {
      RowTotal(done, r, w, top, bottom, k - 1, need, part);
      assert Part(r, w, top, bottom, need, part, k - 1);
      TotalSnoc(CutRow(done, r, w, top, bottom, k - 1), Fragment(r, w, top, bottom, k - 1), need);
    }
  }

  lemma FragmentPart(r: RdpRect, w: int, top: int, bottom: int, nx: nat, j: nat, e: Encoder, c: int)
    requires r.width >= 1 && w >= 1 && Cut(nx, r.width, w) && j < nx && c == (bottom - top) * e.dstBytesPerPixel
    ensures Raw(Fragment(r, w, top, bottom, j), e) == (RowEnd(r, w, j + 1) - r.x) * c - (RowEnd(r, w, j) - r.x) * c + RLE_HEADER
  {
    RowStep(r, w, nx, j);
    var a, b := RowEnd(r, w, j) - r.x, RowEnd(r, w, j + 1) - RowEnd(r, w, j);
    Distribute(a, b, c);
    assert b * (bottom - top) * e.dstBytesPerPixel == b * c;
  }

  /** A whole row needs its pixels and a header for each fragment. */
  lemma WholeRow(done: Region, r: RdpRect, w: int, top: int, bottom: int, nx: nat, e: Encoder)
    requires r.width >= 1 && w >= 1 && Cut(nx, r.width, w)
    ensures RawTotal(CutRow(done, r, w, top, bottom, nx), e)
         == RawTotal(done, e) + (bottom - top) * (r.width * e.dstBytesPerPixel) + RLE_HEADER * nx
  {
    var c := (bottom - top) * e.dstBytesPerPixel;
    var part := (j: nat) => (RowEnd(r, w, j) - r.x) * c;
    assert RowEnd(r, w, 0) == r.x && RowEnd(r, w, nx) == r.x + r.width;
    forall j: nat | j < nx
      ensures Part(r, w, top, bottom, RawOf(e), part, j)
    {
      FragmentPart(r, w, top, bottom, nx, j, e, c);
    }
    RowTotal(done, r, w, top, bottom, nx, RawOf(e), part);
    Exchange(r.width, bottom - top, e.dstBytesPerPixel);
  }

  lemma Exchange(a: int, b: int, c: int)
    ensures a * (b * c) == b * (a * c)
  {}

  /** How far a rectangle is cut after k rows. */
  function RowsEnd(r: RdpRect, h: int, k: nat): int {
    Min(r.y + Times(k, h), r.y + r.height)
  }

  lemma {:induction false} RowsTotal(done: Region, r: RdpRect, w: int, h: int, nx: nat, ny: nat, k: nat, e: Encoder, line: int)
    requires r.width >= 1 && r.height >= 1 && w >= 1 && h >= 1 && Cut(nx, r.width, w) && Cut(ny, r.height, h) && k <= ny
    requires line == r.width * e.dstBytesPerPixel
    ensures RawTotal(CutRows(done, r, w, h, nx, k), e) == RawTotal(done, e) + (RowsEnd(r, h, k) - r.y) * line + RLE_HEADER * Times(k, nx)
    decreases k
  {
    if k > 0 {
      RowsTotal(done, r, w, h, nx, ny, k - 1, e, line);
      PieceStart(k - 1, ny, r.height, h);
      var top := r.y + Times(k - 1, h);
      var bottom := Min(top + h, r.y + r.height);
      WholeRow(CutRows(done, r, w, h, nx, k - 1), r, w, top, bottom, nx, e);
      Distribute(top - r.y, bottom - top, line);
    }
  }

  lemma RectTotal(done: Region, r: RdpRect, e: Encoder)
    requires Accepted(e) && OnDesktop(r, e)
    ensures RawTotal(CutRect(done, r, e), e) == RawTotal(done, e) + Needs(r, e)
  {
    var a := Align(r);
    AlignIsTight(r, e.desktopWidth, e.scanLine);
    SizeShrinks(r, e);
    var w, h := FragmentWidth(a, e), FragmentHeight(a, e);
    var nx, ny := Pieces(a.width, w), Pieces(a.height, h);
    RowsTotal(done, a, w, h, nx, ny, ny, e, a.width * e.dstBytesPerPixel);
    TimesIsProduct(ny, nx);
  }

  lemma {:induction false} AllTotal(rects: seq<RdpRect>, e: Encoder)
    requires Accepted(e) && AllOnDesktop(rects, e)
    ensures RawTotal(AllFragments(rects, e), e) == NeedsAll(rects, e)
  {
    if rects != [] {
      AllTotal(rects[..|rects| - 1], e);
      RectTotal(AllFragments(rects[..|rects| - 1], e), rects[|rects| - 1], e);
    }
  }

  lemma {:induction false} FittingIsNotEmpty(frags: Region, e: Encoder)
    requires FragmentsFit(frags, e)
    ensures NoneEmpty(frags)
  {
    if frags != [] {
      assert Fits(frags[|frags| - 1], 64, 64);
      FittingIsNotEmpty(frags[..|frags| - 1], e);
    }
  }

  lemma DamageHasFragments(rects: seq<RdpRect>, e: Encoder)
    requires Accepted(e) && AllOnDesktop(rects, e) && rects != []
    ensures AllFragments(rects, e) != []
  {
    AllFragmentsCover(rects, e);
    var r := rects[|rects| - 1];
    assert Point(r.x, r.y) in RectPoints(ToRect(r));
    assert Point(r.x, r.y) in DamagePoints(rects);
  }

  /**
    What a caller can check: whatever the content is, sending succeeds if and only if the aligned areas, and three
    bytes for each fragment, fit the buffer.
  */
  lemma BufferSufficesExactly(rects: seq<RdpRect>, e: Encoder)
    requires Accepted(e) && AllOnDesktop(rects, e) && rects != []
    ensures (forall encode: Rect -> nat :: Bounded(encode, e) ==> FitsBuffer(AllFragments(rects, e), e, encode))
            <==> NeedsAll(rects, e) <= BufferSize(e)
  {
    AllFragmentsCover(rects, e);
    FittingIsNotEmpty(AllFragments(rects, e), e);
    DamageHasFragments(rects, e);
    AllTotal(rects, e);
    SufficesExactly(AllFragments(rects, e), e);
  }

  // ------------------------------------------------------- ordinary desktops

  /** A desktop of at least 64 x 64 pixels, in whole columns, and a client that takes a whole 64 x 64 bitmap. */
  predicate Ordinary(e: Encoder) {
    e.desktopWidth % 4 == 0 && e.desktopWidth >= 64 && e.desktopHeight >= 64 && e.maxRequestSize >= 2 + 26 + 3 + 64 * 64 * e.dstBytesPerPixel
  }

  function WholeScreen(e: Encoder): RdpRect { RdpRect(0, 0, e.desktopWidth, e.desktopHeight) }

  lemma WholeScreenAligned(e: Encoder)
    requires e.desktopWidth % 4 == 0
    ensures Align(WholeScreen(e)) == WholeScreen(e)
  {}

  lemma {:induction false} FewPieces(n: int, d: int)
    requires n >= d >= 1
    ensures Times(Pieces(n, d), d) <= 2 * n
  {
    PiecesCut(n, d);
  }

  /** The headers take a small part of the tenth that is reserved. */
  lemma HeadersFit(w: nat, h: nat, bytes: nat, nx: nat, ny: nat)
    requires 32 * nx <= w && 32 * ny <= h && w >= 64 && h >= 64 && bytes >= 2
    ensures h * (w * bytes) + 3 * (ny * nx) <= w * h * bytes + w * h * bytes / 10
  {
    Regrouped(w, h, bytes);
    ManyPixels(w, h, nx, ny);
    var raw := w * h * bytes;
    assert raw >= 2 * (w * h) by { MoreBytes(w * h, bytes); }
  }

  lemma Regrouped(w: int, h: int, bytes: int)
    ensures h * (w * bytes) == w * h * bytes
  {}

  lemma MoreBytes(pixels: nat, bytes: nat)
    requires bytes >= 2
    ensures pixels * bytes >= 2 * pixels
  {}

  lemma ManyPixels(w: nat, h: nat, nx: nat, ny: nat)
    requires 32 * nx <= w && 32 * ny <= h && w >= 64 && h >= 64
    ensures 1024 * (ny * nx) <= w * h && w * h >= 4096
  {
    ProductGrows(32 * nx, w, 32 * ny, h);
    ProductGrows(64, w, 64, h);
    Scaled(nx, ny);
  }

  lemma ProductGrows(a: nat, b: nat, c: nat, d: nat)
    requires a <= b && c <= d
    ensures a * c <= b * d
  {
    assert a * c <= b * c;
    assert b * c <= b * d;
  }

  lemma Scaled(nx: nat, ny: nat)
    ensures (32 * nx) * (32 * ny) == 1024 * (ny * nx)
  {}

  lemma WholeFragments(e: Encoder)
    requires Accepted(e) && Ordinary(e)
    ensures var a := WholeScreen(e); FragmentWidth(a, e) == 64 && FragmentHeight(a, e) == 64
  {
    assert 64 * e.dstBytesPerPixel <= MaxRectSize(e) && 64 * 64 * e.dstBytesPerPixel <= MaxRectSize(e);
  }

  /** On such a desktop a full-screen update never fails, whatever its content. */
  lemma FullScreenFits(e: Encoder)
    requires Accepted(e) && Ordinary(e)
    ensures AllOnDesktop([WholeScreen(e)], e)
    ensures forall encode: Rect -> nat :: Bounded(encode, e) ==> FitsBuffer(AllFragments([WholeScreen(e)], e), e, encode)
  {
    var r := WholeScreen(e);
    WholeScreenAligned(e);
    WholeFragments(e);
    WholeNeeds(e);
    assert [r][..0] == [];
    BufferSufficesExactly([r], e);
  }

  lemma WholeNeeds(e: Encoder)
    requires Accepted(e) && Ordinary(e) && OnDesktop(WholeScreen(e), e) && Align(WholeScreen(e)) == WholeScreen(e)
    requires var a := WholeScreen(e); FragmentWidth(a, e) == 64 && FragmentHeight(a, e) == 64
    ensures Needs(WholeScreen(e), e) <= BufferSize(e)
  {
    var nx, ny := Pieces(e.desktopWidth, 64), Pieces(e.desktopHeight, 64);
    FewPieces(e.desktopWidth, 64);
    FewPieces(e.desktopHeight, 64);
    TimesIsProduct(nx, 64);
    TimesIsProduct(ny, 64);
    HeadersFit(e.desktopWidth, e.desktopHeight, e.dstBytesPerPixel, nx, ny);
  }

  /** Damage inside four pixels of a line is one fragment. */
  lemma OneFragment(done: Region, r: RdpRect, e: Encoder)
    requires Accepted(e) && OnDesktop(r, e) && Align(r).width == 4 && r.height == 1
    ensures var a := Align(r); CutRect(done, r, e) == done + [Rect(a.x, a.y, a.x + 4, a.y + 1)]
    ensures Needs(r, e) == 4 * e.dstBytesPerPixel + RLE_HEADER
  {
    var a := Align(r);
    SizeShrinks(r, e);
    assert FragmentWidth(a, e) == 4 && FragmentHeight(a, e) == 1;
    assert Pieces(0, 4) == 0 && Pieces(4, 4) == 1 && Pieces(0, 1) == 0 && Pieces(1, 1) == 1;
    OneRow(done, a);
  }

  lemma OneRow(done: Region, a: RdpRect)
    requires a.width == 4 && a.height == 1
    ensures CutRows(done, a, 4, 1, 1, 1) == done + [Rect(a.x, a.y, a.x + 4, a.y + 1)]
  {
    assert CutRows(done, a, 4, 1, 1, 0) == done;
    assert CutRow(done, a, 4, a.y, a.y + 1, 0) == done;
    assert Times(0, 4) == 0 && Times(0, 1) == 0;
  }

  lemma OneRect(r: RdpRect, e: Encoder)
    requires Accepted(e) && OnDesktop(r, e)
    ensures AllFragments([r], e) == CutRect([], r, e) && NeedsAll([r], e) == Needs(r, e)
  {
    assert [r][..0] == [];
  }

  lemma TwoRects(r0: RdpRect, r1: RdpRect, e: Encoder)
    requires Accepted(e) && OnDesktop(r0, e) && OnDesktop(r1, e)
    ensures NeedsAll([r0, r1], e) == Needs(r0, e) + Needs(r1, e)
  {
    assert [r0, r1][..1] == [r0];
    OneRect(r0, e);
  }

  lemma RawTooLarge(rects: seq<RdpRect>, e: Encoder)
    requires Accepted(e) && AllOnDesktop(rects, e) && rects != [] && NeedsAll(rects, e) > BufferSize(e)
    ensures !FitsBuffer(AllFragments(rects, e), e, Incompressible(e))
  {
    AllTotal(rects, e);
    AllFragmentsCover(rects, e);
    FittingIsNotEmpty(AllFragments(rects, e), e);
    DamageHasFragments(rects, e);
    IncompressibleNeedsAll(AllFragments(rects, e), e);
  }

  lemma PixelFails(e: Encoder, r: RdpRect, encode: Rect -> nat)
    requires Accepted(e) && OnDesktop(r, e) && r.x < 4 && r.width == r.height == 1
    requires 4 * e.dstBytesPerPixel + RLE_HEADER > BufferSize(e)
    ensures !FitsBuffer(AllFragments([r], e), e, encode)
  {
    var a := Align(r);
    var f := Rect(a.x, a.y, a.x + 4, a.y + 1);
    PixelAligns(r);
    OneRect(r, e);
    OneFragment([], r, e);
    RoomSnoc([], f, BufferSize(e), RawOf(e), encode);
  }

  lemma TwoPixelsFail(e: Encoder, r0: RdpRect, r1: RdpRect)
    requires Accepted(e) && OnDesktop(r0, e) && OnDesktop(r1, e)
    requires r0.x < 4 && r1.x < 4 && r0.width == r0.height == r1.width == r1.height == 1
    requires 8 * e.dstBytesPerPixel + 2 * RLE_HEADER > BufferSize(e)
    ensures !FitsBuffer(AllFragments([r0, r1], e), e, Incompressible(e))
  {
    PixelAligns(r0);
    PixelAligns(r1);
    OneFragment([], r0, e);
    OneFragment([], r1, e);
    TwoRects(r0, r1, e);
    RawTooLarge([r0, r1], e);
  }

  lemma PixelAligns(r: RdpRect)
    requires 0 <= r.x < 4 && r.width == 1
    ensures Align(r).width == 4
  {
    assert r.x % 4 == r.x;
  }

  /** The smallest desktop: its one aligned pixel is larger than the whole buffer. */
  predicate SmallestDesktop(e: Encoder, r: RdpRect) {
    && e.desktopWidth == e.desktopHeight == 1 && e.scanLine == 16 && e.dstBytesPerPixel == 2 && e.maxRequestSize == 1024
    && r.x == r.y == 0 && r.width == r.height == 1
  }

  lemma SmallestDesktopBuffer(e: Encoder, r: RdpRect)
    requires SmallestDesktop(e, r)
    ensures 4 * e.dstBytesPerPixel + RLE_HEADER > BufferSize(e)
  {}

  lemma SmallestDesktopIs(e: Encoder, r: RdpRect)
    requires SmallestDesktop(e, r)
    ensures Accepted(e) && OnDesktop(r, e)
  {}

  /** There sending fails whatever the content. */
  lemma SmallestDesktopFails(e: Encoder, r: RdpRect, encode: Rect -> nat)
    requires SmallestDesktop(e, r)
    ensures Accepted(e) && OnDesktop(r, e) && !FitsBuffer(AllFragments([r], e), e, encode)
  {
    SmallestDesktopIs(e, r);
    SmallestDesktopBuffer(e, r);
    PixelFails(e, r, encode);
  }

  /** A line of eight pixels with two of them damaged, which share their aligned columns. */
  predicate SharedColumns(e: Encoder, r0: RdpRect, r1: RdpRect) {
    && e.desktopWidth == 8 && e.desktopHeight == 1 && e.scanLine == 32 && e.dstBytesPerPixel == 4 && e.maxRequestSize == 1024
    && r0.x == 0 && r1.x == 2 && r0.y == r1.y == 0 && r0.width == r0.height == r1.width == r1.height == 1
  }

  lemma SharedColumnsBuffer(e: Encoder, r0: RdpRect, r1: RdpRect)
    requires SharedColumns(e, r0, r1)
    ensures 8 * e.dstBytesPerPixel + 2 * RLE_HEADER > BufferSize(e)
  {}

  lemma SharedColumnsAre(e: Encoder, r0: RdpRect, r1: RdpRect)
    requires SharedColumns(e, r0, r1)
    ensures Accepted(e) && OnDesktop(r0, e) && OnDesktop(r1, e)
  {}

  /** Each is one fragment, and content that does not compress fails. */
  lemma SharedColumnsFail(e: Encoder, r0: RdpRect, r1: RdpRect)
    requires SharedColumns(e, r0, r1)
    ensures Accepted(e) && AllOnDesktop([r0, r1], e) && !FitsBuffer(AllFragments([r0, r1], e), e, Incompressible(e))
  {
    SharedColumnsAre(e, r0, r1);
    SharedColumnsBuffer(e, r0, r1);
    TwoPixelsFail(e, r0, r1);
  }
}
