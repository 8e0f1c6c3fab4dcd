/**
  Finding out what a client does not show yet (rdp-server/graphics.c).

  The client view is a copy of what the client shows. The damaged region is walked
  tile by tile, compared with the framebuffer row by row, and the client view is
  brought up to date in place; only what differs is reported.

  A framebuffer is a row-major buffer of 32-bit pixels whose row length is the scan
  line, so it is held as a two-dimensional array indexed by row and column.
*/
module TileDiff {
  import opened Common
  import opened Regions

  type Pixel = p: nat | p < 0x1_0000_0000

  /** The contents of a framebuffer, or what a client shows. */
  type Screen = map<Point, Pixel>

  // ----------------------------------------------------- screens as values

  /** v, with the pixels in s taken from f. */
  function Absorb(v: Screen, f: Screen, s: set<Point>): Screen {
    map p | p in v.Keys :: if p in s && p in f then f[p] else v[p]
  }

  /** The pixels of s where two screens differ. */
  function Differing(v: Screen, f: Screen, s: set<Point>): set<Point> {
    set p | p in s && p in v && p in f && v[p] != f[p]
  }

  lemma AbsorbTwice(v: Screen, f: Screen, s: set<Point>, t: set<Point>)
    ensures Absorb(Absorb(v, f, s), f, t) == Absorb(v, f, s + t)
    ensures Differing(Absorb(v, f, s), f, t) == Differing(v, f, t) - s
  {}

  // -------------------------------------------------------- one rectangle

  function Bounds(a: array2<Pixel>): Rect {
    Rect(0, 0, a.Length1, a.Length0)
  }

  function Shot(a: array2<Pixel>): (s: Screen)
    reads a
    ensures s.Keys == RectPoints(Bounds(a))
  {
    map p | p in RectPoints(Bounds(a)) :: a[p.y, p.x]
  }

  predicate SameRow(view: array2<Pixel>, fb: array2<Pixel>, y: int, r: Rect)
    requires RectWithin(r, Bounds(view)) && RectWithin(r, Bounds(fb)) && r.top <= y < r.bottom
    reads view, fb
  {
    forall x :: r.left <= x < r.right ==> view[y, x] == fb[y, x]
  }

  /**
    ogon_compare_and_update_framebuffer_copy: skip the leading rows that agree, then
    copy the remaining ones. Reports whether the whole rectangle agreed; (dx, dy) is a
    pixel where it did not.
  */
  method CompareAndUpdate(view: array2<Pixel>, fb: array2<Pixel>, r: Rect) returns (same: bool, ghost dx: int, ghost dy: int)
    requires view != fb && RectWithin(r, Bounds(view)) && Bounds(view) == Bounds(fb)
    modifies view
    ensures same ==> forall x, y :: r.left <= x < r.right && r.top <= y < r.bottom ==> old(view[y, x]) == fb[y, x]
    ensures !same ==> r.left <= dx < r.right && r.top <= dy < r.bottom && old(view[dy, dx]) != fb[dy, dx]
    ensures forall x, y :: 0 <= x < view.Length1 && 0 <= y < view.Length0 ==>
              view[y, x] == if r.left <= x < r.right && r.top <= y < r.bottom then fb[y, x] else old(view[y, x])
  {
    var i := r.top;
    while i < r.bottom && SameRow(view, fb, i, r)
      invariant r.top <= i <= r.bottom
      invariant forall x, y :: r.left <= x < r.right && r.top <= y < i ==> view[y, x] == fb[y, x]
      invariant forall x, y :: 0 <= x < view.Length1 && 0 <= y < view.Length0 ==> view[y, x] == old(view[y, x])
    {
      i := i + 1;
    }
    same, dx, dy := i == r.bottom, r.left, i;
    if !same {
      dx :| r.left <= dx < r.right && view[i, dx] != fb[i, dx];
    }
    while i < r.bottom
      invariant r.top <= i <= r.bottom
      invariant forall x, y :: 0 <= x < view.Length1 && 0 <= y < view.Length0 ==>
                  view[y, x] == if r.left <= x < r.right && r.top <= y < i then fb[y, x] else old(view[y, x])
    {
      forall x | r.left <= x < r.right {
        view[i, x] := fb[i, x];
      }
      i := i + 1;
    }
  }

  method DiffRect(view: array2<Pixel>, fb: array2<Pixel>, r: Rect) returns (same: bool)
    requires view != fb && RectWithin(r, Bounds(view)) && Bounds(view) == Bounds(fb)
    modifies view
    ensures same <==> Differing(old(Shot(view)), Shot(fb), RectPoints(r)) == {}
    ensures Shot(view) == Absorb(old(Shot(view)), Shot(fb), RectPoints(r))
  {
    ghost var v, f := Shot(view), Shot(fb);
    ghost var dx, dy;
    same, dx, dy := CompareAndUpdate(view, fb, r);
    assert same <==> Differing(v, f, RectPoints(r)) == {} by {
      if !same {
        assert Point(dx, dy) in Differing(v, f, RectPoints(r));
      }
    }
    forall p | p in f.Keys
      ensures Shot(view)[p] == Absorb(v, f, RectPoints(r))[p]
    {
    }
  }

  // ---------------------------------------------- the algorithm on values

  /** Comparing and updating rectangles in order: the new view and the rectangles that differed. */
  function DiffRects(v: Screen, f: Screen, rects: Region): (Screen, Region) {
    if rects == [] then (v, [])
    else
      var (w, c) := DiffRects(v, f, rects[..|rects| - 1]);
      var r := rects[|rects| - 1];
      (Absorb(w, f, RectPoints(r)), if Differing(w, f, RectPoints(r)) == {} then c else c + [r])
  }

  lemma DiffMore(v: Screen, f: Screen, s: set<Point>, t: set<Point>, c: set<Point>)
    requires Differing(v, f, s) <= c <= s
    ensures var w := Absorb(v, f, s);
            && (Differing(w, f, t) == {} ==> Differing(v, f, s + t) == Differing(v, f, s))
            && (Differing(w, f, t) != {} ==> Differing(v, f, s + t) != {})
            && Differing(v, f, s + t) <= c + t
  {
    AbsorbTwice(v, f, s, t);
    assert Differing(v, f, s + t) == Differing(v, f, s) + (Differing(v, f, t) - s);
  }

  lemma PointsSnoc(g: Region, r: Rect)
    ensures Points(g + [r]) == Points(g) + RectPoints(r)
  {
    assert (g + [r])[..|g|] == g;
  }

  /** The view is brought up to date on exactly the compared pixels, and nothing that differed is missed. */
  lemma {:induction false} DiffRectsMeaning(v: Screen, f: Screen, rects: Region)
    ensures var (w, c) := DiffRects(v, f, rects);
            && w == Absorb(v, f, Points(rects))
            && Differing(v, f, Points(rects)) <= Points(c) <= Points(rects)
            && (c == [] <==> Differing(v, f, Points(rects)) == {})
  {
    if rects != [] {
      var before, r := rects[..|rects| - 1], rects[|rects| - 1];
      DiffRectsMeaning(v, f, before);
      var (w, c) := DiffRects(v, f, before);
      AbsorbTwice(v, f, Points(before), RectPoints(r));
      DiffMore(v, f, Points(before), RectPoints(r), Points(c));
      PointsSnoc(c, r);
    }
  }

  lemma {:induction false} DiffRectsWithin(v: Screen, f: Screen, rects: Region, box: Rect)
    requires Within(rects, box)
    ensures Within(DiffRects(v, f, rects).1, box)
  {
    if rects != [] {
      DiffRectsWithin(v, f, rects[..|rects| - 1], box);
    }
  }

  /** One tile: the rectangles that differ or, in full-tile mode, the whole tile. */
  function DiffTile(v: Screen, f: Screen, input: Region, tile: Rect, fullTiles: bool): (Screen, Region) {
    var (w, c) := DiffRects(v, f, IntersectRect(input, tile));
    (w, if fullTiles && c != [] then UnionRect([], tile) else if fullTiles then [] else c)
  }

  function DiffTiles(v: Screen, f: Screen, input: Region, tiles: Region, fullTiles: bool): (Screen, Region) {
    if tiles == [] then (v, [])
    else
      var (w, c) := DiffTiles(v, f, input, tiles[..|tiles| - 1], fullTiles);
      var (w', c') := DiffTile(w, f, input, tiles[|tiles| - 1], fullTiles);
      (w', c + c')
  }

  /** Damage reported for tiles that hold a changed input pixel only. */
  ghost predicate OnlyStaleTiles(v: Screen, f: Screen, input: set<Point>, tiles: Region, damage: set<Point>) {
    forall p :: p in damage ==>
      exists i :: 0 <= i < |tiles| && Inside(tiles[i], p) && Differing(v, f, input * RectPoints(tiles[i])) != {}
  }

  lemma DiffTileMeaning(v: Screen, f: Screen, input: Region, tile: Rect, fullTiles: bool)
    ensures var (w, c) := DiffTile(v, f, input, tile, fullTiles);
            var part := Points(input) * RectPoints(tile);
            && w == Absorb(v, f, part)
            && Differing(v, f, part) <= Points(c)
            && Points(c) <= RectPoints(tile) && (c != [] ==> Differing(v, f, part) != {})
            && (fullTiles || Points(c) <= part)
  {
    DiffRectsMeaning(v, f, IntersectRect(input, tile));
  }

  lemma {:induction false} DiffTilesMeaning(v: Screen, f: Screen, input: Region, tiles: Region, fullTiles: bool)
    ensures var (w, c) := DiffTiles(v, f, input, tiles, fullTiles);
            && w == Absorb(v, f, Points(input) * Points(tiles))
            && Differing(v, f, Points(input) * Points(tiles)) <= Points(c)
            && OnlyStaleTiles(v, f, Points(input), tiles, Points(c))
            && (fullTiles || Points(c) <= Points(input))
  {
    if tiles != [] {
      var before, tile := tiles[..|tiles| - 1], tiles[|tiles| - 1];
      DiffTilesMeaning(v, f, input, before, fullTiles);
      var (w, c) := DiffTiles(v, f, input, before, fullTiles);
      var (w', c') := DiffTile(w, f, input, tile, fullTiles);
      DiffTileMeaning(w, f, input, tile, fullTiles);
      var s, t := Points(input) * Points(before), Points(input) * RectPoints(tile);
      AbsorbTwice(v, f, s, t);
      assert s + t == Points(input) * Points(tiles);
      PointsConcat(c, c');
    }
  }

  // ------------------------------------------------------- the tile grid

  /** C division: truncates toward zero. */
  function CDiv(a: int, b: int): int
    requires b > 0
  {
    if a >= 0 then a / b else -((-a) / b)
  }

  /** The graphics channel uses 64-pixel tiles and reports them whole, the other paths 32-pixel tiles. */
  function TileSize(fullTiles: bool): (n: int)
    ensures n > 0
  {
    if fullTiles then 64 else 32
  }

  function Line(fullTiles: bool, k: int): int {
    if fullTiles then 64 * k else 32 * k
  }

  function GridTile(fullTiles: bool, a: int, b: int): Rect {
    Rect(Line(fullTiles, a), Line(fullTiles, b), Line(fullTiles, a + 1), Line(fullTiles, b + 1))
  }

  ghost predicate InGrid(fullTiles: bool, tiles: Region) {
    forall i :: 0 <= i < |tiles| ==> exists a, b :: RectPoints(tiles[i]) <= RectPoints(GridTile(fullTiles, a, b))
  }

  /**
    What the diff promises: the view is current on the input and untouched elsewhere, every
    input pixel that differed is damage, damage lies in grid tiles with such a pixel, and
    inside the input unless whole tiles are reported.
  */
  ghost predicate Diffed(v: Screen, f: Screen, input: set<Point>, fullTiles: bool, v': Screen, damage: set<Point>) {
    && v' == Absorb(v, f, input)
    && Differing(v, f, input) <= damage
    && StaleGridTiles(v, f, input, fullTiles, damage)
    && (fullTiles || damage <= input)
  }

  ghost predicate StaleGridTiles(v: Screen, f: Screen, input: set<Point>, fullTiles: bool, damage: set<Point>) {
    forall p :: p in damage ==>
      exists a, b :: Inside(GridTile(fullTiles, a, b), p) && Differing(v, f, input * RectPoints(GridTile(fullTiles, a, b))) != {}
  }

  lemma TilesToGrid(v: Screen, f: Screen, input: set<Point>, tiles: Region, fullTiles: bool, damage: set<Point>)
    requires OnlyStaleTiles(v, f, input, tiles, damage) && InGrid(fullTiles, tiles)
    ensures StaleGridTiles(v, f, input, fullTiles, damage)
  {
    forall p | p in damage
      ensures exists a, b :: Inside(GridTile(fullTiles, a, b), p) && Differing(v, f, input * RectPoints(GridTile(fullTiles, a, b))) != {}
    {
      var i :| 0 <= i < |tiles| && Inside(tiles[i], p) && Differing(v, f, input * RectPoints(tiles[i])) != {};
      var a, b :| RectPoints(tiles[i]) <= RectPoints(GridTile(fullTiles, a, b));
      var q :| q in Differing(v, f, input * RectPoints(tiles[i]));
      assert p in RectPoints(tiles[i]) && p in RectPoints(GridTile(fullTiles, a, b));
      assert q in Differing(v, f, input * RectPoints(GridTile(fullTiles, a, b)));
    }
  }

  /** Any tiles that stay in the grid and reach all of the input will do. */
  lemma DiffedByTiles(v: Screen, f: Screen, input: Region, tiles: Region, fullTiles: bool)
    requires Points(input) <= Points(tiles) && InGrid(fullTiles, tiles)
    ensures var (w, c) := DiffTiles(v, f, input, tiles, fullTiles);
            Diffed(v, f, Points(input), fullTiles, w, Points(c))
  {
    DiffTilesMeaning(v, f, input, tiles, fullTiles);
    assert Points(input) * Points(tiles) == Points(input);
    TilesToGrid(v, f, Points(input), tiles, fullTiles, Points(DiffTiles(v, f, input, tiles, fullTiles).1));
  }

  /** No frame is produced when nothing differs. */
  /** Every reported pixel is close to one that differed: in the same tile of 64 x 64 pixels, or of 32 x 32. */
  lemma DamageIsNear(v: Screen, f: Screen, input: set<Point>, fullTiles: bool, v': Screen, damage: set<Point>, p: Point)
    requires Diffed(v, f, input, fullTiles, v', damage) && p in damage
    ensures exists q :: q in Differing(v, f, input)
                     && if fullTiles then q.x / 64 == p.x / 64 && q.y / 64 == p.y / 64 else q.x / 32 == p.x / 32 && q.y / 32 == p.y / 32
  {
    var a, b :| Inside(GridTile(fullTiles, a, b), p) && Differing(v, f, input * RectPoints(GridTile(fullTiles, a, b))) != {};
    var q :| q in Differing(v, f, input * RectPoints(GridTile(fullTiles, a, b)));
    assert q in Differing(v, f, input) && Inside(GridTile(fullTiles, a, b), q);
    assert if fullTiles then q.x / 64 == a == p.x / 64 && q.y / 64 == b == p.y / 64
           else q.x / 32 == a == p.x / 32 && q.y / 32 == b == p.y / 32;
  }

  lemma NothingDiffers(v: Screen, f: Screen, input: set<Point>, fullTiles: bool, v': Screen, damage: set<Point>)
    requires Diffed(v, f, input, fullTiles, v', damage)
    ensures damage == {} <==> Differing(v, f, input) == {}
  {
    if damage != {} {
      var p :| p in damage;
      var a, b :| Inside(GridTile(fullTiles, a, b), p) && Differing(v, f, input * RectPoints(GridTile(fullTiles, a, b))) != {};
      var q :| q in Differing(v, f, input * RectPoints(GridTile(fullTiles, a, b)));
      assert q in Differing(v, f, input);
    }
  }

  // ------------------------------------------------- the algorithm in place

  method DiffTileInPlace(view: array2<Pixel>, fb: array2<Pixel>, input: Region, tile: Rect, fullTiles: bool)
    returns (added: Region)
    requires view != fb && Bounds(view) == Bounds(fb) && Within(input, Bounds(view))
    modifies view
    ensures (Shot(view), added) == DiffTile(old(Shot(view)), Shot(fb), input, tile, fullTiles)
  {
    ghost var v, f := Shot(view), Shot(fb);
    var changed: Region := [];
    var rects := IntersectRect(input, tile);
    var i := 0;
    while i < |rects|
      invariant 0 <= i <= |rects|
      invariant (Shot(view), changed) == DiffRects(v, f, rects[..i])
    {
      assert rects[..i + 1][..i] == rects[..i];
      var same := DiffRect(view, fb, rects[i]);
      if !same {
        changed := changed + [rects[i]];
      }
      i := i + 1;
    }
    assert rects[..i] == rects;
    added := if !fullTiles then changed else if changed == [] then [] else UnionRect([], tile);
  }

  ghost predicate TilesWithin(tiles: Region, box: Rect) {
    forall i :: 0 <= i < |tiles| ==> IsEmpty(tiles[i]) || RectWithin(tiles[i], box)
  }

  lemma {:induction false} DiffTilesWithin(v: Screen, f: Screen, input: Region, tiles: Region, fullTiles: bool, box: Rect)
    requires Within(input, box) && TilesWithin(tiles, box)
    ensures Within(DiffTiles(v, f, input, tiles, fullTiles).1, box)
  {
    if tiles != [] {
      var before, tile := tiles[..|tiles| - 1], tiles[|tiles| - 1];
      DiffTilesWithin(v, f, input, before, fullTiles, box);
      DiffRectsWithin(DiffTiles(v, f, input, before, fullTiles).0, f, IntersectRect(input, tile), box);
    }
  }

  /** A tile stops at the extents, so the last one of a row or column may be smaller. */
  function TileEnd(fullTiles: bool, k: int, last: int, hi: int): int {
    if k == last then hi else Line(fullTiles, k + 1)
  }

  /**
    What the walk has done when it stands before column a of row b: the tiles lie in the grid and
    on the screen, and contain the input above that row and, within it, left of that column.
  */
  ghost predicate Walked(fullTiles: bool, box: Rect, input: set<Point>, tiles: Region, y: int, bottom: int, x: int) {
    && InGrid(fullTiles, tiles) && TilesWithin(tiles, box)
    && forall p :: p in input && (p.y < y || (p.y < bottom && p.x < x)) ==> p in Points(tiles)
  }

  /** Grid lines around the extents; an empty region has the single line pair 0. */
  predicate LastLine(fullTiles: bool, last: int, end: int) {
    last >= 0 && (Line(fullTiles, last) < end <= Line(fullTiles, last + 1) || (last == 0 && end == 0))
  }

  lemma WalkTile(fullTiles: bool, box: Rect, input: Region, tiles: Region, ext: Rect, a: int, lastA: int, b: int, lastB: int)
    requires Within(input, box) && ext == Extents(input) && box.left == box.top == 0
    requires LastLine(fullTiles, lastA, ext.right) && LastLine(fullTiles, lastB, ext.bottom)
    requires 0 <= a <= lastA && 0 <= b <= lastB
    requires Walked(fullTiles, box, Points(input), tiles, Line(fullTiles, b), TileEnd(fullTiles, b, lastB, ext.bottom), Line(fullTiles, a))
    ensures var tile := Rect(Line(fullTiles, a), Line(fullTiles, b), TileEnd(fullTiles, a, lastA, ext.right), TileEnd(fullTiles, b, lastB, ext.bottom));
            Walked(fullTiles, box, Points(input), tiles + [tile], Line(fullTiles, b), tile.bottom, Line(fullTiles, a + 1))
  {
    var bottom := TileEnd(fullTiles, b, lastB, ext.bottom);
    var tile := Rect(Line(fullTiles, a), Line(fullTiles, b), TileEnd(fullTiles, a, lastA, ext.right), bottom);
    assert RectPoints(tile) <= RectPoints(GridTile(fullTiles, a, b));
    PointsSnoc(tiles, tile);
    if input != [] {
      assert RectWithin(ext, box);
      assert RectWithin(tile, box);
    }
  }

  /** The inner loop of simplify_damagedRegion: the tiles of row b. */
  method SimplifyRow(view: array2<Pixel>, fb: array2<Pixel>, input: Region, fullTiles: bool, ext: Rect, minX: int, maxX: int,
                     b: int, maxY: int, damage0: Region, ghost tiles0: Region, ghost v: Screen)
    returns (damage: Region, ghost tiles: Region)
    requires view != fb && Bounds(view) == Bounds(fb) && Within(input, Bounds(view)) && ext == Extents(input)
    requires LastLine(fullTiles, maxX, ext.right) && LastLine(fullTiles, maxY, ext.bottom)
    requires 0 <= minX <= maxX && Line(fullTiles, minX) <= ext.left && 0 <= b <= maxY
    requires (Shot(view), damage0) == DiffTiles(v, Shot(fb), input, tiles0, fullTiles)
    requires Walked(fullTiles, Bounds(view), Points(input), tiles0, Line(fullTiles, b), 0, 0)
    modifies view
    ensures (Shot(view), damage) == DiffTiles(v, Shot(fb), input, tiles, fullTiles)
    ensures Walked(fullTiles, Bounds(view), Points(input), tiles, TileEnd(fullTiles, b, maxY, ext.bottom), 0, 0)
  {
    damage, tiles := damage0, tiles0;
    var bottom := TileEnd(fullTiles, b, maxY, ext.bottom);
    var a := minX;
    while a <= maxX
      invariant minX <= a <= maxX + 1
      invariant (Shot(view), damage) == DiffTiles(v, Shot(fb), input, tiles, fullTiles)
      invariant Walked(fullTiles, Bounds(view), Points(input), tiles, Line(fullTiles, b), bottom, Line(fullTiles, a))
    {
      var tile := Rect(Line(fullTiles, a), Line(fullTiles, b), TileEnd(fullTiles, a, maxX, ext.right), bottom);
      WalkTile(fullTiles, Bounds(view), input, tiles, ext, a, maxX, b, maxY);
      var added := DiffTileInPlace(view, fb, input, tile, fullTiles);
      damage := damage + added;
      assert (tiles + [tile])[..|tiles|] == tiles;
      tiles := tiles + [tile];
      a := a + 1;
    }
  }

  lemma TileIndex(fullTiles: bool, x: int)
    ensures x >= 0 ==> var k := CDiv(x, TileSize(fullTiles)); k >= 0 && Line(fullTiles, k) <= x < Line(fullTiles, k + 1)
    ensures x == -1 ==> CDiv(x, TileSize(fullTiles)) == 0
  {}

  /** simplify_damagedRegion */
  method SimplifyDamage(view: array2<Pixel>, fb: array2<Pixel>, input: Region, fullTiles: bool) returns (damage: Region)
    requires view != fb && Bounds(view) == Bounds(fb) && Within(input, Bounds(view))
    modifies view
    ensures Diffed(old(Shot(view)), Shot(fb), Points(input), fullTiles, Shot(view), Points(damage))
    ensures Within(damage, Bounds(view))
  {
    ghost var v, tiles: Region := Shot(view), [];
    var ext, size := Extents(input), TileSize(fullTiles);
    assert input != [] ==> RectWithin(ext, Bounds(view));
    TileIndex(fullTiles, ext.left);
    TileIndex(fullTiles, ext.top);
    TileIndex(fullTiles, ext.right - 1);
    TileIndex(fullTiles, ext.bottom - 1);
    var minX, maxX := CDiv(ext.left, size), CDiv(ext.right - 1, size);
    var minY, maxY := CDiv(ext.top, size), CDiv(ext.bottom - 1, size);
    damage := [];
    var b := minY;
    while b <= maxY
      invariant minY <= b <= maxY + 1
      invariant (Shot(view), damage) == DiffTiles(v, Shot(fb), input, tiles, fullTiles)
      invariant Walked(fullTiles, Bounds(view), Points(input), tiles,
                       if b <= maxY then Line(fullTiles, b) else ext.bottom, 0, 0)
    {
      damage, tiles := SimplifyRow(view, fb, input, fullTiles, ext, minX, maxX, b, maxY, damage, tiles, v);
      b := b + 1;
    }
    DiffedByTiles(v, Shot(fb), input, tiles, fullTiles);
    DiffTilesWithin(v, Shot(fb), input, tiles, fullTiles, Bounds(view));
  }
}
