/** The Web-Mercator (EPSG:3857) pixel and tile pyramid of `Tiler`
    (src/tiles.ts), after gdal2tiles: meters <-> pixels <-> tile indices,
    tile bounds, the slippy row convention and the antimeridian wrap.
    Everything is exact arithmetic over `real`; the two transcendental parts
    of the projection (latitude <-> Mercator y) are handed in as a `Mercator`
    value. */
module Tiles {
  import opened Common

  /** Tiles are 256 pixels square at every zoom. */
  const TileSize: real := 256.0
  /** Half the projected extent: pi * 6378137 m, the double the constructor computes. */
  const OriginShift: real := 20037508.342789244
  /** Meters per pixel at zoom 0: the whole extent 2 * originShift over one tile. */
  const InitialResolution: real := 2.0 * OriginShift / TileSize

  const MinX: real := -20037508.342789244
  const MaxX: real := 20037508.342789244
  const MinY: real := -20037508.342789244
  const MaxY: real := 20037508.342789244
  const RangeX: real := MaxX - MinX
  const RangeY: real := MaxY - MinY

  /** Zoom levels. Every caller passes a whole number >= 0. */
  type Zoom = nat

  /** A pair of reals: meters or pixels, as the source's two-element arrays. */
  datatype XY = XY(x: real, y: real)

  /** A tile index (tx, ty) at some zoom. */
  datatype TileIndex = TileIndex(tx: int, ty: int)

  /** The source's [minX, minY, maxX, maxY] bounds arrays. */
  datatype Bounds = Bounds(minX: real, minY: real, maxX: real, maxY: real)

  /** The source's [lat, lon] pairs. */
  datatype LatLon = LatLon(lat: real, lon: real)

  /** The 4326 bounds array [minLat, minLon, maxLat, maxLon]. */
  datatype GeoBounds = GeoBounds(minLat: real, minLon: real, maxLat: real, maxLon: real)

  /** The transcendental halves of the spherical Mercator projection:
      latToY(lat) = ln(tan((90 + lat) * pi / 360)) / (pi / 180) and its inverse
      yToLat(v) = (180 / pi) * (2 * atan(exp(v * pi / 180)) - pi / 2). */
  datatype Mercator = Mercator(latToY: real -> real, yToLat: real -> real)

  function Pow2Nat(n: nat): (r: nat)
    ensures r >= 1
  {
    if n == 0 then 1 else 2 * Pow2Nat(n - 1)
  }

  /** Math.pow(2, e) for a whole exponent of either sign. */
  function Pow2(e: int): (r: real)
    ensures r > 0.0
    ensures e >= 0 ==> r == Pow2Nat(e) as real
    ensures e < 0 ==> r <= 0.5
  {
    if e >= 0 then Pow2Nat(e) as real else 1.0 / (Pow2Nat(-e) as real)
  }

  lemma Pow2Step(e: int)
    ensures Pow2(e + 1) == 2.0 * Pow2(e)
  {
    if e < 0 {
      assert Pow2Nat(-e) == 2 * Pow2Nat(-e - 1);
    }
  }

  lemma Pow2Neg(e: int)
    ensures Pow2(-e) * Pow2(e) == 1.0
  {
  }

  /** Math.ceil. */
  function Ceil(r: real): (c: int)
    ensures (c - 1) as real < r <= c as real
  {
    -((-r).Floor)
  }

  lemma CeilOf(r: real, k: int)
    requires (k - 1) as real < r <= k as real
    ensures Ceil(r) == k
  {
  }

  lemma MulDivCancel(a: real, c: real)
    requires c != 0.0
    ensures (a * c) / c == a && (a / c) * c == a
  {
  }

  /** Meters per pixel at a zoom: halved at every step down the pyramid. */
  function Resolution(zoom: Zoom): (r: real)
    ensures r > 0.0
    ensures r * Pow2(zoom) == InitialResolution
  {
    InitialResolution / Pow2(zoom)
  }

  lemma ResolutionHalves(zoom: Zoom)
    ensures Resolution(zoom + 1) == Resolution(zoom) / 2.0
  {
    Pow2Step(zoom);
  }

  lemma ResolutionAtZoomZero()
    ensures Resolution(0) * TileSize == 2.0 * OriginShift
  {
  }

  function PixelsToMeters(px: real, py: real, zoom: Zoom): XY
  {
    var res := Resolution(zoom);
    XY(px * res - OriginShift, py * res - OriginShift)
  }

  function MetersToPixels(x: real, y: real, zoom: Zoom): XY
  {
    var res := Resolution(zoom);
    XY((x + OriginShift) / res, (y + OriginShift) / res)
  }

  /** metersToPixels and pixelsToMeters undo each other at the same zoom. */
  lemma MetersPixelsRoundTrip(x: real, y: real, zoom: Zoom)
    ensures var p := MetersToPixels(x, y, zoom); PixelsToMeters(p.x, p.y, zoom) == XY(x, y)
    ensures var m := PixelsToMeters(x, y, zoom); MetersToPixels(m.x, m.y, zoom) == XY(x, y)
  {
    var res := Resolution(zoom);
    assert ((x + OriginShift) / res) * res == x + OriginShift;
    assert ((y + OriginShift) / res) * res == y + OriginShift;
    assert (x * res - OriginShift + OriginShift) / res == x;
    assert (y * res - OriginShift + OriginShift) / res == y;
  }

  /** The tile holding a pixel: a pixel exactly on a tile edge belongs to the
      lower tile, so pixel 0 is in tile -1. */
  function PixelsToTile(px: real, py: real): (t: TileIndex)
    ensures TileSize * t.tx as real < px <= TileSize * (t.tx + 1) as real
    ensures TileSize * t.ty as real < py <= TileSize * (t.ty + 1) as real
  {
    TileIndex(Ceil(px / TileSize) - 1, Ceil(py / TileSize) - 1)
  }

  function MetersToTile(x: real, y: real, zoom: Zoom): TileIndex
  {
    var p := MetersToPixels(x, y, zoom);
    PixelsToTile(p.x, p.y)
  }

  function LaloToMeters(m: Mercator, lat: real, lon: real): XY
  {
    XY(lon * OriginShift / 180.0, m.latToY(lat) * OriginShift / 180.0)
  }

  function MetersToLalo(m: Mercator, x: real, y: real): LatLon
  {
    LatLon(m.yToLat((y / OriginShift) * 180.0), (x / OriginShift) * 180.0)
  }

  /** The longitude half of the projection is exact and linear; the latitude
      half round-trips whenever the two Mercator functions do. */
  lemma LaloMetersRoundTrip(m: Mercator, lat: real, lon: real)
    requires m.yToLat(m.latToY(lat)) == lat
    ensures var p := LaloToMeters(m, lat, lon); MetersToLalo(m, p.x, p.y) == LatLon(lat, lon)
  {
    var p := LaloToMeters(m, lat, lon);
    assert (p.y / OriginShift) * 180.0 == m.latToY(lat);
  }

  function LaloToTile(m: Mercator, lat: real, lon: real, zoom: Zoom): TileIndex
  {
    var meters := LaloToMeters(m, lat, lon);
    MetersToTile(meters.x, meters.y, zoom)
  }

  /** The column of laloToTile is the usual slippy formula
      ceil((lon + 180) / 360 * 2^zoom) - 1. */
  lemma LaloToTileColumn(m: Mercator, lat: real, lon: real, zoom: Zoom)
    ensures LaloToTile(m, lat, lon, zoom).tx == Ceil((lon + 180.0) / 360.0 * Pow2(zoom)) - 1
  {
    var meters := LaloToMeters(m, lat, lon);
    var res := Resolution(zoom);
    var p := Pow2(zoom);
    assert res == InitialResolution / p;
    assert meters.x + OriginShift == (lon + 180.0) * OriginShift / 180.0;
    calc {
      MetersToPixels(meters.x, meters.y, zoom).x / TileSize;
      ((lon + 180.0) * OriginShift / 180.0) / (InitialResolution / p) / TileSize;
      { assert InitialResolution * TileSize == 2.0 * OriginShift; }
      (lon + 180.0) / 360.0 * p;
    }
  }

  /** The meter bounds of a tile: its pixel square converted back. */
  function TileBoundsIn3857(tx: int, ty: int, zoom: Zoom): (b: Bounds)
    ensures b.minX < b.maxX && b.minY < b.maxY
    ensures b.maxX - b.minX == TileSize * Resolution(zoom)
    ensures b.maxY - b.minY == TileSize * Resolution(zoom)
  {
    var minXY := PixelsToMeters(tx as real * TileSize, ty as real * TileSize, zoom);
    var maxXY := PixelsToMeters((tx + 1) as real * TileSize, (ty + 1) as real * TileSize, zoom);
    Bounds(minXY.x, minXY.y, maxXY.x, maxXY.y)
  }

  /** At zoom 0 the single tile (0, 0) covers the whole projected square. */
  lemma WholeWorldTile()
    ensures TileBoundsIn3857(0, 0, 0) == Bounds(-OriginShift, -OriginShift, OriginShift, OriginShift)
  {
  }

  /** A point lies in the tile that metersToTile picks for it: above the
      tile's minimum edge and at most its maximum edge. */
  lemma MetersInTileBounds(x: real, y: real, zoom: Zoom)
    ensures var t := MetersToTile(x, y, zoom);
            var b := TileBoundsIn3857(t.tx, t.ty, zoom);
            b.minX < x <= b.maxX && b.minY < y <= b.maxY
  {
    AxisInTile(x, zoom);
    AxisInTile(y, zoom);
  }

  /** One axis of MetersInTileBounds. */
  lemma AxisInTile(v: real, zoom: Zoom)
    ensures var res := Resolution(zoom);
            var t := Ceil(((v + OriginShift) / res) / TileSize) - 1;
            (t as real * TileSize) * res - OriginShift < v <= ((t + 1) as real * TileSize) * res - OriginShift
  {
    var res := Resolution(zoom);
    var p := (v + OriginShift) / res;
    MulDivCancel(v + OriginShift, res);
    PixelEdges(p, Ceil(p / TileSize) - 1, res, v + OriginShift);
  }

  /** A pixel coordinate `p` lies in tile `t` along one axis, so its meters
      `a` lie between the tile's edges scaled by the resolution. */
  lemma PixelEdges(p: real, t: int, res: real, a: real)
    requires res > 0.0 && p * res == a && t == Ceil(p / TileSize) - 1
    ensures (t as real * TileSize) * res < a <= ((t + 1) as real * TileSize) * res
  {
    var lo := t as real * TileSize;
    var hi := (t + 1) as real * TileSize;
    assert t as real < p / TileSize <= (t + 1) as real;
    assert lo < p <= hi;
    MulLessEq(lo, p, res);
    MulLessEq(p, hi, res);
  }

  lemma MulLessEq(a: real, b: real, c: real)
    requires c > 0.0
    ensures a < b ==> a * c < b * c
    ensures a <= b ==> a * c <= b * c
  {
  }

  /** The midpoint of a tile's bounds maps back to that tile. */
  lemma TileMidpointMapsBack(tx: int, ty: int, zoom: Zoom)
    ensures var b := TileBoundsIn3857(tx, ty, zoom);
            MetersToTile(0.5 * (b.minX + b.maxX), 0.5 * (b.minY + b.maxY), zoom) == TileIndex(tx, ty)
  {
    var b := TileBoundsIn3857(tx, ty, zoom);
    var res := Resolution(zoom);
    var cx := 0.5 * (b.minX + b.maxX);
    var cy := 0.5 * (b.minY + b.maxY);
    assert cx + OriginShift == (tx as real + 0.5) * TileSize * res;
    assert cy + OriginShift == (ty as real + 0.5) * TileSize * res;
    assert (cx + OriginShift) / res == (tx as real + 0.5) * TileSize;
    assert (cy + OriginShift) / res == (ty as real + 0.5) * TileSize;
    assert Ceil(tx as real + 0.5) == tx + 1;
    assert Ceil(ty as real + 0.5) == ty + 1;
  }

  /** metersToTile never decreases as a coordinate grows. */
  lemma MetersToTileMonotone(x: real, y: real, x': real, y': real, zoom: Zoom)
    requires x <= x' && y <= y'
    ensures MetersToTile(x, y, zoom).tx <= MetersToTile(x', y', zoom).tx
    ensures MetersToTile(x, y, zoom).ty <= MetersToTile(x', y', zoom).ty
  {
    var res := Resolution(zoom);
    DivLessEq(x + OriginShift, x' + OriginShift, res);
    DivLessEq(y + OriginShift, y' + OriginShift, res);
    var p := MetersToPixels(x, y, zoom);
    var p' := MetersToPixels(x', y', zoom);
    CeilMonotone(p.x / TileSize, p'.x / TileSize);
    CeilMonotone(p.y / TileSize, p'.y / TileSize);
  }

  lemma DivLessEq(a: real, b: real, c: real)
    requires c > 0.0 && a <= b
    ensures a / c <= b / c
  {
  }

  lemma CeilMonotone(r: real, s: real)
    requires r <= s
    ensures Ceil(r) <= Ceil(s)
  {
  }

  function TileBoundsIn4326(m: Mercator, tx: int, ty: int, zoom: Zoom): GeoBounds
  {
    var b := TileBoundsIn3857(tx, ty, zoom);
    var minLaLo := MetersToLalo(m, b.minX, b.minY);
    var maxLaLo := MetersToLalo(m, b.maxX, b.maxY);
    GeoBounds(minLaLo.lat, minLaLo.lon, maxLaLo.lat, maxLaLo.lon)
  }

  /** The longitudes of a tile are the slippy ones,
      tx * 360 / 2^zoom - 180 and (tx + 1) * 360 / 2^zoom - 180. */
  lemma TileLongitudes(m: Mercator, tx: int, ty: int, zoom: Zoom)
    ensures var g := TileBoundsIn4326(m, tx, ty, zoom);
            g.minLon == tx as real * 360.0 / Pow2(zoom) - 180.0 &&
            g.maxLon == (tx + 1) as real * 360.0 / Pow2(zoom) - 180.0
  {
    var res := Resolution(zoom);
    var p := Pow2(zoom);
    assert res == InitialResolution / p;
    assert InitialResolution * TileSize == 2.0 * OriginShift;
    var b := TileBoundsIn3857(tx, ty, zoom);
    assert b.minX == tx as real * TileSize * (InitialResolution / p) - OriginShift;
    assert b.minX / OriginShift * 180.0 == tx as real * 360.0 / p - 180.0;
    assert b.maxX == (tx + 1) as real * TileSize * (InitialResolution / p) - OriginShift;
    assert b.maxX / OriginShift * 180.0 == (tx + 1) as real * 360.0 / p - 180.0;
  }

  /** The latitude half of the projection grows with y, as
      (180 / pi) * (2 * atan(exp(v * pi / 180)) - pi / 2) does. */
  ghost predicate Increasing(f: real -> real)
  {
    forall u, v :: u < v ==> f(u) < f(v)
  }

  /** The 4326 bounds of the tile holding (lat, lon): the longitude lies in
      its range, and so does the latitude whenever the latitude half of the
      projection is increasing and undoes the other half at `lat`. */
  function LaloToTileBounds4326(m: Mercator, lat: real, lon: real, zoom: Zoom): (g: GeoBounds)
    ensures g.minLon < lon <= g.maxLon
    ensures Increasing(m.yToLat) && m.yToLat(m.latToY(lat)) == lat ==> g.minLat < lat <= g.maxLat
  {
    var tile := LaloToTile(m, lat, lon, zoom);
    var p := LaloToMeters(m, lat, lon);
    MetersInTileBounds(p.x, p.y, zoom);
    var b := TileBoundsIn3857(tile.tx, tile.ty, zoom);
    DegreesMonotone(b.minX, p.x, b.maxX);
    DegreesMonotone(b.minY, p.y, b.maxY);
    assert p.x / OriginShift * 180.0 == lon;
    assert p.y / OriginShift * 180.0 == m.latToY(lat);
    TileBoundsIn4326(m, tile.tx, tile.ty, zoom)
  }

  /** Meters to degrees, `v / originShift * 180`, keeps the order. */
  lemma DegreesMonotone(lo: real, v: real, hi: real)
    requires lo < v <= hi
    ensures lo / OriginShift * 180.0 < v / OriginShift * 180.0 <= hi / OriginShift * 180.0
  {
  }

  /** The 3857 bounds of the tile holding (lat, lon) contain its projection. */
  function LaloToTileBounds3857(m: Mercator, lat: real, lon: real, zoom: Zoom): (b: Bounds)
    ensures var p := LaloToMeters(m, lat, lon);
            b.minX < p.x <= b.maxX && b.minY < p.y <= b.maxY
  {
    var tile := LaloToTile(m, lat, lon, zoom);
    var p := LaloToMeters(m, lat, lon);
    MetersInTileBounds(p.x, p.y, zoom);
    TileBoundsIn3857(tile.tx, tile.ty, zoom)
  }

  /** Flips the row between the pyramid's bottom-up rows and slippy top-down rows. */
  function ToSlippy(tx: int, ty: int, zoom: Zoom): (s: TileIndex)
    ensures s.tx == tx
    ensures 0 <= ty < Pow2Nat(zoom) <==> 0 <= s.ty < Pow2Nat(zoom)
  {
    TileIndex(tx, Pow2Nat(zoom) - ty - 1)
  }

  lemma ToSlippyInvolution(tx: int, ty: int, zoom: Zoom)
    ensures var s := ToSlippy(tx, ty, zoom); ToSlippy(s.tx, s.ty, zoom) == TileIndex(tx, ty)
  {
  }

  /** The offset hook returns its arguments: no offset is applied. */
  function OffsetMeters(x: real, y: real): (p: XY)
    ensures p.x == x && p.y == y
  {
    XY(x, y)
  }

  /** Math.trunc, the quotient JavaScript's `%` is based on. */
  function Trunc(r: real): int
  {
    if r >= 0.0 then r.Floor else -((-r).Floor)
  }

  /** JavaScript's `a % RANGE_X`: the remainder takes the sign of the dividend. */
  function RemRangeX(a: real): (r: real)
    ensures a >= 0.0 ==> 0.0 <= r < RangeX
    ensures a < 0.0 ==> -RangeX < r <= 0.0
  {
    a - RangeX * (Trunc(a / RangeX) as real)
  }

  /** The mathematical (floored) modulo over the x range. */
  function ModRangeX(a: real): (r: real)
    ensures 0.0 <= r < RangeX
  {
    a - RangeX * ((a / RangeX).Floor as real)
  }

  function WrapX(x: real): real
  {
    RemRangeX(RemRangeX(x - MinX) + RangeX) + MinX
  }

  function ClampY(y: real): real
  {
    Max(MinY, Min(MaxY, y))
  }

  /** Wraps x over the antimeridian and clamps y to the projected square. */
  function WrapCoordinates(x: real, y: real): (p: XY)
    ensures MinX <= p.x < MaxX
    ensures MinY <= p.y <= MaxY
    ensures p.x == MinX + ModRangeX(x - MinX)
    ensures MinY <= y <= MaxY ==> p.y == y
    ensures y < MinY ==> p.y == MinY
    ensures MaxY < y ==> p.y == MaxY
  {
    WrapIsMod(x);
    XY(WrapX(x), ClampY(y))
  }

  /** The double JavaScript remainder is the floored modulo. */
  lemma WrapIsMod(x: real)
    ensures WrapX(x) == MinX + ModRangeX(x - MinX)
  {
    var a := x - MinX;
    var r1 := RemRangeX(a);
    var s := r1 + RangeX;
    if a >= 0.0 {
      assert r1 == ModRangeX(a);
      assert (s / RangeX).Floor == 1;
    } else if s == RangeX {
      assert (s / RangeX).Floor == 1;
    } else {
      assert (s / RangeX).Floor == 0;
      ModRangeXUnique(a, Trunc(a / RangeX) - 1);
    }
  }

  /** The floored modulo is the one value in [0, RangeX) that differs from
      `a` by a whole number of ranges. */
  lemma ModRangeXUnique(a: real, k: int)
    requires 0.0 <= a - RangeX * (k as real) < RangeX
    ensures ModRangeX(a) == a - RangeX * (k as real)
  {
    var b := a - RangeX * (k as real);
    assert a / RangeX == (k as real) + b / RangeX;
    assert 0.0 <= b / RangeX < 1.0;
    assert (a / RangeX).Floor == k;
  }

  lemma ModRangeXShift(a: real)
    ensures ModRangeX(a + RangeX) == ModRangeX(a)
  {
    var q := a / RangeX;
    assert (a + RangeX) / RangeX == q + 1.0;
    assert (q + 1.0).Floor == q.Floor + 1;
  }

  lemma ModRangeXInRange(a: real)
    requires 0.0 <= a < RangeX
    ensures ModRangeX(a) == a
  {
    assert (a / RangeX).Floor == 0;
  }

  /** An x already in [MinX, MaxX) and a y already in [MinY, MaxY] are kept. */
  lemma WrapKeepsInside(x: real, y: real)
    requires MinX <= x < MaxX && MinY <= y <= MaxY
    ensures WrapCoordinates(x, y) == XY(x, y)
  {
    ModRangeXInRange(x - MinX);
  }

  lemma WrapIdempotent(x: real, y: real)
    ensures var p := WrapCoordinates(x, y); WrapCoordinates(p.x, p.y) == p
  {
    var p := WrapCoordinates(x, y);
    WrapKeepsInside(p.x, p.y);
  }

  /** Going once round the world in x changes nothing. */
  lemma WrapPeriodic(x: real, y: real)
    ensures WrapCoordinates(x + RangeX, y) == WrapCoordinates(x, y)
  {
    ModRangeXShift(x - MinX);
    assert x + RangeX - MinX == (x - MinX) + RangeX;
  }
}
