/** The tile-demand logic of the viewer's controller (src/app.ts): the zoom
    level chosen from the camera's height and pitch, the per-zoom elevation and
    reach tables, the ground footprint, the loop that fills the tile cache,
    the bounds of the known locations, and switching the imagery set. The
    camera's pose comes in as values: its position, its horizontal forward
    direction and its pitch in degrees. */
module Viewer {
  import opened Common
  import opened Tiles
  import opened Grid
  import opened Config
  import opened Tile
  import opened NestedMap
  import Lru
  import opened CacheState
  import opened Cache

  /** The capacity the controller gives its tile cache. */
  const CacheCapacity: int := 150

  /** getZoomLevelForHeight: the first matching tier wins; -1 means that no
      tiles are wanted (below ground or too high). */
  function ZoomLevelForHeight(height: real, angle: real): (z: int)
    ensures z == -1 <==> height < 0.0 || height >= 5000.0
    ensures z != -1 ==> 15 <= z <= 19
  {
    if height < 0.0 then -1
    else if height < 250.0 && angle > 75.0 then 19
    else if height < 400.0 && angle > 30.0 then 18
    else if height < 1400.0 && angle > 25.0 then 17
    else if height < 5000.0 && angle > 20.0 then 16
    else if height < 5000.0 then 15
    else -1
  }

  /** Coming down never coarsens the zoom: the tiers only bound the height
      from above. */
  lemma ZoomGrowsAsHeightFalls(h1: real, h2: real, angle: real)
    requires 0.0 <= h1 <= h2
    ensures ZoomLevelForHeight(h1, angle) >= ZoomLevelForHeight(h2, angle)
  {
  }

  /** Looking further down never coarsens the zoom either. */
  lemma ZoomGrowsWithPitch(height: real, a1: real, a2: real)
    requires a1 <= a2
    ensures ZoomLevelForHeight(height, a1) <= ZoomLevelForHeight(height, a2)
  {
  }

  /** The most detailed tier needs a camera strictly below 250: at 250 looking
      straight down the controller picks zoom 18. */
  lemma TopTierIsStrict()
    ensures ZoomLevelForHeight(249.0, 80.0) == 19
    ensures ZoomLevelForHeight(250.0, 80.0) == 18
    ensures ZoomLevelForHeight(4999.0, 0.0) == 15
  {
  }

  /** getTileHeightForZoomLevel: how high above the ground plane the tiles of
      a zoom level are laid, so that finer levels cover coarser ones. */
  function TileHeightForZoomLevel(zoomLevel: int): (h: real)
    ensures h > 0.0 <==> 15 <= zoomLevel <= 19
    ensures h == 0.0 <==> !(15 <= zoomLevel <= 19)
    ensures 15 <= zoomLevel <= 19 ==> h == 2.0 * zoomLevel as real - 8.0
  {
    if zoomLevel == 19 then 30.0
    else if zoomLevel == 18 then 28.0
    else if zoomLevel == 17 then 26.0
    else if zoomLevel == 16 then 24.0
    else if zoomLevel == 15 then 22.0
    else 0.0
  }

  /** getForwardDistanceForZoomLevel: how far ahead the footprint reaches. */
  function ForwardDistanceForZoomLevel(zoomLevel: int): (d: real)
    ensures d > 0.0 <==> 15 <= zoomLevel <= 19
    ensures d == 0.0 <==> !(15 <= zoomLevel <= 19)
  {
    if zoomLevel == 19 then 450.0
    else if zoomLevel == 18 then 1000.0
    else if zoomLevel == 17 then 3000.0
    else if zoomLevel == 16 then 5200.0
    else if zoomLevel == 15 then 9000.0
    else 0.0
  }

  /** getLateralDistanceForZoomLevel: how far to each side the footprint reaches. */
  function LateralDistanceForZoomLevel(zoomLevel: int): (d: real)
    ensures d > 0.0 <==> 15 <= zoomLevel <= 19
    ensures d == 0.0 <==> !(15 <= zoomLevel <= 19)
  {
    if zoomLevel == 19 then 50.0
    else if zoomLevel == 18 then 550.0
    else if zoomLevel == 17 then 800.0
    else if zoomLevel == 16 then 1000.0
    else if zoomLevel == 15 then 3000.0
    else 0.0
  }

  /** Coarser levels reach further, forwards and sideways, and lie lower:
      each tier is two units below the next finer one. */
  lemma TablesFollowZoom(z1: int, z2: int)
    requires 15 <= z1 < z2 <= 19
    ensures ForwardDistanceForZoomLevel(z1) > ForwardDistanceForZoomLevel(z2)
    ensures LateralDistanceForZoomLevel(z1) > LateralDistanceForZoomLevel(z2)
    ensures TileHeightForZoomLevel(z1) < TileHeightForZoomLevel(z2)
    ensures TileHeightForZoomLevel(z1) == 2.0 * z1 as real - 8.0
    ensures TileHeightForZoomLevel(z2) == 2.0 * z2 as real - 8.0
  {
  }

  /** The smallest of a nonempty list of numbers. */
  function SeqMin(vs: seq<real>): (m: real)
    requires |vs| > 0
    ensures m in vs && forall v :: v in vs ==> m <= v
    decreases |vs|
  {
    if |vs| == 1 then vs[0]
    else
      var init := vs[..|vs| - 1];
      assert forall v :: v in vs ==> v in init || v == vs[|vs| - 1];
      Min(SeqMin(init), vs[|vs| - 1])
  }

  /** The largest of a nonempty list of numbers. */
  function SeqMax(vs: seq<real>): (m: real)
    requires |vs| > 0
    ensures m in vs && forall v :: v in vs ==> v <= m
    decreases |vs|
  {
    if |vs| == 1 then vs[0]
    else
      var init := vs[..|vs| - 1];
      assert forall v :: v in vs ==> v in init || v == vs[|vs| - 1];
      Max(SeqMax(init), vs[|vs| - 1])
  }

  /** The `forEach` that folds a list into the smallest and largest value,
      starting from +Infinity and -Infinity: an empty list leaves both
      infinities in place. */
  method MinMax(vs: seq<real>) returns (lo: Extended, hi: Extended)
    ensures vs == [] ==> lo == PosInf && hi == NegInf
    ensures vs != [] ==> lo == Finite(SeqMin(vs)) && hi == Finite(SeqMax(vs))
  {
    lo, hi := PosInf, NegInf;
    var i := 0;
    while i < |vs|
      invariant 0 <= i <= |vs|
      invariant lo == LowSoFar(vs, i) && hi == HighSoFar(vs, i)
    {
      var v := vs[i];
      if Below(Finite(v), lo) {
        lo := Finite(v);
      }
      if Below(hi, Finite(v)) {
        hi := Finite(v);
      }
      i := i + 1;
    }
    if vs != [] {
      LowSoFarIsMin(vs, |vs|);
      HighSoFarIsMax(vs, |vs|);
      assert vs[..|vs|] == vs;
    }
  }

  /** What the fold holds after the first `i` values: the infinity it starts
      from, replaced by each value below (above) what it holds. */
  function LowSoFar(vs: seq<real>, i: nat): Extended
    requires i <= |vs|
  {
    if i == 0 then PosInf
    else
      var m := LowSoFar(vs, i - 1);
      if Below(Finite(vs[i - 1]), m) then Finite(vs[i - 1]) else m
  }

  function HighSoFar(vs: seq<real>, i: nat): Extended
    requires i <= |vs|
  {
    if i == 0 then NegInf
    else
      var m := HighSoFar(vs, i - 1);
      if Below(m, Finite(vs[i - 1])) then Finite(vs[i - 1]) else m
  }

  /** Once a value has been seen, the fold holds the smallest value seen. */
  lemma {:induction false} LowSoFarIsMin(vs: seq<real>, i: nat)
    requires 0 < i <= |vs|
    ensures LowSoFar(vs, i) == Finite(SeqMin(vs[..i]))
  {
    if i > 1 {
      LowSoFarIsMin(vs, i - 1);
      assert vs[..i][..i - 1] == vs[..i - 1];
    }
  }

  /** Once a value has been seen, the fold holds the largest value seen. */
  lemma {:induction false} HighSoFarIsMax(vs: seq<real>, i: nat)
    requires 0 < i <= |vs|
    ensures HighSoFar(vs, i) == Finite(SeqMax(vs[..i]))
  {
    if i > 1 {
      HighSoFarIsMax(vs, i - 1);
      assert vs[..i][..i - 1] == vs[..i - 1];
    }
  }

  /** A render-space point as Mercator meters: subtracted from the offset,
      with scene z standing for Mercator y. */
  function ToMeters(config: GlobalConfig, p: Vec3): XY
  {
    XY(config.offsetX - p.x, config.offsetY - p.z)
  }

  function Plus(a: Vec3, b: Vec3): Vec3 { Vec3(a.x + b.x, a.y + b.y, a.z + b.z) }
  function Minus(a: Vec3, b: Vec3): Vec3 { Vec3(a.x - b.x, a.y - b.y, a.z - b.z) }
  function Scale(a: Vec3, k: real): Vec3 { Vec3(a.x * k, a.y * k, a.z * k) }

  /** The horizontal right-hand direction of a horizontal forward direction. */
  function RightOf(forward: Vec3): Vec3
  {
    Vec3(-forward.z, 0.0, forward.x)
  }

  /** The four ground points of the footprint, as Mercator meters: to the
      left and right by the lateral reach, ahead by the forward reach, and
      behind by a fifth of it. The side points mirror each other about the
      camera, and the back point lies opposite the front one. */
  function Footprint(config: GlobalConfig, pos: Vec3, forward: Vec3, lateral: real, reach: real): (ps: seq<XY>)
    ensures |ps| == 4
    ensures var c := ToMeters(config, pos);
            && ps[0].x + ps[1].x == 2.0 * c.x && ps[0].y + ps[1].y == 2.0 * c.y
            && ps[3].x - c.x == -0.2 * (ps[2].x - c.x) && ps[3].y - c.y == -0.2 * (ps[2].y - c.y)
  {
    var right := RightOf(forward);
    [ToMeters(config, Plus(pos, Scale(right, lateral))),
     ToMeters(config, Minus(pos, Scale(right, lateral))),
     ToMeters(config, Plus(pos, Scale(forward, reach))),
     ToMeters(config, Minus(pos, Scale(forward, 0.2 * reach)))]
  }

  function Xs(ps: seq<XY>): (r: seq<real>)
    ensures |r| == |ps| && forall k :: 0 <= k < |ps| ==> r[k] == ps[k].x
  {
    seq(|ps|, k requires 0 <= k < |ps| => ps[k].x)
  }

  function Ys(ps: seq<XY>): (r: seq<real>)
    ensures |r| == |ps| && forall k :: 0 <= k < |ps| ==> r[k] == ps[k].y
  {
    seq(|ps|, k requires 0 <= k < |ps| => ps[k].y)
  }

  lemma CoordinatesOfFour(p0: XY, p1: XY, p2: XY, p3: XY)
    ensures Xs([p0, p1, p2, p3]) == [p0.x, p1.x, p2.x, p3.x]
    ensures Ys([p0, p1, p2, p3]) == [p0.y, p1.y, p2.y, p3.y]
  {
  }

  /** The four ground points of the footprint, spelled out. */
  lemma FootprintPoints(config: GlobalConfig, pos: Vec3, forward: Vec3, lateral: real, reach: real)
    ensures var right := RightOf(forward);
            Footprint(config, pos, forward, lateral, reach)
              == [ToMeters(config, Plus(pos, Scale(right, lateral))),
                  ToMeters(config, Minus(pos, Scale(right, lateral))),
                  ToMeters(config, Plus(pos, Scale(forward, reach))),
                  ToMeters(config, Minus(pos, Scale(forward, 0.2 * reach)))]
  {
  }

  /** The box of four points is made of the extremes of their coordinates. */
  lemma BoxOfFour(ps: seq<XY>, p0: XY, p1: XY, p2: XY, p3: XY)
    requires ps == [p0, p1, p2, p3]
    ensures BoundingBox(ps) == Bounds(SeqMin([p0.x, p1.x, p2.x, p3.x]), SeqMin([p0.y, p1.y, p2.y, p3.y]),
                                      SeqMax([p0.x, p1.x, p2.x, p3.x]), SeqMax([p0.y, p1.y, p2.y, p3.y]))
  {
    CoordinatesOfFour(p0, p1, p2, p3);
  }

  /** The smallest box holding the points: it holds every one of them. */
  function BoundingBox(ps: seq<XY>): (b: Bounds)
    requires |ps| > 0
    ensures forall k :: 0 <= k < |ps| ==> b.minX <= ps[k].x <= b.maxX && b.minY <= ps[k].y <= b.maxY
  {
    assert forall k :: 0 <= k < |ps| ==> Xs(ps)[k] in Xs(ps) && Ys(ps)[k] in Ys(ps);
    Bounds(SeqMin(Xs(ps)), SeqMin(Ys(ps)), SeqMax(Xs(ps)), SeqMax(Ys(ps)))
  }

  /** The key of cell (i, j) at a zoom level. */
  function KeyFn(zoom: int): (int, int) -> Key
  {
    (i, j) => Key(zoom, i, j)
  }

  /** The cells between two corner tiles, both included, row by row. */
  function TileRange(zoom: int, lo: TileIndex, hi: TileIndex): seq<Key>
  {
    Rows(KeyFn(zoom), lo.tx, hi.tx + 1, lo.ty, hi.ty + 1)
  }

  /** The cells loadTiles visits, in the order it visits them: the tile range
      between the tiles of the footprint box's two corners. */
  function DemandedKeys(config: GlobalConfig, pos: Vec3, forward: Vec3, zoom: Zoom): seq<Key>
  {
    var ps := Footprint(config, pos, forward, LateralDistanceForZoomLevel(zoom), ForwardDistanceForZoomLevel(zoom));
    var box := BoundingBox(ps);
    TileRange(zoom, MetersToTile(box.minX, box.minY, zoom), MetersToTile(box.maxX, box.maxY, zoom))
  }

  /** A tile range names every cell once, and names exactly the cells between
      its corners at its own zoom. */
  lemma TileRangeCells(zoom: int, lo: TileIndex, hi: TileIndex, k: Key)
    ensures NoDup(TileRange(zoom, lo, hi))
    ensures k in TileRange(zoom, lo, hi) <==>
              k.z == zoom && lo.tx <= k.x <= hi.tx && lo.ty <= k.y <= hi.ty
  {
    var f := KeyFn(zoom);
    assert Injective(f) by {
      forall a, b, c, d | f(a, b) == f(c, d) ensures a == c && b == d {
        assert Key(zoom, a, b) == Key(zoom, c, d);
      }
    }
    RowsNoDup(f, lo.tx, hi.tx + 1, lo.ty, hi.ty + 1);
    RowsMembers(f, lo.tx, hi.tx + 1, lo.ty, hi.ty + 1, k);
    if k.z == zoom && lo.tx <= k.x <= hi.tx && lo.ty <= k.y <= hi.ty {
      assert k == f(k.x, k.y);
    }
  }

  /** Every ground point of the footprint, and the camera's own ground point,
      lies in a tile that loadTiles visits. */
  lemma FootprintCovered(config: GlobalConfig, pos: Vec3, forward: Vec3, zoom: Zoom, p: XY)
    requires p in Footprint(config, pos, forward, LateralDistanceForZoomLevel(zoom), ForwardDistanceForZoomLevel(zoom))
             || p == ToMeters(config, pos)
    ensures var t := MetersToTile(p.x, p.y, zoom); Key(zoom, t.tx, t.ty) in DemandedKeys(config, pos, forward, zoom)
  {
    var ps := Footprint(config, pos, forward, LateralDistanceForZoomLevel(zoom), ForwardDistanceForZoomLevel(zoom));
    var box := BoundingBox(ps);
    if p == ToMeters(config, pos) {
      // the camera is midway between the left and the right point
      assert p.x == (ps[0].x + ps[1].x) / 2.0 && p.y == (ps[0].y + ps[1].y) / 2.0;
    }
    assert box.minX <= p.x <= box.maxX && box.minY <= p.y <= box.maxY;
    var lo := MetersToTile(box.minX, box.minY, zoom);
    var hi := MetersToTile(box.maxX, box.maxY, zoom);
    var t := MetersToTile(p.x, p.y, zoom);
    MetersToTileMonotone(box.minX, box.minY, p.x, p.y, zoom);
    MetersToTileMonotone(p.x, p.y, box.maxX, box.maxY, zoom);
    TileRangeCells(zoom, lo, hi, Key(zoom, t.tx, t.ty));
  }

  /** A footprint whose tile range fits in the cache is resident once loaded,
      whatever the cache held before. */
  lemma SmallFootprintResident(s: seq<Key>, config: GlobalConfig, pos: Vec3, forward: Vec3, zoom: Zoom, maxSize: int, k: Key)
    requires |DemandedKeys(config, pos, forward, zoom)| <= Lru.Capacity(maxSize)
    requires k in DemandedKeys(config, pos, forward, zoom)
    ensures k in Lru.Fold(s, DemandedKeys(config, pos, forward, zoom), maxSize)
  {
    var ps := Footprint(config, pos, forward, LateralDistanceForZoomLevel(zoom), ForwardDistanceForZoomLevel(zoom));
    var box := BoundingBox(ps);
    TileRangeCells(zoom, MetersToTile(box.minX, box.minY, zoom), MetersToTile(box.maxX, box.maxY, zoom), k);
    Lru.AccessesResident(s, DemandedKeys(config, pos, forward, zoom), maxSize, k);
  }

  /** Starting from an empty cache, a footprint that fits creates one tile for
      each cell of its range, in visiting order, and nothing else. */
  lemma EmptyCacheLoadsRange(config: GlobalConfig, pos: Vec3, forward: Vec3, zoom: Zoom, maxSize: int)
    requires |DemandedKeys(config, pos, forward, zoom)| <= Lru.Capacity(maxSize)
    ensures Lru.Misses([], DemandedKeys(config, pos, forward, zoom), maxSize) == DemandedKeys(config, pos, forward, zoom)
    ensures Lru.Fold([], DemandedKeys(config, pos, forward, zoom), maxSize) == DemandedKeys(config, pos, forward, zoom)
  {
    var ps := Footprint(config, pos, forward, LateralDistanceForZoomLevel(zoom), ForwardDistanceForZoomLevel(zoom));
    var box := BoundingBox(ps);
    TileRangeCells(zoom, MetersToTile(box.minX, box.minY, zoom), MetersToTile(box.maxX, box.maxY, zoom), Key(0, 0, 0));
    Lru.FreshFoldIsIdentity(DemandedKeys(config, pos, forward, zoom), maxSize);
  }

  /** A lat/lon pair of the location list. */
  function Lats(locs: seq<LatLon>): (r: seq<real>)
    ensures |r| == |locs| && forall k :: 0 <= k < |locs| ==> r[k] == locs[k].lat
  {
    seq(|locs|, k requires 0 <= k < |locs| => locs[k].lat)
  }

  function Lons(locs: seq<LatLon>): (r: seq<real>)
    ensures |r| == |locs| && forall k :: 0 <= k < |locs| ==> r[k] == locs[k].lon
  {
    seq(|locs|, k requires 0 <= k < |locs| => locs[k].lon)
  }

  /** getLocationBounds: the smallest and largest latitude and longitude of
      the known locations, as [[minLat, minLon], [maxLat, maxLon]]; with no
      locations the infinities the fold starts from come back. */
  method GetLocationBounds(locations: seq<LatLon>) returns (minLat: Extended, minLon: Extended, maxLat: Extended, maxLon: Extended)
    ensures locations == [] ==> minLat == PosInf && minLon == PosInf && maxLat == NegInf && maxLon == NegInf
    ensures locations != [] ==>
              && minLat == Finite(SeqMin(Lats(locations))) && maxLat == Finite(SeqMax(Lats(locations)))
              && minLon == Finite(SeqMin(Lons(locations))) && maxLon == Finite(SeqMax(Lons(locations)))
  {
    ghost var lats, lons := Lats(locations), Lons(locations);
    minLat, maxLat, minLon, maxLon := PosInf, NegInf, PosInf, NegInf;
    var i := 0;
    while i < |locations|
      invariant 0 <= i <= |locations|
      invariant minLat == LowSoFar(lats, i) && maxLat == HighSoFar(lats, i)
      invariant minLon == LowSoFar(lons, i) && maxLon == HighSoFar(lons, i)
    {
      var lat, lon := locations[i].lat, locations[i].lon;
      assert lats[i] == lat && lons[i] == lon;
      if Below(Finite(lat), minLat) { minLat := Finite(lat); }
      if Below(maxLat, Finite(lat)) { maxLat := Finite(lat); }
      if Below(Finite(lon), minLon) { minLon := Finite(lon); }
      if Below(maxLon, Finite(lon)) { maxLon := Finite(lon); }
      i := i + 1;
    }
    if locations != [] {
      LowSoFarIsMin(lats, i);
      HighSoFarIsMax(lats, i);
      LowSoFarIsMin(lons, i);
      HighSoFarIsMax(lons, i);
      assert lats[..i] == lats && lons[..i] == lons;
    }
  }

  /** The box getLocationBounds returns holds every location, and each of its
      edges is touched by one. */
  lemma LocationBoundsTight(locations: seq<LatLon>, k: int)
    requires 0 <= k < |locations|
    ensures SeqMin(Lats(locations)) <= locations[k].lat <= SeqMax(Lats(locations))
    ensures SeqMin(Lons(locations)) <= locations[k].lon <= SeqMax(Lons(locations))
    ensures exists a :: 0 <= a < |locations| && locations[a].lat == SeqMin(Lats(locations))
  {
    assert Lats(locations)[k] in Lats(locations);
    assert Lons(locations)[k] in Lons(locations);
    var m := SeqMin(Lats(locations));
    var a :| 0 <= a < |locations| && Lats(locations)[a] == m;
  }

  /** The tile-set code a menu name selects: satellite, roadmap or hybrid;
      any other name selects nothing. */
  function TileSetCode(name: string): (r: Option<string>)
    ensures r.Some? <==> name in {"Google Satellite", "Google Roadmap", "Google Hybrid"}
    ensures r.Some? ==> r.value in {GoogleSatelliteTiles, GoogleRoadmapTiles, GoogleHybridTiles}
  {
    if name == "Google Satellite" then Some(GoogleSatelliteTiles)
    else if name == "Google Roadmap" then Some(GoogleRoadmapTiles)
    else if name == "Google Hybrid" then Some(GoogleHybridTiles)
    else None
  }

  /** Distinct menu names select distinct tile sets. */
  lemma TileSetCodeInjective(a: string, b: string)
    requires TileSetCode(a).Some? && TileSetCode(a) == TileSetCode(b)
    ensures a == b
  {
  }

  /** A tile's tile set after the switch: the selected code, or unchanged. */
  function SwitchedTileSet(name: string, current: string): string
  {
    match TileSetCode(name)
    case Some(code) => code
    case None => current
  }

  class App {
    var globalConfig: GlobalConfig
    /** The tiles laid out around the known locations at start-up. */
    var tiles: seq<TileData>
    const tileCache: TileCache

    ghost predicate Valid()
      reads this, tileCache
    {
      tileCache.Valid() && NoDup(tiles)
    }

    /** The controller with its settings, the start-up tiles and an empty
        cache of 150 tiles. */
    constructor(globalConfig: GlobalConfig, tiles: seq<TileData>)
      requires NoDup(tiles)
      ensures Valid() && fresh(tileCache)
      ensures this.globalConfig == globalConfig && this.tiles == tiles
      ensures tileCache.maxSize == CacheCapacity && tileCache.Contents() == Empty
    {
      this.globalConfig := globalConfig;
      this.tiles := tiles;
      tileCache := new TileCache(CacheCapacity);
    }

    /** One cell of the tile loop: a cached tile only becomes the most
        recently used; a missing one is created, set up and cached, and of
        the tiles cached before only the one its put evicts changes. */
    method EnsureTile(config: GlobalConfig, zoom: Zoom, i: int, j: int) returns (ghost made: seq<TileData>)
      requires tileCache.Valid()
      modifies tileCache, if Get3(tileCache.cacheMap, Key(zoom, i, j)).None? && Lru.Victim(tileCache.cacheList, tileCache.maxSize).Some?
                          then {tileCache.cacheList[0]} else {}
      ensures tileCache.Valid()
      ensures tileCache.Keys() == Lru.Step(old(tileCache.Keys()), Key(zoom, i, j), tileCache.maxSize)
      ensures Key(zoom, i, j) in old(tileCache.Keys()) ==> made == []
      ensures Key(zoom, i, j) !in old(tileCache.Keys()) ==>
                && |made| == 1 && NewTile(made[0], config, zoom, i, j)
                && Get3(tileCache.cacheMap, Key(zoom, i, j)) == Some(made[0])
                && VictimDisposed(old(tileCache.cacheList), tileCache.maxSize)
      ensures forall t :: t in made ==> fresh(t)
      ensures forall t :: t in tileCache.cacheList ==> t in old(tileCache.cacheList) || fresh(t)
    {
      var hit := tileCache.Get(zoom, i, j);
      if hit.Some? {
        made := [];
        return;
      }
      assert tileCache.cacheList == old(tileCache.cacheList);
      var td := AddTile(config, zoom, i, j);
      made := [td];
    }

    /** The miss path of the tile loop: a new tile for (i, j) at `zoom` is set
        up and put into the cache under that key; of the tiles cached before,
        only the one the put evicts changes. */
    method AddTile(config: GlobalConfig, zoom: Zoom, i: int, j: int) returns (td: TileData)
      requires tileCache.Valid() && Get3(tileCache.cacheMap, Key(zoom, i, j)).None?
      modifies tileCache, if Lru.Victim(tileCache.cacheList, tileCache.maxSize).Some? then {tileCache.cacheList[0]} else {}
      ensures tileCache.Valid()
      ensures tileCache.Keys() == Lru.Step(old(tileCache.Keys()), Key(zoom, i, j), tileCache.maxSize)
      ensures fresh(td) && NewTile(td, config, zoom, i, j) && FreshlySetUp(td)
      ensures Get3(tileCache.cacheMap, Key(zoom, i, j)) == Some(td)
      ensures VictimDisposed(old(tileCache.cacheList), tileCache.maxSize)
      ensures forall t :: t in tileCache.cacheList ==> t in old(tileCache.cacheList) || t == td
    {
      td := SetUpTile(config, zoom, i, j);
      MissIsStep(tileCache.Contents(), Key(zoom, i, j), td, tileCache.maxSize);
      tileCache.Put(zoom, i, j, td);
    }

    /** `new TileData(...)` for (i, j) at the zoom level's elevation, then
        `setupTileBoundaryLines()`. */
    method SetUpTile(config: GlobalConfig, zoom: Zoom, i: int, j: int) returns (td: TileData)
      ensures fresh(td) && NewTile(td, config, zoom, i, j) && FreshlySetUp(td)
    {
      td := new TileData(config, i, j, TileHeightForZoomLevel(zoom), zoom);
      assert td.meshes + [NewMesh, NewMesh, NewMesh, NewMesh] == [NewMesh, NewMesh, NewMesh, NewMesh];
      var complete := td.SetupTileBoundaryLines();
    }

    /** loadTiles: with a zoom level for the camera's height and pitch, folds
        the footprint's four ground points into a box and visits every tile
        between the tiles of its two corners, row by row, creating a tile only
        for a cell the cache does not hold. The cache's key order ends up as
        the least-recently-used order after those accesses, and the tiles
        created are the misses among them. Without a zoom level nothing
        happens. */
    method LoadTiles(pos: Vec3, forward: Vec3, angle: real) returns (ghost made: seq<TileData>)
      requires Valid()
      modifies tileCache, set t | t in tileCache.cacheList
      ensures Valid()
      ensures ZoomLevelForHeight(pos.y, angle) == -1 ==> tileCache.Contents() == old(tileCache.Contents()) && made == []
      ensures ZoomLevelForHeight(pos.y, angle) != -1 ==>
                var zoom := ZoomLevelForHeight(pos.y, angle) as Zoom;
                var cells := DemandedKeys(globalConfig, pos, forward, zoom);
                && tileCache.Keys() == Lru.Fold(old(tileCache.Keys()), cells, tileCache.maxSize)
                && MadeFor(made, Lru.Misses(old(tileCache.Keys()), cells, tileCache.maxSize), globalConfig, zoom)
      ensures forall t :: t in tileCache.cacheList ==> t in old(tileCache.cacheList) || fresh(t)
    {
      made := [];
      var zoomLevel := ZoomLevelForHeight(pos.y, angle);
      if zoomLevel > -1 {
        var zoom := zoomLevel as Zoom;
        var minT, maxT := DemandedCorners(pos, forward, zoom);
        made := FillRange(globalConfig, zoom, minT, maxT);
      }
    }

    /** The corner tiles of loadTiles' range: the tiles holding the smallest
        and the largest coordinates of the camera's ground footprint. */
    method DemandedCorners(pos: Vec3, forward: Vec3, zoom: Zoom) returns (minT: TileIndex, maxT: TileIndex)
      ensures TileRange(zoom, minT, maxT) == DemandedKeys(globalConfig, pos, forward, zoom)
    {
      var lateralDist := LateralDistanceForZoomLevel(zoom);
      var forwardDist := ForwardDistanceForZoomLevel(zoom);
      var right := RightOf(forward);
      var l := Plus(pos, Scale(right, lateralDist));
      var r := Minus(pos, Scale(right, lateralDist));
      var f := Plus(pos, Scale(forward, forwardDist));
      var b := Minus(pos, Scale(forward, 0.2 * forwardDist));
      // ground points in meters: offset minus scene position
      var lm, rm := ToMeters(globalConfig, l), ToMeters(globalConfig, r);
      var fm, bm := ToMeters(globalConfig, f), ToMeters(globalConfig, b);
      var minX, maxX := MinMax([lm.x, rm.x, fm.x, bm.x]);
      var minY, maxY := MinMax([lm.y, rm.y, fm.y, bm.y]);
      ghost var ps := Footprint(globalConfig, pos, forward, lateralDist, forwardDist);
      FootprintPoints(globalConfig, pos, forward, lateralDist, forwardDist);
      assert ps == [lm, rm, fm, bm];
      ghost var box := BoundingBox(ps);
      BoxOfFour(ps, lm, rm, fm, bm);
      assert box == Bounds(minX.value, minY.value, maxX.value, maxY.value);
      minT := MetersToTile(minX.value, minY.value, zoom);
      maxT := MetersToTile(maxX.value, maxY.value, zoom);
    }

    /** The nested loop of loadTiles over the tiles from `lo` to `hi`. */
    method FillRange(config: GlobalConfig, zoom: Zoom, lo: TileIndex, hi: TileIndex) returns (ghost made: seq<TileData>)
      requires tileCache.Valid()
      modifies tileCache, set t | t in tileCache.cacheList
      ensures tileCache.Valid()
      ensures tileCache.Keys() == Lru.Fold(old(tileCache.Keys()), TileRange(zoom, lo, hi), tileCache.maxSize)
      ensures MadeFor(made, Lru.Misses(old(tileCache.Keys()), TileRange(zoom, lo, hi), tileCache.maxSize),
                      config, zoom)
      ensures forall t :: t in tileCache.cacheList ==> t in old(tileCache.cacheList) || fresh(t)
    {
      ghost var visited;
      visited, made := FillRows(config, zoom, lo, hi, tileCache.Keys());
    }

    /** The outer loop itself, over the rows from `lo.tx` to `hi.tx`; it
        reports the cells it visited. */
    method FillRows(config: GlobalConfig, zoom: Zoom, lo: TileIndex, hi: TileIndex, ghost s0: seq<Key>)
      returns (ghost visited: seq<Key>, ghost made: seq<TileData>)
      requires tileCache.Valid() && tileCache.Keys() == s0
      modifies tileCache, set t | t in tileCache.cacheList
      ensures visited == TileRange(zoom, lo, hi)
      ensures tileCache.Valid()
      ensures tileCache.Keys() == Lru.Fold(s0, visited, tileCache.maxSize)
      ensures MadeFor(made, Lru.Misses(s0, visited, tileCache.maxSize), config, zoom)
      ensures forall t :: t in tileCache.cacheList ==> t in old(tileCache.cacheList) || fresh(t)
    {
      visited := [];
      made := [];
      RunStart(s0, config, zoom, lo, hi, tileCache.maxSize);
      var i := lo.tx;
      while i < hi.tx + 1
        invariant visited + Rows(KeyFn(zoom), i, hi.tx + 1, lo.ty, hi.ty + 1) == TileRange(zoom, lo, hi)
        invariant tileCache.Valid()
        invariant tileCache.Keys() == Lru.Fold(s0, visited, tileCache.maxSize)
        invariant MadeFor(made, Lru.Misses(s0, visited, tileCache.maxSize), config, zoom)
        invariant forall t :: t in tileCache.cacheList ==> t in old(tileCache.cacheList) || fresh(t)
      {
        visited, made := AddRow(config, zoom, i, lo, hi, s0, visited, made);
        i := i + 1;
      }
      NoRowsLeft(visited, zoom, i, lo, hi);
    }

    /** One pass of the outer loop: row `i` is accessed after the cells
        `visited`, from key order `s0`. */
    method AddRow(config: GlobalConfig, zoom: Zoom, i: int, lo: TileIndex, hi: TileIndex, ghost s0: seq<Key>,
                  ghost visited: seq<Key>, ghost made: seq<TileData>)
      returns (ghost visited': seq<Key>, ghost made': seq<TileData>)
      requires i < hi.tx + 1
      requires visited + Rows(KeyFn(zoom), i, hi.tx + 1, lo.ty, hi.ty + 1) == TileRange(zoom, lo, hi)
      requires tileCache.Valid()
      requires tileCache.Keys() == Lru.Fold(s0, visited, tileCache.maxSize)
      requires MadeFor(made, Lru.Misses(s0, visited, tileCache.maxSize), config, zoom)
      modifies tileCache, set t | t in tileCache.cacheList
      ensures visited' + Rows(KeyFn(zoom), i + 1, hi.tx + 1, lo.ty, hi.ty + 1) == TileRange(zoom, lo, hi)
      ensures tileCache.Valid()
      ensures tileCache.Keys() == Lru.Fold(s0, visited', tileCache.maxSize)
      ensures MadeFor(made', Lru.Misses(s0, visited', tileCache.maxSize), config, zoom)
      ensures forall t :: t in tileCache.cacheList ==> t in old(tileCache.cacheList) || fresh(t)
    {
      ghost var row := Row(KeyFn(zoom), i, lo.ty, hi.ty + 1);
      ghost var rowMade := FillRow(config, zoom, i, lo.ty, hi.ty);
      RunAppend(s0, visited, row, made, rowMade, tileCache.maxSize, config, zoom);
      RowsStep(visited, zoom, i, lo, hi);
      made' := made + rowMade;
      visited' := visited + row;
    }

    /** The inner loop of loadTiles: the cells of column `i` from row `lo` to
        row `hi`, one access each. */
    method FillRow(config: GlobalConfig, zoom: Zoom, i: int, lo: int, hi: int) returns (ghost made: seq<TileData>)
      requires tileCache.Valid()
      modifies tileCache, set t | t in tileCache.cacheList
      ensures tileCache.Valid()
      ensures tileCache.Keys() == Lru.Fold(old(tileCache.Keys()), Row(KeyFn(zoom), i, lo, hi + 1), tileCache.maxSize)
      ensures MadeFor(made, Lru.Misses(old(tileCache.Keys()), Row(KeyFn(zoom), i, lo, hi + 1), tileCache.maxSize),
                      config, zoom)
      ensures forall t :: t in tileCache.cacheList ==> t in old(tileCache.cacheList) || fresh(t)
    {
      ghost var s0 := tileCache.Keys();
      ghost var visited: seq<Key> := [];
      made := [];
      var j := lo;
      while j < hi + 1
        invariant lo <= j && (j <= hi + 1 || j == lo)
        invariant visited == Row(KeyFn(zoom), i, lo, j)
        invariant tileCache.Valid()
        invariant tileCache.Keys() == Lru.Fold(s0, visited, tileCache.maxSize)
        invariant MadeFor(made, Lru.Misses(s0, visited, tileCache.maxSize), config, zoom)
        invariant forall t :: t in tileCache.cacheList ==> t in old(tileCache.cacheList) || fresh(t)
      {
        ghost var one := EnsureTile(config, zoom, i, j);
        Lru.FoldSnoc(s0, visited, Key(zoom, i, j), tileCache.maxSize);
        MadeForSnoc(made, one, Lru.Misses(s0, visited, tileCache.maxSize), Key(zoom, i, j),
                    Lru.Fold(s0, visited, tileCache.maxSize), config, zoom);
        made := made + one;
        NextCell(zoom, i, lo, j);
        visited := visited + [Key(zoom, i, j)];
        j := j + 1;
      }
      assert visited == Row(KeyFn(zoom), i, lo, hi + 1) by {
        if j != hi + 1 {
          assert Row(KeyFn(zoom), i, lo, hi + 1) == [];
        }
      }
    }

    /** refreshTiles: the settings' tile set becomes "r"; every start-up tile
        switches to the tile set the menu name selects (or keeps its own) and
        draws its imagery again. */
    method RefreshTiles(tileSet: string)
      requires Valid()
      modifies this, set t | t in tiles
      ensures Valid() && tiles == old(tiles)
      ensures globalConfig == old(globalConfig).(xyzTileSet := "r")
      ensures forall k :: 0 <= k < |tiles| ==> Refreshed(tiles[k], tileSet)
    {
      globalConfig := globalConfig.(xyzTileSet := "r");
      var i := 0;
      while i < |tiles|
        invariant 0 <= i <= |tiles|
        invariant globalConfig == old(globalConfig).(xyzTileSet := "r") && tiles == old(tiles)
        invariant NoDup(tiles)
        invariant forall k :: 0 <= k < i ==> Refreshed(tiles[k], tileSet)
        invariant forall k :: i <= k < |tiles| ==> unchanged(tiles[k])
      {
        RefreshTile(tiles[i], tileSet);
        i := i + 1;
      }
    }
  }

  /** One start-up tile of refreshTiles: its tile set switches as the menu
      name says, then its imagery is drawn again. */
  method RefreshTile(t: TileData, tileSet: string)
    modifies t
    ensures Refreshed(t, tileSet)
  {
    match TileSetCode(tileSet) {
      case Some(code) => t.tileSet := code;
      case None =>
    }
    var complete := t.RefreshTiles();
  }

  /** The cells visited so far, after one more cell of the current row. */
  lemma NextCell(zoom: int, i: int, j0: int, j: int)
    requires j0 <= j
    ensures Row(KeyFn(zoom), i, j0, j) + [Key(zoom, i, j)] == Row(KeyFn(zoom), i, j0, j + 1)
  {
  }

  /** Before the outer loop: nothing visited, every row still to come. */
  lemma RunStart(s0: seq<Key>, config: GlobalConfig, zoom: Zoom, lo: TileIndex, hi: TileIndex, maxSize: int)
    ensures [] + Rows(KeyFn(zoom), lo.tx, hi.tx + 1, lo.ty, hi.ty + 1) == TileRange(zoom, lo, hi)
    ensures Lru.Fold(s0, [], maxSize) == s0
    ensures MadeFor([], Lru.Misses(s0, [], maxSize), config, zoom)
  {
  }

  /** After the outer loop no rows are left: the cells visited are the range. */
  lemma NoRowsLeft(visited: seq<Key>, zoom: int, i: int, lo: TileIndex, hi: TileIndex)
    requires hi.tx + 1 <= i
    requires visited + Rows(KeyFn(zoom), i, hi.tx + 1, lo.ty, hi.ty + 1) == TileRange(zoom, lo, hi)
    ensures visited == TileRange(zoom, lo, hi)
  {
    assert visited + [] == visited;
  }

  /** After one more row, the rows left start one further on. */
  lemma RowsStep(visited: seq<Key>, zoom: int, i: int, lo: TileIndex, hi: TileIndex)
    requires i < hi.tx + 1
    requires visited + Rows(KeyFn(zoom), i, hi.tx + 1, lo.ty, hi.ty + 1) == TileRange(zoom, lo, hi)
    ensures (visited + Row(KeyFn(zoom), i, lo.ty, hi.ty + 1)) + Rows(KeyFn(zoom), i + 1, hi.tx + 1, lo.ty, hi.ty + 1)
            == TileRange(zoom, lo, hi)
  {
    RowsFront(KeyFn(zoom), i, hi.tx + 1, lo.ty, hi.ty + 1);
    AppendAssoc(visited, Row(KeyFn(zoom), i, lo.ty, hi.ty + 1), Rows(KeyFn(zoom), i + 1, hi.tx + 1, lo.ty, hi.ty + 1));
  }

  /** Accessing `row` after `visited` extends both the key order and the new
      tiles as accessing `visited + row` in one run would. */
  lemma RunAppend(s0: seq<Key>, visited: seq<Key>, row: seq<Key>, made: seq<TileData>, rowMade: seq<TileData>,
                  maxSize: int, config: GlobalConfig, zoom: Zoom)
    requires MadeFor(made, Lru.Misses(s0, visited, maxSize), config, zoom)
    requires MadeFor(rowMade, Lru.Misses(Lru.Fold(s0, visited, maxSize), row, maxSize), config, zoom)
    ensures Lru.Fold(Lru.Fold(s0, visited, maxSize), row, maxSize) == Lru.Fold(s0, visited + row, maxSize)
    ensures MadeFor(made + rowMade, Lru.Misses(s0, visited + row, maxSize), config, zoom)
  {
    Lru.FoldAppend(s0, visited, row, maxSize);
    MadeForAppend(made, rowMade, Lru.Misses(s0, visited, maxSize),
                  Lru.Misses(Lru.Fold(s0, visited, maxSize), row, maxSize), config, zoom);
  }

  /** The tile a cell of loadTiles creates: at that cell, under the
      settings `config`, laid at the zoom level's elevation. */
  predicate NewTile(t: TileData, config: GlobalConfig, zoom: Zoom, i: int, j: int)
  {
    t.config == config && t.x == i && t.y == j && t.zoom == zoom && t.elevation == TileHeightForZoomLevel(zoom)
  }

  /** A tile just set up: the tile set of its settings, its own bounds, the
      four corners of those bounds in the scene and their centre, and meshes
      for the boundary lines and the imagery of those bounds. */
  ghost predicate FreshlySetUp(t: TileData)
    reads t
  {
    && t.tileSet == t.config.xyzTileSet
    && t.ndsTileBounds == Some(TileBoundsIn3857(t.x, t.y, t.zoom))
    && t.tileBounds == SceneCorners(t.config, t.elevation, TileBoundsIn3857(t.x, t.y, t.zoom))
    && t.centerOfGravity == Vec3(QuarterSumX(t.tileBounds), 0.0, QuarterSumZ(t.tileBounds))
    && t.meshes == Rendered([NewMesh, NewMesh, NewMesh, NewMesh], t.tileSet, t.config, t.elevation, t.zoom,
                            [TileBoundsIn3857(t.x, t.y, t.zoom)])
  }

  /** One new tile per missed cell, in order, each made for its cell. */
  ghost predicate MadeFor(made: seq<TileData>, misses: seq<Key>, config: GlobalConfig, zoom: Zoom)
  {
    |made| == |misses| && forall k :: 0 <= k < |made| ==> MadeAt(made, misses, config, zoom, k)
  }

  /** The k-th new tile was made for the k-th missed cell. */
  ghost predicate MadeAt(made: seq<TileData>, misses: seq<Key>, config: GlobalConfig, zoom: Zoom, k: int)
    requires 0 <= k < |made| && k < |misses|
  {
    misses[k] == Key(zoom, made[k].x, made[k].y) && NewTile(made[k], config, zoom, made[k].x, made[k].y)
  }

  /** The tiles of two runs, one after the other, are made for the misses of
      the two runs, one after the other. */
  lemma MadeForAppend(m1: seq<TileData>, m2: seq<TileData>, x1: seq<Key>, x2: seq<Key>, config: GlobalConfig, zoom: Zoom)
    requires MadeFor(m1, x1, config, zoom) && MadeFor(m2, x2, config, zoom)
    ensures MadeFor(m1 + m2, x1 + x2, config, zoom)
  {
    forall k | 0 <= k < |m1 + m2|
      ensures MadeAt(m1 + m2, x1 + x2, config, zoom, k)
    {
      if k < |m1| {
        assert MadeAt(m1, x1, config, zoom, k);
      } else {
        assert MadeAt(m2, x2, config, zoom, k - |m1|);
      }
    }
  }

  /** One more access: a hit adds no tile, a miss adds the one made for it. */
  lemma MadeForSnoc(made: seq<TileData>, one: seq<TileData>, misses: seq<Key>, key: Key, before: seq<Key>,
                    config: GlobalConfig, zoom: Zoom)
    requires MadeFor(made, misses, config, zoom)
    requires key in before ==> one == []
    requires key !in before ==> |one| == 1 && NewTile(one[0], config, zoom, key.x, key.y) && key.z == zoom
    ensures MadeFor(made + one, misses + (if key in before then [] else [key]), config, zoom)
  {
    var extra := if key in before then [] else [key];
    assert MadeFor(one, extra, config, zoom) by {
      if key !in before {
        assert MadeAt(one, extra, config, zoom, 0);
      }
    }
    MadeForAppend(made, one, misses, extra, config, zoom);
  }

  /** A start-up tile after refreshTiles: its tile set is the one the menu
      name selects (or its own), and its imagery was drawn again. */
  twostate predicate Refreshed(t: TileData, tileSet: string)
    reads t
  {
    t.tileSet == SwitchedTileSet(tileSet, old(t.tileSet)) && Redrawn(t)
  }

  /** A tile after refreshTiles: one that was set up drew its own bounds
      again, with its current tile set; its corners and centre stay. */
  twostate predicate Redrawn(t: TileData)
    reads t
  {
    && t.tileBounds == old(t.tileBounds) && t.centerOfGravity == old(t.centerOfGravity)
    && t.ndsTileBounds == old(t.ndsTileBounds)
    && (t.ndsTileBounds.Some? ==>
          t.meshes == Rendered(old(t.meshes), t.tileSet, t.config, t.elevation, t.zoom, [t.ndsTileBounds.value]))
    && (t.ndsTileBounds.None? ==> t.meshes == old(t.meshes))
  }
}
