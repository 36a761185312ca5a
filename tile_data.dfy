/** One map tile of the viewer (src/TileData.ts): its Mercator bounds, the
    scene corners derived from them, and the meshes its imagery is drawn on. */
module Tile {
  import opened Common
  import opened Tiles
  import opened Grid
  import opened Config

  /** The tile-set codes of the imagery server. */
  const GoogleSatelliteTiles: string := "s"
  const GoogleRoadmapTiles: string := "m"
  const GoogleHybridTiles: string := "y"

  /** A mesh, as far as the tile logic sees it: its fade level, whether it is
      drawn, whether it was disposed, the quad it was given and the imagery
      URL of its texture. */
  datatype Mesh = Mesh(visibility: real, isVisible: bool, disposed: bool,
                       corners: seq<Vec3>, textureUrl: Option<string>)

  /** A freshly created engine mesh: fully opaque, visible, no geometry yet. */
  const NewMesh: Mesh := Mesh(1.0, true, false, [], None)

  /** A Mercator point moved into the scene: subtracted from the offset,
      wrapped, and laid at `elevation` (Mercator y becomes scene z). */
  function ScenePoint(config: GlobalConfig, elevation: real, mx: real, my: real): (v: Vec3)
    ensures v.y == elevation
    ensures MinX <= v.x < MaxX && MinY <= v.z <= MaxY
    ensures v.x == MinX + ModRangeX(config.offsetX - mx - MinX)
  {
    var p := WrapCoordinates(config.offsetX - mx, config.offsetY - my);
    Vec3(p.x, elevation, p.y)
  }

  /** The four corners of a square in the scene, in the order
      (min, min), (max, min), (max, max), (min, max). */
  function SceneCorners(config: GlobalConfig, elevation: real, b: Bounds): (c: seq<Vec3>)
    ensures |c| == 4
    ensures forall k :: 0 <= k < 4 ==> c[k].y == elevation
  {
    [ScenePoint(config, elevation, b.minX, b.minY),
     ScenePoint(config, elevation, b.maxX, b.minY),
     ScenePoint(config, elevation, b.maxX, b.maxY),
     ScenePoint(config, elevation, b.minX, b.maxY)]
  }

  /** findCenterOfGravity: the midpoint of a square. */
  function CenterOfGravity(b: Bounds): XY
  {
    XY(0.5 * (b.minX + b.maxX), 0.5 * (b.minY + b.maxY))
  }

  /** The midpoint lies strictly inside any non-degenerate square. */
  lemma CenterInside(b: Bounds)
    requires b.minX < b.maxX && b.minY < b.maxY
    ensures b.minX < CenterOfGravity(b).x < b.maxX
    ensures b.minY < CenterOfGravity(b).y < b.maxY
  {
  }

  /** The tile a square's imagery is fetched for: the one holding its midpoint. */
  function SquareTile(sq: Bounds, level: Zoom): TileIndex
  {
    var c := CenterOfGravity(sq);
    MetersToTile(c.x, c.y, level)
  }

  /** The imagery URL of a slippy tile. */
  function TileUrl(tileSet: string, s: TileIndex, zoom: Zoom): string
  {
    "https://mt0.google.com/vt/lyrs=" + tileSet + "&hl=en&x=" + IntToString(s.tx)
      + "&y=" + IntToString(s.ty) + "&z=" + NatToString(zoom)
  }

  /** Distinct tiles of a level fetch distinct images: the URL names its tile. */
  lemma TileUrlNamesTile(tileSet: string, a: TileIndex, b: TileIndex, zoom: Zoom)
    ensures TileUrl(tileSet, a, zoom) == TileUrl(tileSet, b, zoom) ==> a == b
  {
    if TileUrl(tileSet, a, zoom) == TileUrl(tileSet, b, zoom) {
      var p := "https://mt0.google.com/vt/lyrs=" + tileSet + "&hl=en&x=";
      var z := "z=" + NatToString(zoom);
      var ra := "y=" + (IntToString(a.ty) + ['&'] + z);
      var rb := "y=" + (IntToString(b.ty) + ['&'] + z);
      TileUrlFields(tileSet, a, zoom);
      TileUrlFields(tileSet, b, zoom);
      DropCommonPrefix(p, IntToString(a.tx) + ['&'] + ra, IntToString(b.tx) + ['&'] + rb);
      IntToStringAvoids(a.tx, '&');
      IntToStringAvoids(b.tx, '&');
      SplitAtSeparator(IntToString(a.tx), ra, IntToString(b.tx), rb, '&');
      IntToStringInjective(a.tx, b.tx);
      DropCommonPrefix("y=", IntToString(a.ty) + ['&'] + z, IntToString(b.ty) + ['&'] + z);
      IntToStringAvoids(a.ty, '&');
      IntToStringAvoids(b.ty, '&');
      SplitAtSeparator(IntToString(a.ty), z, IntToString(b.ty), z, '&');
      IntToStringInjective(a.ty, b.ty);
    }
  }

  /** The URL as a fixed head followed by the column and the rest, each field
      ended by `&`. */
  lemma TileUrlFields(tileSet: string, t: TileIndex, zoom: Zoom)
    ensures TileUrl(tileSet, t, zoom)
         == ("https://mt0.google.com/vt/lyrs=" + tileSet + "&hl=en&x=")
            + (IntToString(t.tx) + ['&'] + ("y=" + (IntToString(t.ty) + ['&'] + ("z=" + NatToString(zoom)))))
  {
    assert "&y=" == ['&'] + "y=" && "&z=" == ['&'] + "z=";
  }

  /** The URL a square of the given level is textured from. */
  function SquareUrl(tileSet: string, sq: Bounds, level: Zoom): string
  {
    var t := SquareTile(sq, level);
    TileUrl(tileSet, ToSlippy(t.tx, t.ty, level), level)
  }

  /** A tile drawn at its own level fetches the image of exactly that tile. */
  lemma OwnSquareUrl(tileSet: string, tx: int, ty: int, zoom: Zoom)
    ensures SquareUrl(tileSet, TileBoundsIn3857(tx, ty, zoom), zoom)
         == TileUrl(tileSet, ToSlippy(tx, ty, zoom), zoom)
  {
    TileMidpointMapsBack(tx, ty, zoom);
  }

  /** loadXYZMesh: the mesh gets the square's quad and the square's image. */
  function Loaded(m: Mesh, url: string, corners: seq<Vec3>): Mesh
  {
    m.(corners := corners, textureUrl := Some(url))
  }

  /** The meshes after drawing the given squares: mesh i shows square i; the
      meshes without a square keep what they had. */
  function Rendered(meshes: seq<Mesh>, tileSet: string, config: GlobalConfig, elevation: real,
                    level: Zoom, squares: seq<Bounds>): (r: seq<Mesh>)
    ensures |r| == |meshes|
  {
    seq(|meshes|, i requires 0 <= i < |meshes| =>
      if i < |squares| then
        Loaded(meshes[i], SquareUrl(tileSet, squares[i], level), SceneCorners(config, elevation, squares[i]))
      else meshes[i])
  }

  /** The number of passes of `for (i = 0; i < 2^d; i++)`: 2^d for d >= 0,
      and a single pass when 2^d is a fraction. */
  function PerSide(d: int): (n: nat)
    ensures n >= 1
    ensures Pow2(d) <= n as real && (n - 1) as real < Pow2(d)
  {
    if d >= 0 then Pow2Nat(d) else 1
  }

  /** A counter below the real bound 2^d is exactly a counter below PerSide(d). */
  lemma PassCount(i: int, d: int)
    requires i >= 0
    ensures (i as real) < Pow2(d) <==> i < PerSide(d)
  {
  }

  /** Square (i, j) of a split of `b`, each side 2^-d of the original. */
  function Square(b: Bounds, d: int, i: int, j: int): Bounds
  {
    var divX := Pow2(-d) * (b.maxX - b.minX);
    var divY := Pow2(-d) * (b.maxY - b.minY);
    Bounds(b.minX + divX * i as real, b.minY + divY * j as real,
           b.minX + divX * (i + 1) as real, b.minY + divY * (j + 1) as real)
  }

  function SquareFn(b: Bounds, d: int): (int, int) -> Bounds
  {
    (i, j) => Square(b, d, i, j)
  }

  /** createTileBoundsAtLevel: the tile's own bounds at its own level, otherwise
      the squares of a split into 2^d per side (d = level - zoom), i-major. */
  function Subdivision(b: Bounds, zoom: Zoom, level: Zoom): seq<Bounds>
  {
    if level == zoom then [b]
    else
      var n := PerSide(level - zoom);
      Rows(SquareFn(b, level - zoom), 0, n, 0, n)
  }

  /** The split has 2^d * 2^d squares (one when the level is coarser). */
  lemma SubdivisionCount(b: Bounds, zoom: Zoom, level: Zoom)
    ensures |Subdivision(b, zoom, level)| == PerSide(level - zoom) * PerSide(level - zoom)
    ensures level >= zoom ==> |Subdivision(b, zoom, level)| == Pow2Nat(level - zoom) * Pow2Nat(level - zoom)
  {
    if level != zoom {
      var n := PerSide(level - zoom);
      RowsLength(SquareFn(b, level - zoom), 0, n, 0, n);
    }
  }

  /** A finer split tiles the original: it starts at the original's minimum
      corner and ends at its maximum corner. */
  lemma SubdivisionSpansBounds(b: Bounds, zoom: Zoom, level: Zoom)
    requires level >= zoom
    ensures var s := Subdivision(b, zoom, level);
            |s| > 0 && s[0].minX == b.minX && s[0].minY == b.minY
            && s[|s| - 1].maxX == b.maxX && s[|s| - 1].maxY == b.maxY
  {
    var d := level - zoom;
    if level != zoom {
      var n := PerSide(d);
      RowsEnds(SquareFn(b, d), 0, n, 0, n);
      LastSquareEndsAtMax(b, d);
    }
  }

  lemma LastSquareEndsAtMax(b: Bounds, d: int)
    requires d >= 0
    ensures var n := PerSide(d);
            Square(b, d, n - 1, n - 1).maxX == b.maxX && Square(b, d, n - 1, n - 1).maxY == b.maxY
  {
    var n := PerSide(d);
    var p := Pow2(-d);
    PerSideInverse(d);
    ScaleBack(p, b.maxX - b.minX, n as real);
    ScaleBack(p, b.maxY - b.minY, n as real);
    assert (n - 1 + 1) as real == n as real;
  }

  lemma PerSideInverse(d: int)
    requires d >= 0
    ensures Pow2(-d) * PerSide(d) as real == 1.0
  {
    Pow2Neg(d);
  }

  /** Every square of a split spans 2^-d of the original on both axes. */
  lemma SubdivisionSquareSize(b: Bounds, zoom: Zoom, level: Zoom, sq: Bounds)
    requires sq in Subdivision(b, zoom, level)
    ensures sq.maxX - sq.minX == Pow2(zoom - level) * (b.maxX - b.minX)
    ensures sq.maxY - sq.minY == Pow2(zoom - level) * (b.maxY - b.minY)
  {
    var d := level - zoom;
    if level != zoom {
      var n := PerSide(d);
      var f := SquareFn(b, d);
      RowsMembers(f, 0, n, 0, n, sq);
      var i, j :| 0 <= i < n && 0 <= j < n && sq == f(i, j);
      SquareSpanAt(b, zoom, level, i, j);
      assert sq == Square(b, d, i, j);
    } else {
      assert Pow2(zoom - level) == 1.0;
    }
  }

  lemma SquareSpan(b: Bounds, d: int, i: int, j: int)
    ensures var sq := Square(b, d, i, j);
            sq.maxX - sq.minX == Pow2(-d) * (b.maxX - b.minX)
            && sq.maxY - sq.minY == Pow2(-d) * (b.maxY - b.minY)
  {
    SquareSide(b.minX, Pow2(-d) * (b.maxX - b.minX), i);
    SquareSide(b.minY, Pow2(-d) * (b.maxY - b.minY), j);
  }

  lemma SquareSpanAt(b: Bounds, zoom: Zoom, level: Zoom, i: int, j: int)
    ensures var sq := Square(b, level - zoom, i, j);
            sq.maxX - sq.minX == Pow2(zoom - level) * (b.maxX - b.minX)
            && sq.maxY - sq.minY == Pow2(zoom - level) * (b.maxY - b.minY)
  {
    SquareSpan(b, level - zoom, i, j);
    assert -(level - zoom) == zoom - level;
  }

  lemma ScaleBack(p: real, w: real, n: real)
    requires p * n == 1.0
    ensures (p * w) * n == w
  {
    assert (p * w) * n == (p * n) * w;
  }

  lemma SquareSide(lo: real, div: real, i: int)
    ensures (lo + div * (i + 1) as real) - (lo + div * i as real) == div
  {
  }

  /** The fade-out step of hideBy: down by a fifth of `v`, not below zero. */
  function FadeOut(vis: real, v: real): (r: real)
    ensures r == Max(0.0, vis - 0.2 * v)
  {
    var d := vis - 0.2 * v;
    if d < 0.0 then 0.0 else d
  }

  /** The fade-in step of showBy: up by `v`, not above one. */
  function FadeIn(vis: real, v: real): (r: real)
    ensures r == Min(1.0, vis + v)
  {
    var d := vis + v;
    if d > 1.0 then 1.0 else d
  }

  ghost predicate VisibilitiesInRange(ms: seq<Mesh>)
  {
    forall i :: 0 <= i < |ms| ==> 0.0 <= ms[i].visibility <= 1.0
  }

  function HiddenBy(ms: seq<Mesh>, v: real): (r: seq<Mesh>)
    ensures |r| == |ms|
  {
    seq(|ms|, i requires 0 <= i < |ms| => ms[i].(visibility := FadeOut(ms[i].visibility, v)))
  }

  function ShownBy(ms: seq<Mesh>, v: real): (r: seq<Mesh>)
    ensures |r| == |ms|
  {
    seq(|ms|, i requires 0 <= i < |ms| => ms[i].(visibility := FadeIn(ms[i].visibility, v)))
  }

  function WithVisible(ms: seq<Mesh>, b: bool): (r: seq<Mesh>)
    ensures |r| == |ms|
  {
    seq(|ms|, i requires 0 <= i < |ms| => ms[i].(isVisible := b))
  }

  function Disposed(ms: seq<Mesh>): (r: seq<Mesh>)
    ensures |r| == |ms|
  {
    seq(|ms|, i requires 0 <= i < |ms| => ms[i].(disposed := true))
  }

  /** A fade step moves every mesh towards its end of [0, 1] and never out of
      it: hideBy lowers, showBy raises, by at most the step. */
  lemma FadesStayInRange(ms: seq<Mesh>, v: real)
    requires VisibilitiesInRange(ms) && v >= 0.0
    ensures VisibilitiesInRange(HiddenBy(ms, v)) && VisibilitiesInRange(ShownBy(ms, v))
    ensures forall i :: 0 <= i < |ms| ==>
              ms[i].visibility - 0.2 * v <= HiddenBy(ms, v)[i].visibility <= ms[i].visibility
              && ms[i].visibility <= ShownBy(ms, v)[i].visibility <= ms[i].visibility + v
  {
  }

  /** Enough fade-out steps make a mesh fully transparent, and enough fade-in
      steps make it fully opaque, whatever it started from. */
  lemma FadesSaturate(vis: real, v: real)
    requires 0.0 <= vis <= 1.0 && v >= 5.0
    ensures FadeOut(vis, v) == 0.0 && FadeIn(vis, v + 1.0) == 1.0
  {
  }

  class TileData {
    const config: GlobalConfig
    const x: int
    const y: int
    const elevation: real
    const zoom: Zoom

    /** The scene corners of every setup so far. */
    var tileBounds: seq<Vec3>
    var centerOfGravity: Vec3
    var tileSet: string
    var meshes: seq<Mesh>
    /** The unshifted Mercator bounds, once set up. */
    var ndsTileBounds: Option<Bounds>

    constructor(config: GlobalConfig, x: int, y: int, elevation: real, zoom: Zoom)
      ensures this.config == config && this.x == x && this.y == y
      ensures this.elevation == elevation && this.zoom == zoom
      ensures tileBounds == [] && centerOfGravity == Vec3(0.0, 0.0, 0.0)
      ensures tileSet == config.xyzTileSet && meshes == [] && ndsTileBounds == None
    {
      this.config := config;
      this.x := x;
      this.y := y;
      this.elevation := elevation;
      this.zoom := zoom;
      tileBounds := [];
      centerOfGravity := Vec3(0.0, 0.0, 0.0);
      meshes := [];
      ndsTileBounds := None;
      tileSet := config.xyzTileSet;
    }

    /** Everything but the meshes is as it was. */
    twostate predicate OnlyMeshesChanged()
      reads this
    {
      tileBounds == old(tileBounds) && centerOfGravity == old(centerOfGravity)
      && tileSet == old(tileSet) && ndsTileBounds == old(ndsTileBounds)
    }

    /** setupTileBoundaryLines: records the wrapped scene corners, moves the
        centre of gravity by a quarter of every recorded corner, creates one
        mesh per bounds value and draws the tile's own image. */
    method SetupTileBoundaryLines() returns (complete: bool)
      modifies this
      ensures var b := TileBoundsIn3857(x, y, zoom);
              && tileBounds == old(tileBounds) + SceneCorners(config, elevation, b)
              && centerOfGravity == Vec3(old(centerOfGravity).x + QuarterSumX(tileBounds),
                                         old(centerOfGravity).y,
                                         old(centerOfGravity).z + QuarterSumZ(tileBounds))
              && ndsTileBounds == Some(b)
              && meshes == Rendered(old(meshes) + [NewMesh, NewMesh, NewMesh, NewMesh],
                                    tileSet, config, elevation, zoom, [b])
      ensures tileSet == old(tileSet)
      ensures complete
    {
      var b := TileBoundsIn3857(x, y, zoom);
      tileBounds := tileBounds + SceneCorners(config, elevation, b);
      var i := 0;
      while i < |tileBounds|
        invariant 0 <= i <= |tileBounds|
        invariant tileBounds == old(tileBounds) + SceneCorners(config, elevation, b)
        invariant tileSet == old(tileSet) && meshes == old(meshes)
        invariant centerOfGravity == Vec3(old(centerOfGravity).x + QuarterSumX(tileBounds[..i]),
                                          old(centerOfGravity).y,
                                          old(centerOfGravity).z + QuarterSumZ(tileBounds[..i]))
      {
        assert tileBounds[..i + 1][..i] == tileBounds[..i];
        centerOfGravity := centerOfGravity.(x := centerOfGravity.x + tileBounds[i].x / 4.0,
                                            z := centerOfGravity.z + tileBounds[i].z / 4.0);
        i := i + 1;
      }
      assert tileBounds[..i] == tileBounds;
      ndsTileBounds := Some(b);
      meshes := meshes + [NewMesh, NewMesh, NewMesh, NewMesh];
      complete := RenderTiles(zoom, b);
    }

    /** renderTiles: mesh i gets square i's quad and image. When there are
        more squares than meshes the source fails on the first square without
        a mesh; the squares before it stay drawn and `complete` is false. */
    method RenderTiles(level: Zoom, bounds: Bounds) returns (complete: bool)
      modifies this
      ensures complete <==> |Subdivision(bounds, zoom, level)| <= |old(meshes)|
      ensures meshes == Rendered(old(meshes), tileSet, config, elevation, level,
                                 Subdivision(bounds, zoom, level))
      ensures OnlyMeshesChanged()
    {
      var squares := CreateTileBoundsAtLevel(level, bounds);
      var i := 0;
      while i < |squares|
        invariant 0 <= i <= |squares|
        invariant meshes == Rendered(old(meshes), tileSet, config, elevation, level, squares[..i])
        invariant i <= |old(meshes)|
        invariant OnlyMeshesChanged()
      {
        if i >= |meshes| {
          assert Rendered(old(meshes), tileSet, config, elevation, level, squares[..i])
              == Rendered(old(meshes), tileSet, config, elevation, level, squares);
          return false;
        }
        var t := SquareTile(squares[i], level);
        var sxy := ToSlippy(t.tx, t.ty, level);
        var url := TileUrl(tileSet, sxy, level);
        meshes := meshes[i := Loaded(meshes[i], url, SceneCorners(config, elevation, squares[i]))];
        assert meshes == Rendered(old(meshes), tileSet, config, elevation, level, squares[..i + 1]);
        i := i + 1;
      }
      assert squares[..i] == squares;
      return true;
    }

    /** refreshTiles: draws the tile's own image again (after a tile-set
        change). A tile that was never set up has no mesh; the source fails
        on it and the model leaves it as it is. */
    method RefreshTiles() returns (complete: bool)
      modifies this
      ensures ndsTileBounds.None? ==> !complete && meshes == old(meshes)
      ensures ndsTileBounds.Some? ==>
                complete == (1 <= |old(meshes)|) &&
                meshes == Rendered(old(meshes), tileSet, config, elevation, zoom, [ndsTileBounds.value])
      ensures OnlyMeshesChanged()
    {
      if ndsTileBounds.None? {
        return false;
      }
      complete := RenderTiles(zoom, ndsTileBounds.value);
    }

    /** createTileBoundsAtLevel, with its two nested counting loops. */
    method CreateTileBoundsAtLevel(level: Zoom, bounds: Bounds) returns (squares: seq<Bounds>)
      ensures squares == Subdivision(bounds, zoom, level)
    {
      if level == zoom {
        return [bounds];
      }
      var d := level - zoom;
      var count := Pow2(d);
      ghost var n := PerSide(d);
      ghost var f := SquareFn(bounds, d);
      squares := [];
      var i := 0;
      while (i as real) < count
        invariant 0 <= i <= n
        invariant squares == Rows(f, 0, i, 0, n)
      {
        PassCount(i, d);
        var j := 0;
        while (j as real) < count
          invariant 0 <= j <= n
          invariant squares == Rows(f, 0, i, 0, n) + Row(f, i, 0, j)
        {
          PassCount(j, d);
          var sq := Square(bounds, d, i, j);
          squares := squares + [sq];
          j := j + 1;
        }
        PassCount(j, d);
        i := i + 1;
      }
      PassCount(i, d);
    }

    /** hide: no mesh is drawn. */
    method Hide()
      modifies this
      ensures meshes == WithVisible(old(meshes), false) && OnlyMeshesChanged()
    {
      var i := 0;
      while i < |meshes|
        invariant 0 <= i <= |meshes| && |meshes| == |old(meshes)|
        invariant forall k :: 0 <= k < i ==> meshes[k] == old(meshes)[k].(isVisible := false)
        invariant forall k :: i <= k < |meshes| ==> meshes[k] == old(meshes)[k]
        invariant OnlyMeshesChanged()
      {
        meshes := meshes[i := meshes[i].(isVisible := false)];
        i := i + 1;
      }
    }

    /** show: every mesh is drawn. */
    method Show()
      modifies this
      ensures meshes == WithVisible(old(meshes), true) && OnlyMeshesChanged()
    {
      var i := 0;
      while i < |meshes|
        invariant 0 <= i <= |meshes| && |meshes| == |old(meshes)|
        invariant forall k :: 0 <= k < i ==> meshes[k] == old(meshes)[k].(isVisible := true)
        invariant forall k :: i <= k < |meshes| ==> meshes[k] == old(meshes)[k]
        invariant OnlyMeshesChanged()
      {
        meshes := meshes[i := meshes[i].(isVisible := true)];
        i := i + 1;
      }
    }

    /** hideBy: one fade-out step on every mesh. */
    method HideBy(v: real)
      modifies this
      ensures meshes == HiddenBy(old(meshes), v) && OnlyMeshesChanged()
    {
      var i := 0;
      while i < |meshes|
        invariant 0 <= i <= |meshes| && |meshes| == |old(meshes)|
        invariant forall k :: 0 <= k < i ==>
                    meshes[k] == old(meshes)[k].(visibility := FadeOut(old(meshes)[k].visibility, v))
        invariant forall k :: i <= k < |meshes| ==> meshes[k] == old(meshes)[k]
        invariant OnlyMeshesChanged()
      {
        var vis := meshes[i].visibility - 0.2 * v;
        if vis < 0.0 {
          vis := 0.0;
        }
        meshes := meshes[i := meshes[i].(visibility := vis)];
        i := i + 1;
      }
    }

    /** showBy: one fade-in step on every mesh. */
    method ShowBy(v: real)
      modifies this
      ensures meshes == ShownBy(old(meshes), v) && OnlyMeshesChanged()
    {
      var i := 0;
      while i < |meshes|
        invariant 0 <= i <= |meshes| && |meshes| == |old(meshes)|
        invariant forall k :: 0 <= k < i ==>
                    meshes[k] == old(meshes)[k].(visibility := FadeIn(old(meshes)[k].visibility, v))
        invariant forall k :: i <= k < |meshes| ==> meshes[k] == old(meshes)[k]
        invariant OnlyMeshesChanged()
      {
        var vis := meshes[i].visibility + v;
        if vis > 1.0 {
          vis := 1.0;
        }
        meshes := meshes[i := meshes[i].(visibility := vis)];
        i := i + 1;
      }
    }

    /** What delete leaves: every mesh disposed and nothing else changed. */
    twostate predicate Deleted()
      reads this
    {
      meshes == Disposed(old(meshes)) && OnlyMeshesChanged()
    }

    /** delete (and dispose): every mesh is released. */
    method Delete()
      modifies this
      ensures Deleted()
    {
      var i := 0;
      while i < |meshes|
        invariant 0 <= i <= |meshes| && |meshes| == |old(meshes)|
        invariant forall k :: 0 <= k < i ==> meshes[k] == old(meshes)[k].(disposed := true)
        invariant forall k :: i <= k < |meshes| ==> meshes[k] == old(meshes)[k]
        invariant OnlyMeshesChanged()
      {
        meshes := meshes[i := meshes[i].(disposed := true)];
        i := i + 1;
      }
    }
  }

  /** The sums the centre-of-gravity loop builds: a quarter of every x (z). */
  function QuarterSumX(vs: seq<Vec3>): real
    decreases |vs|
  {
    if vs == [] then 0.0 else QuarterSumX(vs[..|vs| - 1]) + vs[|vs| - 1].x / 4.0
  }

  function QuarterSumZ(vs: seq<Vec3>): real
    decreases |vs|
  {
    if vs == [] then 0.0 else QuarterSumZ(vs[..|vs| - 1]) + vs[|vs| - 1].z / 4.0
  }

  /** On a tile set up once, the centre of gravity is the mean of its four
      scene corners. */
  lemma FreshCentroidIsMean(c: seq<Vec3>)
    requires |c| == 4
    ensures QuarterSumX(c) == (c[0].x + c[1].x + c[2].x + c[3].x) / 4.0
    ensures QuarterSumZ(c) == (c[0].z + c[1].z + c[2].z + c[3].z) / 4.0
  {
    assert c[..3][..2] == c[..2];
    assert c[..2][..1] == c[..1];
    assert c[..1][..0] == [];
    assert QuarterSumX(c[..1]) == c[0].x / 4.0;
    assert QuarterSumZ(c[..1]) == c[0].z / 4.0;
  }

  /** On a fresh tile, setup draws the tile's own image on the first of the
      four meshes it creates and leaves the other three blank. */
  lemma FreshSetupDrawsOwnImage(tileSet: string, config: GlobalConfig, elevation: real, tx: int, ty: int, zoom: Zoom)
    ensures var b := TileBoundsIn3857(tx, ty, zoom);
            var ms := Rendered([] + [NewMesh, NewMesh, NewMesh, NewMesh], tileSet, config, elevation, zoom, [b]);
            |ms| == 4
            && ms[0].textureUrl == Some(TileUrl(tileSet, ToSlippy(tx, ty, zoom), zoom))
            && ms[0].corners == SceneCorners(config, elevation, b)
            && ms[1] == NewMesh && ms[2] == NewMesh && ms[3] == NewMesh
  {
    OwnSquareUrl(tileSet, tx, ty, zoom);
  }
}
