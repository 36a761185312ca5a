# Landmarks tiling engine — a Dafny model

This project models the geospatial tiling engine of the Landmarks 3D map
viewer. The viewer streams aerial-imagery tiles from a slippy-tile provider
and lays them out in a Babylon scene. The model covers:

- **Projection and tile grid** (`tiles.dfy`, module `Tiles`). This is the
  `Tiler` class of `src/tiles.ts`: EPSG:3857 meters ↔ pixels ↔ tile indices,
  the bounds of a tile, the flip to slippy rows, and the wrap of x over the
  antimeridian.
- **Tiles** (`tile_data.dfy`, module `Tile`). This is `TileData` of
  `src/TileData.ts`, a class whose fields change in place:
  - its scene corners, centre of gravity and Mercator bounds;
  - the split of a tile into 2^d × 2^d squares at a finer level, with the two
    nested counting loops of `createTileBoundsAtLevel`;
  - the meshes the imagery is drawn on, and the visibility sweeps.
- **Tile cache** (`tile_cache.dfy`, module `Cache`). This is `TileCache` of
  `src/TileCache.ts`. It keeps three structures:
  - a map nested by z, x and y (`nested_map.dfy`);
  - the recency list;
  - the reverse map from tile to key.

  Every method is proved against a function on a value snapshot
  (`cache_state.dfy`). The snapshot's key order is the least-recently-used
  order defined in `lru.dfy`, and the consistency of the three structures is
  an invariant that every method keeps.
- **Controller** (`app.dfy`, module `Viewer`). These are the tile-demand parts
  of `App` in `src/app.ts`:
  - the zoom tier chosen from the camera height and pitch;
  - the per-zoom elevation and reach tables;
  - the ground footprint and its bounding box;
  - the nested loop that fills the cache, `loadTiles`;
  - the bounds of the known locations, `getLocationBounds`;
  - the imagery-set switch, `refreshTiles`.

  `loadTiles` is proved to leave the cache's key order exactly where the
  least-recently-used model puts it after visiting the demanded cells row by
  row. It also creates exactly one new tile for every cell that misses.
- **Location index** (`tile_mapping.dfy`, module `Mapping`). This is
  `TileMappings` of `src/TileMapping.ts`: places grouped under a
  "tx/ty/zoom" key.
- **Undo** (`undo_stack.dfy`, `box_undo.dfy`). This is the bounded undo stack
  of `src/undo/undostack.ts`, and the create/delete custom-box records, which
  edit a shared name-to-box map.

Shared pieces live in `common.dfy`: options, extended reals, number
printing and parsing, and distinctness. `grid.dfy` holds the row-major
sequence of a two-index loop. `config.dfy` holds the settings record of
`src/GlobalConfig.ts`.

The model follows the code as written in these points:

- The zoom table depends on the camera pitch as well as its height, and its
  top tier is strict. A height of 250 gives zoom 18, not 19
  (`Viewer.TopTierIsStrict`).
- The code has no origin recentering and no cap on the number of tiles one
  load may create. It issues no second fetch for a footprint that straddles
  the antimeridian. None of these appears in the model.
- `refreshTiles` walks the start-up tiles (`App.tiles`), not the cached ones.
- `src/app.ts:352` calls `tileCache.get(i, j)` with two arguments, and
  `src/app.ts:358` calls `tileCache.put(td)` with one. The model calls them
  with the zoom, column and row the loop has at hand: `get(zoom, i, j)` and
  `put(zoom, i, j, td)`.
  - The calls as written behave quite differently.
  - `get(i, j)` never hits, because the outer keys of `cacheMap` are tiles,
    not zoom levels. So every load creates every tile of its range again.
  - `put(td)` stores the tile as the zoom key and pushes `undefined` onto
    the list. So `cacheMap` gains one entry per tile.
  - The list holds only `undefined` entries, so `evict` skips every entry it
    removes (src/TileCache.ts:60-61). No tile is ever disposed, and the
    filters in `activateZLevel` and `showAndHide` (src/TileCache.ts:86 and
    93) leave nothing to show or hide.

## Model

| member | source | states |
|---|---|---|
| `Common.NatToString` | src/TileData.ts:96 | the decimal text of a natural number is nonempty and all digits |
| `Common.IntToString` | src/TileMapping.ts:19 | the decimal text of an integer is nonempty; a leading '-' exactly when it is negative; otherwise all digits |
| `Common.NatToStringRoundTrip` | src/TileData.ts:96 | parsing the printed zoom gives the zoom back |
| `Common.IntToStringRoundTrip` | src/TileMapping.ts:19 | parsing a printed integer gives the integer back |
| `Common.IntToStringInjective` | src/TileMapping.ts:19 | two integers with the same printed text are equal |
| `Tiles.Pow2` | src/TileData.ts:117-119 | 2^e is positive for either sign of e, is the whole power for e >= 0, and is at most 1/2 for e < 0 |
| `Tiles.Ceil` | src/tiles.ts:95-96 | Math.ceil: the least integer c with r <= c |
| `Tiles.Resolution` | src/tiles.ts:83-85 | meters per pixel are positive, and resolution times 2^zoom is the initial resolution |
| `Tiles.ResolutionHalves` | src/tiles.ts:83-85 | each zoom step halves the resolution |
| `Tiles.ResolutionAtZoomZero` | src/tiles.ts:17-22 | at zoom 0 one tile of 256 pixels spans the whole projected width 2 · originShift |
| `Tiles.MetersPixelsRoundTrip` | src/tiles.ts:60-80 | metersToPixels and pixelsToMeters undo each other, in both orders, at the same zoom |
| `Tiles.PixelsToTile` | src/tiles.ts:94-98 | the tile found holds the pixel: above its lower edge and at most its upper edge, on both axes |
| `Tiles.LaloMetersRoundTrip` | src/tiles.ts:32-50 | metersToLalo undoes laloToMeters whenever the latitude functions are mutually inverse |
| `Tiles.LaloToTileColumn` | src/tiles.ts:108-125 | the column of laloToTile is ceil((lon + 180) / 360 · 2^zoom) − 1 |
| `Tiles.TileBoundsIn3857` | src/tiles.ts:136-140 | a tile's bounds are a proper box whose sides are 256 · resolution |
| `Tiles.WholeWorldTile` | src/tiles.ts:136-140 | tile (0, 0) at zoom 0 is the whole projected square |
| `Tiles.MetersInTileBounds` | src/tiles.ts:122-140 | a point lies within the bounds of the tile metersToTile picks for it |
| `Tiles.TileMidpointMapsBack` | src/tiles.ts:122-140 | the midpoint of a tile's bounds maps back to that tile |
| `Tiles.MetersToTileMonotone` | src/tiles.ts:122-125 | the tile column and row never decrease as the coordinates grow |
| `Tiles.TileLongitudes` | src/tiles.ts:151-156 | a tile's longitudes are tx · 360 / 2^zoom − 180 and (tx + 1) · 360 / 2^zoom − 180 |
| `Tiles.LaloToTileBounds4326` | src/tiles.ts:159-170 | the bounds of the tile holding (lat, lon) contain the point: always its longitude, and its latitude whenever the latitude half of the projection is increasing and inverse at `lat` |
| `Tiles.LaloToTileBounds3857` | src/tiles.ts:180-183 | the meter bounds returned contain the projected point |
| `Tiles.ToSlippy` | src/tiles.ts:192-194 | the column is kept, and a row is inside the 2^zoom grid exactly when its flip is |
| `Tiles.ToSlippyInvolution` | src/tiles.ts:192-194 | flipping the row twice gives the tile back |
| `Tiles.OffsetMeters` | src/tiles.ts:196-198 | the offset hook returns its arguments unchanged |
| `Tiles.RemRangeX` | src/tiles.ts:203 | JavaScript's % over the x range: the remainder has the dividend's sign and is smaller than the range |
| `Tiles.ModRangeX` | src/tiles.ts:203 | the floored modulo over the x range lies in [0, RANGE_X) |
| `Tiles.WrapCoordinates` | src/tiles.ts:200-209 | x lands in [MIN_X, MAX_X) as MIN_X plus the floored modulo of x − MIN_X; y is kept inside [MIN_Y, MAX_Y], raised to MIN_Y below it and lowered to MAX_Y above it |
| `Tiles.WrapIsMod` | src/tiles.ts:203 | the double JavaScript remainder equals the floored modulo |
| `Tiles.WrapKeepsInside` | src/tiles.ts:200-209 | a point already inside the square is kept |
| `Tiles.WrapIdempotent` | src/tiles.ts:200-209 | wrapping twice is wrapping once |
| `Tiles.WrapPeriodic` | src/tiles.ts:200-209 | moving once round the world in x does not change the wrapped point |
| `Tile.ScenePoint` | src/TileData.ts:52-59 | a corner is laid at the tile's elevation and wrapped into the projected square |
| `Tile.SceneCorners` | src/TileData.ts:52-59 | four corners, all at the tile's elevation |
| `Tile.CenterInside` | src/TileData.ts:135-139 | the centre of gravity of a proper square lies strictly inside it |
| `Tile.TileUrlNamesTile` | src/TileData.ts:96 | two tiles with the same imagery URL at a level are the same tile |
| `Tile.OwnSquareUrl` | src/TileData.ts:77-96 | a tile drawn at its own level fetches the image of exactly its own slippy tile |
| `Tile.Rendered` | src/TileData.ts:93-104 | drawing never changes the number of meshes |
| `Tile.PerSide` | src/TileData.ts:119-122 | the passes of `for (i = 0; i < 2^d; i++)`: at least one, and the least count not below 2^d |
| `Tile.PassCount` | src/TileData.ts:121-122 | a counter passes the real bound 2^d exactly when it is below PerSide(d) |
| `Tile.SubdivisionCount` | src/TileData.ts:111-133 | the split has PerSide(d)² squares, which is 2^d · 2^d for a finer level |
| `Tile.SubdivisionSpansBounds` | src/TileData.ts:111-133 | a finer split starts at the tile's minimum corner and ends at its maximum corner |
| `Tile.SubdivisionSquareSize` | src/TileData.ts:117-128 | every square of the split spans 2^-d of the tile on both axes |
| `Tile.FadeOut` | src/TileData.ts:195-202 | hideBy's step: down by a fifth of v, not below zero |
| `Tile.FadeIn` | src/TileData.ts:204-213 | showBy's step: up by v, not above one |
| `Tile.FadesStayInRange` | src/TileData.ts:195-213 | fade steps keep every visibility in [0, 1]; hideBy lowers it by at most 0.2 · v, and showBy raises it by at most v |
| `Tile.FadesSaturate` | src/TileData.ts:195-213 | a large enough step makes a mesh fully transparent or fully opaque |
| `Tile.TileData.constructor` | src/TileData.ts:23-26 | a new tile takes the settings' tile set and has no corners, meshes or bounds |
| `Tile.TileData.SetupTileBoundaryLines` | src/TileData.ts:32-73 | appends the four wrapped corners, moves the centre by a quarter of every recorded corner, records the bounds, adds four meshes and draws the tile's own square |
| `Tile.TileData.RenderTiles` | src/TileData.ts:75-105 | mesh i shows square i of the split; it completes exactly when there are enough meshes; nothing but the meshes changes |
| `Tile.TileData.RefreshTiles` | src/TileData.ts:107-109 | a set-up tile redraws its own bounds with its current tile set; a tile never set up is left as it is |
| `Tile.TileData.CreateTileBoundsAtLevel` | src/TileData.ts:111-133 | the nested loops produce exactly the i-major split of the bounds |
| `Tile.TileData.Hide` | src/TileData.ts:187-189 | every mesh is marked not visible, and nothing else changes |
| `Tile.TileData.Show` | src/TileData.ts:191-193 | every mesh is marked visible, and nothing else changes |
| `Tile.TileData.HideBy` | src/TileData.ts:195-202 | every mesh takes one fade-out step, and nothing else changes |
| `Tile.TileData.ShowBy` | src/TileData.ts:204-213 | every mesh takes one fade-in step, and nothing else changes |
| `Tile.TileData.Delete` | src/TileData.ts:183-185 | every mesh is disposed, and nothing else changes |
| `Tile.FreshCentroidIsMean` | src/TileData.ts:56-65 | on a fresh tile the centre of gravity is the mean of its four corners |
| `Tile.FreshSetupDrawsOwnImage` | src/TileData.ts:67-71 | a fresh setup draws the tile's own image on the first mesh and leaves the other three blank |
| `NestedMap.Get3` | src/TileCache.ts:18-21 | a key is found exactly when its z, x and y levels are all present |
| `NestedMap.Set3` | src/TileCache.ts:35-43 | the key now finds the tile, every other key finds what it found before, and no inner map is left empty |
| `NestedMap.Remove3` | src/TileCache.ts:62-72 | the key is gone, every other key is unaffected, and emptied inner maps are pruned |
| `Lru.RemoveFirst` | src/TileCache.ts:51-53 | removing the first occurrence shortens a list holding x by one, keeps a list without x, and keeps every other entry |
| `Lru.Touch` | src/TileCache.ts:50-56 | a held entry moves to the most-recently-used end; the length and the set of entries are kept; an absent entry changes nothing |
| `Lru.Capacity` | src/TileCache.ts:31 | the size kept is at least one and at least maxSize |
| `Lru.Victim` | src/TileCache.ts:31-33 | an entry is evicted exactly when the list is nonempty and has reached maxSize, and it is the least recently used |
| `Lru.InsertBounded` | src/TileCache.ts:30-47 | a put keeps the list within capacity and puts the new entry last |
| `Lru.TouchNoDup` | src/TileCache.ts:50-56 | a use keeps the list duplicate-free |
| `Lru.InsertNoDup` | src/TileCache.ts:30-47 | a put of a new entry keeps the list duplicate-free |
| `Lru.FoldAppend` | src/app.ts:349-360 | loading two runs of cells in turn is loading their concatenation, for both the order and the misses |
| `Lru.FoldInvariant` | src/TileCache.ts:30-56 | any run of accesses keeps the order duplicate-free and within capacity |
| `Lru.LastAccessIsNewest` | src/TileCache.ts:22-45 | the last entry accessed is the most recently used afterwards |
| `Lru.MissesAreAccessed` | src/app.ts:352-358 | only accessed cells are created, and every accessed cell not held at the start is created |
| `Lru.FoldSubset` | src/TileCache.ts:30-56 | the order only ever holds entries it started with or that were accessed |
| `Lru.FreshFoldIsIdentity` | src/app.ts:349-360 | on an empty cache, distinct accesses within capacity are all created and kept, in order |
| `Lru.FoldEndsWithAccesses` | src/app.ts:349-360 | after distinct accesses within capacity the order ends with exactly those entries |
| `Lru.AccessesResident` | src/app.ts:349-360 | every entry of a run of distinct accesses within capacity is held afterwards |
| `Lru.Scenario` | src/TileCache.ts:17-47 | with maxSize 2, put(a); put(b); get(a); put(c) evicts b and keeps [a, c] |
| `Lru.IndexOf` | src/TileCache.ts:51 | indexOf: −1 exactly when absent, otherwise the first position holding the entry |
| `CacheState.KeysOf` | src/TileCache.ts:8-9 | one key per listed tile, read through the tile-to-key map |
| `CacheState.EmptyConsistent` | src/TileCache.ts:7-14 | the empty cache is consistent and holds no keys |
| `CacheState.KeysMatchMap` | src/TileCache.ts:7-9 | in a consistent cache the listed keys are distinct and are exactly the keys the nested map finds |
| `CacheState.TouchedConsistent` | src/TileCache.ts:50-56 | updateUsage keeps the cache consistent |
| `CacheState.TouchedKeys` | src/TileCache.ts:50-56 | updateUsage moves the tile's key to the most-recently-used end |
| `CacheState.AccessedConsistent` | src/TileCache.ts:17-27 | get keeps the cache consistent, and uses the key in the order |
| `CacheState.EvictedConsistent` | src/TileCache.ts:59-76 | evict can always find the oldest tile's key, and keeps the cache consistent |
| `CacheState.EvictedKeys` | src/TileCache.ts:59-76 | evict drops exactly the oldest key from the order and the map, and leaves every other key |
| `CacheState.StoredConsistent` | src/TileCache.ts:35-46 | storing a new key with room left keeps the cache consistent, and appends the key |
| `CacheState.EvictionMakesRoom` | src/TileCache.ts:30-33 | at capacity, evicting first leaves room for the new key and tile |
| `CacheState.InsertedConsistent` | src/TileCache.ts:30-47 | put keeps the cache consistent, follows Lru.Insert on tiles and keys, and finds the new tile |
| `CacheState.HeldIffFound` | src/TileCache.ts:17-27 | a key is in the order exactly when get finds it |
| `CacheState.HitIsStep` | src/TileCache.ts:17-27 | a hit changes the key order as one access of the model |
| `CacheState.MissIsStep` | src/TileCache.ts:30-47 | a put after a miss changes the key order as one access of the model |
| `Cache.TileCache.constructor` | src/TileCache.ts:12-14 | a new cache is empty, consistent, and has the given maxSize |
| `Cache.TileCache.Get` | src/TileCache.ts:17-27 | returns what the nested map holds under (z, x, y), which is found exactly when the key is held; a hit becomes most recently used, one access of the model's key order; a miss changes nothing |
| `Cache.TileCache.Put` | src/TileCache.ts:30-47 | evicts the oldest tile when full, then stores the new one, keeping the cache consistent; the evicted tile has every mesh disposed and nothing else about it changed, and no other tile changes |
| `Cache.TileCache.MakeRoom` | src/TileCache.ts:31-33 | at maxSize the oldest tile is evicted and deleted; the key and the tile stay absent and the list drops below capacity |
| `Cache.TileCache.Store` | src/TileCache.ts:35-46 | the key and the tile enter the nested map, the end of the list and the reverse map |
| `Cache.TileCache.UpdateUsage` | src/TileCache.ts:50-56 | a listed tile moves to the most-recently-used end; the cache stays consistent |
| `Cache.TileCache.Evict` | src/TileCache.ts:59-76 | the oldest tile leaves all three structures; its meshes are disposed and nothing else about it changes |
| `Cache.TileCache.Clear` | src/TileCache.ts:78-83 | every cached tile is disposed and the cache is empty |
| `Cache.TileCache.ActivateZLevel` | src/TileCache.ts:85-90 | tiles of zoom z are shown and all others hidden |
| `Cache.TileCache.ShowAndHide` | src/TileCache.ts:92-97 | tiles of zoom z fade in by v, and all others fade out by v |
| `Cache.DeleteTiles` | src/TileCache.ts:80 | every tile of the list is disposed, and nothing else about it changes |
| `Mapping.TileKeyInjective` | src/TileMapping.ts:18-19 | two keys are equal exactly when they name the same tile at the same zoom |
| `Mapping.AppendCountsOne` | src/TileMapping.ts:20-26 | filing a place under a key stores exactly one more location |
| `Mapping.TileMappings.constructor` | src/TileMapping.ts:11-14 | a new index is empty |
| `Mapping.TileMappings.AddLocation` | src/TileMapping.ts:17-28 | the place is appended to the list under its tile's key, or starts one; one more location is stored |
| `Mapping.SameListIffSameTile` | src/TileMapping.ts:17-26 | two stored places share a list exactly when they lie in the same tile |
| `UndoHistory.KeepLast` | src/undo/undostack.ts:15-20 | the trimming loop keeps the newest min(length, capacity) entries |
| `UndoHistory.Popped` | src/undo/undostack.ts:22-31 | pop of an empty stack gives nothing; otherwise it gives the newest entry and the rest |
| `UndoHistory.KeepLastAbsorbs` | src/undo/undostack.ts:15-20 | trimming before a push changes nothing about the result |
| `UndoHistory.PushThenPop` | src/undo/undostack.ts:15-31 | a pop right after a push returns the pushed entry and leaves the older ones, one fewer kept |
| `UndoHistory.UndoStack.constructor` | src/undo/undostack.ts:9-12 | a new stack is empty with the given capacity |
| `UndoHistory.UndoStack.Push` | src/undo/undostack.ts:15-20 | push appends and keeps only the newest `capacity` entries |
| `UndoHistory.UndoStack.Pop` | src/undo/undostack.ts:22-31 | pop returns the newest entry and removes it, or returns nothing on an empty stack |
| `UndoHistory.UndoStack.Clear` | src/undo/undostack.ts:33-35 | the stack is emptied |
| `BoxUndo.Bind` | src/undo/CreateCustomBoxUndo.ts:15-17 | the box is found under its name, and every other name keeps its binding |
| `BoxUndo.Unbind` | src/undo/CreateCustomBoxUndo.ts:11-13 | the name is gone, and every other name keeps its binding |
| `BoxUndo.BindUnbindIdempotent` | src/undo/CreateCustomBoxUndo.ts:11-17 | repeating an undo or a redo changes nothing more |
| `BoxUndo.LastStepDecides` | src/undo/CreateCustomBoxUndo.ts:11-17 | after any mix of undo and redo, the last one decides the map |
| `BoxUndo.BindRestores` | src/undo/DeleteCustomBoxUndo.ts:11-17 | undoing a deletion restores the map the box was in |
| `BoxUndo.UnbindRestores` | src/undo/CreateCustomBoxUndo.ts:11-17 | undoing a creation restores the map without the box |
| `BoxUndo.CreateCustomBoxUndo.constructor` | src/undo/CreateCustomBoxUndo.ts:7-9 | the record holds the shared map and the box |
| `BoxUndo.CreateCustomBoxUndo.Undo` | src/undo/CreateCustomBoxUndo.ts:11-13 | the box's name is removed from the shared map |
| `BoxUndo.CreateCustomBoxUndo.Redo` | src/undo/CreateCustomBoxUndo.ts:15-17 | the box is bound under its name again |
| `BoxUndo.DeleteCustomBoxUndo.constructor` | src/undo/DeleteCustomBoxUndo.ts:7-9 | the record holds the shared map and the box |
| `BoxUndo.DeleteCustomBoxUndo.Undo` | src/undo/DeleteCustomBoxUndo.ts:11-13 | the box is bound under its name again |
| `BoxUndo.DeleteCustomBoxUndo.Redo` | src/undo/DeleteCustomBoxUndo.ts:15-17 | the box's name is removed from the shared map |
| `Viewer.ZoomLevelForHeight` | src/app.ts:228-248 | no zoom (−1) exactly below ground or from 5000 up; otherwise a zoom from 15 to 19 |
| `Viewer.ZoomGrowsAsHeightFalls` | src/app.ts:228-248 | at a fixed pitch, a lower camera never gets a coarser zoom |
| `Viewer.ZoomGrowsWithPitch` | src/app.ts:228-248 | at a fixed height, a steeper pitch never gets a coarser zoom |
| `Viewer.TopTierIsStrict` | src/app.ts:233-245 | 249 with a steep pitch gives 19, exactly 250 gives 18, and 4999 with no pitch gives 15 |
| `Viewer.TileHeightForZoomLevel` | src/app.ts:250-264 | tiles are lifted exactly for zooms 15 to 19, to 2 · zoom − 8, and not for any other zoom |
| `Viewer.ForwardDistanceForZoomLevel` | src/app.ts:266-280 | the forward reach is positive exactly for zooms 15 to 19 |
| `Viewer.LateralDistanceForZoomLevel` | src/app.ts:282-296 | the lateral reach is positive exactly for zooms 15 to 19 |
| `Viewer.TablesFollowZoom` | src/app.ts:250-296 | between any two zooms of 15 to 19, the finer one reaches less far, to the front and the sides, and lies higher; each lies at 2 · zoom − 8 |
| `Viewer.SeqMin` | src/app.ts:331-345 | the least of the values is one of them and is at most each |
| `Viewer.SeqMax` | src/app.ts:331-345 | the greatest of the values is one of them and is at least each |
| `Viewer.MinMax` | src/app.ts:331-345 | the running-extreme loop gives ±Infinity on no values, else exactly the least and greatest value |
| `Viewer.Footprint` | src/app.ts:318-329 | four ground points; the side points mirror each other about the camera, and the back point is a fifth of the front reach behind it |
| `Viewer.BoundingBox` | src/app.ts:331-345 | the box holds every footprint point |
| `Viewer.TileRangeCells` | src/app.ts:349-350 | the loop visits every cell between the corner tiles once, and no other cell |
| `Viewer.FootprintCovered` | src/app.ts:318-350 | the tiles of all four footprint points and of the camera itself are among the cells demanded |
| `Viewer.SmallFootprintResident` | src/app.ts:349-360 | when the demanded cells fit the cache, all of them are held after a load |
| `Viewer.EmptyCacheLoadsRange` | src/app.ts:349-360 | from an empty cache, a range that fits creates every cell once, in visiting order |
| `Viewer.GetLocationBounds` | src/app.ts:180-194 | the running bounds are ±Infinity for no locations, otherwise exactly the least and greatest latitude and longitude |
| `Viewer.LocationBoundsTight` | src/app.ts:180-194 | every location lies within the bounds, and the least latitude is attained |
| `Viewer.TileSetCode` | src/app.ts:368-380 | exactly the three menu names select a tile set, and the one selected is a provider code |
| `Viewer.TileSetCodeInjective` | src/app.ts:368-380 | different menu names select different tile sets |
| `Viewer.App.constructor` | src/app.ts:26-32 | the controller starts with an empty cache of 150 tiles, its settings and its start-up tiles |
| `Viewer.App.EnsureTile` | src/app.ts:352-358 | one loop cell: the cache order takes one model access; a hit creates nothing and changes no tile; a miss creates one new tile for that cell, with the given settings and the zoom's elevation, which the cache then finds under the cell's key, and of the tiles cached before only the one the put evicts changes, by having its meshes disposed |
| `Viewer.App.AddTile` | src/app.ts:355-358 | a missing cell gets a new tile with the given settings at the zoom's elevation, set up with its corners, centre, bounds and drawn meshes; the cache finds it under the cell's key; only the evicted tile, if any, changes, by having its meshes disposed |
| `Viewer.App.SetUpTile` | src/app.ts:355-357 | the new tile has the cell's indices, the zoom, the settings and the zoom's elevation, takes the settings' tile set, and is set up: wrapped corners, centre, Mercator bounds, and four meshes with its own image drawn |
| `Viewer.App.LoadTiles` | src/app.ts:299-362 | with no zoom nothing changes; otherwise the key order is the model's after visiting the demanded cells, and one new tile is made per miss, in order, with the controller's settings; every tile cached afterwards was cached before or is new |
| `Viewer.App.DemandedCorners` | src/app.ts:316-348 | the corner tiles computed span exactly the cells the footprint demands |
| `Viewer.App.FillRange` | src/app.ts:349-360 | the nested loop moves the key order as the model does over the tile range, and makes one tile per miss with the given settings; every tile cached afterwards was cached before or is new |
| `Viewer.App.FillRows` | src/app.ts:349-360 | the outer loop visits exactly the range, row by row, with the same order and misses; every tile cached afterwards was cached before or is new |
| `Viewer.App.AddRow` | src/app.ts:350-359 | one more row keeps the loop's order and misses in step with the model; every tile cached afterwards was cached before or is new |
| `Viewer.App.FillRow` | src/app.ts:350-359 | the inner loop moves the key order as the model does over one row, and makes one tile per miss with the given settings; every tile cached afterwards was cached before or is new |
| `Viewer.App.RefreshTiles` | src/app.ts:364-383 | the settings' tile set becomes "r"; every start-up tile switches as the menu name says and redraws its own bounds, keeping its corners, centre and bounds |
| `Viewer.RefreshTile` | src/app.ts:368-381 | one start-up tile switches its tile set and redraws its own bounds; its corners, centre and bounds stay |

## Left out

- The latitude half of the projection (src/tiles.ts:34 and 48) uses log, tan,
  atan and exp. The model takes that pair of functions as a value of type
  `Mercator`. `Tiles.LaloMetersRoundTrip` therefore assumes they are inverse
  to each other. The longitude half is modelled exactly.
- Tiles.LaloToTileBounds4326: states that the latitude lies in the bounds
  only when the latitude half of the projection is increasing and inverse at
  that latitude, as the real functions are. The model's `Mercator` value does
  not carry those facts.
- Floating point: every number is a mathematical real or integer. Rounding,
  NaN and infinities are not modelled. The ±Infinity start values of the
  bounds loops are an explicit `Extended` type.
- Babylon objects are not modelled: the scene, materials, vertex data,
  normals, action managers and boundary lines. A mesh is a value that keeps
  only its visibility, its disposal flag, its quad corners and its texture
  URL.
- The camera is not modelled. Its position, its horizontal unit forward
  direction and its pitch in degrees are inputs to `LoadTiles`. The
  normalisations and the arccos that derive them (src/app.ts:300-313) are
  not modelled.
- Keyboard handling, camera movement and the 600 ms load timer
  (src/app.ts:388-504) are not modelled.
- The start-up tile grid (src/app.ts:62-84) is not modelled. The controller
  receives its start-up tiles instead. The Tokyo overlays, billboards,
  segment selection and `getUniqueTiles` are not part of the tiling core.
- Cache.TileCache.Put: requires a key the cache does not hold. The source
  would leave the replaced tile in the list, and every caller checks with
  `get` first.
- Cache.TileCache.Put: also requires a tile the cache does not list. The
  source would list that tile twice. Its only caller passes a tile it has
  just created.
- Viewer.App.LoadTiles: does not state that the tiles it creates are new
  objects. `Viewer.App.EnsureTile` and `Viewer.App.AddTile` state it for
  each tile.
- Viewer.App.LoadTiles: does not say which cached tiles the load evicted, or
  that the tiles it made are still set up at its end. Its frame says only
  that the cache and its listed tiles may change. `Viewer.App.EnsureTile`,
  `Viewer.App.AddTile` and `Cache.TileCache.Put` state both for one cell.
- Viewer.App.EnsureTile: does not repeat that the tile it creates is set up.
  `Viewer.App.AddTile`, which it calls on a miss, states the set-up state in
  full.
- Viewer.App.FillRange: the same as for `LoadTiles`: no account of evicted
  tiles, and no set-up state of the tiles made, after the loop.
- Viewer.App.FillRows: the same as for `LoadTiles`.
- Viewer.App.AddRow: the same as for `LoadTiles`.
- Viewer.App.FillRow: the same as for `LoadTiles`.
- Viewer.App.LoadTiles: models the evident calls `get(zoom, i, j)` and
  `put(zoom, i, j, td)`, not the two-argument `get` and one-argument `put`
  written at src/app.ts:352 and 358.
- Tile.TileData.RenderTiles: where the source reaches a square without a
  mesh, it fails. The model stops there and reports `complete == false`, and
  the squares drawn before stay drawn.
- Tile.TileData.RefreshTiles: on a tile that was never set up, the source
  fails. The model leaves the tile as it is.
- The tile name, and the `Tiler` instance each tile is given, are dropped.
  Neither affects any result.
- `getLocationBounds` reads a bundled JSON file. The model takes the list of
  locations as a parameter.
- UndoHistory.UndoStack.Pop: the stack never holds a null entry, so the
  null check at src/undo/undostack.ts:27 is not modelled.
- UndoHistory.UndoStack.constructor: the capacity is a natural number. With a
  negative capacity the trimming loop at src/undo/undostack.ts:17-19 would
  never end, once the stack is empty.
- `activateZLevel` and `showAndHide` filter out undefined list entries. With
  the three-key calls the model makes, the list never holds one, so the
  filter is not modelled.
- The other undo records (rotate, scale, translate) and the custom box's
  geometry are not part of this model.
