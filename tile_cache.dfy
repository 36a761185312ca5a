/** The least-recently-used tile cache (src/TileCache.ts): a three-level map
    from (zoom, x, y) to tile, the list of cached tiles from least to most
    recently used, and the reverse map from tile to its (zoom, x, y). */
module Cache {
  import opened Common
  import opened NestedMap
  import Lru
  import opened Tile
  import opened CacheState

  class TileCache {
    var cacheMap: Nested<TileData>
    var cacheList: seq<TileData>
    var tileCoords: map<TileData, Key>
    const maxSize: int

    /** The three structures as one value. */
    function Contents(): CacheContents
      reads this
    {
      CacheContents(cacheMap, cacheList, tileCoords)
    }

    ghost predicate Valid()
      reads this
    {
      Consistent(Contents(), maxSize)
    }

    /** The cached keys from least to most recently used. */
    ghost function Keys(): seq<Key>
      reads this
    {
      KeysOf(Contents())
    }

    constructor(maxSize: int)
      ensures Valid() && this.maxSize == maxSize
      ensures Contents() == Empty
    {
      this.maxSize := maxSize;
      cacheMap := map[];
      cacheList := [];
      tileCoords := map[];
      EmptyConsistent(maxSize);
    }

    /** get: the tile stored under (z, x, y), which becomes the most recently used. */
    method Get(z: int, x: int, y: int) returns (r: Option<TileData>)
      requires Valid()
      modifies this
      ensures Valid()
      ensures r == old(Get3(cacheMap, Key(z, x, y)))
      ensures Contents() == Accessed(old(Contents()), Key(z, x, y))
      ensures r.Some? <==> Key(z, x, y) in old(Keys())
      ensures r.Some? ==> Keys() == Lru.Step(old(Keys()), Key(z, x, y), maxSize)
    {
      HeldIffFound(Contents(), Key(z, x, y), maxSize);
      if z in cacheMap && x in cacheMap[z] {
        var xMap := cacheMap[z][x];
        if y in xMap {
          var tile := xMap[y];
          assert Get3(cacheMap, Key(z, x, y)) == Some(tile);
          HitIsStep(Contents(), Key(z, x, y), maxSize);
          UpdateUsage(tile);
          return Some(tile);
        }
      }
      return None;
    }

    /** put: stores a tile under a key the cache does not hold; when the list
        has reached `maxSize` the least recently used tile is evicted and
        deleted first. */
    method Put(z: int, x: int, y: int, tile: TileData)
      requires Valid()
      requires Get3(cacheMap, Key(z, x, y)).None? && tile !in cacheList
      modifies this, if Lru.Victim(cacheList, maxSize).Some? then {cacheList[0]} else {}
      ensures old(CanEvict(Contents()))
      ensures Valid()
      ensures Contents() == Inserted(old(Contents()), Key(z, x, y), tile, maxSize)
      ensures VictimDisposed(old(cacheList), maxSize)
    {
      MakeRoom(Key(z, x, y), tile);
      Store(Key(z, x, y), tile);
    }

    /** The first half of put: when the list has reached `maxSize` the least
        recently used tile is evicted, which leaves the key and the tile
        still absent and the list below capacity. */
    method MakeRoom(key: Key, tile: TileData)
      requires Valid()
      requires Get3(cacheMap, key).None? && tile !in cacheList
      modifies this, if Lru.Victim(cacheList, maxSize).Some? then {cacheList[0]} else {}
      ensures old(CanEvict(Contents()))
      ensures Valid()
      ensures Get3(cacheMap, key).None? && tile !in cacheList
      ensures |cacheList| < maxSize || cacheList == []
      ensures Contents() == (if |old(cacheList)| >= maxSize then Evicted(old(Contents())) else old(Contents()))
      ensures VictimDisposed(old(cacheList), maxSize)
    {
      KeysMatchMap(Contents(), maxSize);
      if |cacheList| >= maxSize {
        EvictionMakesRoom(Contents(), key, tile, maxSize);
        Evict();
      }
    }

    /** The second half of put: the key and the tile enter all three
        structures, the tile as most recently used. */
    method Store(key: Key, tile: TileData)
      requires Valid()
      requires Get3(cacheMap, key).None? && tile !in cacheList
      requires |cacheList| < maxSize || cacheList == []
      modifies this
      ensures Valid()
      ensures Contents() == Stored(old(Contents()), key, tile)
    {
      StoredConsistent(Contents(), key, tile, maxSize);
      cacheMap := Set3(cacheMap, key, tile);
      cacheList := cacheList + [tile];
      tileCoords := tileCoords[tile := key];
    }

    /** updateUsage: moves a listed tile to the most-recently-used end. */
    method UpdateUsage(tile: TileData)
      requires Valid()
      modifies this
      ensures Valid()
      ensures Contents() == Touched(old(Contents()), tile)
    {
      TouchedConsistent(Contents(), tile, maxSize);
      var index := Lru.IndexOf(cacheList, tile);
      if index > -1 {
        Lru.RemoveFirstAt(cacheList, tile, index);
        cacheList := cacheList[..index] + cacheList[index + 1..] + [tile];
      }
    }

    /** evict: drops the least recently used tile from all three structures,
        prunes the inner maps it leaves empty and deletes the tile. */
    method Evict()
      requires Valid()
      modifies this, if |cacheList| > 0 then {cacheList[0]} else {}
      ensures old(CanEvict(Contents()))
      ensures Valid()
      ensures Contents() == Evicted(old(Contents()))
      ensures old(cacheList) != [] ==> old(cacheList)[0].Deleted()
    {
      EvictedConsistent(Contents(), maxSize);
      if |cacheList| > 0 {
        var lruTile := cacheList[0];
        cacheList := cacheList[1..];
        var key := tileCoords[lruTile];
        cacheMap := Remove3(cacheMap, key);
        lruTile.Delete();
        tileCoords := tileCoords - {lruTile};
      }
    }

    /** clear: deletes every cached tile and empties all three structures. */
    method Clear()
      requires Valid()
      modifies this, set t | t in cacheList
      ensures Valid()
      ensures Contents() == Empty
      ensures forall k :: 0 <= k < |old(cacheList)| ==> old(cacheList)[k].Deleted()
    {
      tileCoords := map[];
      DeleteTiles(cacheList);
      cacheList := [];
      cacheMap := map[];
      EmptyConsistent(maxSize);
    }

    /** activateZLevel: the tiles of zoom level z are drawn, all others hidden. */
    method ActivateZLevel(z: int)
      requires NoDup(cacheList)
      modifies set t | t in cacheList
      ensures forall k :: 0 <= k < |cacheList| ==>
                cacheList[k].meshes == WithVisible(old(cacheList[k].meshes), cacheList[k].zoom == z)
      ensures forall k :: 0 <= k < |cacheList| ==> cacheList[k].OnlyMeshesChanged()
    {
      var i := 0;
      while i < |cacheList|
        invariant 0 <= i <= |cacheList|
        invariant forall k :: 0 <= k < i ==>
                    cacheList[k].meshes == WithVisible(old(cacheList[k].meshes), cacheList[k].zoom == z)
        invariant forall k :: i <= k < |cacheList| ==> cacheList[k].meshes == old(cacheList[k].meshes)
        invariant forall k :: 0 <= k < |cacheList| ==> cacheList[k].OnlyMeshesChanged()
      {
        var t := cacheList[i];
        if t.zoom == z {
          t.Show();
        } else {
          t.Hide();
        }
        i := i + 1;
      }
    }

    /** showAndHide: one fade step, in for the tiles of level z and out for all others. */
    method ShowAndHide(z: int, v: real)
      requires NoDup(cacheList)
      modifies set t | t in cacheList
      ensures forall k :: 0 <= k < |cacheList| ==>
                cacheList[k].meshes == (if cacheList[k].zoom == z then ShownBy(old(cacheList[k].meshes), v)
                                        else HiddenBy(old(cacheList[k].meshes), v))
      ensures forall k :: 0 <= k < |cacheList| ==> cacheList[k].OnlyMeshesChanged()
    {
      var i := 0;
      while i < |cacheList|
        invariant 0 <= i <= |cacheList|
        invariant forall k :: 0 <= k < i ==>
                    cacheList[k].meshes == (if cacheList[k].zoom == z then ShownBy(old(cacheList[k].meshes), v)
                                            else HiddenBy(old(cacheList[k].meshes), v))
        invariant forall k :: i <= k < |cacheList| ==> cacheList[k].meshes == old(cacheList[k].meshes)
        invariant forall k :: 0 <= k < |cacheList| ==> cacheList[k].OnlyMeshesChanged()
      {
        var t := cacheList[i];
        if t.zoom == z {
          t.ShowBy(v);
        } else {
          t.HideBy(v);
        }
        i := i + 1;
      }
    }
  }

  /** What a put does to the tiles listed before it: the one it evicts, if
      any, has had all its meshes disposed and nothing else changed. */
  twostate predicate VictimDisposed(list: seq<TileData>, maxSize: int)
    reads if Lru.Victim(list, maxSize).Some? then {list[0]} else {}
  {
    Lru.Victim(list, maxSize).Some? ==> list[0].Deleted()
  }

  /** `tiles.forEach(t => t.delete())`. */
  method DeleteTiles(tiles: seq<TileData>)
    requires NoDup(tiles)
    modifies set t | t in tiles
    ensures forall k :: 0 <= k < |tiles| ==> tiles[k].Deleted()
  {
    var i := 0;
    while i < |tiles|
      invariant 0 <= i <= |tiles|
      invariant forall k :: 0 <= k < i ==> tiles[k].Deleted()
      invariant forall k :: i <= k < |tiles| ==> tiles[k].meshes == old(tiles[k].meshes)
      invariant forall k :: 0 <= k < |tiles| ==> tiles[k].OnlyMeshesChanged()
    {
      tiles[i].Delete();
      i := i + 1;
    }
  }

}
