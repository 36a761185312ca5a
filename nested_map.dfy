/** The three-level map TileCache (src/TileCache.ts) looks tiles up in:
    zoom level, then column, then row. */
module NestedMap {
  import opened Common

  /** The (zoom, x, y) a cached tile is stored under. */
  datatype Key = Key(z: int, x: int, y: int)

  type Nested<V> = map<int, map<int, map<int, V>>>

  /** `cacheMap.get(z)?.get(x)?.get(y)`. */
  function Get3<V>(m: Nested<V>, k: Key): (r: Option<V>)
    ensures r.Some? <==> k.z in m && k.x in m[k.z] && k.y in m[k.z][k.x]
  {
    if k.z in m && k.x in m[k.z] && k.y in m[k.z][k.x] then Some(m[k.z][k.x][k.y]) else None
  }

  /** Every inner map that is present holds something: evict prunes the maps
      it empties. */
  ghost predicate NoEmptyInner<V>(m: Nested<V>)
  {
    && (forall z :: z in m ==> |m[z]| > 0)
    && (forall z, x :: z in m && x in m[z] ==> |m[z][x]| > 0)
  }

  /** Storing `v` under `k`, creating the inner maps that are missing (put). */
  function Set3<V>(m: Nested<V>, k: Key, v: V): (r: Nested<V>)
    ensures Get3(r, k) == Some(v)
    ensures forall k' :: k' != k ==> Get3(r, k') == Get3(m, k')
    ensures NoEmptyInner(m) ==> NoEmptyInner(r)
  {
    var xMap := if k.z in m then m[k.z] else map[];
    var yMap := if k.x in xMap then xMap[k.x] else map[];
    m[k.z := xMap[k.x := yMap[k.y := v]]]
  }

  /** Deleting `k`, then dropping the row map and the column map when they
      become empty (evict). */
  function Remove3<V>(m: Nested<V>, k: Key): (r: Nested<V>)
    requires Get3(m, k).Some?
    ensures Get3(r, k) == None
    ensures forall k' :: k' != k ==> Get3(r, k') == Get3(m, k')
    ensures NoEmptyInner(m) ==> NoEmptyInner(r)
  {
    var xMap := m[k.z];
    var yMap := xMap[k.x] - {k.y};
    if yMap.Keys == {} then
      assert forall y :: y in xMap[k.x] ==> y == k.y by {
        forall y | y in xMap[k.x] ensures y == k.y {
          assert y == k.y || y in yMap.Keys;
        }
      }
      var xMap' := xMap - {k.x};
      if xMap'.Keys == {} then
        assert forall x :: x in xMap ==> x == k.x by {
          forall x | x in xMap ensures x == k.x {
            assert x == k.x || x in xMap'.Keys;
          }
        }
        m - {k.z}
      else
        m[k.z := xMap']
    else
      m[k.z := xMap[k.x := yMap]]
  }
}
