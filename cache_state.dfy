/** What the three structures of TileCache (src/TileCache.ts) hold, as one
    value, and what each cache operation does to that value. The class in
    module Cache is proved to follow these functions; the lemmas here show
    that every operation keeps the structures consistent and moves the cached
    keys exactly as the least-recently-used order of module Lru says. */
module CacheState {
  import opened Common
  import opened NestedMap
  import Lru
  import opened Tile

  /** `cacheMap`, `cacheList` and `tileCoords` at one moment. */
  datatype CacheContents = CacheContents(
    cacheMap: Nested<TileData>,
    cacheList: seq<TileData>,
    tileCoords: map<TileData, Key>)

  const Empty := CacheContents(map[], [], map[])

  /** The keys of the listed tiles, from least to most recently used (a tile
      without a key, which a consistent cache never lists, contributes a
      placeholder). */
  function KeysOf(s: CacheContents): (r: seq<Key>)
    ensures |r| == |s.cacheList|
    ensures forall i :: 0 <= i < |r| && s.cacheList[i] in s.tileCoords ==> r[i] == s.tileCoords[s.cacheList[i]]
  {
    seq(|s.cacheList|, i requires 0 <= i < |s.cacheList| =>
      if s.cacheList[i] in s.tileCoords then s.tileCoords[s.cacheList[i]] else Key(0, 0, 0))
  }

  /** The three structures describe the same set of tiles: the list holds
      each tile once, exactly the listed tiles have coordinates, the map holds
      each tile under its coordinates and nothing else, no inner map is left
      empty, and the list stays within the capacity. */
  ghost predicate Consistent(s: CacheContents, maxSize: int)
  {
    && NoDup(s.cacheList)
    && ListedMeansPlaced(s)
    && PlacedMeansFound(s)
    && FoundMeansPlaced(s)
    && NoEmptyInner(s.cacheMap)
    && |s.cacheList| <= Lru.Capacity(maxSize)
  }

  /** Exactly the listed tiles have coordinates. */
  ghost predicate ListedMeansPlaced(s: CacheContents)
  {
    && (forall t :: t in s.cacheList ==> t in s.tileCoords)
    && (forall t :: t in s.tileCoords ==> t in s.cacheList)
  }

  /** The map holds each tile under its coordinates. */
  ghost predicate PlacedMeansFound(s: CacheContents)
  {
    forall t: TileData :: t in s.tileCoords ==> Get3(s.cacheMap, s.tileCoords[t]) == Some(t)
  }

  /** The map holds nothing else. */
  ghost predicate FoundMeansPlaced(s: CacheContents)
  {
    forall k :: Get3(s.cacheMap, k).Some? ==>
      Get3(s.cacheMap, k).value in s.tileCoords && s.tileCoords[Get3(s.cacheMap, k).value] == k
  }

  /** What evict needs: the oldest tile has coordinates the map answers for. */
  predicate CanEvict(s: CacheContents)
  {
    s.cacheList != [] ==>
      s.cacheList[0] in s.tileCoords && Get3(s.cacheMap, s.tileCoords[s.cacheList[0]]).Some?
  }

  /** updateUsage: the tile moves to the most-recently-used end. */
  function Touched(s: CacheContents, t: TileData): CacheContents
  {
    s.(cacheList := Lru.Touch(s.cacheList, t))
  }

  /** get: a hit is a use of the tile found; a miss changes nothing. */
  function Accessed(s: CacheContents, key: Key): CacheContents
  {
    match Get3(s.cacheMap, key)
    case Some(t) => Touched(s, t)
    case None => s
  }

  /** evict: the oldest tile leaves all three structures. */
  function Evicted(s: CacheContents): CacheContents
    requires CanEvict(s)
  {
    if s.cacheList == [] then s
    else
      var lru := s.cacheList[0];
      CacheContents(Remove3(s.cacheMap, s.tileCoords[lru]), s.cacheList[1..], s.tileCoords - {lru})
  }

  /** The second half of put: the tile enters all three structures. */
  function Stored(s: CacheContents, key: Key, t: TileData): CacheContents
  {
    CacheContents(Set3(s.cacheMap, key, t), s.cacheList + [t], s.tileCoords[t := key])
  }

  /** put: evict once the list has reached `maxSize`, then store. */
  function Inserted(s: CacheContents, key: Key, t: TileData, maxSize: int): CacheContents
    requires |s.cacheList| >= maxSize ==> CanEvict(s)
  {
    Stored(if |s.cacheList| >= maxSize then Evicted(s) else s, key, t)
  }

  /** The empty cache is consistent whatever its size. */
  lemma EmptyConsistent(maxSize: int)
    ensures Consistent(Empty, maxSize) && KeysOf(Empty) == []
  {
  }

  /** In a consistent cache the listed keys are distinct and are exactly the
      keys the map answers for. */
  lemma KeysMatchMap(s: CacheContents, maxSize: int)
    requires Consistent(s, maxSize)
    ensures NoDup(KeysOf(s)) && CanEvict(s)
    ensures forall k :: k in KeysOf(s) <==> Get3(s.cacheMap, k).Some?
  {
    var ks := KeysOf(s);
    forall i, j | 0 <= i < j < |ks|
      ensures ks[i] != ks[j]
    {
      assert Get3(s.cacheMap, ks[i]) == Some(s.cacheList[i]);
      assert Get3(s.cacheMap, ks[j]) == Some(s.cacheList[j]);
    }
    forall k | Get3(s.cacheMap, k).Some?
      ensures k in ks
    {
      var t := Get3(s.cacheMap, k).value;
      var i :| 0 <= i < |s.cacheList| && s.cacheList[i] == t;
      assert ks[i] == k;
    }
    if s.cacheList != [] {
      assert s.cacheList[0] in s.cacheList;
    }
  }

  /** A use keeps the cache consistent. */
  lemma TouchedConsistent(s: CacheContents, t: TileData, maxSize: int)
    requires Consistent(s, maxSize)
    ensures Consistent(Touched(s, t), maxSize)
  {
    Lru.TouchNoDup(s.cacheList, t);
  }

  /** Using a listed tile moves its key to the most-recently-used end. */
  lemma TouchedKeys(s: CacheContents, t: TileData, maxSize: int)
    requires Consistent(s, maxSize) && t in s.cacheList
    ensures KeysOf(Touched(s, t)) == Lru.Touch(KeysOf(s), s.tileCoords[t])
  {
    KeysMatchMap(s, maxSize);
    var list := s.cacheList;
    var i :| 0 <= i < |list| && list[i] == t;
    assert t !in list[..i];
    Lru.RemoveFirstAt(list, t, i);
    var ks := KeysOf(s);
    assert ks[i] == s.tileCoords[t];
    assert s.tileCoords[t] !in ks[..i];
    Lru.RemoveFirstAt(ks, s.tileCoords[t], i);
    KeysMovedToEnd(s, i);
  }

  /** Moving the tile at `i` to the end of the list moves its key the same way. */
  lemma KeysMovedToEnd(s: CacheContents, i: int)
    requires 0 <= i < |s.cacheList|
    requires forall t :: t in s.cacheList ==> t in s.tileCoords
    ensures var list := s.cacheList; var ks := KeysOf(s);
            KeysOf(s.(cacheList := list[..i] + list[i + 1..] + [list[i]])) == ks[..i] + ks[i + 1..] + [ks[i]]
  {
    var list := s.cacheList;
    var ks := KeysOf(s);
    var r := s.(cacheList := list[..i] + list[i + 1..] + [list[i]]);
    var moved := ks[..i] + ks[i + 1..] + [ks[i]];
    forall j | 0 <= j < |moved|
      ensures KeysOf(r)[j] == moved[j]
    {
      Lru.MovedToEndAt(list, i, j);
      Lru.MovedToEndAt(ks, i, j);
      var from := if j < i then j else if j < |list| - 1 then j + 1 else i;
      assert list[from] in list;
    }
    assert KeysOf(r) == moved;
  }

  /** A lookup keeps the cache consistent and moves the key looked up to the
      most-recently-used end of the key order (a key not held leaves it as it
      is, as Lru.Touch does). */
  lemma AccessedConsistent(s: CacheContents, key: Key, maxSize: int)
    requires Consistent(s, maxSize)
    ensures Consistent(Accessed(s, key), maxSize)
    ensures KeysOf(Accessed(s, key)) == Lru.Touch(KeysOf(s), key)
  {
    KeysMatchMap(s, maxSize);
    match Get3(s.cacheMap, key)
    case Some(t) =>
      TouchedConsistent(s, t, maxSize);
      TouchedKeys(s, t, maxSize);
    case None =>
  }

  /** Evicting the oldest tile keeps the cache consistent. */
  lemma EvictedConsistent(s: CacheContents, maxSize: int)
    requires Consistent(s, maxSize)
    ensures CanEvict(s) && Consistent(Evicted(s), maxSize)
  {
    KeysMatchMap(s, maxSize);
    if s.cacheList != [] {
      EvictedListed(s, maxSize);
      EvictedFound(s, maxSize);
    }
  }

  lemma EvictedListed(s: CacheContents, maxSize: int)
    requires Consistent(s, maxSize) && s.cacheList != [] && CanEvict(s)
    ensures ListedMeansPlaced(Evicted(s)) && NoDup(Evicted(s).cacheList)
  {
    var list := s.cacheList;
    var r := Evicted(s);
    forall t | t in r.cacheList
      ensures t in r.tileCoords
    {
      var i :| 0 <= i < |list[1..]| && list[1..][i] == t;
      assert list[i + 1] != list[0];
    }
    forall t | t in r.tileCoords
      ensures t in r.cacheList
    {
      assert t in list && t != list[0];
    }
  }

  lemma EvictedFound(s: CacheContents, maxSize: int)
    requires Consistent(s, maxSize) && s.cacheList != [] && CanEvict(s)
    ensures PlacedMeansFound(Evicted(s)) && FoundMeansPlaced(Evicted(s))
    ensures NoEmptyInner(Evicted(s).cacheMap)
  {
    var key := s.tileCoords[s.cacheList[0]];
    var r := Evicted(s);
    forall t: TileData | t in r.tileCoords
      ensures Get3(r.cacheMap, r.tileCoords[t]) == Some(t)
    {
      assert s.tileCoords[t] != key;
    }
  }

  /** Evicting drops the oldest key from the key order and makes the map
      forget it, and leaves every other key as it was. */
  lemma EvictedKeys(s: CacheContents, maxSize: int)
    requires Consistent(s, maxSize)
    ensures CanEvict(s)
    ensures KeysOf(Evicted(s)) == if s.cacheList == [] then KeysOf(s) else KeysOf(s)[1..]
    ensures s.cacheList != [] ==> Get3(Evicted(s).cacheMap, KeysOf(s)[0]) == None
    ensures forall k :: (s.cacheList == [] || k != KeysOf(s)[0]) ==> Get3(Evicted(s).cacheMap, k) == Get3(s.cacheMap, k)
  {
    KeysMatchMap(s, maxSize);
    if s.cacheList != [] {
      var list := s.cacheList;
      var r := Evicted(s);
      assert KeysOf(s)[0] == s.tileCoords[list[0]];
      forall j | 0 <= j < |r.cacheList|
        ensures KeysOf(r)[j] == KeysOf(s)[1..][j]
      {
        assert r.cacheList[j] == list[j + 1] && list[j + 1] != list[0];
        assert list[j + 1] in list;
      }
    }
  }

  /** Storing a new tile under an unused key keeps the cache consistent as
      long as there is room for it, and appends the key as the newest. */
  lemma StoredConsistent(s: CacheContents, key: Key, t: TileData, maxSize: int)
    requires Consistent(s, maxSize)
    requires Get3(s.cacheMap, key).None? && t !in s.cacheList
    requires |s.cacheList| < maxSize || s.cacheList == []
    ensures Consistent(Stored(s, key, t), maxSize)
    ensures KeysOf(Stored(s, key, t)) == KeysOf(s) + [key]
  {
    Lru.InsertNoDup(s.cacheList, t, maxSize);
    assert Lru.Insert(s.cacheList, t, maxSize) == s.cacheList + [t];
    StoredFound(s, key, t, maxSize);
    StoredKeys(s, key, t, maxSize);
  }

  lemma StoredFound(s: CacheContents, key: Key, t: TileData, maxSize: int)
    requires Consistent(s, maxSize)
    requires Get3(s.cacheMap, key).None? && t !in s.cacheList
    ensures ListedMeansPlaced(Stored(s, key, t))
    ensures PlacedMeansFound(Stored(s, key, t)) && FoundMeansPlaced(Stored(s, key, t))
  {
    var r := Stored(s, key, t);
    forall u: TileData | u in r.tileCoords
      ensures Get3(r.cacheMap, r.tileCoords[u]) == Some(u)
    {
      if u != t {
        assert u in s.tileCoords && s.tileCoords[u] != key;
      }
    }
    forall k | Get3(r.cacheMap, k).Some?
      ensures Get3(r.cacheMap, k).value in r.tileCoords && r.tileCoords[Get3(r.cacheMap, k).value] == k
    {
      if k != key {
        var u := Get3(s.cacheMap, k).value;
        assert u in s.tileCoords && u in s.cacheList && u != t;
      }
    }
  }

  lemma StoredKeys(s: CacheContents, key: Key, t: TileData, maxSize: int)
    requires Consistent(s, maxSize) && t !in s.cacheList
    ensures KeysOf(Stored(s, key, t)) == KeysOf(s) + [key]
  {
    var r := Stored(s, key, t);
    forall i | 0 <= i < |s.cacheList|
      ensures KeysOf(r)[i] == KeysOf(s)[i]
    {
      assert r.cacheList[i] == s.cacheList[i] != t;
    }
  }

  /** Once the list is full, evicting makes room for a new tile under a key
      the cache does not hold: the key stays unused and the tile unlisted. */
  lemma EvictionMakesRoom(s: CacheContents, key: Key, t: TileData, maxSize: int)
    requires Consistent(s, maxSize) && |s.cacheList| >= maxSize
    requires Get3(s.cacheMap, key).None? && t !in s.cacheList
    ensures CanEvict(s) && Consistent(Evicted(s), maxSize)
    ensures Get3(Evicted(s).cacheMap, key).None? && t !in Evicted(s).cacheList
    ensures |Evicted(s).cacheList| < maxSize || Evicted(s).cacheList == []
  {
    EvictedConsistent(s, maxSize);
    EvictedKeys(s, maxSize);
    var e := Evicted(s);
    if s.cacheList != [] {
      assert KeysOf(s)[0] in KeysOf(s);
      assert e.cacheList == s.cacheList[1..];
    }
  }

  /** A put of a new tile under an unused key keeps the cache consistent, and
      both the tile list and the key order move as Lru.Insert says: the
      oldest entry goes once the list is full, the new one is the newest. */
  lemma InsertedConsistent(s: CacheContents, key: Key, t: TileData, maxSize: int)
    requires Consistent(s, maxSize)
    requires Get3(s.cacheMap, key).None? && t !in s.cacheList
    ensures CanEvict(s)
    ensures Consistent(Inserted(s, key, t, maxSize), maxSize)
    ensures Inserted(s, key, t, maxSize).cacheList == Lru.Insert(s.cacheList, t, maxSize)
    ensures KeysOf(Inserted(s, key, t, maxSize)) == Lru.Insert(KeysOf(s), key, maxSize)
    ensures Get3(Inserted(s, key, t, maxSize).cacheMap, key) == Some(t)
  {
    EvictedConsistent(s, maxSize);
    if |s.cacheList| >= maxSize {
      EvictedKeys(s, maxSize);
      EvictionMakesRoom(s, key, t, maxSize);
      StoredConsistent(Evicted(s), key, t, maxSize);
      assert Inserted(s, key, t, maxSize) == Stored(Evicted(s), key, t);
    } else {
      StoredConsistent(s, key, t, maxSize);
      assert Inserted(s, key, t, maxSize) == Stored(s, key, t);
    }
  }

  /** A key is in the key order exactly when the map answers for it. */
  lemma HeldIffFound(s: CacheContents, key: Key, maxSize: int)
    requires Consistent(s, maxSize)
    ensures key in KeysOf(s) <==> Get3(s.cacheMap, key).Some?
  {
    KeysMatchMap(s, maxSize);
  }

  /** In the key order, a get of a held key is one step of the tile loop
      (Lru.Step): a use. */
  lemma HitIsStep(s: CacheContents, key: Key, maxSize: int)
    requires Consistent(s, maxSize) && Get3(s.cacheMap, key).Some?
    ensures key in KeysOf(s)
    ensures KeysOf(Accessed(s, key)) == Lru.Step(KeysOf(s), key, maxSize)
  {
    KeysMatchMap(s, maxSize);
    AccessedConsistent(s, key, maxSize);
  }

  /** A get that misses changes nothing, and the put that follows it is the
      rest of the step: the new key is inserted. */
  lemma MissIsStep(s: CacheContents, key: Key, t: TileData, maxSize: int)
    requires Consistent(s, maxSize) && Get3(s.cacheMap, key).None? && t !in s.cacheList
    ensures key !in KeysOf(s) && CanEvict(s)
    ensures KeysOf(Inserted(s, key, t, maxSize)) == Lru.Step(KeysOf(s), key, maxSize)
  {
    KeysMatchMap(s, maxSize);
    InsertedConsistent(s, key, t, maxSize);
  }
}
