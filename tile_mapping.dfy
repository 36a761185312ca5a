/** The location index (src/TileMapping.ts): named places grouped by the
    tile that contains them, under a "tx/ty/zoom" key. */
module Mapping {
  import opened Common
  import opened Tiles

  /** A named place and the zoom of the tile grid it was filed under. */
  datatype TileLocation = TileLocation(latitude: real, longitude: real, zoom: Zoom, name: string)

  /** The key a tile is filed under: its column, its row and the zoom,
      printed in decimal and joined with '/'. */
  function TileKey(tile: TileIndex, zoom: Zoom): string
  {
    IntToString(tile.tx) + "/" + IntToString(tile.ty) + "/" + NatToString(zoom)
  }

  /** The key of the tile that contains a place. */
  function KeyFor(tiler: Mercator, latitude: real, longitude: real, zoom: Zoom): string
  {
    TileKey(LaloToTile(tiler, latitude, longitude, zoom), zoom)
  }

  /** A key names one tile at one zoom: no two tiles share a key. */
  lemma TileKeyInjective(a: TileIndex, za: Zoom, b: TileIndex, zb: Zoom)
    ensures TileKey(a, za) == TileKey(b, zb) <==> a == b && za == zb
  {
    if TileKey(a, za) == TileKey(b, zb) {
      TileKeyFields(a, za, b, zb);
      IntToStringInjective(a.tx, b.tx);
      IntToStringInjective(a.ty, b.ty);
      NatToStringRoundTrip(za);
      NatToStringRoundTrip(zb);
    }
  }

  /** Equal keys have equal fields: the digits of a field never hold '/'. */
  lemma TileKeyFields(a: TileIndex, za: Zoom, b: TileIndex, zb: Zoom)
    requires TileKey(a, za) == TileKey(b, zb)
    ensures IntToString(a.tx) == IntToString(b.tx) && IntToString(a.ty) == IntToString(b.ty)
    ensures NatToString(za) == NatToString(zb)
  {
    IntToStringAvoids(a.tx, '/');
    IntToStringAvoids(b.tx, '/');
    IntToStringAvoids(a.ty, '/');
    IntToStringAvoids(b.ty, '/');
    var ra := IntToString(a.ty) + "/" + NatToString(za);
    var rb := IntToString(b.ty) + "/" + NatToString(zb);
    KeyShape(IntToString(a.tx), IntToString(a.ty), NatToString(za));
    KeyShape(IntToString(b.tx), IntToString(b.ty), NatToString(zb));
    SplitAtSeparator(IntToString(a.tx), ra, IntToString(b.tx), rb, '/');
    SplitAtSeparator(IntToString(a.ty), NatToString(za), IntToString(b.ty), NatToString(zb), '/');
  }

  /** A key read as its first field, a separator and the rest. */
  lemma KeyShape(x: string, y: string, z: string)
    ensures x + "/" + y + "/" + z == x + ['/'] + (y + "/" + z)
  {
    AppendAssoc(x + "/", y, "/");
    AppendAssoc(x + "/", y + "/", z);
    AppendAssoc(y, "/", z);
  }

  /** The stored locations, one (key, position) pair per entry of each list. */
  function Entries(m: map<string, seq<TileLocation>>): set<(string, int)>
  {
    set k, i | k in m && 0 <= i < |m[k]| :: (k, i)
  }

  /** How many locations are stored in all. */
  function Total(m: map<string, seq<TileLocation>>): nat
  {
    |Entries(m)|
  }

  /** Appending one location to the list under `key` (creating the list when
      the key is new) stores exactly one more location. */
  lemma {:induction false} AppendCountsOne(m: map<string, seq<TileLocation>>, key: string, loc: TileLocation)
    ensures var before := if key in m then m[key] else [];
            Total(m[key := before + [loc]]) == Total(m) + 1
  {
    var before := if key in m then m[key] else [];
    var m' := m[key := before + [loc]];
    var added := (key, |before|);
    assert added !in Entries(m);
    AppendedEntriesShrink(m, key, loc);
    AppendedEntriesGrow(m, key, loc);
    assert Entries(m') == Entries(m) + {added};
  }

  /** After the append, every stored entry is an old one or the new last slot. */
  lemma AppendedEntriesShrink(m: map<string, seq<TileLocation>>, key: string, loc: TileLocation)
    ensures var before := if key in m then m[key] else [];
            Entries(m[key := before + [loc]]) <= Entries(m) + {(key, |before|)}
  {
    var before := if key in m then m[key] else [];
    var m' := m[key := before + [loc]];
    forall p | p in Entries(m')
      ensures p in Entries(m) + {(key, |before|)}
    {
      var k, i :| k in m' && 0 <= i < |m'[k]| && p == (k, i);
      if k == key && i < |before| {
        assert k in m;
      }
    }
  }

  /** After the append, every old entry and the new last slot are stored. */
  lemma AppendedEntriesGrow(m: map<string, seq<TileLocation>>, key: string, loc: TileLocation)
    ensures var before := if key in m then m[key] else [];
            Entries(m) + {(key, |before|)} <= Entries(m[key := before + [loc]])
  {
    var before := if key in m then m[key] else [];
    var m' := m[key := before + [loc]];
    forall p | p in Entries(m) + {(key, |before|)}
      ensures p in Entries(m')
    {
      if p != (key, |before|) {
        var k, i :| k in m && 0 <= i < |m[k]| && p == (k, i);
        assert k in m' && i < |m'[k]|;
      }
    }
  }

  class TileMappings {
    var locationMap: map<string, seq<TileLocation>>
    const tiler: Mercator
    const zoom: Zoom

    /** Every list is nonempty, and every location in it was filed under the
        index's zoom and lies in the tile its key names. */
    ghost predicate Valid()
      reads this
    {
      forall k :: k in locationMap ==>
        && |locationMap[k]| > 0
        && forall i :: 0 <= i < |locationMap[k]| ==>
             && locationMap[k][i].zoom == zoom
             && KeyFor(tiler, locationMap[k][i].latitude, locationMap[k][i].longitude, zoom) == k
    }

    constructor(tiler: Mercator, zoom: Zoom)
      ensures Valid()
      ensures this.tiler == tiler && this.zoom == zoom && locationMap == map[]
    {
      this.tiler := tiler;
      this.zoom := zoom;
      locationMap := map[];
    }

    /** addLocation: files the place under the key of its tile, starting a new
        list for a new key and appending to the existing list otherwise. */
    method AddLocation(latitude: real, longitude: real, name: string)
      requires Valid()
      modifies this
      ensures Valid()
      ensures var key := KeyFor(tiler, latitude, longitude, zoom);
              var loc := TileLocation(latitude, longitude, zoom, name);
              locationMap == old(locationMap)[key := (if key in old(locationMap) then old(locationMap)[key] else []) + [loc]]
      ensures Total(locationMap) == old(Total(locationMap)) + 1
    {
      var tile := LaloToTile(tiler, latitude, longitude, zoom);
      var tileName := TileKey(tile, zoom);
      var loc := TileLocation(latitude, longitude, zoom, name);
      AppendCountsOne(locationMap, tileName, loc);
      if tileName !in locationMap {
        assert [] + [loc] == [loc];
        locationMap := locationMap[tileName := [loc]];
      } else {
        var arr := locationMap[tileName];
        locationMap := locationMap[tileName := arr + [loc]];
      }
    }
  }

  /** In a valid index two stored places share a list exactly when they lie in
      the same tile. */
  lemma SameListIffSameTile(t: TileMappings, k1: string, i1: int, k2: string, i2: int)
    requires t.Valid()
    requires k1 in t.locationMap && 0 <= i1 < |t.locationMap[k1]|
    requires k2 in t.locationMap && 0 <= i2 < |t.locationMap[k2]|
    ensures var a := t.locationMap[k1][i1];
            var b := t.locationMap[k2][i2];
            k1 == k2 <==>
              LaloToTile(t.tiler, a.latitude, a.longitude, t.zoom) == LaloToTile(t.tiler, b.latitude, b.longitude, t.zoom)
  {
    var a := t.locationMap[k1][i1];
    var b := t.locationMap[k2][i2];
    TileKeyInjective(LaloToTile(t.tiler, a.latitude, a.longitude, t.zoom), t.zoom,
                     LaloToTile(t.tiler, b.latitude, b.longitude, t.zoom), t.zoom);
  }
}
