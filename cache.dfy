/** The per-zoom tile cache (TileCache): the dataset's node positions and
    shared state, built once, and one index per zoom level, built the first
    time that zoom is asked for and kept from then on. */
module Cache {
  import opened OsmData
  import opened TileMath
  import opened CacheState
  import opened TileIndex

  /** The projection of a latitude and longitude onto the unit square of the
      map (convert_to_tile, a floating-point formula that is not part of
      this model). */
  type Projection = (real, real) -> Point

  /** `nodesToTile` holds the projected position of every node of `osm`,
      under its id; the last node with an id decides its position. */
  ghost predicate NodesToTileOf(nodesToTile: map<nat, Point>, osm: Osm, project: Projection)
  {
    && nodesToTile.Keys == KeysOf(osm.node, (n: Node) => n.id)
    && forall i :: LastWithKey(osm.node, (n: Node) => n.id, i) ==>
         nodesToTile[osm.node[i].id] == project(osm.node[i].lat, osm.node[i].lon)
  }

  class TileCache {
    /** Zoom level -> index. */
    var cache: map<nat, Index>
    const nodesToTile: map<nat, Point>
    const state: TileCacheState
    /** How many indexes have been built so far. */
    ghost var builds: nat

    /** Every cached index is the index of the state at its zoom, and each
        was built exactly once. */
    ghost predicate Valid()
      reads this
    {
      && (forall zoom :: zoom in cache ==> zoom <= 23 && IndexFor(cache[zoom], nodesToTile, state, zoom))
      && builds == |cache.Keys|
    }

    /** TileCache::new_no_default: the node positions and the shared state
        of `osm`, and an empty cache. */
    constructor NewNoDefault(osm: Osm, project: Projection)
      ensures Valid()
      ensures cache == map[] && builds == 0
      ensures NodesToTileOf(nodesToTile, osm, project)
      ensures StateOf(state, osm)
    {
      var positions := IndexBy(osm.node, (n: Node) => n.id, (n: Node) => project(n.lat, n.lon));
      var built := BuildState(osm);
      cache := map[];
      nodesToTile := positions;
      state := built;
      builds := 0;
    }

    /** TileCache::get_cache: the cached index of `zoom`, built and stored
        first when there is none. Only a build needs the zoom to fit the
        32-bit map width and every filed node to have a position; a cached
        zoom is always within range. */
    method GetCache(zoom: nat) returns (index: Index)
      requires Valid()
      requires zoom !in cache ==> zoom <= 23 && NodesPlaced(state, nodesToTile)
      modifies this
      ensures Valid()
      ensures zoom <= 23 && IndexFor(index, nodesToTile, state, zoom)
      ensures zoom in old(cache) ==> index == old(cache)[zoom] && cache == old(cache) && builds == old(builds)
      ensures zoom !in old(cache) ==> cache == old(cache)[zoom := index] && builds == old(builds) + 1
      ensures cache.Keys == old(cache).Keys + {zoom}
    {
      if zoom in cache {
        index := cache[zoom];
      } else {
        index := BuildIndexForZoom(nodesToTile, state, zoom);
        cache := cache[zoom := index];
        builds := builds + 1;
      }
    }
  }

  /** Two lookups of the same zoom return the same index, and the second
      builds nothing. */
  method RepeatedLookupBuildsOnce(tiles: TileCache, zoom: nat) returns (first: Index, second: Index)
    requires tiles.Valid()
    requires zoom !in tiles.cache ==> zoom <= 23 && NodesPlaced(tiles.state, tiles.nodesToTile)
    modifies tiles
    ensures first == second
    ensures tiles.builds <= old(tiles.builds) + 1
    ensures zoom in old(tiles.cache) ==> tiles.builds == old(tiles.builds)
  {
    first := tiles.GetCache(zoom);
    second := tiles.GetCache(zoom);
  }

  /** When every node a way refers to is in the dataset, every node the
      index files has a position, so no build can fail on a missing node. */
  lemma ClosedDatasetIsPlaced(osm: Osm, project: Projection, nodesToTile: map<nat, Point>, state: TileCacheState)
    requires NodesToTileOf(nodesToTile, osm, project) && StateOf(state, osm)
    requires forall i, k :: 0 <= i < |osm.way| && 0 <= k < |osm.way[i].nd| ==> osm.way[i].nd[k] in KeysOf(osm.node, (n: Node) => n.id)
    ensures NodesPlaced(state, nodesToTile)
  {
    forall i, k | 0 <= i < |state.ways| && 0 <= k < |state.ways[i].nd|
      ensures state.ways[i].nd[k] in nodesToTile
    {
      var w := state.ways[i];
      assert multiset(state.ways)[w] > 0;
      DatasetWayPlaced(osm, project, nodesToTile, w, k);
    }
    forall i | 0 <= i < |state.relations|
      ensures MembersPlaced(state.relations[i].member, state.idToWays, nodesToTile)
    {
      forall j, k | 0 <= j < |state.relations[i].member| && state.relations[i].member[j].memberRef in state.idToWays &&
                    0 <= k < |state.idToWays[state.relations[i].member[j].memberRef].nd|
        ensures state.idToWays[state.relations[i].member[j].memberRef].nd[k] in nodesToTile
      {
        DatasetWayPlaced(osm, project, nodesToTile, state.idToWays[state.relations[i].member[j].memberRef], k);
      }
    }
  }

  /** A way of a closed dataset has every one of its nodes placed. */
  lemma DatasetWayPlaced(osm: Osm, project: Projection, nodesToTile: map<nat, Point>, w: Way, k: nat)
    requires NodesToTileOf(nodesToTile, osm, project)
    requires forall i, k :: 0 <= i < |osm.way| && 0 <= k < |osm.way[i].nd| ==> osm.way[i].nd[k] in KeysOf(osm.node, (n: Node) => n.id)
    requires w in osm.way && k < |w.nd|
    ensures w.nd[k] in nodesToTile
  {
    var m :| 0 <= m < |osm.way| && osm.way[m] == w;
  }
}
