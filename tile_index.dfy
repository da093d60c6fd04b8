/** The per-zoom tile index (build_index_for_zoom): for each tile x and tile
    y, the ids of the relations and of the standalone ways that have a node
    in that tile. Above zoom 15 every entry is also made in the eight
    surrounding tiles, so that features crossing a tile border are drawn on
    both sides. */
module TileIndex {
  import opened Seqs
  import opened OsmData
  import opened TileMath
  import opened CacheState

  /** Tile x -> tile y -> ids. */
  type Buckets = map<int, map<int, set<nat>>>

  /** Node id -> position on the zoomed map, in pixels. */
  type Coordinates = map<nat, Point>

  datatype Index = Index(
    relationsToTile: Buckets,
    waysToTile: Buckets,
    nodeToTileZoomCoordinates: Coordinates,
    state: TileCacheState)

  /** `id` is filed under tile (x, y). */
  predicate InBucket(b: Buckets, x: int, y: int, id: nat)
  {
    x in b && y in b[x] && id in b[x][y]
  }

  /** The `entry(x).or_insert(..).entry(y).or_insert(..).insert(id)` step: files
      `id` under (x, y) and changes nothing else. */
  function Insert(b: Buckets, x: int, y: int, id: nat): (r: Buckets)
    ensures forall x', y', id' :: InBucket(r, x', y', id') <==> InBucket(b, x', y', id') || (x' == x && y' == y && id' == id)
  {
    var row := if x in b then b[x] else map[];
    var cell := if y in row then row[y] else {};
    b[x := row[y := cell + {id}]]
  }

  /** The surrounding-tiles window of the program. */
  const SURROUND_WINDOW: seq<int> := [1, 1, 0, 1, -1, -1, 0, -1, 1]

  /** The overlapping pairs of consecutive elements (`windows(2)`). */
  function Windows(s: seq<int>): seq<(int, int)>
  {
    if |s| < 2 then [] else seq(|s| - 1, i requires 0 <= i < |s| - 1 => (s[i], s[i + 1]))
  }

  /** The offsets the window yields. */
  function Offsets(): seq<(int, int)>
  {
    Windows(SURROUND_WINDOW)
  }

  /** The window yields each of the eight neighbouring offsets exactly once,
      and nothing else. */
  lemma OffsetsAreTheEightNeighbours()
    ensures |Offsets()| == 8 && Distinct(Offsets())
    ensures forall dx, dy :: (dx, dy) in Offsets() <==> -1 <= dx <= 1 && -1 <= dy <= 1 && (dx, dy) != (0, 0)
  {
    OffsetsListed();
    var o := Offsets();
    forall i, j | 0 <= i < j < |o| ensures o[i] != o[j] {
    }
    forall dx, dy ensures (dx, dy) in o <==> -1 <= dx <= 1 && -1 <= dy <= 1 && (dx, dy) != (0, 0) {
      if -1 <= dx <= 1 && -1 <= dy <= 1 && (dx, dy) != (0, 0) {
        var i := if dx == 1 then (if dy == 1 then 0 else if dy == 0 then 1 else 3)
                 else if dx == 0 then (if dy == 1 then 2 else 6)
                 else (if dy == 1 then 7 else if dy == 0 then 5 else 4);
        assert o[i] == (dx, dy);
      }
    }
  }

  lemma OffsetsListed()
    ensures Offsets() == [(1, 1), (1, 0), (0, 1), (1, -1), (-1, -1), (-1, 0), (0, -1), (-1, 1)]
  {
  }

  /** The tiles that receive an entry for a node in `tile`: the tile itself,
      and above zoom 15 also the eight tiles around it. */
  predicate Near(tile: Tile, x: int, y: int, zoom: nat)
  {
    (x == tile.0 && y == tile.1) ||
    (zoom > 15 && -1 <= x - tile.0 <= 1 && -1 <= y - tile.1 <= 1)
  }

  /** Some of the first offsets moves `tile` to (x, y). */
  ghost predicate Spilled(tile: Tile, offsets: seq<(int, int)>, x: int, y: int)
  {
    exists k :: 0 <= k < |offsets| && x == tile.0 + offsets[k].0 && y == tile.1 + offsets[k].1
  }

  lemma SpilledStep(tile: Tile, offsets: seq<(int, int)>, k: nat)
    requires k < |offsets|
    ensures forall x, y :: Spilled(tile, offsets[..k + 1], x, y) <==>
              Spilled(tile, offsets[..k], x, y) || (x == tile.0 + offsets[k].0 && y == tile.1 + offsets[k].1)
  {
    assert forall j :: 0 <= j < k ==> offsets[..k + 1][j] == offsets[..k][j];
    assert offsets[..k + 1][k] == offsets[k];
  }

  /** Above zoom 15 the tile and the tiles the window moves it to are
      exactly the tiles near it. */
  lemma SpilledIsNear(tile: Tile, zoom: nat)
    requires zoom > 15
    ensures forall x, y :: (x == tile.0 && y == tile.1) || Spilled(tile, Offsets(), x, y) <==> Near(tile, x, y, zoom)
  {
    var offsets := Offsets();
    OffsetsAreTheEightNeighbours();
    forall x, y | Near(tile, x, y, zoom) && !(x == tile.0 && y == tile.1)
      ensures Spilled(tile, offsets, x, y)
    {
      assert (x - tile.0, y - tile.1) in offsets;
      var k :| 0 <= k < |offsets| && offsets[k] == (x - tile.0, y - tile.1);
    }
  }

  /** Files `id` for a node in `tile`. */
  method InsertAround(b: Buckets, tile: Tile, id: nat, zoom: nat) returns (r: Buckets)
    ensures forall x, y, i :: InBucket(r, x, y, i) <==> InBucket(b, x, y, i) || (i == id && Near(tile, x, y, zoom))
  {
    r := Insert(b, tile.0, tile.1, id);
    if zoom > 15 {
      var offsets := Offsets();
      for k := 0 to |offsets|
        invariant forall x, y, i :: InBucket(r, x, y, i) <==>
                    InBucket(b, x, y, i) || (i == id && ((x == tile.0 && y == tile.1) || Spilled(tile, offsets[..k], x, y)))
      {
        SpilledStep(tile, offsets, k);
        r := Insert(r, tile.0 + offsets[k].0, tile.1 + offsets[k].1, id);
      }
      assert offsets[..|offsets|] == offsets;
      SpilledIsNear(tile, zoom);
    }
  }

  /** Some node of `nds` with a position lies in a tile whose entry reaches
      (x, y). */
  ghost predicate NodesNear(nds: seq<nat>, coords: Coordinates, zoom: nat, x: int, y: int)
  {
    exists k :: 0 <= k < |nds| && nds[k] in coords && Near(TileOf(coords[nds[k]]), x, y, zoom)
  }

  /** Files `id` for every node of `nds`. */
  method BucketNodes(b: Buckets, nds: seq<nat>, coords: Coordinates, zoom: nat, id: nat) returns (r: Buckets)
    requires forall k :: 0 <= k < |nds| ==> nds[k] in coords
    ensures forall x, y, i :: InBucket(r, x, y, i) <==> InBucket(b, x, y, i) || (i == id && NodesNear(nds, coords, zoom, x, y))
  {
    r := b;
    for k := 0 to |nds|
      invariant forall x, y, i :: InBucket(r, x, y, i) <==> InBucket(b, x, y, i) || (i == id && NodesNear(nds[..k], coords, zoom, x, y))
    {
      assert forall x, y :: NodesNear(nds[..k + 1], coords, zoom, x, y) <==>
               NodesNear(nds[..k], coords, zoom, x, y) || Near(TileOf(coords[nds[k]]), x, y, zoom) by {
        assert forall j :: 0 <= j < k ==> nds[..k + 1][j] == nds[..k][j];
        assert nds[..k + 1][k] == nds[k];
      }
      var p := coords[nds[k]];
      var tile := ConvertToIntTile(p.0, p.1);
      r := InsertAround(r, tile, id, zoom);
    }
    assert nds[..|nds|] == nds;
  }

  /** Some member of `members` resolves to a way with a node near (x, y). */
  ghost predicate MembersNear(members: seq<Member>, idToWays: map<nat, Way>, coords: Coordinates, zoom: nat, x: int, y: int)
  {
    exists j :: 0 <= j < |members| && members[j].memberRef in idToWays &&
                NodesNear(idToWays[members[j].memberRef].nd, coords, zoom, x, y)
  }

  /** Every node of every way the members resolve to has a position. */
  ghost predicate MembersPlaced(members: seq<Member>, idToWays: map<nat, Way>, coords: Coordinates)
  {
    forall j, k :: 0 <= j < |members| && members[j].memberRef in idToWays && 0 <= k < |idToWays[members[j].memberRef].nd| ==>
      idToWays[members[j].memberRef].nd[k] in coords
  }

  /** Files the relation's id for every node of every way its members
      resolve to; members that do not resolve are skipped. */
  method BucketRelation(b: Buckets, relation: Relation, idToWays: map<nat, Way>, coords: Coordinates, zoom: nat) returns (r: Buckets)
    requires MembersPlaced(relation.member, idToWays, coords)
    ensures forall x, y, i :: InBucket(r, x, y, i) <==>
              InBucket(b, x, y, i) || (i == relation.id && MembersNear(relation.member, idToWays, coords, zoom, x, y))
  {
    var members := relation.member;
    r := b;
    for j := 0 to |members|
      invariant forall x, y, i :: InBucket(r, x, y, i) <==>
                  InBucket(b, x, y, i) || (i == relation.id && MembersNear(members[..j], idToWays, coords, zoom, x, y))
    {
      assert forall j' :: 0 <= j' < j ==> members[..j + 1][j'] == members[..j][j'];
      assert members[..j + 1][j] == members[j];
      var ref := members[j].memberRef;
      if ref in idToWays {
        r := BucketNodes(r, idToWays[ref].nd, coords, zoom, relation.id);
      }
    }
    assert members[..|members|] == members;
  }

  /** Some relation with id `id` has a member way with a node near (x, y). */
  ghost predicate RelationNear(relations: seq<Relation>, idToWays: map<nat, Way>, coords: Coordinates, zoom: nat, x: int, y: int, id: nat)
  {
    exists i :: 0 <= i < |relations| && relations[i].id == id && MembersNear(relations[i].member, idToWays, coords, zoom, x, y)
  }

  /** Some way with id `id` has a node near (x, y). */
  ghost predicate WayNear(ways: seq<Way>, coords: Coordinates, zoom: nat, x: int, y: int, id: nat)
  {
    exists i :: 0 <= i < |ways| && ways[i].id == id && NodesNear(ways[i].nd, coords, zoom, x, y)
  }

  /** The relations fold of build_index_for_zoom. */
  method BucketRelations(relations: seq<Relation>, idToWays: map<nat, Way>, coords: Coordinates, zoom: nat) returns (b: Buckets)
    requires forall i :: 0 <= i < |relations| ==> MembersPlaced(relations[i].member, idToWays, coords)
    ensures forall x, y, id :: InBucket(b, x, y, id) <==> RelationNear(relations, idToWays, coords, zoom, x, y, id)
  {
    b := map[];
    for i := 0 to |relations|
      invariant forall x, y, id :: InBucket(b, x, y, id) <==> RelationNear(relations[..i], idToWays, coords, zoom, x, y, id)
    {
      assert forall i' :: 0 <= i' < i ==> relations[..i + 1][i'] == relations[..i][i'];
      assert relations[..i + 1][i] == relations[i];
      b := BucketRelation(b, relations[i], idToWays, coords, zoom);
    }
    assert relations[..|relations|] == relations;
  }

  /** The ways fold of build_index_for_zoom. */
  method BucketWays(ways: seq<Way>, coords: Coordinates, zoom: nat) returns (b: Buckets)
    requires forall i, k :: 0 <= i < |ways| && 0 <= k < |ways[i].nd| ==> ways[i].nd[k] in coords
    ensures forall x, y, id :: InBucket(b, x, y, id) <==> WayNear(ways, coords, zoom, x, y, id)
  {
    b := map[];
    for i := 0 to |ways|
      invariant forall x, y, id :: InBucket(b, x, y, id) <==> WayNear(ways[..i], coords, zoom, x, y, id)
    {
      assert forall i' :: 0 <= i' < i ==> ways[..i + 1][i'] == ways[..i][i'];
      assert ways[..i + 1][i] == ways[i];
      b := BucketNodes(b, ways[i].nd, coords, zoom, ways[i].id);
    }
    assert ways[..|ways|] == ways;
  }

  /** Every node the index files has a position: the nodes of the ways that
      relation members resolve to, and the nodes of the standalone ways (the
      lookups that are unwrapped). */
  ghost predicate NodesPlaced(state: TileCacheState, coords: map<nat, Point>)
  {
    && (forall i :: 0 <= i < |state.relations| ==> MembersPlaced(state.relations[i].member, state.idToWays, coords))
    && (forall i, k :: 0 <= i < |state.ways| && 0 <= k < |state.ways[i].nd| ==> state.ways[i].nd[k] in coords)
  }

  /** `index` is the index of `state` at `zoom`, for node positions
      `nodesToTile` on the unit square. */
  ghost predicate IndexFor(index: Index, nodesToTile: map<nat, Point>, state: TileCacheState, zoom: nat)
    requires zoom <= 23
  {
    var coords := index.nodeToTileZoomCoordinates;
    && index.state == state
    && coords.Keys == nodesToTile.Keys
    && (forall n :: n in coords ==> coords[n] == Scale(nodesToTile[n], DimensionInPixels(zoom)))
    && (forall x, y, id :: InBucket(index.relationsToTile, x, y, id) <==> RelationNear(state.relations, state.idToWays, coords, zoom, x, y, id))
    && (forall x, y, id :: InBucket(index.waysToTile, x, y, id) <==> WayNear(state.ways, coords, zoom, x, y, id))
  }

  /** build_index_for_zoom. The zoom must keep the map width within 32 bits
      and every filed node must have a position. */
  method BuildIndexForZoom(nodesToTile: map<nat, Point>, state: TileCacheState, zoom: nat) returns (index: Index)
    requires zoom <= 23
    requires NodesPlaced(state, nodesToTile)
    ensures IndexFor(index, nodesToTile, state, zoom)
  {
    var dimension := DimensionInPixels(zoom);
    var coords := map n | n in nodesToTile :: Scale(nodesToTile[n], dimension);
    var relationsToTile := BucketRelations(state.relations, state.idToWays, coords, zoom);
    var waysToTile := BucketWays(state.ways, coords, zoom);
    index := Index(relationsToTile, waysToTile, coords, state);
  }

  // ---------------------------------------------------------------------
  // What the index promises

  /** Every node of every standalone way files the way under the node's tile. */
  lemma WayFiledUnderEachNodeTile(index: Index, nodesToTile: map<nat, Point>, state: TileCacheState, zoom: nat, i: nat, k: nat)
    requires zoom <= 23 && IndexFor(index, nodesToTile, state, zoom)
    requires i < |state.ways| && k < |state.ways[i].nd| && state.ways[i].nd[k] in nodesToTile
    ensures var t := TileOf(index.nodeToTileZoomCoordinates[state.ways[i].nd[k]]);
            InBucket(index.waysToTile, t.0, t.1, state.ways[i].id)
  {
    var coords := index.nodeToTileZoomCoordinates;
    var t := TileOf(coords[state.ways[i].nd[k]]);
    assert NodesNear(state.ways[i].nd, coords, zoom, t.0, t.1);
    assert WayNear(state.ways, coords, zoom, t.0, t.1, state.ways[i].id);
  }

  /** Every node of every way a relation member resolves to files the
      relation under the node's tile. */
  lemma RelationFiledUnderEachNodeTile(index: Index, nodesToTile: map<nat, Point>, state: TileCacheState, zoom: nat,
                                       i: nat, j: nat, k: nat)
    requires zoom <= 23 && IndexFor(index, nodesToTile, state, zoom)
    requires i < |state.relations| && j < |state.relations[i].member|
    requires state.relations[i].member[j].memberRef in state.idToWays
    requires var w := state.idToWays[state.relations[i].member[j].memberRef];
             k < |w.nd| && w.nd[k] in nodesToTile
    ensures var w := state.idToWays[state.relations[i].member[j].memberRef];
            var t := TileOf(index.nodeToTileZoomCoordinates[w.nd[k]]);
            InBucket(index.relationsToTile, t.0, t.1, state.relations[i].id)
  {
    var coords := index.nodeToTileZoomCoordinates;
    var rel := state.relations[i];
    var w := state.idToWays[rel.member[j].memberRef];
    var t := TileOf(coords[w.nd[k]]);
    assert NodesNear(w.nd, coords, zoom, t.0, t.1);
    assert MembersNear(rel.member, state.idToWays, coords, zoom, t.0, t.1);
    assert RelationNear(state.relations, state.idToWays, coords, zoom, t.0, t.1, rel.id);
  }

  /** Up to zoom 15 nothing spills: a way is filed only under tiles of its
      own nodes. */
  lemma NoSpillUpToZoom15(index: Index, nodesToTile: map<nat, Point>, state: TileCacheState, zoom: nat, x: int, y: int, id: nat)
    requires zoom <= 15 && IndexFor(index, nodesToTile, state, zoom)
    requires InBucket(index.waysToTile, x, y, id)
    ensures exists i, k :: 0 <= i < |state.ways| && state.ways[i].id == id && 0 <= k < |state.ways[i].nd| &&
                           state.ways[i].nd[k] in index.nodeToTileZoomCoordinates &&
                           TileOf(index.nodeToTileZoomCoordinates[state.ways[i].nd[k]]) == (x, y)
  {
    var coords := index.nodeToTileZoomCoordinates;
    var i :| 0 <= i < |state.ways| && state.ways[i].id == id && NodesNear(state.ways[i].nd, coords, zoom, x, y);
    var k :| 0 <= k < |state.ways[i].nd| && state.ways[i].nd[k] in coords && Near(TileOf(coords[state.ways[i].nd[k]]), x, y, zoom);
  }

  /** Up to zoom 15 nothing spills: a relation is filed only under tiles of
      nodes of its member ways. */
  lemma RelationNoSpillUpToZoom15(index: Index, nodesToTile: map<nat, Point>, state: TileCacheState, zoom: nat, x: int, y: int, id: nat)
    requires zoom <= 15 && IndexFor(index, nodesToTile, state, zoom)
    requires InBucket(index.relationsToTile, x, y, id)
    ensures exists i, j, k :: 0 <= i < |state.relations| && state.relations[i].id == id &&
                              0 <= j < |state.relations[i].member| && state.relations[i].member[j].memberRef in state.idToWays &&
                              0 <= k < |state.idToWays[state.relations[i].member[j].memberRef].nd| &&
                              var n := state.idToWays[state.relations[i].member[j].memberRef].nd[k];
                              n in index.nodeToTileZoomCoordinates && TileOf(index.nodeToTileZoomCoordinates[n]) == (x, y)
  {
    var coords := index.nodeToTileZoomCoordinates;
    var i :| 0 <= i < |state.relations| && state.relations[i].id == id &&
             MembersNear(state.relations[i].member, state.idToWays, coords, zoom, x, y);
    var members := state.relations[i].member;
    var j :| 0 <= j < |members| && members[j].memberRef in state.idToWays &&
             NodesNear(state.idToWays[members[j].memberRef].nd, coords, zoom, x, y);
    var nds := state.idToWays[members[j].memberRef].nd;
    var k :| 0 <= k < |nds| && nds[k] in coords && Near(TileOf(coords[nds[k]]), x, y, zoom);
  }

  /** Above zoom 15 every node also files its way under the eight tiles
      around the node's tile. */
  lemma SpillAboveZoom15(index: Index, nodesToTile: map<nat, Point>, state: TileCacheState, zoom: nat,
                         i: nat, k: nat, dx: int, dy: int)
    requires 15 < zoom <= 23 && IndexFor(index, nodesToTile, state, zoom)
    requires i < |state.ways| && k < |state.ways[i].nd| && state.ways[i].nd[k] in nodesToTile
    requires -1 <= dx <= 1 && -1 <= dy <= 1
    ensures var t := TileOf(index.nodeToTileZoomCoordinates[state.ways[i].nd[k]]);
            InBucket(index.waysToTile, t.0 + dx, t.1 + dy, state.ways[i].id)
  {
    var coords := index.nodeToTileZoomCoordinates;
    var t := TileOf(coords[state.ways[i].nd[k]]);
    assert NodesNear(state.ways[i].nd, coords, zoom, t.0 + dx, t.1 + dy);
    assert WayNear(state.ways, coords, zoom, t.0 + dx, t.1 + dy, state.ways[i].id);
  }

  /** Only the ids of kept relations and of standalone ways are filed. */
  lemma FiledIdsAreKnown(index: Index, nodesToTile: map<nat, Point>, state: TileCacheState, zoom: nat, x: int, y: int, id: nat)
    requires zoom <= 23 && IndexFor(index, nodesToTile, state, zoom)
    ensures InBucket(index.relationsToTile, x, y, id) ==> exists i :: 0 <= i < |state.relations| && state.relations[i].id == id
    ensures InBucket(index.waysToTile, x, y, id) ==> exists i :: 0 <= i < |state.ways| && state.ways[i].id == id
  {
  }
}
