/** Rendering one tile, up to the rasteriser: the lookup of the tile's bucket
    in both indexes, the grouping of the ids found there by their category
    (render_tile_inner), and the order in which draw_to_memory hands the
    groups to the drawing routines. A drawing routine call is recorded as a
    `DrawCall`; what it paints is not modelled. */
module Render {
  import opened Seqs
  import opened OsmData
  import opened CacheState
  import opened TileMath
  import opened TileIndex
  import RingSpec

  // ---------------------------------------------------------------------
  // Grouping by category

  /** `groups` holds, under each category, the entities of the ids of `done`
      of that category, each exactly once; `members` records the ids behind
      each group, in the group's order (the iteration order of the set, which
      is not modelled). Categories with no id have no group. */
  ghost predicate GroupsOf<V>(groups: map<Type, seq<V>>, members: map<Type, seq<nat>>, done: set<nat>,
                              typeOf: map<nat, Type>, lookup: map<nat, V>)
  {
    && groups.Keys == members.Keys
    && (forall t :: t in members ==> |members[t]| > 0 && |groups[t]| == |members[t]| && Distinct(members[t]))
    && (forall t, k :: t in members && 0 <= k < |members[t]| ==>
          members[t][k] in done && members[t][k] in typeOf && typeOf[members[t][k]] == t &&
          members[t][k] in lookup && k < |groups[t]| && groups[t][k] == lookup[members[t][k]])
    && (forall id :: id in done ==> id in typeOf && typeOf[id] in members && id in members[typeOf[id]])
  }

  /** Adding one more id to the grouping. */
  lemma GroupStep<V>(groups: map<Type, seq<V>>, members: map<Type, seq<nat>>, done: set<nat>,
                     typeOf: map<nat, Type>, lookup: map<nat, V>, id: nat)
    requires GroupsOf(groups, members, done, typeOf, lookup)
    requires id !in done && id in typeOf && id in lookup
    ensures var t := typeOf[id];
            var group := if t in groups then groups[t] else [];
            var ms := if t in members then members[t] else [];
            GroupsOf(groups[t := group + [lookup[id]]], members[t := ms + [id]], done + {id}, typeOf, lookup)
  {
    var t := typeOf[id];
    var ms := if t in members then members[t] else [];
    assert forall k :: 0 <= k < |ms| ==> ms[k] in done;
    var ms' := ms + [id];
    assert forall k :: 0 <= k < |ms| ==> ms'[k] == ms[k];
  }

  /** The fold of render_tile_inner: every id of `ids`, in the set's
      iteration order, is pushed onto the group of its category. The
      category and the entity of every id must be known (the lookups are
      unwrapped). */
  method GroupBy<V>(ids: set<nat>, typeOf: map<nat, Type>, lookup: map<nat, V>)
    returns (groups: map<Type, seq<V>>, ghost members: map<Type, seq<nat>>)
    requires forall id :: id in ids ==> id in typeOf && id in lookup
    ensures GroupsOf(groups, members, ids, typeOf, lookup)
    ensures GroupedContents(groups, ids, typeOf, lookup)
  {
    groups := map[];
    members := map[];
    var remaining := ids;
    while remaining != {}
      invariant remaining <= ids
      invariant GroupsOf(groups, members, ids - remaining, typeOf, lookup)
      decreases |remaining|
    {
      var id :| id in remaining;
      GroupStep(groups, members, ids - remaining, typeOf, lookup, id);
      var t := typeOf[id];
      var group := if t in groups then groups[t] else [];
      ghost var ms := if t in members then members[t] else [];
      groups := groups[t := group + [lookup[id]]];
      members := members[t := ms + [id]];
      assert ids - (remaining - {id}) == (ids - remaining) + {id};
      remaining := remaining - {id};
    }
    GroupsAreTyped(groups, members, ids, typeOf, lookup);
  }

  /** What the groups alone show: a category has a group iff some id of
      `ids` has that category; the entity of every id is in its category's
      group; and every grouped entity is the entity of an id of `ids` of the
      group's category. */
  ghost predicate GroupedContents<V>(groups: map<Type, seq<V>>, ids: set<nat>, typeOf: map<nat, Type>, lookup: map<nat, V>)
  {
    && (forall t :: t in groups <==> exists id :: id in ids && id in typeOf && typeOf[id] == t)
    && (forall id :: id in ids && id in typeOf && id in lookup ==> typeOf[id] in groups && lookup[id] in groups[typeOf[id]])
    && (forall t, v :: t in groups && v in groups[t] ==>
          exists id :: id in ids && id in typeOf && typeOf[id] == t && id in lookup && lookup[id] == v)
  }

  /** A grouping with its ids recorded shows its contents. */
  lemma GroupsAreTyped<V>(groups: map<Type, seq<V>>, members: map<Type, seq<nat>>, done: set<nat>,
                          typeOf: map<nat, Type>, lookup: map<nat, V>)
    requires GroupsOf(groups, members, done, typeOf, lookup)
    ensures GroupedContents(groups, done, typeOf, lookup)
  {
    forall t | t in groups
      ensures exists id :: id in done && id in typeOf && typeOf[id] == t
    {
      assert members[t][0] in done;
    }
    forall id | id in done && id in typeOf && id in lookup
      ensures typeOf[id] in groups && lookup[id] in groups[typeOf[id]]
    {
      var k :| 0 <= k < |members[typeOf[id]]| && members[typeOf[id]][k] == id;
      assert groups[typeOf[id]][k] == lookup[id];
    }
    forall t, v | t in groups && v in groups[t]
      ensures exists id :: id in done && id in typeOf && typeOf[id] == t && id in lookup && lookup[id] == v
    {
      var k :| 0 <= k < |groups[t]| && groups[t][k] == v;
      assert members[t][k] in done;
    }
  }

  /** The ids filed under tile (x, y); none when the tile has no bucket. */
  function Bucket(b: Buckets, x: int, y: int): (ids: set<nat>)
    ensures forall id :: id in ids <==> InBucket(b, x, y, id)
  {
    if x in b && y in b[x] then b[x][y] else {}
  }

  /** Every id the index files under (x, y) has a category and an entity
      (the lookups render_tile_inner unwraps). */
  ghost predicate BucketResolves(index: Index, x: int, y: int)
  {
    && (forall id :: InBucket(index.relationsToTile, x, y, id) ==>
          id in index.state.relationToType && id in index.state.idToRelations)
    && (forall id :: InBucket(index.waysToTile, x, y, id) ==>
          id in index.state.wayToType && id in index.state.idToWays)
  }

  /** The lookup and grouping part of render_tile_inner: the relations and
      the ways filed under tile (x, y), grouped by their precomputed
      category. */
  method TileGroups(x: int, y: int, index: Index)
    returns (relationsForType: map<Type, seq<Relation>>, waysForType: map<Type, seq<Way>>,
             ghost relationIds: map<Type, seq<nat>>, ghost wayIds: map<Type, seq<nat>>)
    requires BucketResolves(index, x, y)
    ensures !(x in index.relationsToTile && y in index.relationsToTile[x]) ==> relationsForType == map[]
    ensures !(x in index.waysToTile && y in index.waysToTile[x]) ==> waysForType == map[]
    ensures GroupsOf(relationsForType, relationIds, Bucket(index.relationsToTile, x, y),
                     index.state.relationToType, index.state.idToRelations)
    ensures GroupsOf(waysForType, wayIds, Bucket(index.waysToTile, x, y), index.state.wayToType, index.state.idToWays)
    ensures GroupedContents(relationsForType, Bucket(index.relationsToTile, x, y), index.state.relationToType, index.state.idToRelations)
    ensures GroupedContents(waysForType, Bucket(index.waysToTile, x, y), index.state.wayToType, index.state.idToWays)
  {
    if x in index.relationsToTile && y in index.relationsToTile[x] {
      relationsForType, relationIds := GroupBy(index.relationsToTile[x][y], index.state.relationToType, index.state.idToRelations);
    } else {
      relationsForType, relationIds := map[], map[];
    }
    if x in index.waysToTile && y in index.waysToTile[x] {
      waysForType, wayIds := GroupBy(index.waysToTile[x][y], index.state.wayToType, index.state.idToWays);
    } else {
      waysForType, wayIds := map[], map[];
    }
  }

  /** An index built from the state of a dataset resolves every bucket: the
      unwraps of render_tile_inner cannot fail. */
  lemma BuiltIndexResolves(index: Index, nodesToTile: map<nat, Point>, state: TileCacheState, osm: Osm, zoom: nat, x: int, y: int)
    requires zoom <= 23 && IndexFor(index, nodesToTile, state, zoom) && StateOf(state, osm)
    ensures BucketResolves(index, x, y)
  {
    forall id | InBucket(index.relationsToTile, x, y, id)
      ensures id in state.relationToType && id in state.idToRelations
    {
      FiledIdsAreKnown(index, nodesToTile, state, zoom, x, y, id);
      KeptRelationResolves(state, osm, id);
    }
    forall id | InBucket(index.waysToTile, x, y, id)
      ensures id in state.wayToType && id in state.idToWays
    {
      FiledIdsAreKnown(index, nodesToTile, state, zoom, x, y, id);
      StandaloneWayResolves(state, osm, id);
    }
  }

  /** A relation filed in a built index can be handed to the ring
      reconstructor: the way table is keyed by way id, and some relation with
      the filed id resolves at least one way (the first-way unwrap of
      extract_loops_to_render). When relation ids are unique that relation
      is the one the lookup by id returns. Whether every resolved way has
      nodes is not implied: another member may resolve to a way without
      any. */
  lemma FiledRelationResolves(index: Index, nodesToTile: map<nat, Point>, state: TileCacheState, osm: Osm,
                              zoom: nat, x: int, y: int, id: nat)
    requires zoom <= 23 && IndexFor(index, nodesToTile, state, zoom) && StateOf(state, osm)
    requires InBucket(index.relationsToTile, x, y, id)
    ensures RingSpec.WellKeyed(state.idToWays)
    ensures exists i :: 0 <= i < |state.relations| && state.relations[i].id == id &&
                        RingSpec.ResolvedWays(state.relations[i].member, state.idToWays) != []
    ensures (forall i, j :: 0 <= i < j < |osm.relation| ==> osm.relation[i].id != osm.relation[j].id) ==>
              id in state.idToRelations && RingSpec.ResolvedWays(state.idToRelations[id].member, state.idToWays) != []
  {
    var i := FiledRelationHasWay(index, nodesToTile, state, zoom, x, y, id);
    if forall i, j :: 0 <= i < j < |osm.relation| ==> osm.relation[i].id != osm.relation[j].id {
      LookupOfUniqueId(state, osm, i);
    }
  }

  /** The index files a relation only through a node of a way one of its
      members resolves to; `i` is that relation's place. */
  lemma FiledRelationHasWay(index: Index, nodesToTile: map<nat, Point>, state: TileCacheState,
                            zoom: nat, x: int, y: int, id: nat) returns (i: nat)
    requires zoom <= 23 && IndexFor(index, nodesToTile, state, zoom)
    requires InBucket(index.relationsToTile, x, y, id)
    ensures i < |state.relations| && state.relations[i].id == id
    ensures RingSpec.ResolvedWays(state.relations[i].member, state.idToWays) != []
  {
    var coords := index.nodeToTileZoomCoordinates;
    assert RelationNear(state.relations, state.idToWays, coords, zoom, x, y, id);
    i :| 0 <= i < |state.relations| && state.relations[i].id == id &&
         MembersNear(state.relations[i].member, state.idToWays, coords, zoom, x, y);
    var members := state.relations[i].member;
    var j :| 0 <= j < |members| && members[j].memberRef in state.idToWays &&
             NodesNear(state.idToWays[members[j].memberRef].nd, coords, zoom, x, y);
    assert members[j] in members;
    assert state.idToWays[members[j].memberRef] in RingSpec.ResolvedWays(members, state.idToWays);
  }

  /** With unique relation ids, the lookup by id returns the relation itself. */
  lemma LookupOfUniqueId(state: TileCacheState, osm: Osm, i: nat)
    requires StateOf(state, osm)
    requires forall i, j :: 0 <= i < j < |osm.relation| ==> osm.relation[i].id != osm.relation[j].id
    requires i < |state.relations|
    ensures state.relations[i].id in state.idToRelations && state.idToRelations[state.relations[i].id] == state.relations[i]
  {
    var id := state.relations[i].id;
    assert id in KeysOf(osm.relation, (r: Relation) => r.id);
    var r := state.idToRelations[id];
    var k :| 0 <= k < |osm.relation| && osm.relation[k] == r;
    assert osm.relation[i].id == id;
  }

  lemma KeptRelationResolves(state: TileCacheState, osm: Osm, id: nat)
    requires StateOf(state, osm)
    requires exists i :: 0 <= i < |state.relations| && state.relations[i].id == id
    ensures id in state.relationToType && id in state.idToRelations
  {
    var i :| 0 <= i < |state.relations| && state.relations[i].id == id;
    assert id in KeysOf(osm.relation, (r: Relation) => r.id);
  }

  lemma StandaloneWayResolves(state: TileCacheState, osm: Osm, id: nat)
    requires StateOf(state, osm)
    requires exists i :: 0 <= i < |state.ways| && state.ways[i].id == id
    ensures id in state.wayToType && id in state.idToWays
  {
    var i :| 0 <= i < |state.ways| && state.ways[i].id == id;
    var w := state.ways[i];
    assert multiset(state.ways)[w] > 0;
    assert w in osm.way;
    var j :| 0 <= j < |osm.way| && osm.way[j] == w;
    assert id in KeysOf(osm.way, (w: Way) => w.id);
  }

  // ---------------------------------------------------------------------
  // Drawing order

  /** A call of a drawing routine: a way or a relation, drawn with the style
      of a category. */
  datatype DrawCall = DrawWay(way: Way, t: Type) | DrawRelation(relation: Relation, t: Type)

  /** The order in which draw_to_memory paints the categories. */
  const RENDER_ORDER: seq<Type> := [Forest, Park, WaterRiver, Water, Generic, Building]

  /** The place of a category in the painting order. */
  function Pos(t: Type): nat
  {
    match t
    case Forest => 0
    case Park => 1
    case WaterRiver => 2
    case Water => 3
    case Generic => 4
    case Building => 5
  }

  /** The painting order names every category exactly once, at its place. */
  lemma RenderOrderListsEveryTypeOnce()
    ensures |RENDER_ORDER| == 6 && Distinct(RENDER_ORDER)
    ensures forall t: Type :: t in RENDER_ORDER
    ensures forall i :: 0 <= i < |RENDER_ORDER| ==> Pos(RENDER_ORDER[i]) == i
  {
    forall t: Type ensures t in RENDER_ORDER {
      assert RENDER_ORDER[Pos(t)] == t;
    }
  }

  /** The group of a category, or the empty default (`unwrap_or`). */
  function Get<V>(m: map<Type, seq<V>>, t: Type): (group: seq<V>)
    ensures t !in m ==> group == []
  {
    if t in m then m[t] else []
  }

  /** The calls for one category: its ways, then its relations. */
  function CategoryCalls(t: Type, relationsForType: map<Type, seq<Relation>>, waysForType: map<Type, seq<Way>>): (calls: seq<DrawCall>)
    ensures forall k :: 0 <= k < |calls| ==> calls[k].t == t
  {
    WayCalls(Get(waysForType, t), t) + RelationCalls(Get(relationsForType, t), t)
  }

  function WayCalls(ws: seq<Way>, t: Type): (calls: seq<DrawCall>)
    ensures |calls| == |ws|
    ensures forall k :: 0 <= k < |ws| ==> calls[k] == DrawWay(ws[k], t)
  {
    if ws == [] then [] else WayCalls(ws[..|ws| - 1], t) + [DrawWay(Last(ws), t)]
  }

  function RelationCalls(rs: seq<Relation>, t: Type): (calls: seq<DrawCall>)
    ensures |calls| == |rs|
    ensures forall k :: 0 <= k < |rs| ==> calls[k] == DrawRelation(rs[k], t)
  {
    if rs == [] then [] else RelationCalls(rs[..|rs| - 1], t) + [DrawRelation(Last(rs), t)]
  }

  /** The calls for the categories of `order`, one category after another. */
  function Schedule(order: seq<Type>, relationsForType: map<Type, seq<Relation>>, waysForType: map<Type, seq<Way>>): seq<DrawCall>
  {
    if order == [] then []
    else Schedule(order[..|order| - 1], relationsForType, waysForType) + CategoryCalls(Last(order), relationsForType, waysForType)
  }

  /** The `for_each` over a category's ways. */
  method DrawWays(ws: seq<Way>, t: Type) returns (calls: seq<DrawCall>)
    ensures calls == WayCalls(ws, t)
  {
    calls := [];
    for k := 0 to |ws|
      invariant calls == WayCalls(ws[..k], t)
    {
      assert ws[..k + 1][..k] == ws[..k];
      calls := calls + [DrawWay(ws[k], t)];
    }
    assert ws[..|ws|] == ws;
  }

  /** The `for_each` over a category's relations. */
  method DrawRelations(rs: seq<Relation>, t: Type) returns (calls: seq<DrawCall>)
    ensures calls == RelationCalls(rs, t)
  {
    calls := [];
    for k := 0 to |rs|
      invariant calls == RelationCalls(rs[..k], t)
    {
      assert rs[..k + 1][..k] == rs[..k];
      calls := calls + [DrawRelation(rs[k], t)];
    }
    assert rs[..|rs|] == rs;
  }

  /** One pass of the category loop of draw_to_memory: the category's ways,
      then its relations. */
  method DrawCategory(t: Type, relationsForType: map<Type, seq<Relation>>, waysForType: map<Type, seq<Way>>)
    returns (calls: seq<DrawCall>)
    ensures calls == CategoryCalls(t, relationsForType, waysForType)
  {
    var wayCalls := DrawWays(Get(waysForType, t), t);
    var relationCalls := DrawRelations(Get(relationsForType, t), t);
    calls := wayCalls + relationCalls;
  }

  /** The category loop of draw_to_memory. */
  method DrawToMemory(relationsForType: map<Type, seq<Relation>>, waysForType: map<Type, seq<Way>>) returns (calls: seq<DrawCall>)
    ensures calls == Schedule(RENDER_ORDER, relationsForType, waysForType)
  {
    calls := [];
    for i := 0 to |RENDER_ORDER|
      invariant calls == Schedule(RENDER_ORDER[..i], relationsForType, waysForType)
    {
      var more := DrawCategory(RENDER_ORDER[i], relationsForType, waysForType);
      calls := calls + more;
      assert RENDER_ORDER[..i + 1][..i] == RENDER_ORDER[..i];
    }
    assert RENDER_ORDER[..|RENDER_ORDER|] == RENDER_ORDER;
  }

  /** render_tile_inner: the tile's groups, painted in category order. */
  method RenderTileInner(x: int, y: int, index: Index)
    returns (calls: seq<DrawCall>, ghost relationsForType: map<Type, seq<Relation>>, ghost waysForType: map<Type, seq<Way>>)
    requires BucketResolves(index, x, y)
    ensures calls == Schedule(RENDER_ORDER, relationsForType, waysForType)
    ensures exists relationIds :: GroupsOf(relationsForType, relationIds, Bucket(index.relationsToTile, x, y),
                                           index.state.relationToType, index.state.idToRelations)
    ensures exists wayIds :: GroupsOf(waysForType, wayIds, Bucket(index.waysToTile, x, y), index.state.wayToType, index.state.idToWays)
    ensures DrawsBucket(calls, index, x, y)
    ensures PaintedInOrder(calls)
  {
    var relations, ways, relationIds, wayIds := TileGroups(x, y, index);
    relationsForType, waysForType := relations, ways;
    calls := DrawToMemory(relations, ways);
    ScheduleDrawsBucket(index, x, y, relations, ways);
    PaintingOrder(relations, ways);
  }

  /** The calls draw exactly what the index files under (x, y): every way
      and every relation of the bucket, each with its own category, and
      nothing else. */
  ghost predicate DrawsBucket(calls: seq<DrawCall>, index: Index, x: int, y: int)
  {
    && (forall id :: InBucket(index.waysToTile, x, y, id) && id in index.state.idToWays && id in index.state.wayToType ==>
          DrawWay(index.state.idToWays[id], index.state.wayToType[id]) in calls)
    && (forall id :: InBucket(index.relationsToTile, x, y, id) && id in index.state.idToRelations && id in index.state.relationToType ==>
          DrawRelation(index.state.idToRelations[id], index.state.relationToType[id]) in calls)
    && (forall c :: c in calls ==> FromBucket(c, index, x, y))
  }

  /** A call draws an entity filed under (x, y), with that entity's category. */
  ghost predicate FromBucket(c: DrawCall, index: Index, x: int, y: int)
  {
    match c
    case DrawWay(w, t) =>
      exists id :: InBucket(index.waysToTile, x, y, id) && id in index.state.idToWays && index.state.idToWays[id] == w &&
                   id in index.state.wayToType && index.state.wayToType[id] == t
    case DrawRelation(r, t) =>
      exists id :: InBucket(index.relationsToTile, x, y, id) && id in index.state.idToRelations && index.state.idToRelations[id] == r &&
                   id in index.state.relationToType && index.state.relationToType[id] == t
  }

  /** Painting the groups of a tile's bucket draws the bucket. */
  lemma ScheduleDrawsBucket(index: Index, x: int, y: int,
                            relationsForType: map<Type, seq<Relation>>, waysForType: map<Type, seq<Way>>)
    requires GroupedContents(relationsForType, Bucket(index.relationsToTile, x, y), index.state.relationToType, index.state.idToRelations)
    requires GroupedContents(waysForType, Bucket(index.waysToTile, x, y), index.state.wayToType, index.state.idToWays)
    ensures DrawsBucket(Schedule(RENDER_ORDER, relationsForType, waysForType), index, x, y)
  {
    ScheduleDrawsBucketWays(index, x, y, relationsForType, waysForType);
    ScheduleDrawsBucketRelations(index, x, y, relationsForType, waysForType);
    ScheduleDrawsOnlyBucket(index, x, y, relationsForType, waysForType);
  }

  lemma ScheduleDrawsBucketWays(index: Index, x: int, y: int,
                                relationsForType: map<Type, seq<Relation>>, waysForType: map<Type, seq<Way>>)
    requires GroupedContents(waysForType, Bucket(index.waysToTile, x, y), index.state.wayToType, index.state.idToWays)
    ensures forall id :: InBucket(index.waysToTile, x, y, id) && id in index.state.idToWays && id in index.state.wayToType ==>
              DrawWay(index.state.idToWays[id], index.state.wayToType[id]) in Schedule(RENDER_ORDER, relationsForType, waysForType)
  {
    RenderOrderListsEveryTypeOnce();
    forall id | InBucket(index.waysToTile, x, y, id) && id in index.state.idToWays && id in index.state.wayToType
      ensures DrawWay(index.state.idToWays[id], index.state.wayToType[id]) in Schedule(RENDER_ORDER, relationsForType, waysForType)
    {
      ScheduleCovers(RENDER_ORDER, relationsForType, waysForType, index.state.wayToType[id]);
    }
  }

  lemma ScheduleDrawsBucketRelations(index: Index, x: int, y: int,
                                     relationsForType: map<Type, seq<Relation>>, waysForType: map<Type, seq<Way>>)
    requires GroupedContents(relationsForType, Bucket(index.relationsToTile, x, y), index.state.relationToType, index.state.idToRelations)
    ensures forall id :: InBucket(index.relationsToTile, x, y, id) && id in index.state.idToRelations && id in index.state.relationToType ==>
              DrawRelation(index.state.idToRelations[id], index.state.relationToType[id]) in Schedule(RENDER_ORDER, relationsForType, waysForType)
  {
    RenderOrderListsEveryTypeOnce();
    forall id | InBucket(index.relationsToTile, x, y, id) && id in index.state.idToRelations && id in index.state.relationToType
      ensures DrawRelation(index.state.idToRelations[id], index.state.relationToType[id]) in Schedule(RENDER_ORDER, relationsForType, waysForType)
    {
      ScheduleCovers(RENDER_ORDER, relationsForType, waysForType, index.state.relationToType[id]);
    }
  }

  lemma ScheduleDrawsOnlyBucket(index: Index, x: int, y: int,
                                relationsForType: map<Type, seq<Relation>>, waysForType: map<Type, seq<Way>>)
    requires GroupedContents(relationsForType, Bucket(index.relationsToTile, x, y), index.state.relationToType, index.state.idToRelations)
    requires GroupedContents(waysForType, Bucket(index.waysToTile, x, y), index.state.wayToType, index.state.idToWays)
    ensures forall c :: c in Schedule(RENDER_ORDER, relationsForType, waysForType) ==> FromBucket(c, index, x, y)
  {
    forall c | c in Schedule(RENDER_ORDER, relationsForType, waysForType)
      ensures FromBucket(c, index, x, y)
    {
      ScheduleDraws(RENDER_ORDER, relationsForType, waysForType, c);
      GroupedCallFromBucket(index, x, y, relationsForType, waysForType, c);
    }
  }

  /** A call drawing a member of a group of the bucket draws an entity filed
      under (x, y). */
  lemma GroupedCallFromBucket(index: Index, x: int, y: int,
                              relationsForType: map<Type, seq<Relation>>, waysForType: map<Type, seq<Way>>, c: DrawCall)
    requires GroupedContents(relationsForType, Bucket(index.relationsToTile, x, y), index.state.relationToType, index.state.idToRelations)
    requires GroupedContents(waysForType, Bucket(index.waysToTile, x, y), index.state.wayToType, index.state.idToWays)
    requires c.DrawWay? ==> c.way in Get(waysForType, c.t)
    requires c.DrawRelation? ==> c.relation in Get(relationsForType, c.t)
    ensures FromBucket(c, index, x, y)
  {
    match c
    case DrawWay(w, t) =>
      assert t in waysForType && w in waysForType[t];
      var id :| id in Bucket(index.waysToTile, x, y) && id in index.state.wayToType && index.state.wayToType[id] == t &&
                id in index.state.idToWays && index.state.idToWays[id] == w;
      assert InBucket(index.waysToTile, x, y, id);
    case DrawRelation(r, t) =>
      assert t in relationsForType && r in relationsForType[t];
      var id :| id in Bucket(index.relationsToTile, x, y) && id in index.state.relationToType && index.state.relationToType[id] == t &&
                id in index.state.idToRelations && index.state.idToRelations[id] == r;
      assert InBucket(index.relationsToTile, x, y, id);
  }

  // ---------------------------------------------------------------------
  // What the painting order promises

  /** The calls of one category, in order. */
  ghost function CallsFor(calls: seq<DrawCall>, t: Type): seq<DrawCall>
  {
    if calls == [] then [] else (if calls[0].t == t then [calls[0]] else []) + CallsFor(calls[1..], t)
  }

  lemma {:induction false} CallsForAppend(a: seq<DrawCall>, b: seq<DrawCall>, t: Type)
    ensures CallsFor(a + b, t) == CallsFor(a, t) + CallsFor(b, t)
  {
    if a == [] {
      assert a + b == b;
    } else {
      assert (a + b)[0] == a[0];
      assert (a + b)[1..] == a[1..] + b;
      CallsForAppend(a[1..], b, t);
    }
  }

  lemma {:induction false} CallsForUniform(calls: seq<DrawCall>, t: Type, u: Type)
    requires forall k :: 0 <= k < |calls| ==> calls[k].t == u
    ensures CallsFor(calls, t) == if t == u then calls else []
  {
    if calls != [] {
      CallsForUniform(calls[1..], t, u);
      assert calls == [calls[0]] + calls[1..];
    }
  }

  /** Every call of a schedule paints a category of its order. */
  lemma {:induction false} ScheduleTypes(order: seq<Type>, relationsForType: map<Type, seq<Relation>>, waysForType: map<Type, seq<Way>>)
    ensures forall k :: 0 <= k < |Schedule(order, relationsForType, waysForType)| ==>
              Schedule(order, relationsForType, waysForType)[k].t in order
  {
    if order != [] {
      var init := order[..|order| - 1];
      ScheduleTypes(init, relationsForType, waysForType);
      assert forall t :: t in init ==> t in order;
    }
  }

  /** With each category named once, a category's calls in the schedule are
      exactly its ways followed by its relations; a category that is not
      named, or has no group, gets no call. */
  lemma {:induction false} CallsForSchedule(order: seq<Type>, relationsForType: map<Type, seq<Relation>>,
                                           waysForType: map<Type, seq<Way>>, t: Type)
    requires Distinct(order)
    ensures CallsFor(Schedule(order, relationsForType, waysForType), t) ==
            if t in order then CategoryCalls(t, relationsForType, waysForType) else []
  {
    if order != [] {
      var init := order[..|order| - 1];
      assert forall i :: 0 <= i < |init| ==> init[i] == order[i];
      assert t in order <==> t in init || t == Last(order);
      CallsForSchedule(init, relationsForType, waysForType, t);
      CallsForLast(order, relationsForType, waysForType, t);
    }
  }

  /** The calls of a category in a schedule: those before the last category,
      then the last category's own calls. */
  lemma CallsForLast(order: seq<Type>, relationsForType: map<Type, seq<Relation>>, waysForType: map<Type, seq<Way>>, t: Type)
    requires order != [] && Distinct(order)
    ensures t == Last(order) ==> t !in order[..|order| - 1]
    ensures CallsFor(Schedule(order, relationsForType, waysForType), t) ==
            CallsFor(Schedule(order[..|order| - 1], relationsForType, waysForType), t) +
            if t == Last(order) then CategoryCalls(t, relationsForType, waysForType) else []
  {
    var a := Schedule(order[..|order| - 1], relationsForType, waysForType);
    var b := CategoryCalls(Last(order), relationsForType, waysForType);
    assert Schedule(order, relationsForType, waysForType) == a + b;
    CallsForAppend(a, b, t);
    CallsForUniform(b, t, Last(order));
  }

  /** Each category of the tile is painted as its group of ways followed by
      its group of relations, each exactly as grouped and in the group's
      order. */
  lemma EachCategoryPaintedOnce(relationsForType: map<Type, seq<Relation>>, waysForType: map<Type, seq<Way>>, t: Type)
    ensures CallsFor(Schedule(RENDER_ORDER, relationsForType, waysForType), t) ==
            WayCalls(Get(waysForType, t), t) + RelationCalls(Get(relationsForType, t), t)
  {
    RenderOrderListsEveryTypeOnce();
    CallsForSchedule(RENDER_ORDER, relationsForType, waysForType, t);
  }

  /** A call of a category draws a member of one of its groups. */
  lemma InCategoryCalls(u: Type, relationsForType: map<Type, seq<Relation>>, waysForType: map<Type, seq<Way>>, c: DrawCall)
    requires c in CategoryCalls(u, relationsForType, waysForType)
    ensures c.t == u
    ensures c.DrawWay? ==> c.way in Get(waysForType, u)
    ensures c.DrawRelation? ==> c.relation in Get(relationsForType, u)
  {
    var ws := Get(waysForType, u);
    var wc := WayCalls(ws, u);
    var rc := RelationCalls(Get(relationsForType, u), u);
    if c in wc {
      var k :| 0 <= k < |wc| && wc[k] == c;
      assert c == DrawWay(ws[k], u);
    } else {
      assert c in rc;
      var k :| 0 <= k < |rc| && rc[k] == c;
      assert c == DrawRelation(Get(relationsForType, u)[k], u);
    }
  }

  /** The calls of a category draw every member of its groups. */
  lemma CategoryCallsCover(u: Type, relationsForType: map<Type, seq<Relation>>, waysForType: map<Type, seq<Way>>)
    ensures forall w :: w in Get(waysForType, u) ==> DrawWay(w, u) in CategoryCalls(u, relationsForType, waysForType)
    ensures forall r :: r in Get(relationsForType, u) ==> DrawRelation(r, u) in CategoryCalls(u, relationsForType, waysForType)
  {
    var ws := Get(waysForType, u);
    var rs := Get(relationsForType, u);
    var wc := WayCalls(ws, u);
    var rc := RelationCalls(rs, u);
    forall w | w in ws ensures DrawWay(w, u) in wc + rc {
      var k :| 0 <= k < |ws| && ws[k] == w;
      assert wc[k] == DrawWay(w, u);
    }
    forall r | r in rs ensures DrawRelation(r, u) in wc + rc {
      var k :| 0 <= k < |rs| && rs[k] == r;
      assert rc[k] == DrawRelation(r, u);
    }
  }

  /** Every call of a schedule draws a member of its category's group. */
  lemma {:induction false} ScheduleDraws(order: seq<Type>, relationsForType: map<Type, seq<Relation>>, waysForType: map<Type, seq<Way>>,
                                         c: DrawCall)
    requires c in Schedule(order, relationsForType, waysForType)
    ensures c.DrawWay? ==> c.way in Get(waysForType, c.t)
    ensures c.DrawRelation? ==> c.relation in Get(relationsForType, c.t)
  {
    if order != [] {
      var init := order[..|order| - 1];
      if c in Schedule(init, relationsForType, waysForType) {
        ScheduleDraws(init, relationsForType, waysForType, c);
      } else {
        InCategoryCalls(Last(order), relationsForType, waysForType, c);
      }
    }
  }

  /** A schedule that names a category draws every member of its groups. */
  lemma {:induction false} ScheduleCovers(order: seq<Type>, relationsForType: map<Type, seq<Relation>>, waysForType: map<Type, seq<Way>>,
                                          t: Type)
    requires t in order
    ensures forall w :: w in Get(waysForType, t) ==> DrawWay(w, t) in Schedule(order, relationsForType, waysForType)
    ensures forall r :: r in Get(relationsForType, t) ==> DrawRelation(r, t) in Schedule(order, relationsForType, waysForType)
  {
    var init := order[..|order| - 1];
    assert order == init + [Last(order)];
    if t == Last(order) {
      CategoryCallsCover(t, relationsForType, waysForType);
    } else {
      assert t in init;
      ScheduleCovers(init, relationsForType, waysForType, t);
    }
  }

  /** The sort key of a call: its category's place, ways before relations. */
  function Rank(c: DrawCall): nat
  {
    2 * Pos(c.t) + if c.DrawRelation? then 1 else 0
  }

  /** Calls sorted by rank. */
  ghost predicate SortedByRank(calls: seq<DrawCall>)
  {
    forall i, j :: 0 <= i < j < |calls| ==> Rank(calls[i]) <= Rank(calls[j])
  }

  lemma SortedConcat(a: seq<DrawCall>, b: seq<DrawCall>, r: nat)
    requires SortedByRank(a) && SortedByRank(b)
    requires forall k :: 0 <= k < |a| ==> Rank(a[k]) < r
    requires forall k :: 0 <= k < |b| ==> r <= Rank(b[k])
    ensures SortedByRank(a + b)
  {
    var c := a + b;
    forall i, j | 0 <= i < j < |c| ensures Rank(c[i]) <= Rank(c[j]) {
      if j < |a| {
        assert c[i] == a[i] && c[j] == a[j];
      } else if i >= |a| {
        assert c[i] == b[i - |a|] && c[j] == b[j - |a|];
      } else {
        assert c[i] == a[i] && c[j] == b[j - |a|];
      }
    }
  }

  lemma CategoryCallsSorted(u: Type, relationsForType: map<Type, seq<Relation>>, waysForType: map<Type, seq<Way>>)
    ensures var b := CategoryCalls(u, relationsForType, waysForType);
            SortedByRank(b) && forall k :: 0 <= k < |b| ==> 2 * Pos(u) <= Rank(b[k])
  {
  }

  lemma {:induction false} ScheduleSortedBy(order: seq<Type>, relationsForType: map<Type, seq<Relation>>, waysForType: map<Type, seq<Way>>)
    requires forall i, j :: 0 <= i < j < |order| ==> Pos(order[i]) < Pos(order[j])
    ensures SortedByRank(Schedule(order, relationsForType, waysForType))
  {
    if order != [] {
      var init := order[..|order| - 1];
      var u := Last(order);
      ScheduleSortedBy(init, relationsForType, waysForType);
      ScheduleTypes(init, relationsForType, waysForType);
      var a := Schedule(init, relationsForType, waysForType);
      forall k | 0 <= k < |a| ensures Rank(a[k]) < 2 * Pos(u) {
        var m :| 0 <= m < |init| && init[m] == a[k].t;
        assert order[m] == init[m];
      }
      CategoryCallsSorted(u, relationsForType, waysForType);
      SortedConcat(a, CategoryCalls(u, relationsForType, waysForType), 2 * Pos(u));
    }
  }

  /** No call is followed by one of an earlier category in the painting
      order, nor a relation by a way of the same category. */
  ghost predicate PaintedInOrder(calls: seq<DrawCall>)
  {
    forall i, j :: 0 <= i < j < |calls| ==>
      Pos(calls[i].t) <= Pos(calls[j].t) &&
      (calls[i].t == calls[j].t ==> !(calls[i].DrawRelation? && calls[j].DrawWay?))
  }

  /** draw_to_memory paints the categories in the order Forest, Park,
      WaterRiver, Water, Generic, Building, and within a category the ways
      before the relations: no call is ever followed by one of an earlier
      category, nor a relation by a way of the same category. */
  lemma PaintingOrder(relationsForType: map<Type, seq<Relation>>, waysForType: map<Type, seq<Way>>)
    ensures PaintedInOrder(Schedule(RENDER_ORDER, relationsForType, waysForType))
  {
    RenderOrderListsEveryTypeOnce();
    ScheduleSortedBy(RENDER_ORDER, relationsForType, waysForType);
  }
}
