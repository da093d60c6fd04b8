# osm-tile core, modelled in Dafny

osm-tile is a map-tile server. It loads an OpenStreetMap dataset once. It
classifies every way and relation into a drawing category (park, forest,
building, water, waterway, generic). It keeps one spatial index per zoom
level, mapping each 256-pixel tile to the ways and relations that have a node
in it. To render a tile it looks up the tile's bucket, groups the features by
category and paints the categories in a fixed z-order. A relation (a
multipolygon) is drawn as rings: chains of its member ways joined end to end.

This project models that core and proves its properties:

| file | module | what it models |
|---|---|---|
| `seqs.dfy` | `Seqs` | `Option`, reversal, order-preserving filtering and the subsequence relation |
| `osm_data.dfy` | `OsmData` | the data records (`Tag`, `Node`, `Way`, `Member`, `Relation`, `Osm`), `Type`, `LoopWithType`, `TILE_SIZE` |
| `classifier.dfy` | `Classifier` | `check_tag_type`, `check_way_type`, `check_relation_type` |
| `filters.dfy` | `Filters` | `filter_relations`, `filter_ways_from_relations`, `create_filter_expression` |
| `tile_math.dfy` | `TileMath` | `convert_to_int_tile`, the map width at a zoom, the per-zoom scaling of node positions |
| `ring_spec.dfy` | `RingSpec` | what `extract_loops_to_render` computes: a plan of ways per ring, the loop invariant, and node conservation |
| `rings.dfy` | `Rings` | `extract_loops_to_render` itself: the endpoint index and the greedy stitching loop |
| `cache_state.dfy` | `CacheState` | the maps and the standalone way list built by `TileCache::new_no_default` |
| `tile_index.dfy` | `TileIndex` | `build_index_for_zoom`: bucketing, with the spill into the 8 neighbouring tiles above zoom 15 |
| `cache.dfy` | `Cache` | the `TileCache` class: `new_no_default` and the memoising `get_cache` |
| `render.dfy` | `Render` | the bucket lookup and grouping of `render_tile_inner`, and the category order of `draw_to_memory` |
| `ring_shapes.dfy` | `RingShapes` | what `extract_loops_to_render` returns for two typical two-way relations: a polygon split in two halves, and two separate closed ways |

Modelling choices:

- Ids are `nat`, because the program does no arithmetic on its u64 ids.
- Pixel positions are exact `real`s. The program's f64 rounding is not
  modelled. The cast to a tile number is written out as truncation toward
  zero (`TileMath.TruncReal`).
- The Mercator projection (`convert_to_tile`) is a parameter of the
  constructor (`Cache.Projection`). Only its results enter the model.
- Every `unwrap` that can fail becomes a `requires` clause. For most of
  them the model also proves that the callers meet it:
  - the node positions looked up by the index builder, for a dataset whose
    ways refer only to its own nodes (`Cache.ClosedDatasetIsPlaced`);
  - the category and entity lookups of `render_tile_inner`
    (`Render.BuiltIndexResolves`);
  - the first resolved way of a relation drawn for a tile, when relation ids
    are distinct: a relation filed in an index has a member that resolves,
    and with distinct ids it is the relation looked up by its id
    (`Render.FiledRelationResolves`).

  With a repeated relation id, and for the unwraps of the first and last
  node of every resolved way, the callers do not meet them in general (see
  "Left out").
- A Rust hash-set iteration picks an element in an order this model does not
  fix. It is written as `:|` ("any element"). A ghost out-parameter records
  the order that was taken, where a contract needs it (`Rings.StitchRings`'s
  `plan`, `Render.GroupBy`'s `members`).
- Drawing is recorded as a sequence of `Render.DrawCall`s, one per
  `render_way` / `render_relation` call. Their content is not modelled.

Behaviours of the code that a reader could expect to be otherwise; the model
follows the code:

- Ring seeds. One could expect a ring stitched from several ways to carry no
  id. The code keeps `Some` of the id of the way that seeded it, and so does
  the model. `LoopWithType::new_with_type` is not part of this model; the
  visible code never clears the id.
- Member kinds. Ring reconstruction resolves members of every kind against
  the way table, not only "way" members (`RingSpec.ResolvedWays`). The
  standalone way list likewise excludes ways referenced by members of any
  kind.
- Degenerate relations. One could expect a relation with no resolvable way,
  or with a resolved way without nodes, to give no rings. The code panics on
  both, so here both are preconditions of `Rings.ExtractLoopsToRender`. A
  one-node way is accepted, as in the code.
- Tag filter. `filter_relations` counts the accepted tags and compares the
  count with the number of filter keys. One could read it as "every filter
  key is matched". The two agree whenever no tag key repeats
  (`Filters.CountMeansEveryKey`). With a repeated key they can differ:
  `Filters.RepeatedKeyStandsInForMissingKey` shows such an input.
- Standalone ways. The index files only the standalone ways, not every way.
  Ways that belong to a relation are reached through the relation.

## Model

| member | source | states |
|---|---|---|
| Classifier.CheckTagType | src/utils.rs:205-218 | the result is the first category, in the order Park, Forest, Building, Water, WaterRiver, Generic, whose rule the tags meet (leisure=park, landuse=forest, any building key, natural=water, any waterway key, always) |
| Classifier.CheckWayType | src/utils.rs:198-203 | a way without tags is Generic; otherwise its tags decide, by the first-match rule |
| Classifier.CheckRelationType | src/utils.rs:191-197 | a relation without tags is Generic; otherwise its tags decide, by the first-match rule |
| Classifier.FirstMatchIsUnique | src/utils.rs:205-218 | at most one category is the first match, so the classifier's contract fixes its result |
| Classifier.ParkOutranksBuilding | src/utils.rs:206-211 | tags with leisure=park and a building key classify as Park |
| Classifier.CategoryIgnoresTagOrder | src/utils.rs:205-218 | two tag lists holding the same tags, in any order or repetition, get the same category |
| Filters.MatchCount | src/utils.rs:34-39 | the number of accepted tags never exceeds the number of tags |
| Filters.FilterRelations | src/utils.rs:25-46 | keeps exactly the relations, in order and with their multiplicities, that have tags and whose accepted-tag count equals the number of filter keys; a relation without tags is never kept |
| Filters.WayMemberRefs | src/utils.rs:49-61 | the fold over the relations, each adding the refs of its "way" members, collects an id iff some given relation has a "way" member referring to it |
| Filters.WayRefsOf | src/utils.rs:53-59 | one relation's step of the fold adds an id iff one of its "way" members refers to it |
| Filters.FilterWaysFromRelations | src/utils.rs:48-68 | keeps exactly the ways of the dataset, in order and with their multiplicities, whose id a "way" member of the given relations refers to |
| Filters.MatchCountCountsKeys | src/utils.rs:34-39 | with no repeated tag key, the count is the number of distinct filter keys matched |
| Filters.CountMeansEveryKey | src/utils.rs:34-40 | with no repeated tag key, the count equals the number of filter keys iff every filter key is carried with an accepted value |
| Filters.RepeatedKeyStandsInForMissingKey | src/utils.rs:34-40 | two leisure=park tags satisfy a leisure+landuse filter although landuse is missing |
| Filters.CreateFilterExpression | src/utils.rs:70-82 | the park filter has one key and accepts exactly the tag leisure=park |
| Filters.ParkFilterSelectsParks | src/utils.rs:70-82 | a relation the park filter selects is classified Park |
| Filters.ParkFilterCountsParkTags | src/utils.rs:70-82 | under the park filter some tag is accepted iff the list carries leisure=park |
| Filters.ParksPassParkFilter | src/utils.rs:70-82 | a Park relation with no repeated key passes the park filter |
| TileMath.TruncReal | src/utils.rs:21-22 | the f64-to-integer cast rounds toward zero: the result lies within one of the input, on the input's side of zero |
| TileMath.ConvertToIntTile | src/utils.rs:20-24 | each tile number t places its pixel coordinate in [256t, 256t+256) when the coordinate is non-negative and in (256t-256, 256t] when it is negative; the sign is kept |
| TileMath.NextTileAfterOneEdge | src/utils.rs:20-24 | moving a non-negative coordinate by 256 pixels moves it exactly one tile further |
| TileMath.TileZeroSpansBothSigns | src/utils.rs:20-24 | every coordinate strictly between -256 and 256 falls in tile 0 |
| TileMath.TileIsMonotonic | src/utils.rs:20-24 | a larger coordinate never has a smaller tile |
| TileMath.DimensionInPixels | src/main.rs:47 | up to zoom 23 the map width is 256 * 2^zoom and fits in 32 unsigned bits |
| TileMath.Zoom24Overflows | src/main.rs:47 | at zoom 24 the width is 2^32, which overflows u32 |
| TileMath.ScaledInside | src/main.rs:47-60 | a unit-square position, its far edges left out, scaled by a positive map width lies inside the map on both axes |
| TileMath.UnitSquareTileInRange | src/main.rs:47-60 | scaled to a map n tiles wide, a unit-square position falls in one of the n x n tiles |
| TileMath.DoublingSplitsTile | src/main.rs:47-60 | on a map twice as wide, each axis of a position's tile becomes 2t or 2t+1 for a non-negative coordinate, and 2t or 2t-1 for a negative one |
| TileMath.ZoomInSplitsTile | src/main.rs:47-60 | a unit-square node lies in one of the 2^zoom x 2^zoom tiles of its zoom, and its tile one zoom deeper is one of the four its tile splits into |
| RingSpec.ResolvedWays | src/utils.rs:88-92 | a way is resolved iff some member's reference is in the table and maps to it; no way resolves iff no member reference is in the table |
| RingSpec.FirstResolved | src/utils.rs:88-118 | the first resolved way is the table entry of the first member whose reference resolves |
| RingSpec.TotalLengthIsNodeCount | src/utils.rs:119-175 | rings assembled from a plan hold together as many node ids as the plan's ways |
| RingSpec.NodeCountPermutation | src/utils.rs:94-97 | the node count of a list of way ids does not depend on the order of the ids |
| RingSpec.InitInv | src/utils.rs:116-126 | after seeding the first ring with the first way, forwards, the loop invariant holds |
| RingSpec.ExtendKeepsInv | src/utils.rs:140-179 | appending an unused way that touches the ring's last node, forwards when its first node is that node and reversed otherwise, keeps the invariant |
| RingSpec.NewLoopKeepsInv | src/utils.rs:163-179 | when no unused way touches the last node, opening a new ring seeded by any unused way keeps the invariant, and records the ring as closed |
| Rings.BuildSegments | src/utils.rs:99-110 | the endpoint index has a key for exactly the first and last nodes of the ways, and lists under each node exactly the ways that end there |
| Rings.LastNodeIndexed | src/utils.rs:133-135 | the current ring's last node is an endpoint of a resolved way, so the index lookup never fails |
| Rings.StitchRings | src/utils.rs:94-180 | every resolved way is used exactly once; each ring is a chain of ways whose consecutive stretches share the junction node, reversed exactly when needed; each ring carries its seed way's id and category; the first ring starts with the first resolved way's nodes and carries its id and category; every ring is non-empty and seeded by a resolved way; a ring was closed only when no unused way touched its last node; the rings hold each distinct way's nodes once |
| Rings.ExtractLoopsToRender | src/utils.rs:84-189 | the same facts, for the ways a relation's members resolve to; it needs at least one resolvable member and nodes on every resolved way |
| RingShapes.TwoWayShapes | src/utils.rs:116-180 | when a relation's ways are two, the second way is either second in the only ring or alone in a second ring |
| RingShapes.SplitPolygonRing | src/utils.rs:116-180 | two ways meeting at both ends give one ring, the first way followed by the second (reversed when needed), and the ring is closed |
| RingShapes.SeparateClosedRings | src/utils.rs:116-180 | two closed ways with different end nodes give two rings, each one way's nodes, each closed |
| RingShapes.SplitPolygonIsOneRing | src/utils.rs:84-189 | extract_loops_to_render on two halves of a polygon returns exactly one closed ring made of both halves |
| RingShapes.SeparateWaysAreTwoRings | src/utils.rs:84-189 | extract_loops_to_render on two closed ways with different end nodes returns two closed rings, one per way |
| CacheState.IndexBy | src/main.rs:206-245 | the map built by inserting key(item) -> val(item) for every item has exactly the items' keys, and each key maps to the value of the last item with that key |
| CacheState.WaysFromRelations | src/main.rs:247-255 | an id is collected iff some relation has a member, of any kind, referring to it |
| CacheState.BuildState | src/main.rs:205-275 | all relations are kept in order; the standalone ways are the dataset's ways, in order and with multiplicities, minus those any member refers to; the lookup tables hold every way and relation under its own id; the category maps have the same keys and hold the classifier's result |
| TileIndex.Insert | src/main.rs:76-80 | after the nested-entry insert the id is filed under the tile, and nothing else changes |
| TileIndex.OffsetsAreTheEightNeighbours | src/main.rs:62-82 | the consecutive pairs of the window are eight distinct offsets, exactly the non-zero offsets in {-1,0,1}² |
| TileIndex.InsertAround | src/main.rs:74-89 | an id is filed under the node's tile, and above zoom 15 also under every tile at most one step away on both axes, and nowhere else |
| TileIndex.BucketNodes | src/main.rs:98-115 | an id is filed under exactly the tiles near one of the nodes |
| TileIndex.BucketRelation | src/main.rs:67-90 | a relation is filed under exactly the tiles near a node of a way its members resolve to; members that do not resolve are skipped |
| TileIndex.BucketRelations | src/main.rs:64-93 | the relation buckets hold exactly the ids of relations with a member-way node near the tile |
| TileIndex.BucketWays | src/main.rs:95-118 | the way buckets hold exactly the ids of standalone ways with a node near the tile |
| TileIndex.BuildIndexForZoom | src/main.rs:40-126 | the built index keeps the state, scales every node position by the map width, and its two bucket maps are exactly as above |
| TileIndex.WayFiledUnderEachNodeTile | src/main.rs:95-105 | every node of every standalone way files the way under that node's tile |
| TileIndex.RelationFiledUnderEachNodeTile | src/main.rs:64-80 | every node of every way a member resolves to files the relation under that node's tile |
| TileIndex.NoSpillUpToZoom15 | src/main.rs:95-118 | up to zoom 15 a way is filed only under tiles of its own nodes |
| TileIndex.RelationNoSpillUpToZoom15 | src/main.rs:64-93 | up to zoom 15 a relation is filed only under tiles of nodes of its member ways |
| TileIndex.SpillAboveZoom15 | src/main.rs:106-113 | above zoom 15 a way is also filed under all eight tiles around each of its nodes' tiles |
| TileIndex.FiledIdsAreKnown | src/main.rs:64-118 | only ids of the state's relations and standalone ways are filed |
| Cache.TileCache.NewNoDefault | src/main.rs:205-276 | the cache starts empty; node positions are the projections of the dataset's nodes, the last node with an id deciding; the shared state is the one described for BuildState |
| Cache.TileCache.GetCache | src/main.rs:278-289 | the result is the index of the zoom; on a hit it is the stored index and nothing changes; on a miss exactly one index is built and stored under the zoom, other entries unchanged; the cache never shrinks |
| Cache.RepeatedLookupBuildsOnce | src/main.rs:278-289 | two lookups of one zoom return the same index and build at most once |
| Cache.ClosedDatasetIsPlaced | src/main.rs:74-99 | when every node a way refers to exists, every node the index builder looks up has a position |
| Render.GroupBy | src/main.rs:135-165 | each id of the bucket lands exactly once in the group of its precomputed category, as the looked-up entity; a category has a group iff some id has that category; every grouped entity is the entity of an id of that category |
| Render.GroupsAreTyped | src/main.rs:135-165 | a grouping with its ids recorded has a group for a category iff some id of the bucket has that category, holds every id's entity in its category's group, and holds nothing else |
| Render.TileGroups | src/main.rs:132-171 | when the tile has no bucket the groups are empty; otherwise they are the bucket's ids grouped by category |
| Render.FiledRelationResolves | src/main.rs:392-404 | a relation filed under a tile of an index built from a dataset has a member resolving to a way, so the first-way unwrap of extract_loops_to_render holds; with distinct relation ids, the relation looked up by its id has one |
| Render.BuiltIndexResolves | src/main.rs:138-159 | in an index built from a dataset's state every filed id has a category and an entity, so the lookups never fail |
| Render.RenderOrderListsEveryTypeOnce | src/main.rs:345-352 | the render order names each of the six categories exactly once |
| Render.DrawToMemory | src/main.rs:345-379 | the drawing calls are, category after category in render order, the category's ways and then its relations; a category without a group draws nothing |
| Render.RenderTileInner | src/main.rs:132-182 | the calls draw every way and relation filed under the tile, each with its own category, and nothing else, in render order with a category's ways before its relations |
| Render.ScheduleDrawsBucket | src/main.rs:132-182 | painting the category groups of a tile's bucket draws exactly the bucket's entities with their categories |
| Render.ScheduleDraws | src/main.rs:354-379 | every call of the category loop draws a member of its category's group |
| Render.ScheduleCovers | src/main.rs:354-379 | the category loop draws every member of the group of each category it names |
| Render.EachCategoryPaintedOnce | src/main.rs:354-379 | the calls of one category are exactly its ways, in group order, followed by its relations |
| Render.PaintingOrder | src/main.rs:345-379 | no call is followed by one of an earlier category in the order Forest, Park, WaterRiver, Water, Generic, Building, nor a relation by a way of the same category |

## Left out

- `convert_to_tile`, the Mercator formula with `tan` and `ln` on f64, is not modelled. It is the `Projection` parameter of `Cache.TileCache.NewNoDefault`.
- Floating-point rounding: pixel positions and their scaling are exact reals.
- TileMath.ConvertToIntTile: does not model the saturation of Rust's f64-to-i32 cast at the i32 bounds, nor NaN becoming 0. The model's tile numbers are unbounded integers.
- TileMath.DimensionInPixels: zoom above 23 is excluded by a precondition. From zoom 24 the u32 multiplication `TILE_SIZE * (1 << zoom)` overflows (`TileMath.Zoom24Overflows`); the shift itself overflows only from zoom 32.
- Rings.ExtractLoopsToRender: requires nodes on every resolved way, and the model does not show that its callers meet this. They do not in general: a relation filed under a tile through one member way may have another member way with an empty node list, and the code then panics at `way.nd.first().unwrap()` (src/utils.rs:102). The panic itself is not modelled.
- Rings.ExtractLoopsToRender: requires a resolvable member, which a relation drawn for a tile meets only when relation ids are distinct. With two relations of one id, the first with a member way that has nodes and the second with no members, the first files the id under a tile (src/main.rs:64-80), the lookup table keeps the second (src/main.rs:206-245), and drawing it panics at `ways.first().unwrap()` (src/utils.rs:118). The panic itself is not modelled.
- Cairo drawing is recorded only as the call sequence. This covers:
  - the surface and its PNG encoding;
  - `render_way`, `render_relation`, `set_context_for_type` and `end_context_for_*`;
  - the fill-versus-stroke choice and the grid border.
- `render_building_number` is not modelled. It uses polygon labelling from external crates on floats.
- The HTTP server, its `Mutex` around the cache, the PNG files cached on disk, and `main` are not modelled. They are I/O and concurrency. In particular, the single-build-per-zoom guarantee under concurrent requests is not modelled; only sequential calls of `get_cache` are.
- Loading the dataset (`load_binary_osm`) and the offline import, park-extraction and park-rendering tools are not modelled. They are file and XML I/O around the modelled filters.
- Logging (`debug!`, `info!`) is not modelled.
- Hash iteration order is not modelled. The choice of the next way, the seed of a new ring, and the order within a category group are arbitrary picks in the model.
