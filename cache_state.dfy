/** The shared state the tile cache is built on (TileCacheState and the
    map-building part of TileCache::new_no_default): lookup tables by id, the
    category of every way and relation, and the list of standalone ways,
    i.e. the ways no relation refers to. */
module CacheState {
  import opened Seqs
  import opened OsmData
  import Classifier

  datatype TileCacheState = TileCacheState(
    relationToType: map<nat, Type>,
    wayToType: map<nat, Type>,
    idToRelations: map<nat, Relation>,
    idToWays: map<nat, Way>,
    ways: seq<Way>,
    relations: seq<Relation>)

  /** Item `i` is the last one with its key. */
  ghost predicate LastWithKey<T>(items: seq<T>, key: T -> nat, i: int)
  {
    0 <= i < |items| && forall k :: i < k < |items| ==> key(items[k]) != key(items[i])
  }

  /** The keys of the items. */
  ghost function KeysOf<T>(items: seq<T>, key: T -> nat): set<nat>
  {
    set i | 0 <= i < |items| :: key(items[i])
  }

  /** A fold that inserts `key(item) -> val(item)` for each item in turn into
      an empty hash map: every key of an item is present and maps to the
      value of the last item with that key. */
  method IndexBy<T, V>(items: seq<T>, key: T -> nat, val: T -> V) returns (m: map<nat, V>)
    ensures m.Keys == KeysOf(items, key)
    ensures forall i :: LastWithKey(items, key, i) ==> m[key(items[i])] == val(items[i])
  {
    m := map[];
    for n := 0 to |items|
      invariant m.Keys == KeysOf(items[..n], key)
      invariant forall i :: LastWithKey(items[..n], key, i) ==> m[key(items[i])] == val(items[i])
    {
      var prefix := items[..n + 1];
      assert forall i :: 0 <= i < n + 1 ==> prefix[i] == items[i];
      forall i | LastWithKey(prefix, key, i) ensures i < n ==> LastWithKey(items[..n], key, i) {
      }
      assert KeysOf(prefix, key) == KeysOf(items[..n], key) + {key(items[n])} by {
        assert forall i :: 0 <= i < n ==> items[..n][i] == items[i];
      }
      m := m[key(items[n]) := val(items[n])];
    }
    assert items[..|items|] == items;
  }

  /** Every key has a last item carrying it. */
  lemma LastItemExists<T>(items: seq<T>, key: T -> nat, k: nat)
    requires k in KeysOf(items, key)
    ensures exists i :: LastWithKey(items, key, i) && key(items[i]) == k
  {
    var i :| 0 <= i < |items| && key(items[i]) == k;
    LastFrom(items, key, i);
  }

  lemma {:induction false} LastFrom<T>(items: seq<T>, key: T -> nat, i: nat)
    requires i < |items|
    ensures exists j :: LastWithKey(items, key, j) && key(items[j]) == key(items[i])
    decreases |items| - i
  {
    if !LastWithKey(items, key, i) {
      var k :| i < k < |items| && key(items[k]) == key(items[i]);
      LastFrom(items, key, k);
    }
  }

  /** Every id a relation member refers to, whatever the member's kind. */
  ghost predicate IsMemberRef(relations: seq<Relation>, id: nat)
  {
    exists i, j :: 0 <= i < |relations| && 0 <= j < |relations[i].member| && relations[i].member[j].memberRef == id
  }

  /** The `ways_from_relations` fold: the set of member references of all
      relations. */
  method WaysFromRelations(relations: seq<Relation>) returns (refs: set<nat>)
    ensures forall id :: id in refs <==> IsMemberRef(relations, id)
  {
    refs := {};
    for i := 0 to |relations|
      invariant forall id :: id in refs <==>
                  exists i', j :: 0 <= i' < i && 0 <= j < |relations[i'].member| && relations[i'].member[j].memberRef == id
    {
      var members := relations[i].member;
      for j := 0 to |members|
        invariant forall id :: id in refs <==>
                    (exists i', j' :: 0 <= i' < i && 0 <= j' < |relations[i'].member| && relations[i'].member[j'].memberRef == id) ||
                    (exists j' :: 0 <= j' < j && members[j'].memberRef == id)
      {
        refs := refs + {members[j].memberRef};
      }
    }
  }

  /** The state built from a map dataset: */
  ghost predicate StateOf(state: TileCacheState, osm: Osm)
  {
    // every relation is kept, in order
    && state.relations == osm.relation
    // the standalone ways: the ways, in order, whose id no member refers to
    && IsSubsequence(state.ways, osm.way)
    && (forall w :: multiset(state.ways)[w] == if IsMemberRef(osm.relation, w.id) then 0 else multiset(osm.way)[w])
    // the lookup tables hold every way and relation under its own id
    // (the last way or relation with an id is the one kept)
    && state.idToWays.Keys == KeysOf(osm.way, (w: Way) => w.id)
    && (forall id :: id in state.idToWays ==> state.idToWays[id] in osm.way && state.idToWays[id].id == id)
    && (forall i :: LastWithKey(osm.way, (w: Way) => w.id, i) ==> state.idToWays[osm.way[i].id] == osm.way[i])
    && state.idToRelations.Keys == KeysOf(osm.relation, (r: Relation) => r.id)
    && (forall id :: id in state.idToRelations ==> state.idToRelations[id] in osm.relation && state.idToRelations[id].id == id)
    && (forall i :: LastWithKey(osm.relation, (r: Relation) => r.id, i) ==> state.idToRelations[osm.relation[i].id] == osm.relation[i])
    // and the category of exactly those, as the classifier decides it
    && state.wayToType.Keys == state.idToWays.Keys
    && (forall id :: id in state.wayToType ==> state.wayToType[id] == Classifier.CheckWayType(state.idToWays[id]))
    && state.relationToType.Keys == state.idToRelations.Keys
    && (forall id :: id in state.relationToType ==> state.relationToType[id] == Classifier.CheckRelationType(state.idToRelations[id]))
  }

  /** The maps and lists of TileCache::new_no_default. */
  method BuildState(osm: Osm) returns (state: TileCacheState)
    ensures StateOf(state, osm)
  {
    var wayId := (w: Way) => w.id;
    var relationId := (r: Relation) => r.id;
    var relationToType := IndexBy(osm.relation, relationId, Classifier.CheckRelationType);
    var wayToType := IndexBy(osm.way, wayId, Classifier.CheckWayType);
    var idToWays := IndexBy(osm.way, wayId, (w: Way) => w);
    var idToRelations := IndexBy(osm.relation, relationId, (r: Relation) => r);
    var waysFromRelations := WaysFromRelations(osm.relation);
    var ways := Filter(osm.way, (w: Way) => w.id !in waysFromRelations);
    state := TileCacheState(relationToType, wayToType, idToRelations, idToWays, ways, osm.relation);
    forall id | id in idToWays
      ensures idToWays[id] in osm.way && idToWays[id].id == id
      ensures wayToType[id] == Classifier.CheckWayType(idToWays[id])
    {
      LastItemExists(osm.way, wayId, id);
    }
    forall id | id in idToRelations
      ensures idToRelations[id] in osm.relation && idToRelations[id].id == id
      ensures relationToType[id] == Classifier.CheckRelationType(idToRelations[id])
    {
      LastItemExists(osm.relation, relationId, id);
    }
  }
}
