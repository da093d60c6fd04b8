/** The feature classifier: the category of a tag list, decided by the first
    rule that matches in a fixed priority order (park, forest, building,
    water, waterway, otherwise generic). */
module Classifier {
  import opened Seqs
  import opened OsmData

  /** Some tag has key `k` and value `v`. */
  predicate HasTag(tags: seq<Tag>, k: string, v: string)
  {
    exists i :: 0 <= i < |tags| && tags[i].k == k && tags[i].v == v
  }

  /** Some tag has key `k`, whatever its value. */
  predicate HasKey(tags: seq<Tag>, k: string)
  {
    exists i :: 0 <= i < |tags| && tags[i].k == k
  }

  /** The rule a tag list must meet to be of category `t`. */
  ghost predicate Matches(tags: seq<Tag>, t: Type)
  {
    match t
    case Park => HasTag(tags, "leisure", "park")
    case Forest => HasTag(tags, "landuse", "forest")
    case Building => HasKey(tags, "building")
    case Water => HasTag(tags, "natural", "water")
    case WaterRiver => HasKey(tags, "waterway")
    case Generic => true
  }

  /** Position of each category in the priority order; lower wins. */
  function Rank(t: Type): nat
  {
    match t
    case Park => 0
    case Forest => 1
    case Building => 2
    case Water => 3
    case WaterRiver => 4
    case Generic => 5
  }

  /** `t` is the highest-priority category whose rule `tags` meets. */
  ghost predicate IsFirstMatch(tags: seq<Tag>, t: Type)
  {
    Matches(tags, t) && forall u: Type :: Rank(u) < Rank(t) ==> !Matches(tags, u)
  }

  /** check_tag_type. */
  function CheckTagType(tags: seq<Tag>): (t: Type)
    ensures IsFirstMatch(tags, t)
  {
    if HasTag(tags, "leisure", "park") then Park
    else if HasTag(tags, "landuse", "forest") then Forest
    else if HasKey(tags, "building") then Building
    else if HasTag(tags, "natural", "water") then Water
    else if HasKey(tags, "waterway") then WaterRiver
    else Generic
  }

  /** The tag list of an entity, an absent one read as empty. */
  function TagsOf(tag: Option<seq<Tag>>): seq<Tag>
  {
    if tag.Some? then tag.value else []
  }

  /** check_way_type: a way without tags is Generic, otherwise its tags decide. */
  function CheckWayType(way: Way): (t: Type)
    ensures way.tag.None? ==> t == Generic
    ensures IsFirstMatch(TagsOf(way.tag), t)
  {
    if way.tag.Some? then CheckTagType(way.tag.value) else Generic
  }

  /** check_relation_type: a relation without tags is Generic, otherwise its
      tags decide. */
  function CheckRelationType(relation: Relation): (t: Type)
    ensures relation.tag.None? ==> t == Generic
    ensures IsFirstMatch(TagsOf(relation.tag), t)
  {
    if relation.tag.Some? then CheckTagType(relation.tag.value) else Generic
  }

  /** The priority rule leaves no choice: at most one category is the first
      match, so the contract of CheckTagType determines its result. */
  lemma FirstMatchIsUnique(tags: seq<Tag>, t: Type, u: Type)
    requires IsFirstMatch(tags, t) && IsFirstMatch(tags, u)
    ensures t == u
  {
  }

  /** A park that is also tagged as a building is drawn as a park. */
  lemma ParkOutranksBuilding(tags: seq<Tag>)
    requires Tag("leisure", "park") in tags && exists t :: t in tags && t.k == "building"
    ensures CheckTagType(tags) == Park
  {
    var i :| 0 <= i < |tags| && tags[i] == Tag("leisure", "park");
    assert tags[i].k == "leisure" && tags[i].v == "park";
  }

  /** The category depends only on which tags are present, not on their order
      or repetition. */
  lemma {:induction false} CategoryIgnoresTagOrder(a: seq<Tag>, b: seq<Tag>)
    requires forall t :: t in a <==> t in b
    ensures CheckTagType(a) == CheckTagType(b)
  {
    forall k, v | HasTag(a, k, v) ensures HasTag(b, k, v) {
      var i :| 0 <= i < |a| && a[i].k == k && a[i].v == v;
      assert a[i] in b;
    }
    forall k, v | HasTag(b, k, v) ensures HasTag(a, k, v) {
      var i :| 0 <= i < |b| && b[i].k == k && b[i].v == v;
      assert b[i] in a;
    }
    forall k | HasKey(a, k) ensures HasKey(b, k) {
      var i :| 0 <= i < |a| && a[i].k == k;
      assert a[i] in b;
    }
    forall k | HasKey(b, k) ensures HasKey(a, k) {
      var i :| 0 <= i < |b| && b[i].k == k;
      assert b[i] in a;
    }
  }
}
