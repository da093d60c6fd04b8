/** The tag filters used by the offline extraction tool: select relations by a
    key -> accepted-values map, and select the ways those relations reference
    as "way" members. */
module Filters {
  import opened Seqs
  import opened OsmData
  import Classifier

  type TagFilter = map<string, set<string>>

  /** The tag's key is in the filter and its value is accepted for that key. */
  predicate Accepted(t: Tag, filter: TagFilter)
  {
    t.k in filter && t.v in filter[t.k]
  }

  /** How many tags of the list the filter accepts (the `filter(..).count()`). */
  function MatchCount(tags: seq<Tag>, filter: TagFilter): (n: nat)
    ensures n <= |tags|
  {
    if tags == [] then 0
    else (if Accepted(tags[0], filter) then 1 else 0) + MatchCount(tags[1..], filter)
  }

  /** The selection test applied to one relation. */
  predicate Selected(relation: Relation, filter: TagFilter)
  {
    relation.tag.Some? && MatchCount(relation.tag.value, filter) == |filter|
  }

  /** filter_relations: the relations, in order, whose tags are present and
      whose number of accepted tags equals the number of filter keys. */
  function FilterRelations(osm: Osm, filter: TagFilter): (r: seq<Relation>)
    ensures forall i :: 0 <= i < |r| ==> r[i].tag.Some? && MatchCount(r[i].tag.value, filter) == |filter|
    ensures forall rel ::
              multiset(r)[rel] ==
              if rel.tag.Some? && MatchCount(rel.tag.value, filter) == |filter|
              then multiset(osm.relation)[rel] else 0
    ensures IsSubsequence(r, osm.relation)
  {
    var r := Filter(osm.relation, (rel: Relation) => Selected(rel, filter));
    assert forall i :: 0 <= i < |r| ==> multiset(r)[r[i]] > 0;
    r
  }

  /** The ids referenced by "way" members of the given relations: the fold
      over the relations, each adding the refs of its "way" members. */
  function WayMemberRefs(relations: seq<Relation>): (refs: set<nat>)
    ensures forall id :: id in refs <==>
                         exists rel, m :: rel in relations && m in rel.member && m.memberType == "way" && m.memberRef == id
  {
    if relations == [] then {}
    else
      var init, last := relations[..|relations| - 1], relations[|relations| - 1];
      assert relations == init + [last];
      WayMemberRefs(init) + WayRefsOf(last.member)
  }

  /** The refs of the "way" members of one relation (the inner `for_each`). */
  function WayRefsOf(members: seq<Member>): (refs: set<nat>)
    ensures forall id :: id in refs <==> exists m :: m in members && m.memberType == "way" && m.memberRef == id
  {
    if members == [] then {}
    else
      var rest := WayRefsOf(members[1..]);
      assert forall m :: m in members <==> m == members[0] || m in members[1..];
      if members[0].memberType == "way" then {members[0].memberRef} + rest else rest
  }

  /** filter_ways_from_relations: the ways, in order, whose id is referenced
      by a "way" member of one of the relations. */
  function FilterWaysFromRelations(osm: Osm, relations: seq<Relation>): (r: seq<Way>)
    ensures forall w ::
              multiset(r)[w] ==
              if exists rel, m :: rel in relations && m in rel.member && m.memberType == "way" && m.memberRef == w.id
              then multiset(osm.way)[w] else 0
    ensures IsSubsequence(r, osm.way)
  {
    var waysToFilter := WayMemberRefs(relations);
    Filter(osm.way, (w: Way) => w.id in waysToFilter)
  }

  /** create_filter_expression: the park filter. It has one key, and it
      accepts exactly the tag leisure=park. */
  function CreateFilterExpression(): (filter: TagFilter)
    ensures |filter| == 1
    ensures forall t: Tag :: Accepted(t, filter) <==> t.k == "leisure" && t.v == "park"
  {
    map["leisure" := {"park"}]
  }

  /** No two tags share a key (what the map data format intends). */
  ghost predicate UniqueKeys(tags: seq<Tag>)
  {
    forall i, j :: 0 <= i < j < |tags| ==> tags[i].k != tags[j].k
  }

  /** Every filter key is carried by some tag with an accepted value. */
  ghost predicate AllKeysMatched(tags: seq<Tag>, filter: TagFilter)
  {
    forall k :: k in filter ==> exists i :: 0 <= i < |tags| && tags[i].k == k && tags[i].v in filter[k]
  }

  /** The keys of the accepted tags. */
  ghost function MatchedKeys(tags: seq<Tag>, filter: TagFilter): set<string>
  {
    set i | 0 <= i < |tags| && Accepted(tags[i], filter) :: tags[i].k
  }

  lemma {:induction false} MatchCountCountsKeys(tags: seq<Tag>, filter: TagFilter)
    requires UniqueKeys(tags)
    ensures MatchCount(tags, filter) == |MatchedKeys(tags, filter)|
    ensures MatchedKeys(tags, filter) <= filter.Keys
  {
    if tags != [] {
      var rest := tags[1..];
      assert UniqueKeys(rest) by {
        forall i, j | 0 <= i < j < |rest| ensures rest[i].k != rest[j].k {
          assert rest[i] == tags[i + 1] && rest[j] == tags[j + 1];
        }
      }
      MatchCountCountsKeys(rest, filter);
      var mk, mr := MatchedKeys(tags, filter), MatchedKeys(rest, filter);
      assert tags[0].k !in mr;
      forall x | x in mk ensures x in mr || (Accepted(tags[0], filter) && x == tags[0].k) {
        var i :| 0 <= i < |tags| && Accepted(tags[i], filter) && tags[i].k == x;
        if i > 0 {
          assert rest[i - 1] == tags[i];
        }
      }
      forall x | x in mr ensures x in mk {
        var i :| 0 <= i < |rest| && Accepted(rest[i], filter) && rest[i].k == x;
        assert tags[i + 1] == rest[i];
      }
      if Accepted(tags[0], filter) {
        assert mk == mr + {tags[0].k};
      } else {
        assert mk == mr;
      }
    }
  }

  /** Counting matches is the same as requiring every key when no key repeats:
      the filter then means "carries every key with an accepted value". */
  lemma CountMeansEveryKey(tags: seq<Tag>, filter: TagFilter)
    requires UniqueKeys(tags)
    ensures MatchCount(tags, filter) == |filter| <==> AllKeysMatched(tags, filter)
  {
    MatchCountCountsKeys(tags, filter);
    EveryKeyMeansAllMatched(tags, filter);
    var mk := MatchedKeys(tags, filter);
    if MatchCount(tags, filter) == |filter| {
      assert |mk| == |filter.Keys|;
      SubsetOfSameSize(mk, filter.Keys);
    }
  }

  /** Every key is matched exactly when the matched keys are all the keys. */
  lemma EveryKeyMeansAllMatched(tags: seq<Tag>, filter: TagFilter)
    ensures AllKeysMatched(tags, filter) <==> MatchedKeys(tags, filter) == filter.Keys
  {
    var mk := MatchedKeys(tags, filter);
    if AllKeysMatched(tags, filter) {
      forall k | k in filter.Keys ensures k in mk {
        var i :| 0 <= i < |tags| && tags[i].k == k && tags[i].v in filter[k];
        assert Accepted(tags[i], filter);
      }
    }
    if mk == filter.Keys {
      forall k | k in filter ensures exists i :: 0 <= i < |tags| && tags[i].k == k && tags[i].v in filter[k] {
        assert k in mk;
        var i :| 0 <= i < |tags| && Accepted(tags[i], filter) && tags[i].k == k;
      }
    }
  }

  lemma SubsetOfSameSize<T>(a: set<T>, b: set<T>)
    requires a <= b && |a| == |b|
    ensures a == b
  {
    var missing := b - a;
    assert b == a + missing && a !! missing;
    assert |missing| == 0;
  }

  /** With repeated keys the count can be met without every key: two
      `leisure=park` tags satisfy a two-key filter that also asks for
      `landuse=forest`. */
  lemma RepeatedKeyStandsInForMissingKey()
    ensures var filter := map["leisure" := {"park"}, "landuse" := {"forest"}];
            var tags := [Tag("leisure", "park"), Tag("leisure", "park")];
            MatchCount(tags, filter) == |filter| && !AllKeysMatched(tags, filter)
  {
    var filter := map["leisure" := {"park"}, "landuse" := {"forest"}];
    var tags := [Tag("leisure", "park"), Tag("leisure", "park")];
    assert "leisure" != "landuse" by { assert "leisure"[1] != "landuse"[1]; }
    assert filter.Keys == {"leisure", "landuse"};
    assert |filter| == 2;
    assert tags[1..] == [Tag("leisure", "park")];
    assert MatchCount(tags, filter) == 2;
    assert "landuse" in filter;
    assert forall i :: 0 <= i < |tags| ==> tags[i].k == "leisure";
  }

  /** The park filter selects a relation only if the relation is classified
      as a park. */
  lemma ParkFilterSelectsParks(relation: Relation)
    requires Selected(relation, CreateFilterExpression())
    ensures Classifier.CheckRelationType(relation) == Park
  {
    var tags := relation.tag.value;
    var filter := CreateFilterExpression();
    assert |filter| == 1;
    ParkFilterCountsParkTags(tags);
    assert Classifier.HasTag(tags, "leisure", "park");
  }

  /** Under the park filter a tag is accepted exactly when it is leisure=park,
      and a list with an accepted tag carries leisure=park. */
  lemma {:induction false} ParkFilterCountsParkTags(tags: seq<Tag>)
    ensures MatchCount(tags, CreateFilterExpression()) > 0 <==> Classifier.HasTag(tags, "leisure", "park")
  {
    if tags != [] {
      ParkFilterCountsParkTags(tags[1..]);
      var rest := tags[1..];
      if Classifier.HasTag(rest, "leisure", "park") {
        var i :| 0 <= i < |rest| && rest[i].k == "leisure" && rest[i].v == "park";
        assert tags[i + 1] == rest[i];
      }
      if Classifier.HasTag(tags, "leisure", "park") {
        var i :| 0 <= i < |tags| && tags[i].k == "leisure" && tags[i].v == "park";
        if i > 0 {
          assert rest[i - 1] == tags[i];
        }
      }
    }
  }

  /** Conversely, a park relation whose keys do not repeat passes the park
      filter. */
  lemma ParksPassParkFilter(relation: Relation)
    requires relation.tag.Some? && UniqueKeys(relation.tag.value)
    requires Classifier.CheckRelationType(relation) == Park
    ensures Selected(relation, CreateFilterExpression())
  {
    var tags := relation.tag.value;
    var filter := CreateFilterExpression();
    var i :| 0 <= i < |tags| && tags[i].k == "leisure" && tags[i].v == "park";
    assert Accepted(tags[i], filter);
    CountMeansEveryKey(tags, filter);
  }
}
