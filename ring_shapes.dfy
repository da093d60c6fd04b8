/** What the ring reconstructor does with two typical shapes of multipolygon
    relation: a polygon split into two ways that meet at both ends comes out
    as one closed ring, and two separate closed ways come out as two rings.
    The general contract of the reconstructor does not say that a ring is
    closed; these lemmas derive it for the two shapes from that contract
    alone. */
module RingShapes {
  import opened Seqs
  import opened OsmData
  import opened RingSpec
  import opened Rings

  // ---------------------------------------------------------------------
  // Counting the ways of a plan

  lemma {:induction false} FlattenFirst(plan: seq<seq<Piece>>)
    requires plan != []
    ensures Flatten(plan) == PieceIds(plan[0]) + Flatten(plan[1..])
  {
    var init := plan[..|plan| - 1];
    if init == [] {
      assert plan[1..] == [];
    } else {
      FlattenFirst(init);
      assert init[0] == plan[0];
      assert plan[1..] == init[1..] + [plan[|plan| - 1]];
      FlattenAppend(init[1..], plan[|plan| - 1]);
    }
  }

  /** A plan whose rings are all non-empty names at least as many ways as
      it has rings. */
  lemma {:induction false} FlattenAtLeastRings(plan: seq<seq<Piece>>)
    requires forall i :: 0 <= i < |plan| ==> |plan[i]| > 0
    ensures |Flatten(plan)| >= |plan|
  {
    if plan != [] {
      FlattenFirst(plan);
      FlattenAtLeastRings(plan[1..]);
    }
  }

  /** A sequence without repetition whose elements are exactly two
      different values has length two. */
  lemma DistinctPair(s: seq<nat>, a: nat, b: nat)
    requires a != b && Distinct(s)
    requires forall x :: x in s <==> x == a || x == b
    ensures |s| == 2
  {
    assert a in s && b in s;
    var i :| 0 <= i < |s| && s[i] == a;
    var j :| 0 <= j < |s| && s[j] == b;
    if 2 < |s| {
      PairIndex(s, a, b, i, j, 0);
      PairIndex(s, a, b, i, j, 1);
      PairIndex(s, a, b, i, j, 2);
    }
  }

  /** In such a sequence every place holds `a` or `b`. */
  lemma PairIndex(s: seq<nat>, a: nat, b: nat, i: nat, j: nat, k: nat)
    requires Distinct(s)
    requires forall x :: x in s <==> x == a || x == b
    requires i < |s| && j < |s| && k < |s| && s[i] == a && s[j] == b
    ensures k == i || k == j
  {
    assert s[k] in s;
  }

  /** The facts about a reconstruction of two ways that both shapes use:
      the plan names exactly two ways, the first ring starts with the first
      way, forwards, and the end of the first ring touches none of the ways
      of the rings after it. */
  ghost predicate TwoWayReconstruction(loops: seq<LoopWithType>, plan: seq<seq<Piece>>, w1: Way, w2: Way, t: WayTable)
  {
    && |loops| == |plan| > 0
    && (forall i :: 0 <= i < |plan| ==> |plan[i]| > 0)
    && ValidLoop(loops[0], plan[0], t)
    && (|plan| > 1 ==> ValidLoop(loops[1], plan[1], t))
    && (|plan| > 1 ==> NoneTouches(Last(loops[0].memeberLoop), Flatten(plan[1..]), t))
    && Distinct(Flatten(plan))
    && (forall id :: id in Flatten(plan) <==> id in WayIds([w1, w2]))
    && plan[0][0] == Piece(w1.id, false)
    && w1.id in t && t[w1.id] == w1 && w2.id in t && t[w2.id] == w2
    && w1.id != w2.id && |w1.nd| > 0 && |w2.nd| > 0
  }

  /** What the contract of the reconstructor gives for two ways. */
  lemma ReconstructionOfTwo(loops: seq<LoopWithType>, plan: seq<seq<Piece>>, w1: Way, w2: Way, t: WayTable)
    requires LoopsFollowPlan(loops, plan, t) && Greedy(loops, plan, {}, t)
    requires Distinct(Flatten(plan)) && (forall id :: id in Flatten(plan) <==> id in WayIds([w1, w2]))
    requires plan[0][0] == Piece(w1.id, false)
    requires w1.id in t && t[w1.id] == w1 && w2.id in t && t[w2.id] == w2
    requires w1.id != w2.id && |w1.nd| > 0 && |w2.nd| > 0
    ensures TwoWayReconstruction(loops, plan, w1, w2, t)
  {
    forall i | 0 <= i < |plan| ensures |plan[i]| > 0 {
      assert ValidLoop(loops[i], plan[i], t);
    }
    if |plan| > 1 {
      assert 0 < |loops| - 1;
    }
  }

  /** A plan of non-empty rings that names the ways `a` and `b`, each once,
      starting with `a`. */
  ghost predicate PlanOfTwo(plan: seq<seq<Piece>>, a: nat, b: nat)
  {
    && a != b && |plan| > 0
    && (forall i :: 0 <= i < |plan| ==> |plan[i]| > 0)
    && Distinct(Flatten(plan))
    && (forall id :: id in Flatten(plan) <==> id == a || id == b)
    && plan[0][0].wayId == a
  }

  lemma PlanOfTwoWays(loops: seq<LoopWithType>, plan: seq<seq<Piece>>, w1: Way, w2: Way, t: WayTable)
    requires TwoWayReconstruction(loops, plan, w1, w2, t)
    ensures PlanOfTwo(plan, w1.id, w2.id)
  {
    assert forall id :: id in WayIds([w1, w2]) <==> id == w1.id || id == w2.id;
  }

  /** Such a plan puts `b` either second in the first ring, or alone in a
      second and last ring. */
  lemma TwoWayShapes(plan: seq<seq<Piece>>, a: nat, b: nat)
    requires PlanOfTwo(plan, a, b)
    ensures || (|plan| == 1 && |plan[0]| == 2 && plan[0][1].wayId == b)
            || (|plan| == 2 && |plan[0]| == 1 && |plan[1]| == 1 && plan[1][0].wayId == b)
  {
    DistinctPair(Flatten(plan), a, b);
    if |plan[0]| == 1 {
      SecondRingAlone(plan, a, b);
    } else {
      FirstRingPair(plan, a, b);
    }
  }

  /** If the first ring holds one way, the other way is a second ring. */
  lemma SecondRingAlone(plan: seq<seq<Piece>>, a: nat, b: nat)
    requires PlanOfTwo(plan, a, b) && |Flatten(plan)| == 2 && |plan[0]| == 1
    ensures |plan| == 2 && |plan[1]| == 1 && plan[1][0].wayId == b
  {
    FlattenFirst(plan);
    var rest := plan[1..];
    var all := Flatten(plan);
    assert all == PieceIds(plan[0]) + Flatten(rest);
    assert all[0] == a;
    assert |Flatten(rest)| == 1;
    assert b in all && b != all[0];
    assert b in Flatten(rest);
    assert rest != [];
    FlattenFirst(rest);
    var second := PieceIds(rest[0]);
    assert |second| == |rest[0]| && |second| <= 1;
    assert Flatten(rest[1..]) == [];
    FlattenAtLeastRings(rest[1..]);
    assert rest[1..] == [];
    assert Flatten(rest) == second;
    assert second[0] == b;
  }

  /** If the first ring holds more than one way, it holds both, and is the
      only ring. */
  lemma FirstRingPair(plan: seq<seq<Piece>>, a: nat, b: nat)
    requires PlanOfTwo(plan, a, b) && |Flatten(plan)| == 2 && |plan[0]| != 1
    ensures |plan| == 1 && |plan[0]| == 2 && plan[0][1].wayId == b
  {
    FlattenFirst(plan);
    var rest := plan[1..];
    FlattenAtLeastRings(rest);
    var first := PieceIds(plan[0]);
    var all := Flatten(plan);
    assert all == first + Flatten(rest);
    assert all[0] == first[0] == a;
    assert |first| == |plan[0]| >= 2;
    assert all[1] == first[1];
    assert all[1] != all[0];
    assert all[1] in all;
  }

  /** The ring of a single way seeded forwards is that way's nodes. */
  lemma SingleWayRing(loop: LoopWithType, p: Piece, w: Way, t: WayTable)
    requires ValidLoop(loop, [p], t) && p.wayId == w.id && w.id in t && t[w.id] == w
    ensures loop.memeberLoop == w.nd
  {
    assert [p][..0] == [];
    assert Assemble([p], t) == Assemble([], t) + Block(p, t);
    assert !p.reversed;
  }

  /** When the first ring holds two pieces, the second way touches the end
      of the first. */
  lemma JoinedSecondWay(loops: seq<LoopWithType>, plan: seq<seq<Piece>>, w1: Way, w2: Way, t: WayTable)
    requires TwoWayReconstruction(loops, plan, w1, w2, t)
    ensures |plan[0]| >= 2 && plan[0][1].wayId == w2.id ==> IsEndpoint(w2, Last(w1.nd))
  {
    if |plan[0]| >= 2 && plan[0][1].wayId == w2.id {
      assert Junction(plan[0][0], plan[0][1], t);
    }
  }

  /** When the first ring holds the first way alone and a second ring
      follows, the second way does not touch the end of the first: it was
      still to be used when the first ring was closed. */
  lemma SeparateSecondWay(loops: seq<LoopWithType>, plan: seq<seq<Piece>>, w1: Way, w2: Way, t: WayTable)
    requires TwoWayReconstruction(loops, plan, w1, w2, t)
    ensures |plan| >= 2 && |plan[0]| == 1 && |plan[1]| > 0 && plan[1][0].wayId == w2.id ==>
              loops[0].memeberLoop == w1.nd && !IsEndpoint(w2, Last(w1.nd))
  {
    if |plan| >= 2 && |plan[0]| == 1 && |plan[1]| > 0 && plan[1][0].wayId == w2.id {
      SingleWayRing(loops[0], plan[0][0], w1, t);
      FlattenFirst(plan[1..]);
      assert Flatten(plan[1..])[0] == w2.id;
    }
  }

  /** A polygon split into two ways that meet at both ends (the second way
      running on from the first, in either direction) is reconstructed as
      one ring: the first way followed by the second, turned to continue it,
      and the ring is closed. */
  lemma SplitPolygonRing(loops: seq<LoopWithType>, plan: seq<seq<Piece>>, w1: Way, w2: Way, t: WayTable)
    requires TwoWayReconstruction(loops, plan, w1, w2, t)
    requires || (w2.nd[0] == Last(w1.nd) && Last(w2.nd) == w1.nd[0])
             || (Last(w2.nd) == Last(w1.nd) && w2.nd[0] == w1.nd[0])
    ensures |loops| == 1
    ensures loops[0].memeberLoop == w1.nd + w2.nd || loops[0].memeberLoop == w1.nd + Reverse(w2.nd)
    ensures loops[0].memeberLoop[0] == Last(loops[0].memeberLoop)
  {
    PlanOfTwoWays(loops, plan, w1, w2, t);
    TwoWayShapes(plan, w1.id, w2.id);
    SeparateSecondWay(loops, plan, w1, w2, t);
    if |plan| == 2 {
      assert false;
    }
    TwoPieceRing(loops[0], plan[0], w1, w2, t);
  }

  /** The ring of the first way followed by the second. */
  lemma TwoPieceRing(loop: LoopWithType, pieces: seq<Piece>, w1: Way, w2: Way, t: WayTable)
    requires ValidLoop(loop, pieces, t) && |pieces| == 2
    requires pieces[0].wayId == w1.id && pieces[1].wayId == w2.id
    requires w1.id in t && t[w1.id] == w1 && w2.id in t && t[w2.id] == w2
    requires || (w2.nd[0] == Last(w1.nd) && Last(w2.nd) == w1.nd[0])
             || (Last(w2.nd) == Last(w1.nd) && w2.nd[0] == w1.nd[0])
    ensures loop.memeberLoop == w1.nd + w2.nd || loop.memeberLoop == w1.nd + Reverse(w2.nd)
    ensures loop.memeberLoop[0] == Last(loop.memeberLoop)
  {
    var p := pieces[1];
    assert pieces == [pieces[0]] + [p];
    assert Junction(pieces[0], p, t);
    assert Block(pieces[0], t) == w1.nd;
    AssembleAppend([pieces[0]], p, t);
    assert Assemble([pieces[0]], t) == w1.nd by {
      assert [pieces[0]][..0] == [];
    }
  }

  /** Two closed ways that share no end node are reconstructed as two rings,
      each one of the ways and each closed. */
  lemma SeparateClosedRings(loops: seq<LoopWithType>, plan: seq<seq<Piece>>, w1: Way, w2: Way, t: WayTable)
    requires TwoWayReconstruction(loops, plan, w1, w2, t)
    requires w1.nd[0] == Last(w1.nd) && w2.nd[0] == Last(w2.nd) && w1.nd[0] != w2.nd[0]
    ensures |loops| == 2
    ensures loops[0].memeberLoop == w1.nd && loops[1].memeberLoop == w2.nd
    ensures forall i :: 0 <= i < |loops| ==> |loops[i].memeberLoop| > 0 && loops[i].memeberLoop[0] == Last(loops[i].memeberLoop)
  {
    SeparatePlan(loops, plan, w1, w2, t);
    SingleWayRing(loops[0], plan[0][0], w1, t);
    SingleWayRing(loops[1], plan[1][0], w2, t);
  }

  /** Two closed ways with different end nodes do not join: each is a ring
      of its own. */
  lemma SeparatePlan(loops: seq<LoopWithType>, plan: seq<seq<Piece>>, w1: Way, w2: Way, t: WayTable)
    requires TwoWayReconstruction(loops, plan, w1, w2, t)
    requires w1.nd[0] == Last(w1.nd) && w2.nd[0] == Last(w2.nd) && w1.nd[0] != w2.nd[0]
    ensures |plan| == 2 && plan[0] == [plan[0][0]] && plan[1] == [plan[1][0]] && plan[1][0].wayId == w2.id
  {
    PlanOfTwoWays(loops, plan, w1, w2, t);
    TwoWayShapes(plan, w1.id, w2.id);
    JoinedSecondWay(loops, plan, w1, w2, t);
  }

  // ---------------------------------------------------------------------
  // The two shapes, through extract_loops_to_render

  /** extract_loops_to_render on a relation whose members resolve to two
      halves of a polygon returns a single closed ring. */
  method SplitPolygonIsOneRing(relation: Relation, idToWays: WayTable, w1: Way, w2: Way) returns (loops: seq<LoopWithType>)
    requires WellKeyed(idToWays)
    requires ResolvedWays(relation.member, idToWays) == [w1, w2]
    requires w1.id != w2.id && |w1.nd| > 0 && |w2.nd| > 0
    requires || (w2.nd[0] == Last(w1.nd) && Last(w2.nd) == w1.nd[0])
             || (Last(w2.nd) == Last(w1.nd) && w2.nd[0] == w1.nd[0])
    ensures |loops| == 1
    ensures loops[0].memeberLoop == w1.nd + w2.nd || loops[0].memeberLoop == w1.nd + Reverse(w2.nd)
    ensures loops[0].memeberLoop[0] == Last(loops[0].memeberLoop)
  {
    ghost var plan;
    loops, plan := ExtractLoopsToRender(relation, idToWays);
    ResolvedWaysFromTable(relation.member, idToWays);
    assert w1 in [w1, w2] && w2 in [w1, w2];
    ReconstructionOfTwo(loops, plan, w1, w2, idToWays);
    SplitPolygonRing(loops, plan, w1, w2, idToWays);
  }

  /** extract_loops_to_render on a relation whose members resolve to two
      closed ways with different end nodes returns two closed rings. */
  method SeparateWaysAreTwoRings(relation: Relation, idToWays: WayTable, w1: Way, w2: Way) returns (loops: seq<LoopWithType>)
    requires WellKeyed(idToWays)
    requires ResolvedWays(relation.member, idToWays) == [w1, w2]
    requires w1.id != w2.id && |w1.nd| > 0 && |w2.nd| > 0
    requires w1.nd[0] == Last(w1.nd) && w2.nd[0] == Last(w2.nd) && w1.nd[0] != w2.nd[0]
    ensures |loops| == 2
    ensures loops[0].memeberLoop == w1.nd && loops[1].memeberLoop == w2.nd
    ensures forall i :: 0 <= i < |loops| ==> |loops[i].memeberLoop| > 0 && loops[i].memeberLoop[0] == Last(loops[i].memeberLoop)
  {
    ghost var plan;
    loops, plan := ExtractLoopsToRender(relation, idToWays);
    ResolvedWaysFromTable(relation.member, idToWays);
    assert w1 in [w1, w2] && w2 in [w1, w2];
    ReconstructionOfTwo(loops, plan, w1, w2, idToWays);
    SeparateClosedRings(loops, plan, w1, w2, idToWays);
  }
}
