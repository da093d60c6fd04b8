/** The ring reconstructor (extract_loops_to_render): stitches the ways of a
    relation into rings by repeatedly appending an unused way that has the
    current ring's last node as an endpoint, reversing it when it meets that
    node with its far end, and opening a new ring when no unused way fits. */
module Rings {
  import opened Seqs
  import opened OsmData
  import Classifier
  import opened RingSpec

  /** Node id -> ids of the ways starting or ending at that node. */
  type Segments = map<nat, set<nat>>

  /** The `entry(n).or_insert(empty).insert(id)` step. */
  function AddSegment(segments: Segments, n: nat, id: nat): (r: Segments)
    ensures r.Keys == segments.Keys + {n}
    ensures r[n] == (if n in segments then segments[n] else {}) + {id}
    ensures forall k :: k in segments && k != n ==> r[k] == segments[k]
  {
    if n in segments then segments[n := segments[n] + {id}] else segments[n := {id}]
  }

  /** `segments` indexes the endpoints of `ways`: a node is a key exactly
      when some way starts or ends there, and lists exactly the ways that do. */
  ghost predicate IndexesEndpoints(segments: Segments, ways: seq<Way>)
  {
    && (forall n :: n in segments <==> exists w :: w in ways && IsEndpoint(w, n))
    && (forall n, id :: n in segments && id in segments[n] <==>
                        exists w :: w in ways && w.id == id && IsEndpoint(w, n))
  }

  /** Both endpoints of `w` registered, first its first node, then its last. */
  function AddWay(segments: Segments, w: Way): Segments
    requires |w.nd| > 0
  {
    AddSegment(AddSegment(segments, w.nd[0], w.id), w.nd[|w.nd| - 1], w.id)
  }

  lemma AddWayKeys(segments: Segments, ways: seq<Way>, w: Way)
    requires IndexesEndpoints(segments, ways)
    requires |w.nd| > 0
    ensures forall n :: n in AddWay(segments, w) <==> exists v :: v in ways + [w] && IsEndpoint(v, n)
  {
    var s2 := AddWay(segments, w);
    forall n ensures n in s2 <==> exists v :: v in ways + [w] && IsEndpoint(v, n) {
      if n in segments {
        var v :| v in ways && IsEndpoint(v, n);
        assert v in ways + [w];
      }
      if n == w.nd[0] || n == w.nd[|w.nd| - 1] {
        assert w in ways + [w] && IsEndpoint(w, n);
      }
    }
  }

  lemma AddWayRegisters(segments: Segments, ways: seq<Way>, w: Way, n: nat, id: nat)
    requires IndexesEndpoints(segments, ways)
    requires |w.nd| > 0
    requires exists v :: v in ways + [w] && v.id == id && IsEndpoint(v, n)
    ensures n in AddWay(segments, w) && id in AddWay(segments, w)[n]
  {
    var v :| v in ways + [w] && v.id == id && IsEndpoint(v, n);
    var s1 := AddSegment(segments, w.nd[0], w.id);
    if v == w {
      assert n == w.nd[0] || n == w.nd[|w.nd| - 1];
    } else {
      assert v in ways;
      assert n in segments && id in segments[n];
      assert n in s1 && id in s1[n];
    }
  }

  lemma AddWayOnlyRegisters(segments: Segments, ways: seq<Way>, w: Way, n: nat, id: nat)
    requires IndexesEndpoints(segments, ways)
    requires |w.nd| > 0
    requires n in AddWay(segments, w) && id in AddWay(segments, w)[n]
    ensures exists v :: v in ways + [w] && v.id == id && IsEndpoint(v, n)
  {
    if id == w.id && (n == w.nd[0] || n == w.nd[|w.nd| - 1]) {
      assert w in ways + [w];
    } else {
      assert n in segments && id in segments[n];
      var v :| v in ways && v.id == id && IsEndpoint(v, n);
      assert v in ways + [w];
    }
  }

  /** Registering both endpoints of one more way keeps the index exact. */
  lemma AddWayKeepsIndex(segments: Segments, ways: seq<Way>, w: Way)
    requires IndexesEndpoints(segments, ways)
    requires |w.nd| > 0
    ensures IndexesEndpoints(AddWay(segments, w), ways + [w])
  {
    AddWayKeys(segments, ways, w);
    forall n, id ensures n in AddWay(segments, w) && id in AddWay(segments, w)[n] <==>
                         exists v :: v in ways + [w] && v.id == id && IsEndpoint(v, n)
    {
      if exists v :: v in ways + [w] && v.id == id && IsEndpoint(v, n) {
        AddWayRegisters(segments, ways, w, n, id);
      }
      if n in AddWay(segments, w) && id in AddWay(segments, w)[n] {
        AddWayOnlyRegisters(segments, ways, w, n, id);
      }
    }
  }

  /** The fold that builds the endpoint index. */
  method BuildSegments(ways: seq<Way>) returns (segments: Segments)
    requires forall w :: w in ways ==> |w.nd| > 0
    ensures IndexesEndpoints(segments, ways)
  {
    segments := map[];
    for i := 0 to |ways|
      invariant IndexesEndpoints(segments, ways[..i])
    {
      var w := ways[i];
      assert w in ways;
      ghost var done := ways[..i];
      assert ways[..i + 1] == done + [w];
      AddWayKeepsIndex(segments, done, w);
      segments := AddSegment(segments, w.nd[0], w.id);
      segments := AddSegment(segments, w.nd[|w.nd| - 1], w.id);
    }
    assert ways[..|ways|] == ways;
  }

  /** The current ring ends at an endpoint of a resolved way, so the
      endpoint index has an entry for its last node (the `get(..).unwrap()`
      never fails). */
  lemma LastNodeIndexed(loops: seq<LoopWithType>, plan: seq<seq<Piece>>, toVisit: set<nat>, ways: seq<Way>, t: WayTable, segments: Segments)
    requires Inv(loops, plan, toVisit, ways, t) && FromTable(ways, t)
    requires IndexesEndpoints(segments, ways)
    ensures |loops[|loops| - 1].memeberLoop| > 0
    ensures Last(loops[|loops| - 1].memeberLoop) in segments
  {
    var n := |loops|;
    var pieces := plan[n - 1];
    assert ValidLoop(loops[n - 1], pieces, t);
    AssembleEnd(pieces, t);
    PieceIdsInFlatten(plan, n - 1, |pieces| - 1);
    var w :| w in ways && w.id == pieces[|pieces| - 1].wayId;
    assert IsEndpoint(w, Last(loops[n - 1].memeberLoop));
  }

  /** An indexed way of node `last` is a resolved way with that endpoint. */
  lemma IndexedWayTouches(ways: seq<Way>, t: WayTable, segments: Segments, last: nat, id: nat)
    requires FromTable(ways, t) && IndexesEndpoints(segments, ways)
    requires last in segments && id in segments[last]
    ensures id in t && t[id] in ways && IsEndpoint(t[id], last)
  {
    var w :| w in ways && w.id == id && IsEndpoint(w, last);
  }

  /** When no indexed way of `last` is still to visit, no way still to visit
      touches `last`. */
  lemma NoCandidateMeansClosed(toVisit: set<nat>, ways: seq<Way>, t: WayTable, segments: Segments, last: nat)
    requires FromTable(ways, t) && IndexesEndpoints(segments, ways)
    requires toVisit <= WayIds(ways)
    requires last in segments
    requires forall id :: id in segments[last] ==> id !in toVisit
    ensures ClosedAgainst(last, toVisit, t)
  {
    forall id | id in toVisit && id in t ensures !IsEndpoint(t[id], last) {
      var w :| w in ways && w.id == id;
    }
  }

  /** What the invariant gives once every way is used. */
  lemma FinalFacts(loops: seq<LoopWithType>, plan: seq<seq<Piece>>, ways: seq<Way>, t: WayTable)
    requires Inv(loops, plan, {}, ways, t)
    requires FromTable(ways, t)
    requires |ways| > 0 && plan[0][0] == Piece(ways[0].id, false)
    ensures LoopsFollowPlan(loops, plan, t)
    ensures Distinct(Flatten(plan)) && (forall id :: id in Flatten(plan) <==> id in WayIds(ways))
    ensures Greedy(loops, plan, {}, t)
    ensures RingsCover(loops, ways, t)
  {
    var pieces := plan[0];
    assert ValidLoop(loops[0], pieces, t);
    AssembleStart(pieces, t);
    assert ways[0] in ways;
    assert Block(pieces[0], t) == ways[0].nd;
    forall i | 0 <= i < |loops|
      ensures loops[i].wayId.Some? && loops[i].wayId.value in WayIds(ways)
    {
      assert ValidLoop(loops[i], plan[i], t);
      PieceIdsInFlatten(plan, i, 0);
    }
    FinalCount(loops, plan, ways, t);
  }

  /** Once every way is used, the rings hold every resolved way's nodes once. */
  lemma FinalCount(loops: seq<LoopWithType>, plan: seq<seq<Piece>>, ways: seq<Way>, t: WayTable)
    requires Inv(loops, plan, {}, ways, t)
    ensures TotalLength(loops) == NodeCount(Dedup(IdSeq(ways)), t)
  {
    TotalLengthIsNodeCount(loops, plan, t);
    var ids := IdSeq(ways);
    forall x ensures x in Dedup(ids) <==> x in Flatten(plan) {
      if x in ids {
        var i :| 0 <= i < |ids| && ids[i] == x;
        assert ways[i] in ways;
      }
      if x in WayIds(ways) {
        var w :| w in ways && w.id == x;
        var i :| 0 <= i < |ways| && ways[i] == w;
        assert ids[i] == x;
      }
    }
    SameDistinctIdsSameCount(Flatten(plan), Dedup(ids), t);
  }

  /** One step that appends an indexed way still to visit to the current ring. */
  lemma ExtendStep(loops: seq<LoopWithType>, plan: seq<seq<Piece>>, toVisit: set<nat>, ways: seq<Way>, t: WayTable,
                   segments: Segments, next: nat)
    requires Inv(loops, plan, toVisit, ways, t) && FromTable(ways, t) && forall w :: w in ways ==> |w.nd| > 0
    requires IndexesEndpoints(segments, ways)
    requires |loops[|loops| - 1].memeberLoop| > 0
    requires var last := Last(loops[|loops| - 1].memeberLoop);
             last in segments && next in segments[last] && next in toVisit
    ensures next in t && |t[next].nd| > 0
    ensures var cur := loops[|loops| - 1];
            var last := Last(cur.memeberLoop);
            var nd := t[next].nd;
            var p := Piece(next, nd[0] != last);
            && Inv(loops[..|loops| - 1] + [cur.(memeberLoop := cur.memeberLoop + (if last == nd[0] then nd else Reverse(nd)))],
                   ExtendLast(plan, p), toVisit - {next}, ways, t)
            && ExtendLast(plan, p)[0][0] == plan[0][0]
    ensures |toVisit - {next}| < |toVisit|
  {
    var cur := loops[|loops| - 1];
    var last := Last(cur.memeberLoop);
    IndexedWayTouches(ways, t, segments, last, next);
    var nd := t[next].nd;
    var p := Piece(next, nd[0] != last);
    ExtendKeepsInv(loops, plan, toVisit, ways, t, next);
    assert (if last == nd[0] then nd else Reverse(nd)) == Block(p, t);
    RemoveShrinks(toVisit, next);
  }

  /** One step that opens a new ring when no indexed way of the current
      ring's last node is still to visit. */
  lemma NewLoopStep(loops: seq<LoopWithType>, plan: seq<seq<Piece>>, toVisit: set<nat>, ways: seq<Way>, t: WayTable,
                    segments: Segments, next: nat)
    requires Inv(loops, plan, toVisit, ways, t) && FromTable(ways, t) && forall w :: w in ways ==> |w.nd| > 0
    requires IndexesEndpoints(segments, ways)
    requires |loops[|loops| - 1].memeberLoop| > 0
    requires var last := Last(loops[|loops| - 1].memeberLoop);
             last in segments && (forall id :: id in segments[last] ==> id !in toVisit)
    requires next in toVisit
    ensures next in t
    ensures var a := t[next];
            && Inv(loops + [LoopWithType(Some(a.id), Classifier.CheckWayType(a), a.nd)], plan + [[Piece(next, false)]],
                   toVisit - {next}, ways, t)
            && (plan + [[Piece(next, false)]])[0][0] == plan[0][0]
    ensures |toVisit - {next}| < |toVisit|
  {
    NoCandidateMeansClosed(toVisit, ways, t, segments, Last(loops[|loops| - 1].memeberLoop));
    NewLoopKeepsInv(loops, plan, toVisit, ways, t, next);
    RemoveShrinks(toVisit, next);
  }

  lemma RemoveShrinks(s: set<nat>, x: nat)
    requires x in s
    ensures |s - {x}| < |s|
  {
    assert s == (s - {x}) + {x};
  }

  /** The stitching part of extract_loops_to_render: from the resolved ways
      (at least one, each with nodes, each the table's entry for its id),
      build the endpoint index and the rings. */
  method StitchRings(ways: seq<Way>, idToWays: WayTable) returns (loops: seq<LoopWithType>, ghost plan: seq<seq<Piece>>)
    requires |ways| > 0 && FromTable(ways, idToWays)
    requires forall w :: w in ways ==> |w.nd| > 0
    ensures LoopsFollowPlan(loops, plan, idToWays)
    ensures && Distinct(Flatten(plan))
            && (forall id :: id in Flatten(plan) <==> id in WayIds(ways))
            && plan[0][0] == Piece(ways[0].id, false)
    ensures Greedy(loops, plan, {}, idToWays)
    ensures RingsCover(loops, ways, idToWays)
  {
    var waysToVisit := WayIds(ways);
    var segments := BuildSegments(ways);

    var a := ways[0];
    loops := [LoopWithType(Some(a.id), Classifier.CheckWayType(a), a.nd)];
    plan := [[Piece(a.id, false)]];
    waysToVisit := waysToVisit - {a.id};
    InitInv(ways, idToWays);

    while waysToVisit != {}
      invariant Inv(loops, plan, waysToVisit, ways, idToWays)
      invariant plan[0][0] == Piece(a.id, false)
      decreases |waysToVisit|
    {
      var n := |loops|;
      var cur := loops[n - 1];
      LastNodeIndexed(loops, plan, waysToVisit, ways, idToWays, segments);
      var last := Last(cur.memeberLoop);
      var candidates := set id | id in segments[last] && id in waysToVisit;
      if candidates != {} {
        var next :| next in candidates;
        ExtendStep(loops, plan, waysToVisit, ways, idToWays, segments, next);
        var b := idToWays[next];
        ghost var p := Piece(next, b.nd[0] != last);
        var stretch;
        if last == b.nd[0] {
          stretch := b.nd;
        } else {
          stretch := Reverse(b.nd);
        }
        loops := loops[..n - 1] + [cur.(memeberLoop := cur.memeberLoop + stretch)];
        plan := ExtendLast(plan, p);
        waysToVisit := waysToVisit - {next};
      } else {
        var next :| next in waysToVisit;
        NewLoopStep(loops, plan, waysToVisit, ways, idToWays, segments, next);
        var b := idToWays[next];
        loops := loops + [LoopWithType(Some(b.id), Classifier.CheckWayType(b), b.nd)];
        plan := plan + [[Piece(next, false)]];
        waysToVisit := waysToVisit - {next};
      }
    }
    FinalFacts(loops, plan, ways, idToWays);
  }

  /** extract_loops_to_render. The caller's table maps every way id to its
      way; the relation must resolve at least one way (the first-way unwrap)
      and every resolved way must have nodes (the first/last-node unwraps).

      `plan` records, for each ring, the ways it was stitched from. The result
      uses every resolved way exactly once, each ring is a chain of them
      joined at shared end nodes, the first ring is seeded by the first
      resolved way, each ring was closed only when no unused way touched its
      last node, and no node id is lost or duplicated. */
  method ExtractLoopsToRender(relation: Relation, idToWays: WayTable) returns (loops: seq<LoopWithType>, ghost plan: seq<seq<Piece>>)
    requires WellKeyed(idToWays)
    requires ResolvedWays(relation.member, idToWays) != []
    requires forall w :: w in ResolvedWays(relation.member, idToWays) ==> |w.nd| > 0
    ensures LoopsFollowPlan(loops, plan, idToWays)
    ensures var ways := ResolvedWays(relation.member, idToWays);
            && Distinct(Flatten(plan))
            && (forall id :: id in Flatten(plan) <==> id in WayIds(ways))
            && plan[0][0] == Piece(ways[0].id, false)
    ensures Greedy(loops, plan, {}, idToWays)
    ensures RingsCover(loops, ResolvedWays(relation.member, idToWays), idToWays)
  {
    var ways := ResolvedWays(relation.member, idToWays);
    ResolvedWaysFromTable(relation.member, idToWays);
    loops, plan := StitchRings(ways, idToWays);
  }
}
