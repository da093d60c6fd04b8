/** What the ring reconstructor computes, stated over a "plan": for each ring,
    the ways it was stitched from, in order, each marked as used forwards or
    reversed. The reconstructor's loop keeps the invariant `Inv` defined here;
    the lemmas below show that each of its steps keeps it and what follows
    from it once every way has been used. */
module RingSpec {
  import opened Seqs
  import opened OsmData
  import Classifier

  /** The id -> way lookup table. */
  type WayTable = map<nat, Way>

  /** Every way is stored under its own id (the table is built that way). */
  ghost predicate WellKeyed(t: WayTable)
  {
    forall k :: k in t ==> t[k].id == k
  }

  /** The members' ways, in member order, skipping members whose reference is
      not in the table (the `flat_map` over `id_to_ways.get`). Note that the
      member kind is not looked at. */
  function ResolvedWays(members: seq<Member>, t: WayTable): (ways: seq<Way>)
    ensures forall w :: w in ways <==> exists m :: m in members && m.memberRef in t && w == t[m.memberRef]
    ensures ways == [] <==> forall m :: m in members ==> m.memberRef !in t
  {
    if members == [] then []
    else
      assert forall m :: m in members <==> m == members[0] || m in members[1..];
      (if members[0].memberRef in t then [t[members[0].memberRef]] else []) + ResolvedWays(members[1..], t)
  }

  /** The first resolved way is the way of the first member that resolves. */
  lemma {:induction false} FirstResolved(members: seq<Member>, t: WayTable)
    requires ResolvedWays(members, t) != []
    ensures exists j :: 0 <= j < |members| && members[j].memberRef in t &&
                        ResolvedWays(members, t)[0] == t[members[j].memberRef] &&
                        forall j' :: 0 <= j' < j ==> members[j'].memberRef !in t
  {
    if members[0].memberRef !in t {
      var rest := members[1..];
      FirstResolved(rest, t);
      var j :| 0 <= j < |rest| && rest[j].memberRef in t && ResolvedWays(rest, t)[0] == t[rest[j].memberRef] &&
               forall j' :: 0 <= j' < j ==> rest[j'].memberRef !in t;
      assert members[j + 1] == rest[j];
      forall j' | 0 <= j' < j + 1 ensures members[j'].memberRef !in t {
        if j' > 0 {
          assert members[j'] == rest[j' - 1];
        }
      }
    } else {
      assert ResolvedWays(members, t)[0] == t[members[0].memberRef];
    }
  }

  /** The ids of a list of ways, as a set (the `ways_to_visit` fold). */
  function WayIds(ways: seq<Way>): set<nat>
  {
    set w | w in ways :: w.id
  }

  /** Every listed way is the table's entry for its id. */
  ghost predicate FromTable(ways: seq<Way>, t: WayTable)
  {
    forall w :: w in ways ==> w.id in t && t[w.id] == w
  }

  lemma ResolvedWaysFromTable(members: seq<Member>, t: WayTable)
    requires WellKeyed(t)
    ensures FromTable(ResolvedWays(members, t), t)
  {
  }

  /** One way used as a stretch of a ring, forwards or reversed. */
  datatype Piece = Piece(wayId: nat, reversed: bool)

  /** The node ids a piece contributes. */
  ghost function Block(p: Piece, t: WayTable): seq<nat>
  {
    if p.wayId !in t then []
    else if p.reversed then Reverse(t[p.wayId].nd)
    else t[p.wayId].nd
  }

  /** The node ids of a ring stitched from `pieces`, in order. */
  ghost function Assemble(pieces: seq<Piece>, t: WayTable): seq<nat>
  {
    if pieces == [] then [] else Assemble(pieces[..|pieces| - 1], t) + Block(pieces[|pieces| - 1], t)
  }

  ghost function PieceIds(pieces: seq<Piece>): seq<nat>
  {
    seq(|pieces|, j requires 0 <= j < |pieces| => pieces[j].wayId)
  }

  /** The way ids of all rings of a plan, ring after ring. */
  ghost function Flatten(plan: seq<seq<Piece>>): seq<nat>
  {
    if plan == [] then [] else Flatten(plan[..|plan| - 1]) + PieceIds(plan[|plan| - 1])
  }

  /** `p` continues the ring where `prev` left it: its way has the previous
      last node as an endpoint, it is reversed exactly when its first node is
      not that node, and so its stretch begins with that node. */
  ghost predicate Junction(prev: Piece, p: Piece, t: WayTable)
  {
    && |Block(prev, t)| > 0
    && p.wayId in t && |t[p.wayId].nd| > 0
    && IsEndpoint(t[p.wayId], Last(Block(prev, t)))
    && (p.reversed <==> t[p.wayId].nd[0] != Last(Block(prev, t)))
    && Block(p, t)[0] == Last(Block(prev, t))
  }

  /** Every piece is a known way with nodes, and consecutive pieces meet. */
  ghost predicate Chained(pieces: seq<Piece>, t: WayTable)
  {
    && (forall j :: 0 <= j < |pieces| ==> pieces[j].wayId in t && |t[pieces[j].wayId].nd| > 0)
    && (forall j :: 0 < j < |pieces| ==> Junction(pieces[j - 1], pieces[j], t))
  }

  /** `loop` is the ring stitched from `pieces`: seeded forwards by the first
      piece's way, whose id and category it carries. */
  ghost predicate ValidLoop(loop: LoopWithType, pieces: seq<Piece>, t: WayTable)
  {
    && |pieces| > 0
    && Chained(pieces, t)
    && !pieces[0].reversed
    && loop.wayId == Some(pieces[0].wayId)
    && loop.memberType == Classifier.CheckWayType(t[pieces[0].wayId])
    && loop.memeberLoop == Assemble(pieces, t)
  }

  /** No way among `ids` has `n` as an endpoint. */
  ghost predicate ClosedAgainst(n: nat, ids: set<nat>, t: WayTable)
  {
    forall id :: id in ids && id in t ==> !IsEndpoint(t[id], n)
  }

  /** No way among the ids of `ids` has `n` as an endpoint. */
  ghost predicate NoneTouches(n: nat, ids: seq<nat>, t: WayTable)
  {
    forall k :: 0 <= k < |ids| && ids[k] in t ==> !IsEndpoint(t[ids[k]], n)
  }

  /** Every ring but the last was closed because no way still to be used
      (in `pending`, or in a later ring) touched its last node. */
  ghost predicate Greedy(loops: seq<LoopWithType>, plan: seq<seq<Piece>>, pending: set<nat>, t: WayTable)
  {
    forall i :: 0 <= i < |loops| - 1 && i < |plan| ==>
      |loops[i].memeberLoop| > 0 &&
      ClosedAgainst(Last(loops[i].memeberLoop), pending, t) &&
      NoneTouches(Last(loops[i].memeberLoop), Flatten(plan[i + 1..]), t)
  }

  /** Each ring is stitched from its pieces as the plan says, and none is empty. */
  ghost predicate LoopsFollowPlan(loops: seq<LoopWithType>, plan: seq<seq<Piece>>, t: WayTable)
  {
    && |loops| == |plan| > 0
    && (forall i :: 0 <= i < |loops| ==> ValidLoop(loops[i], plan[i], t) && |loops[i].memeberLoop| > 0)
  }

  /** The plan uses each way of `ways` at most once, and a way is either used
      or still to visit, never both. */
  ghost predicate IdsAccounted(plan: seq<seq<Piece>>, toVisit: set<nat>, ways: seq<Way>)
  {
    && Distinct(Flatten(plan))
    && (forall id :: id in Flatten(plan) ==> id in WayIds(ways) && id !in toVisit)
    && (forall id :: id in WayIds(ways) ==> id in toVisit || id in Flatten(plan))
    && toVisit <= WayIds(ways)
  }

  /** The loop invariant of the reconstructor. */
  ghost predicate Inv(loops: seq<LoopWithType>, plan: seq<seq<Piece>>, toVisit: set<nat>, ways: seq<Way>, t: WayTable)
  {
    && LoopsFollowPlan(loops, plan, t)
    && IdsAccounted(plan, toVisit, ways)
    && Greedy(loops, plan, toVisit, t)
  }

  // ---------------------------------------------------------------------
  // Facts about the plan functions

  lemma BlockLength(p: Piece, t: WayTable)
    ensures p.wayId in t ==> |Block(p, t)| == |t[p.wayId].nd|
  {
  }

  lemma AssembleAppend(pieces: seq<Piece>, p: Piece, t: WayTable)
    ensures Assemble(pieces + [p], t) == Assemble(pieces, t) + Block(p, t)
  {
    assert (pieces + [p])[..|pieces|] == pieces;
  }

  lemma FlattenAppend(plan: seq<seq<Piece>>, x: seq<Piece>)
    ensures Flatten(plan + [x]) == Flatten(plan) + PieceIds(x)
  {
    assert (plan + [x])[..|plan|] == plan;
  }

  /** The plan with `p` added to its last ring. */
  ghost function ExtendLast(plan: seq<seq<Piece>>, p: Piece): seq<seq<Piece>>
    requires |plan| > 0
  {
    plan[..|plan| - 1] + [plan[|plan| - 1] + [p]]
  }

  lemma FlattenExtendLast(plan: seq<seq<Piece>>, p: Piece)
    requires |plan| > 0
    ensures Flatten(ExtendLast(plan, p)) == Flatten(plan) + [p.wayId]
  {
    var init, lst := plan[..|plan| - 1], plan[|plan| - 1];
    var ext := ExtendLast(plan, p);
    assert ext == init + [lst + [p]];
    FlattenAppend(init, lst + [p]);
    assert Flatten(ext) == Flatten(init) + PieceIds(lst + [p]);
    assert Flatten(plan) == Flatten(init) + PieceIds(lst);
    PieceIdsAppend(lst, p);
  }

  lemma PieceIdsSingle(p: Piece)
    ensures PieceIds([p]) == [p.wayId]
  {
  }

  lemma PieceIdsAppend(pieces: seq<Piece>, p: Piece)
    ensures PieceIds(pieces + [p]) == PieceIds(pieces) + [p.wayId]
  {
  }

  lemma ExtendLastSuffix(plan: seq<seq<Piece>>, p: Piece, i: nat)
    requires i + 1 < |plan|
    ensures ExtendLast(plan, p)[i + 1..] == ExtendLast(plan[i + 1..], p)
  {
  }

  lemma {:induction false} PieceIdsInFlatten(plan: seq<seq<Piece>>, i: nat, j: nat)
    requires i < |plan| && j < |plan[i]|
    ensures plan[i][j].wayId in Flatten(plan)
  {
    var init := plan[..|plan| - 1];
    assert plan == init + [plan[|plan| - 1]];
    FlattenAppend(init, plan[|plan| - 1]);
    if i < |plan| - 1 {
      PieceIdsInFlatten(init, i, j);
    } else {
      assert PieceIds(plan[i])[j] == plan[i][j].wayId;
    }
  }

  /** A chained ring ends at an endpoint of its last piece's way. */
  lemma {:induction false} AssembleEnd(pieces: seq<Piece>, t: WayTable)
    requires |pieces| > 0 && Chained(pieces, t)
    ensures |Assemble(pieces, t)| > 0
    ensures Last(Assemble(pieces, t)) == Last(Block(pieces[|pieces| - 1], t))
    ensures IsEndpoint(t[pieces[|pieces| - 1].wayId], Last(Assemble(pieces, t)))
  {
    var p := pieces[|pieces| - 1];
    BlockLength(p, t);
    var nd := t[p.wayId].nd;
    if p.reversed {
      assert Block(p, t)[|nd| - 1] == nd[0];
    }
  }

  /** A ring begins with the stretch of its first piece. */
  lemma {:induction false} AssembleStart(pieces: seq<Piece>, t: WayTable)
    requires |pieces| > 0
    ensures |Assemble(pieces, t)| >= |Block(pieces[0], t)|
    ensures Assemble(pieces, t)[..|Block(pieces[0], t)|] == Block(pieces[0], t)
  {
    var init := pieces[..|pieces| - 1];
    if init == [] {
      assert Assemble(pieces, t) == [] + Block(pieces[0], t);
    } else {
      AssembleStart(init, t);
      assert init[0] == pieces[0];
    }
  }

  lemma ChainedPrefix(pieces: seq<Piece>, p: Piece, t: WayTable)
    requires Chained(pieces + [p], t)
    ensures Chained(pieces, t)
  {
    var all := pieces + [p];
    assert forall j :: 0 <= j < |pieces| ==> all[j] == pieces[j];
    forall j | 0 < j < |pieces| ensures Junction(pieces[j - 1], pieces[j], t) {
      assert Junction(all[j - 1], all[j], t);
    }
  }

  // ---------------------------------------------------------------------
  // The invariant: established by the seed, kept by both kinds of step

  /** A ring seeded forwards by one known way is that way's node list. */
  lemma SeedLoop(t: WayTable, id: nat)
    requires id in t && t[id].id == id && |t[id].nd| > 0
    ensures var a := t[id];
            ValidLoop(LoopWithType(Some(a.id), Classifier.CheckWayType(a), a.nd), [Piece(id, false)], t)
  {
    var p := Piece(id, false);
    AssembleAppend([], p, t);
    assert [p] == [] + [p];
  }

  lemma InitInv(ways: seq<Way>, t: WayTable)
    requires |ways| > 0 && FromTable(ways, t)
    requires forall w :: w in ways ==> |w.nd| > 0
    ensures var a := ways[0];
            Inv([LoopWithType(Some(a.id), Classifier.CheckWayType(a), a.nd)], [[Piece(a.id, false)]],
                WayIds(ways) - {a.id}, ways, t)
  {
    var a := ways[0];
    assert a in ways;
    SeedLoop(t, a.id);
    var p := Piece(a.id, false);
    InitIdsAccounted(ways, p);
  }

  lemma InitIdsAccounted(ways: seq<Way>, p: Piece)
    requires |ways| > 0 && p.wayId == ways[0].id
    ensures IdsAccounted([[p]], WayIds(ways) - {p.wayId}, ways)
  {
    FlattenAppend([], [p]);
    assert [[p]] == [] + [[p]];
    PieceIdsAppend([], p);
    assert [] + [p] == [p];
    assert Flatten([[p]]) == [p.wayId];
    assert ways[0] in ways;
  }

  /** Using one more way still to visit keeps the ids accounted for. */
  lemma UseKeepsIdsAccounted(plan: seq<seq<Piece>>, plan': seq<seq<Piece>>, toVisit: set<nat>, ways: seq<Way>, next: nat)
    requires IdsAccounted(plan, toVisit, ways)
    requires next in toVisit
    requires Flatten(plan') == Flatten(plan) + [next]
    ensures IdsAccounted(plan', toVisit - {next}, ways)
  {
    var f := Flatten(plan);
    assert next !in f;
    assert forall id :: id in Flatten(plan') <==> id in f || id == next;
  }

  /** Appending piece `p` to the last ring of a plan that follows the rings. */
  lemma ExtendKeepsLoops(loops: seq<LoopWithType>, plan: seq<seq<Piece>>, t: WayTable, p: Piece)
    requires LoopsFollowPlan(loops, plan, t)
    requires p.wayId in t && |t[p.wayId].nd| > 0
    requires IsEndpoint(t[p.wayId], Last(loops[|loops| - 1].memeberLoop))
    requires p.reversed <==> t[p.wayId].nd[0] != Last(loops[|loops| - 1].memeberLoop)
    ensures var cur := loops[|loops| - 1];
            LoopsFollowPlan(loops[..|loops| - 1] + [cur.(memeberLoop := cur.memeberLoop + Block(p, t))],
                            ExtendLast(plan, p), t)
  {
    var n := |loops|;
    var cur := loops[n - 1];
    var pieces := plan[n - 1];
    var loops' := loops[..n - 1] + [cur.(memeberLoop := cur.memeberLoop + Block(p, t))];
    var plan' := ExtendLast(plan, p);
    assert ValidLoop(cur, pieces, t);
    AssembleEnd(pieces, t);
    BlockLength(p, t);
    var nd := t[p.wayId].nd;
    if p.reversed {
      assert Block(p, t)[0] == nd[|nd| - 1];
    }
    assert Junction(pieces[|pieces| - 1], p, t);
    ChainedAppend(pieces, p, t);
    AssembleAppend(pieces, p, t);
    assert ValidLoop(loops'[n - 1], plan'[n - 1], t);
    assert forall i :: 0 <= i < n - 1 ==> loops'[i] == loops[i] && plan'[i] == plan[i];
  }

  lemma ChainedAppend(pieces: seq<Piece>, p: Piece, t: WayTable)
    requires |pieces| > 0 && Chained(pieces, t)
    requires Junction(pieces[|pieces| - 1], p, t)
    ensures Chained(pieces + [p], t)
  {
    var all := pieces + [p];
    assert forall j :: 0 <= j < |pieces| ==> all[j] == pieces[j];
    forall j | 0 < j < |all| ensures Junction(all[j - 1], all[j], t) {
      if j < |pieces| {
        assert Junction(pieces[j - 1], pieces[j], t);
      }
    }
  }

  /** Appending a way to the current ring leaves every closed ring closed. */
  lemma ExtendKeepsGreedy(loops: seq<LoopWithType>, plan: seq<seq<Piece>>, toVisit: set<nat>, t: WayTable, p: Piece, tail: seq<nat>)
    requires |loops| == |plan| > 0
    requires Greedy(loops, plan, toVisit, t)
    requires p.wayId in toVisit
    ensures Greedy(loops[..|loops| - 1] + [loops[|loops| - 1].(memeberLoop := tail)], ExtendLast(plan, p), toVisit - {p.wayId}, t)
  {
    var n := |loops|;
    var loops' := loops[..n - 1] + [loops[n - 1].(memeberLoop := tail)];
    var plan' := ExtendLast(plan, p);
    forall i | 0 <= i < |loops'| - 1 && i < |plan'|
      ensures |loops'[i].memeberLoop| > 0 &&
              ClosedAgainst(Last(loops'[i].memeberLoop), toVisit - {p.wayId}, t) &&
              NoneTouches(Last(loops'[i].memeberLoop), Flatten(plan'[i + 1..]), t)
    {
      assert loops'[i] == loops[i];
      var last := Last(loops[i].memeberLoop);
      ExtendLastSuffix(plan, p, i);
      FlattenExtendLast(plan[i + 1..], p);
      var f := Flatten(plan[i + 1..]);
      assert Flatten(plan'[i + 1..]) == f + [p.wayId];
      assert NoneTouches(last, f, t);
    }
  }

  /** Appending the next way to the current ring keeps the invariant. */
  lemma ExtendKeepsInv(loops: seq<LoopWithType>, plan: seq<seq<Piece>>, toVisit: set<nat>, ways: seq<Way>, t: WayTable, next: nat)
    requires Inv(loops, plan, toVisit, ways, t)
    requires FromTable(ways, t) && forall w :: w in ways ==> |w.nd| > 0
    requires next in toVisit
    requires IsEndpoint(t[next], Last(loops[|loops| - 1].memeberLoop))
    ensures var cur := loops[|loops| - 1];
            var p := Piece(next, t[next].nd[0] != Last(cur.memeberLoop));
            Inv(loops[..|loops| - 1] + [cur.(memeberLoop := cur.memeberLoop + Block(p, t))],
                ExtendLast(plan, p), toVisit - {next}, ways, t)
  {
    var cur := loops[|loops| - 1];
    var p := Piece(next, t[next].nd[0] != Last(cur.memeberLoop));
    var w :| w in ways && w.id == next;
    ExtendKeepsLoops(loops, plan, t, p);
    FlattenExtendLast(plan, p);
    UseKeepsIdsAccounted(plan, ExtendLast(plan, p), toVisit, ways, next);
    ExtendKeepsGreedy(loops, plan, toVisit, t, p, cur.memeberLoop + Block(p, t));
  }

  /** Starting a new ring leaves the closed rings closed and closes the
      current one, provided no way still to visit touches its last node. */
  lemma NewLoopKeepsGreedy(loops: seq<LoopWithType>, plan: seq<seq<Piece>>, toVisit: set<nat>, t: WayTable, loop: LoopWithType, p: Piece)
    requires |loops| == |plan| > 0
    requires Greedy(loops, plan, toVisit, t)
    requires |loops[|loops| - 1].memeberLoop| > 0
    requires ClosedAgainst(Last(loops[|loops| - 1].memeberLoop), toVisit, t)
    requires p.wayId in toVisit
    ensures Greedy(loops + [loop], plan + [[p]], toVisit - {p.wayId}, t)
  {
    var n := |loops|;
    var loops' := loops + [loop];
    var plan' := plan + [[p]];
    PieceIdsAppend([], p);
    assert [] + [p] == [p];
    forall i | 0 <= i < |loops'| - 1 && i < |plan'|
      ensures |loops'[i].memeberLoop| > 0 &&
              ClosedAgainst(Last(loops'[i].memeberLoop), toVisit - {p.wayId}, t) &&
              NoneTouches(Last(loops'[i].memeberLoop), Flatten(plan'[i + 1..]), t)
    {
      assert loops'[i] == loops[i];
      var last := Last(loops[i].memeberLoop);
      if i < n - 1 {
        assert plan'[i + 1..] == plan[i + 1..] + [[p]];
        FlattenAppend(plan[i + 1..], [p]);
        assert NoneTouches(last, Flatten(plan[i + 1..]), t);
      } else {
        assert plan'[i + 1..] == [] + [[p]];
        FlattenAppend([], [p]);
        assert Flatten(plan'[i + 1..]) == [p.wayId];
      }
    }
  }

  /** A new ring seeded forwards with one known way follows its one-piece plan. */
  lemma NewLoopKeepsLoops(loops: seq<LoopWithType>, plan: seq<seq<Piece>>, t: WayTable, next: nat)
    requires LoopsFollowPlan(loops, plan, t)
    requires next in t && t[next].id == next && |t[next].nd| > 0
    ensures var a := t[next];
            LoopsFollowPlan(loops + [LoopWithType(Some(a.id), Classifier.CheckWayType(a), a.nd)], plan + [[Piece(next, false)]], t)
  {
    var a := t[next];
    var p := Piece(next, false);
    var loop := LoopWithType(Some(a.id), Classifier.CheckWayType(a), a.nd);
    var loops' := loops + [loop];
    var plan' := plan + [[p]];
    SeedLoop(t, next);
    assert forall i :: 0 <= i < |loops| ==> loops'[i] == loops[i] && plan'[i] == plan[i];
  }

  /** Starting a new ring with a way still to be used keeps the invariant,
      provided no such way touches the current ring's last node. */
  lemma NewLoopKeepsInv(loops: seq<LoopWithType>, plan: seq<seq<Piece>>, toVisit: set<nat>, ways: seq<Way>, t: WayTable, next: nat)
    requires Inv(loops, plan, toVisit, ways, t)
    requires FromTable(ways, t) && forall w :: w in ways ==> |w.nd| > 0
    requires next in toVisit
    requires ClosedAgainst(Last(loops[|loops| - 1].memeberLoop), toVisit, t)
    ensures next in t
    ensures var a := t[next];
            Inv(loops + [LoopWithType(Some(a.id), Classifier.CheckWayType(a), a.nd)], plan + [[Piece(next, false)]],
                toVisit - {next}, ways, t)
  {
    var w :| w in ways && w.id == next;
    var a := t[next];
    var p := Piece(next, false);
    var loop := LoopWithType(Some(a.id), Classifier.CheckWayType(a), a.nd);
    var plan' := plan + [[p]];
    assert a == w;
    NewLoopKeepsLoops(loops, plan, t, next);
    FlattenAppend(plan, [p]);
    PieceIdsSingle(p);
    assert Flatten(plan') == Flatten(plan) + [next];
    UseKeepsIdsAccounted(plan, plan', toVisit, ways, next);
    NewLoopKeepsGreedy(loops, plan, toVisit, t, loop, p);
  }

  // ---------------------------------------------------------------------
  // Conservation of nodes

  /** Number of nodes of the ways with the given ids. */
  ghost function NodeCount(ids: seq<nat>, t: WayTable): nat
  {
    if ids == [] then 0
    else NodeCount(ids[..|ids| - 1], t) + WayNodes(Last(ids), t)
  }

  /** Total number of node ids over all rings. */
  function TotalLength(loops: seq<LoopWithType>): nat
  {
    if loops == [] then 0 else TotalLength(loops[..|loops| - 1]) + |loops[|loops| - 1].memeberLoop|
  }

  lemma {:induction false} NodeCountAppend(a: seq<nat>, b: seq<nat>, t: WayTable)
    ensures NodeCount(a + b, t) == NodeCount(a, t) + NodeCount(b, t)
  {
    if b != [] {
      assert (a + b)[..|a + b| - 1] == a + b[..|b| - 1];
      NodeCountAppend(a, b[..|b| - 1], t);
    } else {
      assert a + b == a;
    }
  }

  /** A ring is as long as its ways together. */
  lemma {:induction false} AssembleLength(pieces: seq<Piece>, t: WayTable)
    ensures |Assemble(pieces, t)| == NodeCount(PieceIds(pieces), t)
  {
    if pieces != [] {
      var init, p := pieces[..|pieces| - 1], pieces[|pieces| - 1];
      AssembleLength(init, t);
      BlockLength(p, t);
      assert PieceIds(pieces)[..|pieces| - 1] == PieceIds(init);
    }
  }

  /** The rings together are as long as the ways of the plan together. */
  lemma {:induction false} TotalLengthIsNodeCount(loops: seq<LoopWithType>, plan: seq<seq<Piece>>, t: WayTable)
    requires |loops| == |plan|
    requires forall i :: 0 <= i < |loops| ==> loops[i].memeberLoop == Assemble(plan[i], t)
    ensures TotalLength(loops) == NodeCount(Flatten(plan), t)
  {
    if loops != [] {
      var n := |loops|;
      var loopsInit, planInit := loops[..n - 1], plan[..n - 1];
      assert forall i :: 0 <= i < n - 1 ==> loopsInit[i] == loops[i] && planInit[i] == plan[i];
      TotalLengthIsNodeCount(loopsInit, planInit, t);
      var pieces := plan[n - 1];
      AssembleLength(pieces, t);
      assert TotalLength(loops) == TotalLength(loopsInit) + |Assemble(pieces, t)|;
      assert Flatten(plan) == Flatten(planInit) + PieceIds(pieces);
      NodeCountAppend(Flatten(planInit), PieceIds(pieces), t);
    }
  }

  /** The distinct elements of `s`, each at its first occurrence. */
  ghost function Dedup(s: seq<nat>): (r: seq<nat>)
    ensures Distinct(r)
    ensures forall x :: x in r <==> x in s
  {
    if s == [] then []
    else
      var init := s[..|s| - 1];
      assert forall x :: x in s <==> x in init || x == Last(s);
      if Last(s) in init then Dedup(init) else Dedup(init) + [Last(s)]
  }

  lemma {:induction false} DistinctMultiset(s: seq<nat>)
    requires Distinct(s)
    ensures forall x :: multiset(s)[x] == if x in s then 1 else 0
  {
    if s != [] {
      var init := s[..|s| - 1];
      assert s == init + [Last(s)];
      DistinctMultiset(init);
    }
  }

  /** The node count of one id. */
  ghost function WayNodes(id: nat, t: WayTable): nat
  {
    if id in t then |t[id].nd| else 0
  }

  lemma NodeCountSingle(x: nat, t: WayTable)
    ensures NodeCount([x], t) == WayNodes(x, t)
  {
    assert [x][..0] == [];
  }

  /** Taking one element out of a list takes its ways' nodes out of the count. */
  lemma NodeCountRemove(b: seq<nat>, k: nat, t: WayTable)
    requires k < |b|
    ensures NodeCount(b, t) == NodeCount(b[..k] + b[k + 1..], t) + WayNodes(b[k], t)
  {
    assert b == (b[..k] + [b[k]]) + b[k + 1..];
    NodeCountAppend(b[..k] + [b[k]], b[k + 1..], t);
    NodeCountAppend(b[..k], [b[k]], t);
    NodeCountAppend(b[..k], b[k + 1..], t);
    NodeCountSingle(b[k], t);
  }

  lemma MultisetRemove(a: seq<nat>, b: seq<nat>, k: nat)
    requires |a| > 0 && k < |b| && multiset(a) == multiset(b) && b[k] == Last(a)
    ensures multiset(a[..|a| - 1]) == multiset(b[..k] + b[k + 1..])
  {
    var x := Last(a);
    assert a == a[..|a| - 1] + [x];
    assert b == b[..k] + [x] + b[k + 1..];
    assert multiset(b[..k] + b[k + 1..]) == multiset(b) - multiset{x};
    assert multiset(a[..|a| - 1]) == multiset(a) - multiset{x};
  }

  lemma {:induction false} NodeCountPermutation(a: seq<nat>, b: seq<nat>, t: WayTable)
    requires multiset(a) == multiset(b)
    ensures NodeCount(a, t) == NodeCount(b, t)
  {
    if a != [] {
      var x := Last(a);
      assert x in multiset(b);
      var k :| 0 <= k < |b| && b[k] == x;
      MultisetRemove(a, b, k);
      NodeCountPermutation(a[..|a| - 1], b[..k] + b[k + 1..], t);
      NodeCountRemove(b, k, t);
    }
  }

  /** Two duplicate-free lists of the same ids have the same node count. */
  lemma SameDistinctIdsSameCount(a: seq<nat>, b: seq<nat>, t: WayTable)
    requires Distinct(a) && Distinct(b)
    requires forall x :: x in a <==> x in b
    ensures NodeCount(a, t) == NodeCount(b, t)
  {
    DistinctMultiset(a);
    DistinctMultiset(b);
    assert multiset(a) == multiset(b);
    NodeCountPermutation(a, b, t);
  }

  /** The ids of the ways in order. */
  function IdSeq(ways: seq<Way>): (ids: seq<nat>)
    ensures |ids| == |ways| && forall i :: 0 <= i < |ways| ==> ids[i] == ways[i].id
  {
    seq(|ways|, i requires 0 <= i < |ways| => ways[i].id)
  }

  /** What the rings alone show about the reconstruction of `ways`: there is
      at least one ring and none is empty; every ring carries the id of a
      resolved way as its seed; the first ring is seeded forwards by the
      first resolved way, whose category it carries; and together the rings
      hold each distinct way's nodes exactly once. */
  ghost predicate RingsCover(loops: seq<LoopWithType>, ways: seq<Way>, t: WayTable)
  {
    && |loops| > 0 && |ways| > 0
    && (forall i :: 0 <= i < |loops| ==>
          |loops[i].memeberLoop| > 0 && loops[i].wayId.Some? && loops[i].wayId.value in WayIds(ways))
    && loops[0].wayId == Some(ways[0].id)
    && loops[0].memberType == Classifier.CheckWayType(ways[0])
    && |loops[0].memeberLoop| >= |ways[0].nd| && loops[0].memeberLoop[..|ways[0].nd|] == ways[0].nd
    && TotalLength(loops) == NodeCount(Dedup(IdSeq(ways)), t)
  }
}
