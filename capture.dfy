/** Capture scoring: after a dot is placed, the groups of a target player
    that touch the new dot orthogonally are flood-filled one direction at a
    time, and each surrounded one scores the number of the target's dots in
    it. The directions are probed independently, so a group reached from two
    directions is scored twice. */
module Capture {
  import opened Grid
  import opened Flood

  /** The number of members of `group` that hold a dot of `owner`. */
  function OwnedCount(g: Cells, group: seq<Pos>, owner: Player): (n: nat)
    requires forall i :: 0 <= i < |group| ==> InBounds(g, group[i])
    ensures n <= |group|
  {
    if group == [] then 0
    else (if At(g, group[0]) == Dot(owner) then 1 else 0) + OwnedCount(g, group[1..], owner)
  }

  /** The cells of `group` that hold a dot of `owner`, as a set. */
  ghost function OwnedSet(g: Cells, group: seq<Pos>, owner: Player): set<Pos>
  {
    set p | p in Elems(group) && InBounds(g, p) && At(g, p) == Dot(owner)
  }

  /** Probing the k-th neighbour: it holds a dot of `target` and the group
      flooded from it is surrounded by the other player. */
  ghost predicate ProbeSurrounded(g: Cells, c: Pos, target: Player)
    requires WellFormed(g)
  {
    InBounds(g, c) && At(g, c) == Dot(target) && Enclosed(g, FloodFill(g, c, target), Opponent(target))
  }

  /** What one probe scores: the target's dots in a surrounded group. */
  ghost function ProbeCapture(g: Cells, c: Pos, target: Player): nat
    requires WellFormed(g)
  {
    if ProbeSurrounded(g, c, target) then OwnedCount(g, FloodFill(g, c, target), target) else 0
  }

  /** The sum of the probes of the directions k.. around `p`. */
  ghost function CaptureSum(g: Cells, p: Pos, target: Player, k: nat): nat
    requires WellFormed(g) && k <= 4
    decreases g, 4 - k
  {
    if k == 4 then 0
    else ProbeCapture(g, Step(p, FourDirections[k]), target) + CaptureSum(g, p, target, k + 1)
  }

  /** A probe scores something exactly when its group is surrounded: the
      seed itself is one of the target's dots. */
  lemma ProbeScoresIffSurrounded(g: Cells, c: Pos, target: Player)
    requires WellFormed(g)
    ensures ProbeCapture(g, c, target) > 0 <==> ProbeSurrounded(g, c, target)
    ensures ProbeSurrounded(g, c, target) ==> ProbeCapture(g, c, target) <= |FloodFill(g, c, target)|
  {
    if ProbeSurrounded(g, c, target) {
      var group := FloodFill(g, c, target);
      assert group[0] == c;
      assert OwnedCount(g, group, target) >= 1;
    }
  }

  /** One step of `CaptureSum`, unfolded. */
  lemma CaptureSumStep(g: Cells, p: Pos, target: Player, k: nat)
    requires WellFormed(g) && k < 4
    ensures CaptureSum(g, p, target, k) == ProbeCapture(g, Step(p, FourDirections[k]), target) + CaptureSum(g, p, target, k + 1)
  {
  }

  /** What a probe scores, by the outcome of the flood from `c`. */
  lemma ProbeOutcome(g: Cells, c: Pos, target: Player)
    requires WellFormed(g)
    ensures !(InBounds(g, c) && At(g, c) == Dot(target)) ==> ProbeCapture(g, c, target) == 0
    ensures InBounds(g, c) && At(g, c) == Dot(target) ==>
      var group := FloodFill(g, c, target);
      ProbeCapture(g, c, target) == if Enclosed(g, group, Opponent(target)) then OwnedCount(g, group, target) else 0
  {
  }

  lemma {:induction false} CaptureSumPositive(g: Cells, p: Pos, target: Player, k: nat)
    requires WellFormed(g) && k <= 4
    ensures CaptureSum(g, p, target, k) > 0 <==>
      exists j :: k <= j < 4 && ProbeSurrounded(g, Step(p, FourDirections[j]), target)
    decreases 4 - k
  {
    if k < 4 {
      CaptureSumPositive(g, p, target, k + 1);
      ProbeScoresIffSurrounded(g, Step(p, FourDirections[k]), target);
    }
  }

  /** A capture check scores something exactly when one of the four probes
      around the new dot finds a surrounded group. */
  lemma CapturesIffSurroundedNeighbour(g: Cells, p: Pos, target: Player)
    requires WellFormed(g)
    ensures CaptureSum(g, p, target, 0) > 0 <==>
      exists j :: 0 <= j < 4 && ProbeSurrounded(g, Step(p, FourDirections[j]), target)
  {
    CaptureSumPositive(g, p, target, 0);
  }

  lemma {:induction false} OwnedCountIsSetSize(g: Cells, group: seq<Pos>, owner: Player)
    requires Distinct(group) && forall i :: 0 <= i < |group| ==> InBounds(g, group[i])
    ensures OwnedCount(g, group, owner) == |OwnedSet(g, group, owner)|
  {
    if group != [] {
      var rest := group[1..];
      assert Distinct(rest) by {
        forall i, j | 0 <= i < j < |rest| ensures rest[i] != rest[j] {
          assert rest[i] == group[i + 1] && rest[j] == group[j + 1];
        }
      }
      OwnedCountIsSetSize(g, rest, owner);
      assert group[0] !in rest;
      OwnedSetCons(g, group, owner);
    }
  }

  /** The owned set of a non-empty group: its first cell, if owned, and the
      owned set of the rest. */
  lemma OwnedSetCons(g: Cells, group: seq<Pos>, owner: Player)
    requires |group| > 0 && InBounds(g, group[0])
    ensures OwnedSet(g, group, owner) ==
      (if At(g, group[0]) == Dot(owner) then {group[0]} else {}) + OwnedSet(g, group[1..], owner)
  {
    assert group == [group[0]] + group[1..];
    assert Elems(group) == {group[0]} + Elems(group[1..]);
  }

  lemma SameCellsSameEdge(g: Cells, r1: seq<Pos>, r2: seq<Pos>)
    requires Elems(r1) == Elems(r2)
    ensures (forall i :: 0 <= i < |r1| ==> !OnEdge(g, r1[i])) <==> (forall i :: 0 <= i < |r2| ==> !OnEdge(g, r2[i]))
  {
    if forall i :: 0 <= i < |r1| ==> !OnEdge(g, r1[i]) {
      forall i | 0 <= i < |r2| ensures !OnEdge(g, r2[i]) {
        assert r2[i] in Elems(r1);
      }
    }
    if forall i :: 0 <= i < |r2| ==> !OnEdge(g, r2[i]) {
      forall i | 0 <= i < |r1| ensures !OnEdge(g, r1[i]) {
        assert r1[i] in Elems(r2);
      }
    }
  }

  lemma SameCellsSameCount(g: Cells, r1: seq<Pos>, r2: seq<Pos>, owner: Player)
    requires Distinct(r1) && forall i :: 0 <= i < |r1| ==> InBounds(g, r1[i])
    requires Distinct(r2) && forall i :: 0 <= i < |r2| ==> InBounds(g, r2[i])
    requires Elems(r1) == Elems(r2)
    ensures OwnedCount(g, r1, owner) == OwnedCount(g, r2, owner)
  {
    OwnedCountIsSetSize(g, r1, owner);
    OwnedCountIsSetSize(g, r2, owner);
  }

  /** Probing two members of one group gives the same score: the group and
      its surrounded status do not depend on the cell it is flooded from. */
  lemma SameGroupSameProbe(g: Cells, c1: Pos, c2: Pos, target: Player)
    requires WellFormed(g) && InBounds(g, c1) && InBounds(g, c2)
    requires At(g, c1) == Dot(target) && At(g, c2) == Dot(target)
    requires c2 in FloodFill(g, c1, target)
    ensures ProbeCapture(g, c1, target) == ProbeCapture(g, c2, target)
  {
    var r1 := FloodFill(g, c1, target);
    var r2 := FloodFill(g, c2, target);
    SameGroupFromMember(g, target, c1, c2);
    EnclosedIffOffEdge(g, c1, target);
    EnclosedIffOffEdge(g, c2, target);
    SameCellsSameEdge(g, r1, r2);
    SameCellsSameCount(g, r1, r2, target);
  }

  lemma {:induction false} CaptureSumHasTerms(g: Cells, p: Pos, target: Player, k: nat, j1: nat, j2: nat)
    requires WellFormed(g) && k <= j1 < j2 < 4
    ensures CaptureSum(g, p, target, k) >=
      ProbeCapture(g, Step(p, FourDirections[j1]), target) + ProbeCapture(g, Step(p, FourDirections[j2]), target)
    decreases 4 - k
  {
    if k < j1 {
      CaptureSumHasTerms(g, p, target, k + 1, j1, j2);
    } else {
      CaptureSumHasTerm(g, p, target, k + 1, j2);
    }
  }

  lemma {:induction false} CaptureSumHasTerm(g: Cells, p: Pos, target: Player, k: nat, j: nat)
    requires WellFormed(g) && k <= j < 4
    ensures CaptureSum(g, p, target, k) >= ProbeCapture(g, Step(p, FourDirections[j]), target)
    decreases 4 - k
  {
    if k < j {
      CaptureSumHasTerm(g, p, target, k + 1, j);
    }
  }

  /** A surrounded group that touches the new dot from two directions is
      scored once per direction: the capture check adds at least twice its
      dot count. */
  lemma SharedGroupScoredTwice(g: Cells, p: Pos, target: Player, j1: nat, j2: nat)
    requires WellFormed(g) && j1 < j2 < 4
    requires ProbeSurrounded(g, Step(p, FourDirections[j1]), target)
    requires InBounds(g, Step(p, FourDirections[j2])) && At(g, Step(p, FourDirections[j2])) == Dot(target)
    requires Step(p, FourDirections[j2]) in FloodFill(g, Step(p, FourDirections[j1]), target)
    ensures CaptureSum(g, p, target, 0) >= 2 * ProbeCapture(g, Step(p, FourDirections[j1]), target) > 0
  {
    SameGroupSameProbe(g, Step(p, FourDirections[j1]), Step(p, FourDirections[j2]), target);
    CaptureSumHasTerms(g, p, target, 0, j1, j2);
    ProbeScoresIffSurrounded(g, Step(p, FourDirections[j1]), target);
  }

  /** A group that can flood from `c` onto a cell of the edge is never
      surrounded: an empty or own neighbour of `c` on the edge joins the
      group and puts it on the edge. */
  lemma {:induction false} EdgeNeighbourNotSurrounded(g: Cells, c: Pos, target: Player, k: nat)
    requires WellFormed(g) && InBounds(g, c) && k < 4
    requires Joinable(g, target, Step(c, FourDirections[k])) && OnEdge(g, Step(c, FourDirections[k]))
    ensures !ProbeSurrounded(g, c, target)
    ensures ProbeCapture(g, c, target) == 0
  {
    var group := FloodFill(g, c, target);
    var n := Step(c, FourDirections[k]);
    assert c in Elems(group) by { assert group[0] == c; }
    assert EntersSet(g, target, Elems(group), c, k);
    assert n in Elems(group);
    var i :| 0 <= i < |group| && group[i] == n;
    assert !AllOffEdge(g, group);
  }

  /** A single dot whose four neighbours are all on the board and hold the
      other player's dots forms a surrounded group of its own and scores
      one. */
  lemma {:induction false} RingedDotScoresOne(g: Cells, c: Pos, target: Player)
    requires WellFormed(g) && InBounds(g, c) && At(g, c) == Dot(target)
    requires forall k :: 0 <= k < 4 ==>
      InBounds(g, Step(c, FourDirections[k])) && At(g, Step(c, FourDirections[k])) == Dot(Opponent(target))
    ensures Elems(FloodFill(g, c, target)) == {c}
    ensures ProbeSurrounded(g, c, target)
    ensures ProbeCapture(g, c, target) == 1
  {
    var group := FloodFill(g, c, target);
    forall q, k | q in {c} && 0 <= k < 4 ensures EntersSet(g, target, {c}, q, k) {
      assert !Joinable(g, target, Step(c, FourDirections[k]));
    }
    FloodFillLeast(g, c, target, {c});
    assert c in Elems(group) by { assert group[0] == c; }
    assert Elems(group) == {c};
    assert !OnEdge(g, c) by {
      forall k | 0 <= k < 4 ensures InBounds(g, Step(c, FourDirections[k])) {
        assert InBounds(g, Step(c, FourDirections[k]));
      }
    }
    forall i | 0 <= i < |group| ensures !OnEdge(g, group[i]) {
      assert group[i] in Elems(group);
    }
    EnclosedIffOffEdge(g, c, target);
    assert OwnedCount(g, group, target) == 1 by {
      OwnedCountIsSetSize(g, group, target);
      assert OwnedSet(g, group, target) == {c};
    }
  }

  /** Player 1's dots at (1,1), (2,1) and (1,2) on a 6 x 6 board, with
      player 2 placing at (2,2): nothing is captured, because the group
      floods through the empty cells around it to the edge. */
  lemma CornerGroupNotCaptured()
    ensures var g := Place(Place(Place(Place(EmptyGrid(5, 5), (1, 1), Player1), (2, 1), Player1),
                                 (1, 2), Player1), (2, 2), Player2);
      WellFormed(g) && CaptureSum(g, (2, 2), Player1, 0) == 0
  {
    var g0 := EmptyGrid(5, 5);
    var g1 := Place(g0, (1, 1), Player1);
    var g2 := Place(g1, (2, 1), Player1);
    var g3 := Place(g2, (1, 2), Player1);
    var g := Place(g3, (2, 2), Player2);
    assert At(g, (0, 2)) == Empty && At(g, (2, 0)) == Empty;
    assert At(g, (3, 2)) == Empty && At(g, (2, 3)) == Empty;
    assert At(g, (1, 2)) == Dot(Player1) && At(g, (2, 1)) == Dot(Player1);
    EmptyCornerLeaks(g);
  }

  /** The capture check of player 2's dot at (2,2) on a 6 x 6 board scores
      nothing when (1,2) and (2,1) hold player 1's dots, (3,2) and (2,3)
      are empty, and so are the edge cells (0,2) and (2,0). */
  lemma EmptyCornerLeaks(g: Cells)
    requires WellFormed(g) && |g| == 6 && |g[0]| == 6
    requires At(g, (0, 2)) == Empty && At(g, (2, 0)) == Empty
    requires At(g, (3, 2)) == Empty && At(g, (2, 3)) == Empty
    requires At(g, (1, 2)) == Dot(Player1) && At(g, (2, 1)) == Dot(Player1)
    ensures CaptureSum(g, (2, 2), Player1, 0) == 0
  {
    assert ProbeCapture(g, (1, 2), Player1) == 0 by {
      assert !InBounds(g, Step((0, 2), FourDirections[0]));
      EdgeNeighbourNotSurrounded(g, (1, 2), Player1, 0);
    }
    assert ProbeCapture(g, (2, 1), Player1) == 0 by {
      assert !InBounds(g, Step((2, 0), FourDirections[2]));
      EdgeNeighbourNotSurrounded(g, (2, 1), Player1, 2);
    }
    assert ProbeCapture(g, (3, 2), Player1) == 0 by {
      ProbeOutcome(g, (3, 2), Player1);
    }
    assert ProbeCapture(g, (2, 3), Player1) == 0 by {
      ProbeOutcome(g, (2, 3), Player1);
    }
    assert Step((2, 2), FourDirections[0]) == (1, 2) && Step((2, 2), FourDirections[1]) == (3, 2);
    assert Step((2, 2), FourDirections[2]) == (2, 1) && Step((2, 2), FourDirections[3]) == (2, 3);
    CaptureSumStep(g, (2, 2), Player1, 0);
    CaptureSumStep(g, (2, 2), Player1, 1);
    CaptureSumStep(g, (2, 2), Player1, 2);
    CaptureSumStep(g, (2, 2), Player1, 3);
  }

  /** On a 3 x 3 board, player 1's dot in the centre with player 2's dots on
      its four sides, the last placed at (1,2): the capture check scores
      one. */
  lemma CentreDotCaptured()
    ensures var a, b := Dot(Player1), Dot(Player2);
      var g := [[Empty, b, Empty], [b, a, b], [Empty, b, Empty]];
      WellFormed(g) && CaptureSum(g, (1, 2), Player1, 0) == 1
  {
    var a, b := Dot(Player1), Dot(Player2);
    var g := [[Empty, b, Empty], [b, a, b], [Empty, b, Empty]];
    assert WellFormed(g);
    forall k | 0 <= k < 4
      ensures InBounds(g, Step((1, 1), FourDirections[k])) && At(g, Step((1, 1), FourDirections[k])) == b
    {
      assert k == 0 || k == 1 || k == 2 || k == 3;
    }
    RingedDotScoresOne(g, (1, 1), Player1);
    assert Step((1, 2), FourDirections[0]) == (0, 2) && Step((1, 2), FourDirections[1]) == (2, 2);
    assert Step((1, 2), FourDirections[2]) == (1, 1) && Step((1, 2), FourDirections[3]) == (1, 3);
    CaptureSumStep(g, (1, 2), Player1, 0);
    CaptureSumStep(g, (1, 2), Player1, 1);
    CaptureSumStep(g, (1, 2), Player1, 2);
    CaptureSumStep(g, (1, 2), Player1, 3);
    ProbeOutcome(g, (0, 2), Player1);
    ProbeOutcome(g, (2, 2), Player1);
    ProbeOutcome(g, (1, 3), Player1);
  }
}
