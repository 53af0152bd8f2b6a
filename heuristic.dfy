/** What the computer player's move choice means, stated on a grid: the
    capture probe, the proximity score and the candidate cells of the smart
    strategy, and the first valid sample of the random one. */
module Heuristic {
  import opened Grid
  import opened Flood
  import opened Capture

  /** Random play gives up after this many samples. */
  const MaxAttempts: nat := 500

  /** Probing `p` finds a surrounded group of player 1's next to it. The
      probe does not place a dot first: the flood runs on the grid as is. */
  ghost predicate ProbeFindsCapture(g: Cells, p: Pos)
    requires WellFormed(g)
  {
    exists k :: 0 <= k < 4 && ProbeSurrounded(g, Step(p, FourDirections[k]), Player1)
  }

  /** A free cell whose probe finds a surrounded player-1 group. */
  ghost predicate CaptureMove(g: Cells, p: Pos)
    requires WellFormed(g)
  {
    IsFree(g, p) && ProbeFindsCapture(g, p)
  }

  /** `a` comes before `b` when the board is read row by row. */
  predicate RowMajorBefore(a: Pos, b: Pos)
  {
    a.1 < b.1 || (a.1 == b.1 && a.0 < b.0)
  }

  /** The capture move that comes first row by row. */
  ghost predicate FirstCaptureMove(g: Cells, p: Pos)
    requires WellFormed(g)
  {
    CaptureMove(g, p) && forall q :: InBounds(g, q) && RowMajorBefore(q, p) ==> !CaptureMove(g, q)
  }

  /** There is at most one first capture move. */
  lemma FirstCaptureMoveUnique(g: Cells, p: Pos)
    requires WellFormed(g) && FirstCaptureMove(g, p)
    ensures forall q :: FirstCaptureMove(g, q) ==> q == p
  {
  }

  /** The k-th of the eight neighbours of `p` holds a dot of `owner`. */
  predicate NeighbourOwned(g: Cells, p: Pos, owner: Player, k: nat)
    requires k < 8
  {
    var n := Step(p, EightDirections[k]);
    InBounds(g, n) && At(g, n) == Dot(owner)
  }

  /** How many of the neighbours k.. of `p` hold a dot of `owner`. */
  function NeighbourCount(g: Cells, p: Pos, owner: Player, k: nat): (n: nat)
    requires k <= 8
    ensures n <= 8 - k
    decreases g, 8 - k
  {
    if k == 8 then 0
    else (if NeighbourOwned(g, p, owner, k) then 1 else 0) + NeighbourCount(g, p, owner, k + 1)
  }

  /** The proximity score of a cell: 3 per neighbouring dot of player 1 and
      1 per neighbouring dot of player 2. */
  function MoveScore(g: Cells, p: Pos): int
  {
    3 * NeighbourCount(g, p, Player1, 0) + NeighbourCount(g, p, Player2, 0)
  }

  lemma {:induction false} NeighbourCountPositive(g: Cells, p: Pos, owner: Player, k: nat)
    requires k <= 8
    ensures NeighbourCount(g, p, owner, k) > 0 <==> exists j :: k <= j < 8 && NeighbourOwned(g, p, owner, j)
    decreases 8 - k
  {
    if k < 8 {
      NeighbourCountPositive(g, p, owner, k + 1);
    }
  }

  /** A neighbour cannot hold dots of both players. */
  lemma {:induction false} NeighbourCountsShareEight(g: Cells, p: Pos, k: nat)
    requires k <= 8
    ensures NeighbourCount(g, p, Player1, k) + NeighbourCount(g, p, Player2, k) <= 8 - k
    decreases 8 - k
  {
    if k < 8 {
      NeighbourCountsShareEight(g, p, k + 1);
    }
  }

  /** The score lies between 0 and 24, and is 0 exactly when no neighbour
      holds a dot. */
  lemma MoveScoreBounds(g: Cells, p: Pos)
    ensures 0 <= MoveScore(g, p) <= 24
    ensures MoveScore(g, p) == 0 <==>
      forall j :: 0 <= j < 8 ==> !NeighbourOwned(g, p, Player1, j) && !NeighbourOwned(g, p, Player2, j)
  {
    NeighbourCountsShareEight(g, p, 0);
    NeighbourCountPositive(g, p, Player1, 0);
    NeighbourCountPositive(g, p, Player2, 0);
  }

  /** `c` is one of the eight neighbours of a dot of player 1. */
  ghost predicate NearPlayerDot(g: Cells, c: Pos)
  {
    exists d, k :: InBounds(g, d) && At(g, d) == Dot(Player1) && 0 <= k < 8 && c == Step(d, EightDirections[k])
  }

  /** `c` is one of the eight neighbours of some cell of `dots`. */
  ghost predicate NearAny(dots: seq<Pos>, c: Pos)
  {
    exists i, k :: 0 <= i < |dots| && 0 <= k < 8 && c == Step(dots[i], EightDirections[k])
  }

  /** The cells the strategic choice picks from: free cells next to a dot of
      player 1. */
  ghost predicate StrategicCandidate(g: Cells, c: Pos)
  {
    IsFree(g, c) && NearPlayerDot(g, c)
  }

  /** The eight directions come in opposite pairs k and 7 - k. */
  lemma OppositeDirection(k: nat)
    requires k < 8
    ensures EightDirections[7 - k].0 == -EightDirections[k].0
    ensures EightDirections[7 - k].1 == -EightDirections[k].1
  {
  }

  /** Every strategic candidate scores at least 3: it touches a dot of
      player 1. */
  lemma CandidateScoresThree(g: Cells, c: Pos)
    requires StrategicCandidate(g, c)
    ensures MoveScore(g, c) >= 3
  {
    var d, k :| InBounds(g, d) && At(g, d) == Dot(Player1) && 0 <= k < 8 && c == Step(d, EightDirections[k]);
    OppositeDirection(k);
    assert Step(c, EightDirections[7 - k]) == d;
    assert NeighbourOwned(g, c, Player1, 7 - k);
    NeighbourCountPositive(g, c, Player1, 0);
  }

  /** The first of the samples i.. that is a free cell, if one comes before
      the attempt limit. */
  function FirstValid(g: Cells, sample: nat -> Pos, i: nat): (r: Option<nat>)
    requires i <= MaxAttempts
    ensures r.Some? ==> i <= r.value < MaxAttempts && IsFree(g, sample(r.value))
    ensures r.Some? ==> forall j :: i <= j < r.value ==> !IsFree(g, sample(j))
    ensures r.None? ==> forall j :: i <= j < MaxAttempts ==> !IsFree(g, sample(j))
    decreases g, MaxAttempts - i
  {
    if i == MaxAttempts then None
    else if IsFree(g, sample(i)) then Some(i)
    else FirstValid(g, sample, i + 1)
  }

  /** On a full board random play never finds a cell. */
  lemma FullBoardNoSample(g: Cells, sample: nat -> Pos)
    requires forall p :: !IsFree(g, p)
    ensures FirstValid(g, sample, 0) == None
  {
  }

  /** Player 1's dots in the cells before (x, y), read row by row: the rows
      above y, then the cells of row y left of x. */
  function DotsBefore(g: Cells, y: nat, x: nat): (dots: seq<Pos>)
    requires WellFormed(g) && y <= |g| && x <= |g[0]| && (y == |g| ==> x == 0)
    decreases y, x
  {
    if x == 0 then (if y == 0 then [] else DotsBefore(g, y - 1, |g[0]|))
    else DotsBefore(g, y, x - 1) + (if g[y][x - 1] == Dot(Player1) then [(x - 1, y)] else [])
  }

  /** Every dot of player 1 on the board, row by row. */
  function PlayerDots(g: Cells): seq<Pos>
    requires WellFormed(g)
  {
    DotsBefore(g, |g|, 0)
  }

  /** The list holds exactly player 1's dots before (x, y), in strictly
      increasing row-major order. */
  lemma DotsBeforeExactly(g: Cells, y: nat, x: nat)
    requires WellFormed(g) && y <= |g| && x <= |g[0]| && (y == |g| ==> x == 0)
    ensures var dots := DotsBefore(g, y, x);
      && (forall d :: d in dots <==> InBounds(g, d) && At(g, d) == Dot(Player1) && RowMajorBefore(d, (x, y)))
      && (forall i, j :: 0 <= i < j < |dots| ==> RowMajorBefore(dots[i], dots[j]))
  {
    DotsBeforeMembers(g, y, x);
    DotsBeforeOrdered(g, y, x);
  }

  lemma {:induction false} DotsBeforeMembers(g: Cells, y: nat, x: nat)
    requires WellFormed(g) && y <= |g| && x <= |g[0]| && (y == |g| ==> x == 0)
    ensures forall d :: d in DotsBefore(g, y, x) <==> InBounds(g, d) && At(g, d) == Dot(Player1) && RowMajorBefore(d, (x, y))
    decreases y, x
  {
    if x == 0 {
      if y > 0 {
        DotsBeforeMembers(g, y - 1, |g[0]|);
      }
    } else {
      DotsBeforeMembers(g, y, x - 1);
    }
  }

  /** Each cell of `s` comes before every later one, row by row. */
  predicate RowMajorSorted(s: seq<Pos>)
  {
    forall i, j :: 0 <= i < j < |s| ==> RowMajorBefore(s[i], s[j])
  }

  lemma {:induction false} DotsBeforeOrdered(g: Cells, y: nat, x: nat)
    requires WellFormed(g) && y <= |g| && x <= |g[0]| && (y == |g| ==> x == 0)
    ensures RowMajorSorted(DotsBefore(g, y, x))
    decreases y, x
  {
    if x == 0 {
      if y > 0 {
        DotsBeforeOrdered(g, y - 1, |g[0]|);
      }
    } else {
      var prev := DotsBefore(g, y, x - 1);
      DotsBeforeOrdered(g, y, x - 1);
      DotsBeforeMembers(g, y, x - 1);
      assert RowMajorSorted(prev);
      if g[y][x - 1] == Dot(Player1) {
        var dots := prev + [(x - 1, y)];
        assert DotsBefore(g, y, x) == dots;
        forall i, j | 0 <= i < j < |dots| ensures RowMajorBefore(dots[i], dots[j]) {
          assert dots[i] == prev[i];
          if j == |prev| {
            assert prev[i] in prev;
          } else {
            assert dots[j] == prev[j];
          }
        }
      } else {
        assert DotsBefore(g, y, x) == prev + [];
      }
    }
  }

  /** `PlayerDots` lists exactly player 1's dots, row by row without
      repeats. */
  lemma PlayerDotsExactly(g: Cells)
    requires WellFormed(g)
    ensures forall d :: d in PlayerDots(g) <==> InBounds(g, d) && At(g, d) == Dot(Player1)
    ensures forall i, j :: 0 <= i < j < |PlayerDots(g)| ==> RowMajorBefore(PlayerDots(g)[i], PlayerDots(g)[j])
  {
    DotsBeforeExactly(g, |g|, 0);
    assert PlayerDots(g) == DotsBefore(g, |g|, 0);
  }

  /** The free cells among the first k of the eight neighbours of `d`, in
      direction order. */
  function Around(g: Cells, d: Pos, k: nat): seq<Pos>
    requires k <= 8
  {
    if k == 0 then []
    else
      var n := Step(d, EightDirections[k - 1]);
      Around(g, d, k - 1) + (if IsFree(g, n) then [n] else [])
  }

  /** The candidate cells next to the listed dots: for each dot in turn, its
      free neighbours in direction order. A cell next to several dots is
      listed once for each. */
  function Candidates(g: Cells, dots: seq<Pos>): seq<Pos>
  {
    if dots == [] then [] else Candidates(g, dots[..|dots| - 1]) + Around(g, dots[|dots| - 1], 8)
  }

  lemma {:induction false} AroundExactly(g: Cells, d: Pos, k: nat)
    requires k <= 8
    ensures forall c :: c in Around(g, d, k) <==> IsFree(g, c) && exists j :: 0 <= j < k && c == Step(d, EightDirections[j])
  {
    if k > 0 {
      AroundExactly(g, d, k - 1);
    }
  }

  /** A cell is a candidate exactly when it is free and one of the eight
      neighbours of a listed dot. */
  lemma {:induction false} CandidatesExactly(g: Cells, dots: seq<Pos>)
    ensures forall c :: c in Candidates(g, dots) <==> IsFree(g, c) && NearAny(dots, c)
  {
    if dots != [] {
      var init, last := dots[..|dots| - 1], dots[|dots| - 1];
      CandidatesExactly(g, init);
      AroundExactly(g, last, 8);
      forall c ensures NearAny(dots, c) <==> NearAny(init, c) || exists j :: 0 <= j < 8 && c == Step(last, EightDirections[j]) {
        if NearAny(dots, c) {
          var i, k :| 0 <= i < |dots| && 0 <= k < 8 && c == Step(dots[i], EightDirections[k]);
          if i < |init| {
            assert init[i] == dots[i];
          }
        }
        if NearAny(init, c) {
          var i, k :| 0 <= i < |init| && 0 <= k < 8 && c == Step(init[i], EightDirections[k]);
          assert dots[i] == init[i];
        }
      }
    }
  }

  /** The candidates next to player 1's dots are exactly the strategic
      candidates. */
  lemma StrategicCandidatesExactly(g: Cells)
    requires WellFormed(g)
    ensures forall c :: c in Candidates(g, PlayerDots(g)) <==> StrategicCandidate(g, c)
  {
    var dots := PlayerDots(g);
    PlayerDotsExactly(g);
    CandidatesExactly(g, dots);
    forall c ensures NearAny(dots, c) <==> NearPlayerDot(g, c) {
      if NearPlayerDot(g, c) {
        var d, k :| InBounds(g, d) && At(g, d) == Dot(Player1) && 0 <= k < 8 && c == Step(d, EightDirections[k]);
        var i :| 0 <= i < |dots| && dots[i] == d;
      }
      if NearAny(dots, c) {
        var i, k :| 0 <= i < |dots| && 0 <= k < 8 && c == Step(dots[i], EightDirections[k]);
        assert dots[i] in dots;
      }
    }
  }

  /** The move score of each candidate, in order. */
  function Scores(g: Cells, cands: seq<Pos>): (r: seq<int>)
    ensures |r| == |cands|
    ensures forall i :: 0 <= i < |cands| ==> r[i] >= 0
    ensures forall i {:trigger MoveScore(g, cands[i])} :: 0 <= i < |cands| ==> r[i] == MoveScore(g, cands[i])
  {
    forall i | 0 <= i < |cands| ensures MoveScore(g, cands[i]) >= 0 {
      MoveScoreBounds(g, cands[i]);
    }
    seq(|cands|, i requires 0 <= i < |cands| => MoveScore(g, cands[i]))
  }

  /** The choice among the first n candidates, given their scores: the
      index of the chosen candidate and its score, starting from the first
      candidate and a score of -1. A later candidate replaces the choice
      when it scores higher, or scores the same and its coin `coin(i)` comes
      up. */
  function Pick(scores: seq<int>, coin: nat -> bool, n: nat): (r: (nat, int))
    requires 0 < |scores| && n <= |scores|
    ensures r.0 < |scores|
  {
    if n == 0 then (0, -1)
    else
      var prev := Pick(scores, coin, n - 1);
      if scores[n - 1] > prev.1 || (scores[n - 1] == prev.1 && coin(n - 1)) then (n - 1, scores[n - 1]) else prev
  }

  /** With non-negative scores and at least one candidate seen, the choice
      is one of the candidates seen, its score is its own, and no candidate
      seen scores more. */
  lemma {:induction false} PickIsBest(scores: seq<int>, coin: nat -> bool, n: nat)
    requires 0 < n <= |scores| && forall i :: 0 <= i < |scores| ==> scores[i] >= 0
    ensures var r := Pick(scores, coin, n);
      r.0 < n && r.1 == scores[r.0] && forall j :: 0 <= j < n ==> scores[j] <= r.1
  {
    if n > 1 {
      PickIsBest(scores, coin, n - 1);
    }
  }

  /** When no coin comes up, the choice is the first best candidate. */
  lemma {:induction false} PickFirstWithoutCoins(scores: seq<int>, coin: nat -> bool, n: nat)
    requires 0 < n <= |scores| && forall i :: 0 <= i < |scores| ==> scores[i] >= 0
    requires forall i :: !coin(i)
    ensures var r := Pick(scores, coin, n);
      forall j :: 0 <= j < r.0 ==> scores[j] < r.1
  {
    if n > 1 {
      PickFirstWithoutCoins(scores, coin, n - 1);
      PickIsBest(scores, coin, n - 1);
    }
  }

  /** When every coin comes up, the choice is the last best candidate. */
  lemma {:induction false} PickLastWithCoins(scores: seq<int>, coin: nat -> bool, n: nat)
    requires 0 < n <= |scores| && forall i :: 0 <= i < |scores| ==> scores[i] >= 0
    requires forall i :: coin(i)
    ensures var r := Pick(scores, coin, n);
      forall j :: r.0 < j < n ==> scores[j] < r.1
  {
    if n > 1 {
      PickLastWithCoins(scores, coin, n - 1);
      PickIsBest(scores, coin, n - 1);
    }
  }

  /** The strategic choice: none without a dot of player 1 or without a
      candidate, otherwise the pick among all candidates. */
  function StrategicMove(g: Cells, coin: nat -> bool): Option<Pos>
    requires WellFormed(g)
  {
    var dots := PlayerDots(g);
    if |dots| == 0 then None
    else
      var cands := Candidates(g, dots);
      if |cands| == 0 then None else Some(cands[Pick(Scores(g, cands), coin, |cands|).0])
  }

  /** The candidate picked among a non-empty list scores at least as much
      as every candidate on the list. */
  lemma PickedScoresHighest(g: Cells, cands: seq<Pos>, coin: nat -> bool)
    requires 0 < |cands|
    ensures var p := cands[Pick(Scores(g, cands), coin, |cands|).0];
      forall c :: c in cands ==> MoveScore(g, c) <= MoveScore(g, p)
  {
    var scores := Scores(g, cands);
    PickIsBest(scores, coin, |cands|);
    var k := Pick(scores, coin, |cands|).0;
    assert scores[k] == MoveScore(g, cands[k]);
    forall c | c in cands ensures MoveScore(g, c) <= MoveScore(g, cands[k]) {
      var j :| 0 <= j < |cands| && cands[j] == c;
      assert scores[j] == MoveScore(g, cands[j]);
    }
  }

  /** The strategic choice exists exactly when some free cell touches a dot
      of player 1, and then it is such a cell with the highest score. */
  lemma StrategicMoveIsBest(g: Cells, coin: nat -> bool)
    requires WellFormed(g)
    ensures StrategicMove(g, coin).Some? <==> exists c :: StrategicCandidate(g, c)
    ensures var r := StrategicMove(g, coin);
      r.Some? ==>
        && StrategicCandidate(g, r.value)
        && forall c :: StrategicCandidate(g, c) ==> MoveScore(g, c) <= MoveScore(g, r.value)
  {
    var dots := PlayerDots(g);
    var cands := Candidates(g, dots);
    StrategicCandidatesExactly(g);
    if |dots| == 0 || |cands| == 0 {
      assert cands == [];
      assert forall c :: !StrategicCandidate(g, c) by {
        forall c ensures !StrategicCandidate(g, c) {
          assert c !in cands;
        }
      }
    } else {
      var p := cands[Pick(Scores(g, cands), coin, |cands|).0];
      assert StrategicMove(g, coin) == Some(p);
      assert p in cands;
      PickedScoresHighest(g, cands, coin);
    }
  }
}
