/** What placing a dot does to the game, as a function of the state before
    the move: validation, the placement, the early stop on a full board, the
    connecting lines, and the two capture checks with their scores. The
    game logic's `PlaceDot` is proved to compute exactly this. */
module Turn {
  import opened Grid
  import opened Flood
  import opened Capture
  import opened Segments

  /** The part of the game state a move reads or changes. */
  datatype State = State(
    grid: Cells,
    scores: map<Player, int>,
    current: Player,
    lines: seq<Line>,
    lastCaptured: int,
    filled: int,
    total: int)

  /** What always holds of the game state: a rectangular grid, a total equal
      to its number of cells, a filled counter equal to its number of dots,
      non-negative scores for both players and no line drawn twice. */
  ghost predicate Consistent(s: State)
  {
    && WellFormed(s.grid)
    && s.total == |s.grid| * |s.grid[0]|
    && s.filled == Filled(s.grid)
    && (forall q: Player :: q in s.scores && s.scores[q] >= 0)
    && Distinct(s.lines)
  }

  /** The current player's dot placed on `p`, counted as one more filled
      cell. */
  function Placed(s: State, p: Pos): (t: State)
    requires InBounds(s.grid, p)
    ensures InBounds(t.grid, p) && At(t.grid, p) == Dot(s.current)
    ensures t == s.(grid := t.grid, filled := s.filled + 1)
  {
    s.(grid := Place(s.grid, p, s.current), filled := s.filled + 1)
  }

  /** The lines drawn from the new dot `p` to the current player's
      neighbouring dots. */
  function WithLines(s: State, p: Pos): (t: State)
    ensures s.lines <= t.lines
    ensures t == s.(lines := t.lines)
  {
    AddLinksExtends(s.grid, p, s.current, s.lines, 0);
    s.(lines := AddLinks(s.grid, p, s.current, s.lines, 0))
  }

  /** The mover gains the opponent's dots in the surrounded groups next to
      `p`; the gain is also recorded as the last capture. */
  ghost function MoverCredited(s: State, p: Pos): (t: State)
    requires WellFormed(s.grid) && s.current in s.scores
    ensures t.lastCaptured >= 0 && t.scores.Keys == s.scores.Keys
    ensures t == s.(scores := t.scores, lastCaptured := t.lastCaptured)
  {
    var gained := CaptureSum(s.grid, p, Opponent(s.current), 0);
    s.(lastCaptured := gained, scores := s.scores[s.current := s.scores[s.current] + gained])
  }

  /** The opponent gains the mover's own dots in the surrounded groups next
      to `p`. */
  ghost function OpponentCredited(s: State, p: Pos): (t: State)
    requires WellFormed(s.grid) && Opponent(s.current) in s.scores
    ensures t.scores.Keys == s.scores.Keys
    ensures t == s.(scores := t.scores)
  {
    var opponent := Opponent(s.current);
    s.(scores := s.scores[opponent := s.scores[opponent] + CaptureSum(s.grid, p, s.current, 0)])
  }

  /** Placing a dot of the current player on `p`, and whether the game is over
      afterwards. A move on a cell that is off the board or taken changes
      nothing and reports false. A move that fills the board reports true at
      once, before lines or captures. Any other move draws its lines, scores
      captures both ways and reports whether the board is now full. */
  ghost function PlaceDotSpec(s: State, p: Pos): (r: (State, bool))
    requires Consistent(s)
    ensures Consistent(r.0)
  {
    if !IsFree(s.grid, p) then (s, false)
    else
      PlaceFillsOne(s.grid, p, s.current);
      var placed := Placed(s, p);
      if placed.filled >= placed.total then (placed, true)
      else
        AddLinksExtends(placed.grid, p, s.current, s.lines, 0);
        var after := OpponentCredited(MoverCredited(WithLines(placed, p), p), p);
        (after, after.filled >= after.total)
  }

  /** A move on a cell that is off the board or taken changes nothing. */
  lemma RejectedMoveChangesNothing(s: State, p: Pos)
    requires Consistent(s) && !IsFree(s.grid, p)
    ensures PlaceDotSpec(s, p) == (s, false)
  {
  }

  /** An accepted move writes the mover into that one cell, counts one more
      filled cell and keeps the mover; the capture checks change no cell. */
  lemma AcceptedMoveWritesOneCell(s: State, p: Pos)
    requires Consistent(s) && IsFree(s.grid, p)
    ensures var t := PlaceDotSpec(s, p).0;
      && |t.grid| == |s.grid|
      && At(t.grid, p) == Dot(s.current)
      && (forall q :: InBounds(s.grid, q) && q != p ==> InBounds(t.grid, q) && At(t.grid, q) == At(s.grid, q))
      && t.filled == s.filled + 1
      && t.current == s.current
  {
  }

  /** The move reports the end of the game exactly when it was accepted and
      left no free cell on the board. */
  lemma FullIffNoFreeCellLeft(s: State, p: Pos)
    requires Consistent(s)
    ensures PlaceDotSpec(s, p).1 <==>
      IsFree(s.grid, p) && forall q :: !IsFree(PlaceDotSpec(s, p).0.grid, q)
  {
    if IsFree(s.grid, p) {
      var g := Place(s.grid, p, s.current);
      PlaceFillsOne(s.grid, p, s.current);
      FullIffNoValidMove(g);
    }
  }

  /** A move that fills the board draws no line and scores nothing. */
  lemma FillingMoveScoresNothing(s: State, p: Pos)
    requires Consistent(s) && IsFree(s.grid, p) && s.filled + 1 >= s.total
    ensures var (t, full) := PlaceDotSpec(s, p);
      full && t.lines == s.lines && t.scores == s.scores && t.lastCaptured == s.lastCaptured
  {
  }

  /** Scores never go down, and no other key appears. */
  lemma ScoresNeverDecrease(s: State, p: Pos)
    requires Consistent(s)
    ensures var t := PlaceDotSpec(s, p).0;
      t.scores.Keys == s.scores.Keys && forall q :: q in s.scores ==> t.scores[q] >= s.scores[q]
  {
  }

  /** The mover's score rises exactly when the move is accepted, does not
      fill the board, and one of the four neighbours of the new dot belongs
      to a surrounded group of the opponent's; the rise is the recorded
      last capture. */
  lemma MoverGainsIffCapture(s: State, p: Pos)
    requires Consistent(s)
    ensures var t := PlaceDotSpec(s, p).0;
      t.scores[s.current] > s.scores[s.current] <==>
        && IsFree(s.grid, p) && s.filled + 1 < s.total
        && exists j :: 0 <= j < 4 &&
             ProbeSurrounded(Place(s.grid, p, s.current), Step(p, FourDirections[j]), Opponent(s.current))
    ensures var t := PlaceDotSpec(s, p).0;
      IsFree(s.grid, p) && s.filled + 1 < s.total ==>
        t.scores[s.current] == s.scores[s.current] + t.lastCaptured
  {
    if IsFree(s.grid, p) {
      CapturesIffSurroundedNeighbour(Place(s.grid, p, s.current), p, Opponent(s.current));
    }
  }

  /** The opponent's score rises exactly when the move is accepted, does not
      fill the board, and one of the four neighbours of the new dot belongs
      to a surrounded group of the mover's own. */
  lemma OpponentGainsIffSelfCapture(s: State, p: Pos)
    requires Consistent(s)
    ensures var t := PlaceDotSpec(s, p).0;
      t.scores[Opponent(s.current)] > s.scores[Opponent(s.current)] <==>
        && IsFree(s.grid, p) && s.filled + 1 < s.total
        && exists j :: 0 <= j < 4 &&
             ProbeSurrounded(Place(s.grid, p, s.current), Step(p, FourDirections[j]), s.current)
  {
    if IsFree(s.grid, p) {
      CapturesIffSurroundedNeighbour(Place(s.grid, p, s.current), p, s.current);
    }
  }

  /** An accepted move that does not fill the board goes through every
      step: placement, lines, the mover's credit, the opponent's credit. */
  lemma OrdinaryMoveSteps(s: State, p: Pos)
    requires Consistent(s) && IsFree(s.grid, p) && s.filled + 1 < s.total
    ensures var placed := Placed(s, p);
      WellFormed(placed.grid) && (forall q: Player :: q in placed.scores) &&
      PlaceDotSpec(s, p) == (OpponentCredited(MoverCredited(WithLines(placed, p), p), p), false)
  {
    PlaceFillsOne(s.grid, p, s.current);
  }

  /** A move that does not fill the board reports that the game goes on. */
  lemma OrdinaryMoveReportsFalse(s: State, p: Pos)
    requires Consistent(s) && IsFree(s.grid, p) && s.filled + 1 < s.total
    ensures !PlaceDotSpec(s, p).1
  {
  }

  /** The turn passes to the other player. */
  function PassTurn(s: State): (t: State)
    ensures t.current != s.current
    ensures t == s.(current := t.current)
  {
    s.(current := Opponent(s.current))
  }

  /** Switching twice gives the turn back. */
  lemma SwitchTwice(s: State)
    ensures PassTurn(PassTurn(s)) == s
  {
  }
}
