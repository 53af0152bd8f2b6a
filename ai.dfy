/** What a move of the computer player does to the game: the random
    strategy, which tries sampled cells, and the smart strategy, which
    captures first, then plays next to the opponent's dots, and falls back
    on random play. The random generator is a parameter: `sample(i)` is
    the cell drawn at the i-th attempt and `coin(i)` the draw made when the
    i-th candidate ties with the best so far. */
module Ai {
  import opened Grid
  import opened Flood
  import opened Capture
  import opened Heuristic
  import opened Turn

  /** Playing `p` for the computer: the move as the game makes it, and the
      cell reported back, or none when the move ended the game. */
  ghost function AiPlay(s: State, p: Pos): (r: (State, Option<Pos>))
    requires Consistent(s)
    ensures Consistent(r.0)
  {
    var (t, full) := PlaceDotSpec(s, p);
    (t, if full then None else Some(p))
  }

  /** The random strategy: the first free sample within the attempt limit is
      played; with none the state is left as it was. */
  ghost function RandomMove(s: State, sample: nat -> Pos): (r: (State, Option<Pos>))
    requires Consistent(s)
    ensures Consistent(r.0)
  {
    match FirstValid(s.grid, sample, 0)
    case None => (s, None)
    case Some(i) => AiPlay(s, sample(i))
  }

  /** The smart strategy: the first capture move row by row if there is
      one, otherwise the strategic choice, otherwise random play. */
  ghost function SmartMove(s: State, coin: nat -> bool, sample: nat -> Pos): (r: (State, Option<Pos>))
    requires Consistent(s)
    ensures Consistent(r.0)
  {
    if exists p :: FirstCaptureMove(s.grid, p) then
      var p :| FirstCaptureMove(s.grid, p);
      AiPlay(s, p)
    else
      NoCaptureMove(s, coin, sample)
  }

  /** The smart strategy once no move captures: the strategic choice,
      otherwise random play. */
  ghost function NoCaptureMove(s: State, coin: nat -> bool, sample: nat -> Pos): (r: (State, Option<Pos>))
    requires Consistent(s)
    ensures Consistent(r.0)
  {
    match StrategicMove(s.grid, coin)
    case Some(p) => AiPlay(s, p)
    case None => RandomMove(s, sample)
  }

  /** Playing a free cell puts the mover's dot there and keeps the turn
      with the mover; the cell is reported back exactly when a free cell
      is left afterwards. */
  lemma AiPlayReportsItsCell(s: State, p: Pos)
    requires Consistent(s) && IsFree(s.grid, p)
    ensures var (t, r) := AiPlay(s, p);
      && InBounds(t.grid, p) && At(t.grid, p) == Dot(s.current)
      && t.current == s.current
      && (r.Some? <==> exists q :: IsFree(t.grid, q))
      && (r.Some? ==> r.value == p)
  {
    AcceptedMoveWritesOneCell(s, p);
    FullIffNoFreeCellLeft(s, p);
  }

  /** Random play on a board with no free cell changes nothing. */
  lemma RandomMoveOnFullBoard(s: State, sample: nat -> Pos)
    requires Consistent(s) && forall p :: !IsFree(s.grid, p)
    ensures RandomMove(s, sample) == (s, None)
  {
    FullBoardNoSample(s.grid, sample);
  }

  /** When some move captures, the smart strategy plays the first capture
      move row by row. */
  lemma SmartMoveCapturesFirst(s: State, coin: nat -> bool, sample: nat -> Pos, p: Pos)
    requires Consistent(s) && FirstCaptureMove(s.grid, p)
    ensures SmartMove(s, coin, sample) == AiPlay(s, p)
  {
    FirstCaptureMoveUnique(s.grid, p);
  }

  /** Without a capture move, the smart strategy plays a free cell next to
      a dot of player 1 with the highest score whenever there is such a
      cell. */
  lemma SmartMovePlaysBestCandidate(s: State, coin: nat -> bool, sample: nat -> Pos)
    requires Consistent(s)
    requires forall p :: !FirstCaptureMove(s.grid, p)
    requires exists c :: StrategicCandidate(s.grid, c)
    ensures var p := StrategicMove(s.grid, coin);
      && p.Some?
      && SmartMove(s, coin, sample) == AiPlay(s, p.value)
      && StrategicCandidate(s.grid, p.value)
      && forall c :: StrategicCandidate(s.grid, c) ==> MoveScore(s.grid, c) <= MoveScore(s.grid, p.value)
  {
    StrategicMoveIsBest(s.grid, coin);
  }

  /** On a board with no free cell the smart strategy changes nothing. */
  lemma SmartMoveOnFullBoard(s: State, coin: nat -> bool, sample: nat -> Pos)
    requires Consistent(s) && forall p :: !IsFree(s.grid, p)
    ensures SmartMove(s, coin, sample) == (s, None)
  {
    StrategicMoveIsBest(s.grid, coin);
    FullBoardNoSample(s.grid, sample);
  }

  /** Whatever the smart strategy reports is a cell that was free and now
      holds the mover's dot. */
  lemma SmartMoveReportsItsCell(s: State, coin: nat -> bool, sample: nat -> Pos)
    requires Consistent(s)
    ensures var (t, r) := SmartMove(s, coin, sample);
      r.Some? ==> IsFree(s.grid, r.value) && InBounds(t.grid, r.value) && At(t.grid, r.value) == Dot(s.current)
  {
    if exists p :: FirstCaptureMove(s.grid, p) {
      var p :| FirstCaptureMove(s.grid, p);
      SmartMoveCapturesFirst(s, coin, sample, p);
      AiPlayReportsItsCell(s, p);
    } else {
      match StrategicMove(s.grid, coin)
      case Some(p) =>
        StrategicMoveIsBest(s.grid, coin);
        AiPlayReportsItsCell(s, p);
      case None =>
        match FirstValid(s.grid, sample, 0)
        case None =>
        case Some(i) => AiPlayReportsItsCell(s, sample(i));
    }
  }
}
