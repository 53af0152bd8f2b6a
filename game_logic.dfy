/** The rules engine of the Dots game: the board, moves, captures, the turn
    and the computer player. Each method that changes the game is proved to
    move the state exactly as `Turn.PlaceDotSpec` describes; each method that
    only looks at the board is proved against the definitions of the Flood,
    Capture and Heuristic modules. */
module Game {
  import opened Grid
  import opened Flood
  import opened Capture
  import opened Segments
  import opened Heuristic
  import opened Turn
  import opened Ai

  class GameLogic {
    const width: nat
    const height: nat
    var scores: map<Player, int>
    var grid: Cells
    var currentPlayer: Player
    var lines: seq<Line>
    var lastCaptured: int
    const totalCells: int
    var filledCells: int

    /** The state a move reads and changes. */
    ghost function Snapshot(): State
      reads this
    {
      State(grid, scores, currentPlayer, lines, lastCaptured, filledCells, totalCells)
    }

    /** The grid has height + 1 rows of width + 1 cells. */
    ghost predicate Shaped()
      reads this
    {
      |grid| == height + 1 && forall y :: 0 <= y < |grid| ==> |grid[y]| == width + 1
    }

    /** The grid is shaped and the state is consistent. */
    ghost predicate Valid()
      reads this
    {
      Shaped() && Consistent(Snapshot())
    }

    /** A new game: an empty board, no lines, both scores 0, player 1 to move. */
    constructor (width: nat, height: nat)
      ensures Valid()
      ensures this.width == width && this.height == height
      ensures Snapshot() == State(EmptyGrid(width, height), map[Player1 := 0, Player2 := 0], Player1, [], 0, 0,
        (width + 1) * (height + 1))
    {
      this.width := width;
      this.height := height;
      scores := map[Player1 := 0, Player2 := 0];
      grid := EmptyGrid(width, height);
      currentPlayer := Player1;
      lines := [];
      lastCaptured := 0;
      totalCells := (width + 1) * (height + 1);
      filledCells := 0;
      new;
      EmptyGridUnfilled(width, height);
      forall q: Player ensures q in scores && scores[q] >= 0 {
        assert q == Player1 || q == Player2;
      }
    }

    /** The board is full exactly when no free cell is left. */
    function IsBoardFull(): (full: bool)
      reads this
      requires Valid()
      ensures full <==> forall p :: !IsFree(grid, p)
    {
      FullIffNoValidMove(grid);
      filledCells >= totalCells
    }

    /** A move is valid exactly on a free cell of the board. */
    function IsValidMove(x: int, y: int): (ok: bool)
      reads this
      requires Valid()
      ensures ok <==> IsFree(grid, (x, y))
    {
      if !(0 <= x <= width && 0 <= y <= height) then false
      else grid[y][x] == Empty
    }

    /** The validation `PlaceDot` runs; the same test as `IsValidMove`. */
    function ValidateMove(x: int, y: int): (ok: bool)
      reads this
      requires Valid()
      ensures ok <==> IsFree(grid, (x, y))
    {
      if !(0 <= x <= width && 0 <= y <= height) then false
      else grid[y][x] == Empty
    }

    /** Puts the current player's dot on a free cell and counts it. */
    method ExecuteMove(x: int, y: int)
      requires Valid() && IsFree(grid, (x, y))
      modifies this`grid, this`filledCells
      ensures Valid()
      ensures Snapshot() == Placed(old(Snapshot()), (x, y))
    {
      PlaceFillsOne(grid, (x, y), currentPlayer);
      grid := grid[y := grid[y][x := Dot(currentPlayer)]];
      filledCells := filledCells + 1;
    }

    /** The group of `player` reachable from (x, y) through cells that are
        empty or hold `player`, in the order the breadth-first search visits
        them, and whether it is surrounded by the other player. */
    method GetGroupWithStatus(x: int, y: int, player: Player) returns (group: seq<Pos>, surrounded: bool)
      requires Shaped() && 0 <= x <= width && 0 <= y <= height
      ensures group == FloodFill(grid, (x, y), player)
      ensures surrounded == Enclosed(grid, group, Opponent(player))
    {
      group, surrounded := Search(grid, width, height, (x, y), player);
    }

    /** Draws a line from the new dot (x, y) to every neighbouring dot of the
        current player, skipping lines already drawn. */
    method CheckNeighbors(x: int, y: int)
      requires Shaped()
      modifies this`lines
      ensures Snapshot() == WithLines(old(Snapshot()), (x, y))
    {
      lines := DrawLinks(grid, width, height, (x, y), currentPlayer, lines);
    }

    /** The number of the opponent's dots in surrounded groups touching the
        new dot orthogonally, one probe per direction; it is also recorded
        as the last capture. */
    method CheckCaptures(x: int, y: int) returns (captured: int)
      requires Shaped()
      modifies this`lastCaptured
      ensures captured == lastCaptured == CaptureSum(grid, (x, y), Opponent(currentPlayer), 0)
    {
      var g, opponent := grid, Opponent(currentPlayer);
      captured := 0;
      for k := 0 to 4
        invariant captured + CaptureSum(g, (x, y), opponent, k) == CaptureSum(g, (x, y), opponent, 0)
      {
        var found := ProbeGroup(g, width, height, Step((x, y), FourDirections[k]), opponent);
        assert CaptureSum(g, (x, y), opponent, k) == found + CaptureSum(g, (x, y), opponent, k + 1) by {
          CaptureSumStep(g, (x, y), opponent, k);
        }
        captured := captured + found;
      }
      lastCaptured := captured;
    }

    /** Credits the current player with the dots it captures around (x, y). */
    method HandleCaptures(x: int, y: int)
      requires Shaped() && currentPlayer in scores
      modifies this`lastCaptured, this`scores
      ensures Snapshot() == MoverCredited(old(Snapshot()), (x, y))
    {
      ghost var target := MoverCredited(Snapshot(), (x, y));
      var mover, before := currentPlayer, scores;
      var captures := CheckCaptures(x, y);
      assert captures == target.lastCaptured;
      if captures > 0 {
        scores := before[mover := before[mover] + captures];
      } else {
        AddNothing(before, mover);
      }
      assert scores == target.scores;
    }

    /** Credits the opponent with the current player's own dots in
        surrounded groups touching (x, y) orthogonally, one probe per
        direction. */
    method CheckSelfCapture(x: int, y: int)
      requires Shaped() && Opponent(currentPlayer) in scores
      modifies this`scores
      ensures Snapshot() == OpponentCredited(old(Snapshot()), (x, y))
    {
      var opponent := Opponent(currentPlayer);
      var credit := CreditSelfCaptures(grid, width, height, (x, y), currentPlayer, scores[opponent]);
      scores := scores[opponent := credit];
    }

    /** Places the current player's dot on (x, y) and reports whether the
        game is over; the whole change of state is `PlaceDotSpec`. */
    method PlaceDot(x: int, y: int) returns (full: bool)
      requires Valid()
      modifies this
      ensures Valid()
      ensures (Snapshot(), full) == PlaceDotSpec(old(Snapshot()), (x, y))
    {
      ghost var s := Snapshot();
      if !ValidateMove(x, y) {
        return false;
      }
      ExecuteMove(x, y);
      if IsBoardFull() {
        return true;
      }
      OrdinaryMoveSteps(s, (x, y));
      ghost var placed := Snapshot();
      CheckNeighbors(x, y);
      ghost var linked := Snapshot();
      HandleCaptures(x, y);
      ghost var credited := Snapshot();
      CheckSelfCapture(x, y);
      assert Snapshot() == OpponentCredited(MoverCredited(WithLines(Placed(s, (x, y)), (x, y)), (x, y)), (x, y));
      full := IsBoardFull();
    }

    /** Passes the turn to the other player. */
    method SwitchPlayer()
      requires Valid()
      modifies this`currentPlayer
      ensures Valid()
      ensures Snapshot() == PassTurn(old(Snapshot()))
    {
      currentPlayer := if currentPlayer == Player1 then Player2 else Player1;
    }

    /** Random play: up to `MaxAttempts` cells are drawn, `sample(i)` at the
        i-th attempt; the first free one is played and reported unless the
        move ends the game. */
    method MakeAiMoveRandom(sample: nat -> Pos) returns (r: Option<Pos>)
      requires Valid()
      modifies this
      ensures Valid()
      ensures (Snapshot(), r) == RandomMove(old(Snapshot()), sample)
    {
      var attempts := 0;
      while attempts < MaxAttempts
        invariant attempts <= MaxAttempts
        invariant Valid() && Snapshot() == old(Snapshot())
        invariant FirstValid(grid, sample, attempts) == FirstValid(grid, sample, 0)
        decreases MaxAttempts - attempts
      {
        var (x, y) := sample(attempts);
        if IsValidMove(x, y) {
          var full := PlaceDot(x, y);
          if full {
            return None;
          }
          return Some((x, y));
        }
        attempts := attempts + 1;
      }
      return None;
    }

    /** Smart play: the first capture move row by row, else the strategic
        choice, else random play; the cell played is reported unless the
        move ends the game. */
    method MakeAiMoveSmart(coin: nat -> bool, sample: nat -> Pos) returns (r: Option<Pos>)
      requires Valid()
      modifies this
      ensures Valid()
      ensures (Snapshot(), r) == SmartMove(old(Snapshot()), coin, sample)
    {
      var captureMove := FindCaptureMove();
      if captureMove.Some? {
        SmartMoveCapturesFirst(Snapshot(), coin, sample, captureMove.value);
        r := ExecuteAiMove(captureMove.value.0, captureMove.value.1);
        return;
      }
      var strategicMove := FindStrategicMove(coin, sample);
      if strategicMove.Some? {
        r := ExecuteAiMove(strategicMove.value.0, strategicMove.value.1);
        return;
      }
      r := MakeAiMoveRandom(sample);
    }

    /** The first free cell, row by row, whose probe finds a surrounded
        group of player 1's; none when no cell does. */
    method FindCaptureMove() returns (r: Option<Pos>)
      requires Valid()
      ensures r.Some? ==> FirstCaptureMove(grid, r.value)
      ensures r.None? ==> forall p :: !CaptureMove(grid, p)
    {
      for y := 0 to height + 1
        invariant forall q :: InBounds(grid, q) && q.1 < y ==> !CaptureMove(grid, q)
      {
        for x := 0 to width + 1
          invariant forall q :: InBounds(grid, q) && RowMajorBefore(q, (x, y)) ==> !CaptureMove(grid, q)
        {
          if IsValidMove(x, y) {
            var captures := WouldCapturePlayer(x, y);
            if captures {
              return Some((x, y));
            }
          }
          assert !CaptureMove(grid, (x, y));
          forall q | InBounds(grid, q) && RowMajorBefore(q, (x + 1, y)) ensures !CaptureMove(grid, q) {
            if q != (x, y) {
              assert RowMajorBefore(q, (x, y));
            }
          }
        }
      }
      return None;
    }

    /** The strategic choice: none without a dot of player 1 or a free cell
        next to one, otherwise the best-scoring such cell. */
    method FindStrategicMove(coin: nat -> bool, sample: nat -> Pos) returns (r: Option<Pos>)
      requires Valid()
      modifies this
      ensures Valid() && Snapshot() == old(Snapshot())
      ensures r == StrategicMove(grid, coin)
    {
      var playerDots := GetPlayerDots();
      if |playerDots| == 0 {
        return None;
      }
      var candidateMoves := GetCandidateMoves(playerDots);
      if |candidateMoves| == 0 {
        return None;
      }
      var best := SelectBestMove(candidateMoves, coin, sample);
      return Some(best);
    }

    /** Player 1's dots, row by row. */
    method GetPlayerDots() returns (dots: seq<Pos>)
      requires Valid()
      ensures dots == PlayerDots(grid)
    {
      dots := [];
      for y := 0 to height + 1
        invariant dots == DotsBefore(grid, y, 0)
      {
        for x := 0 to width + 1
          invariant dots == DotsBefore(grid, y, x)
        {
          if grid[y][x] == Dot(Player1) {
            dots := dots + [(x, y)];
          }
        }
        assert DotsBefore(grid, y + 1, 0) == DotsBefore(grid, y, width + 1);
      }
    }

    /** The free neighbours of each listed dot in turn, in direction order. */
    method GetCandidateMoves(dots: seq<Pos>) returns (cands: seq<Pos>)
      requires Valid()
      ensures cands == Candidates(grid, dots)
    {
      cands := [];
      for i := 0 to |dots|
        invariant cands == Candidates(grid, dots[..i])
      {
        var (x, y) := dots[i];
        for k := 0 to 8
          invariant cands == Candidates(grid, dots[..i]) + Around(grid, dots[i], k)
        {
          var nx, ny := x + EightDirections[k].0, y + EightDirections[k].1;
          if 0 <= nx <= width && 0 <= ny <= height {
            if IsValidMove(nx, ny) {
              cands := cands + [(nx, ny)];
            }
          }
        }
        assert dots[..i + 1][..i] == dots[..i];
      }
      assert dots[..|dots|] == dots;
    }

    /** The best-scoring candidate, ties going to a later candidate when its
        coin comes up. With no candidate it falls back on random play and
        reports the cell played, or (0, 0) when none was. */
    method SelectBestMove(cands: seq<Pos>, coin: nat -> bool, sample: nat -> Pos) returns (best: Pos)
      requires Valid()
      modifies this
      ensures Valid()
      ensures |cands| > 0 ==>
        Snapshot() == old(Snapshot()) && best == cands[Pick(Scores(grid, cands), coin, |cands|).0]
      ensures |cands| == 0 ==> var (t, r) := RandomMove(old(Snapshot()), sample);
        Snapshot() == t && best == (if r.Some? then r.value else (0, 0))
    {
      if |cands| == 0 {
        var played := MakeAiMoveRandom(sample);
        return if played.Some? then played.value else (0, 0);
      }
      best := BestCandidate(cands, coin, Scores(grid, cands));
    }

    /** The loop of SelectBestMove over a non-empty candidate list, given
        the candidates' scores as ghost values. */
    method BestCandidate(cands: seq<Pos>, coin: nat -> bool, ghost scores: seq<int>) returns (best: Pos)
      requires Shaped() && 0 < |cands| == |scores|
      requires forall i {:trigger MoveScore(grid, cands[i])} :: 0 <= i < |cands| ==> scores[i] == MoveScore(grid, cands[i])
      ensures best == cands[Pick(scores, coin, |cands|).0]
    {
      best := cands[0];
      var bestScore := -1;
      for i := 0 to |cands|
        invariant best == cands[Pick(scores, coin, i).0] && bestScore == Pick(scores, coin, i).1
      {
        var score := CalculateMoveScore(cands[i].0, cands[i].1);
        assert score == scores[i];
        if score > bestScore || (score == bestScore && coin(i)) {
          bestScore := score;
          best := cands[i];
        }
      }
    }

    /** The proximity score of (x, y): 3 per neighbouring dot of player 1,
        1 per neighbouring dot of player 2. */
    method CalculateMoveScore(x: int, y: int) returns (score: int)
      requires Shaped()
      ensures score == MoveScore(grid, (x, y))
    {
      var g := grid;
      score := 0;
      for k := 0 to 8
        invariant score + 3 * NeighbourCount(g, (x, y), Player1, k) + NeighbourCount(g, (x, y), Player2, k)
          == MoveScore(g, (x, y))
      {
        var n := Step((x, y), EightDirections[k]);
        if 0 <= n.0 <= width && 0 <= n.1 <= height {
          if g[n.1][n.0] == Dot(Player1) {
            score := score + 3;
          } else if g[n.1][n.0] == Dot(Player2) {
            score := score + 1;
          }
        }
      }
    }

    /** Plays (x, y) for the computer and reports it, or none when the move
        ends the game. */
    method ExecuteAiMove(x: int, y: int) returns (r: Option<Pos>)
      requires Valid()
      modifies this
      ensures Valid()
      ensures (Snapshot(), r) == AiPlay(old(Snapshot()), (x, y))
    {
      var full := PlaceDot(x, y);
      if full {
        return None;
      }
      return Some((x, y));
    }

    /** Whether the probe of (x, y) finds a surrounded group of player 1's
        among its orthogonal neighbours. */
    method WouldCapturePlayer(x: int, y: int) returns (captures: bool)
      requires Shaped()
      ensures captures <==> ProbeFindsCapture(grid, (x, y))
    {
      captures := ProbeForCapture(grid, width, height, (x, y));
    }
  }

  /** The loop of `WouldCapturePlayer`, on a grid of height + 1 rows of
      width + 1 cells. */
  method ProbeForCapture(g: Cells, width: nat, height: nat, p: Pos) returns (captures: bool)
    requires |g| == height + 1 && forall j :: 0 <= j < |g| ==> |g[j]| == width + 1
    ensures captures <==> ProbeFindsCapture(g, p)
  {
    for k := 0 to 4
      invariant forall j :: 0 <= j < k ==> !ProbeSurrounded(g, Step(p, FourDirections[j]), Player1)
    {
      var nx, ny := p.0 + FourDirections[k].0, p.1 + FourDirections[k].1;
      ghost var c := Step(p, FourDirections[k]);
      assert c == (nx, ny);
      if 0 <= nx <= width && 0 <= ny <= height {
        if g[ny][nx] == Dot(Player1) {
          var group, surrounded := Search(g, width, height, (nx, ny), Player1);
          assert group == FloodFill(g, c, Player1);
          if surrounded {
            assert ProbeSurrounded(g, c, Player1);
            return true;
          }
        }
      }
      assert !ProbeSurrounded(g, c, Player1);
    }
    return false;
  }

  /** The loop of `CheckSelfCapture`, on a grid of height + 1 rows of
      width + 1 cells: each orthogonal neighbour of `p` holding a dot of
      `mover` is flooded, and each surrounded group adds the mover's dots in
      it to the opponent's score `entry`. */
  method CreditSelfCaptures(g: Cells, width: nat, height: nat, p: Pos, mover: Player, entry: int)
    returns (credit: int)
    requires |g| == height + 1 && forall j :: 0 <= j < |g| ==> |g[j]| == width + 1
    ensures credit == entry + CaptureSum(g, p, mover, 0)
  {
    credit := entry;
    for k := 0 to 4
      invariant credit + CaptureSum(g, p, mover, k) == entry + CaptureSum(g, p, mover, 0)
    {
      var selfCaptures := ProbeGroup(g, width, height, Step(p, FourDirections[k]), mover);
      assert CaptureSum(g, p, mover, k) == selfCaptures + CaptureSum(g, p, mover, k + 1) by {
        CaptureSumStep(g, p, mover, k);
      }
      if selfCaptures > 0 {
        credit := credit + selfCaptures;
      }
    }
  }

  /** One probe of the capture checks: when `c` is on the board and holds a
      dot of `target`, its group is flooded and, if surrounded, the target's
      dots in it are counted; otherwise the probe counts 0. */
  method ProbeGroup(g: Cells, width: nat, height: nat, c: Pos, target: Player) returns (count: nat)
    requires |g| == height + 1 && forall j :: 0 <= j < |g| ==> |g[j]| == width + 1
    ensures count == ProbeCapture(g, c, target)
  {
    ProbeOutcome(g, c, target);
    count := 0;
    if 0 <= c.0 <= width && 0 <= c.1 <= height {
      if g[c.1][c.0] == Dot(target) {
        var group, surrounded := Search(g, width, height, c, target);
        if surrounded {
          count := OwnedCount(g, group, target);
        }
      }
    }
  }

  /** The loop of `CheckNeighbors`, on a grid of height + 1 rows of
      width + 1 cells. */
  method DrawLinks(g: Cells, width: nat, height: nat, p: Pos, player: Player, lines: seq<Line>) returns (drawn: seq<Line>)
    requires |g| == height + 1 && forall j :: 0 <= j < |g| ==> |g[j]| == width + 1
    ensures drawn == AddLinks(g, p, player, lines, 0)
  {
    var color := PlayerColor(player);
    drawn := lines;
    for k := 0 to 8
      invariant AddLinks(g, p, player, drawn, k) == AddLinks(g, p, player, lines, 0)
    {
      var nx, ny := p.0 + EightDirections[k].0, p.1 + EightDirections[k].1;
      ghost var segment := Segment(p, Step(p, EightDirections[k]), player);
      ghost var next := if Linked(g, p, player, k) && segment !in drawn then drawn + [segment] else drawn;
      AddLinksStep(g, p, player, drawn, k);
      if 0 <= nx <= width && 0 <= ny <= height {
        if g[ny][nx] == Dot(player) {
          var line := Line(p.0, p.1, nx, ny, color);
          assert line == segment;
          if line !in drawn {
            drawn := drawn + [line];
          }
        }
      }
      assert drawn == next;
    }
  }

  /** The breadth-first search behind `GetGroupWithStatus`, on a grid of
      height + 1 rows of width + 1 cells. */
  method Search(g: Cells, width: nat, height: nat, seed: Pos, player: Player) returns (group: seq<Pos>, surrounded: bool)
    requires WellFormed(g) && |g| == height + 1 && forall j :: 0 <= j < |g| ==> |g[j]| == width + 1
    requires 0 <= seed.0 <= width && 0 <= seed.1 <= height
    ensures group == Traverse(g, player, [seed], 0)
    ensures surrounded == Enclosed(g, group, Opponent(player))
  {
    var visited := new bool[height + 1, width + 1]((_, _) => false);
    var queue := [seed];
    visited[seed.1, seed.0] := true;
    group := [];
    surrounded := true;
    var opponent := Opponent(player);
    // `order` lists every cell enqueued so far; the first `head` of them
    // form the group and the rest are still waiting in the queue.
    ghost var order: seq<Pos>, head: nat := [seed], 0;

    while queue != []
      invariant visited.Length0 == height + 1 && visited.Length1 == width + 1
      invariant FloodInv(g, player, order, head)
      invariant Traverse(g, player, order, head) == Traverse(g, player, [seed], 0)
      invariant group == order[..head] && queue == order[head..]
      invariant Marks(visited, order)
      invariant surrounded == AllOffEdge(g, group)
      decreases Board(g) - Elems(order), |order| - head
    {
      group, queue, surrounded, order, head := Round(g, width, height, visited, player, group, queue, surrounded, order, head);
    }

    surrounded := CheckSealed(g, group, opponent, surrounded);
  }

  /** One turn of the search loop: the head of the queue moves to the group
      and its neighbours are expanded. */
  method Round(g: Cells, width: nat, height: nat, visited: array2<bool>, player: Player,
               group: seq<Pos>, queue: seq<Pos>, surrounded: bool, ghost order: seq<Pos>, ghost head: nat)
    returns (group': seq<Pos>, queue': seq<Pos>, surrounded': bool, ghost order': seq<Pos>, ghost head': nat)
    requires |g| == height + 1 && forall j :: 0 <= j < |g| ==> |g[j]| == width + 1
    requires visited.Length0 == height + 1 && visited.Length1 == width + 1
    requires FloodInv(g, player, order, head)
    requires group == order[..head] && queue == order[head..] && queue != []
    requires Marks(visited, order)
    requires surrounded == AllOffEdge(g, group)
    modifies visited
    ensures FloodInv(g, player, order', head')
    ensures Traverse(g, player, order', head') == Traverse(g, player, order, head)
    ensures group' == order'[..head'] && queue' == order'[head'..]
    ensures Marks(visited, order')
    ensures surrounded' == AllOffEdge(g, group')
    ensures Board(g) - Elems(order') < Board(g) - Elems(order) ||
      (Board(g) - Elems(order') == Board(g) - Elems(order) && |order'| - head' < |order| - head)
  {
    var c := queue[0];
    queue' := queue[1..];
    AllOffEdgeSnoc(g, group, c);
    group' := group + [c];
    var added;
    added, surrounded' := ExpandCell(g, width, height, visited, order, c, player, surrounded);
    queue' := queue' + added;
    order', head' := order + added, head + 1;
    RoundFacts(g, player, order, head, group, queue, added, group', queue', order', head');
  }

  /** The ghost bookkeeping of one round: the cell at `head` moves from the
      queue to the group, its expansion is appended to the queue, the
      traversal is unchanged and the search gets closer to its end. */
  lemma RoundFacts(g: Cells, player: Player, order: seq<Pos>, head: nat, group: seq<Pos>, queue: seq<Pos>,
                   added: seq<Pos>, group': seq<Pos>, queue': seq<Pos>, order': seq<Pos>, head': nat)
    requires FloodInv(g, player, order, head)
    requires group == order[..head] && queue == order[head..] && queue != []
    requires group' == group + [queue[0]] && queue' == queue[1..] + added
    requires order' == order + added && head' == head + 1
    requires order' == Grow(g, player, order, queue[0], 0)
    ensures FloodInv(g, player, order', head')
    ensures Traverse(g, player, order', head') == Traverse(g, player, order, head)
    ensures group' == order'[..head'] && queue' == order'[head'..]
    ensures Board(g) - Elems(order') < Board(g) - Elems(order) ||
      (Board(g) - Elems(order') == Board(g) - Elems(order) && |order'| - head' < |order| - head)
  {
    SliceStep(order, head, added);
    ExpandStep(g, player, order, head, order');
  }

  /** One round of the search: each neighbour of `c` that is on the board,
      not yet visited, and empty or held by `player` is marked and enqueued,
      in direction order; a neighbour off the board clears `surrounded`.
      `order` is the list of cells enqueued so far, and `added` the cells
      this round appends to the queue. */
  method ExpandCell(g: Cells, width: nat, height: nat, visited: array2<bool>, ghost order: seq<Pos>, c: Pos, player: Player, surrounded: bool)
    returns (added: seq<Pos>, surrounded': bool)
    requires |g| == height + 1 && forall j :: 0 <= j < |g| ==> |g[j]| == width + 1
    requires visited.Length0 == height + 1 && visited.Length1 == width + 1
    requires Marks(visited, order)
    modifies visited
    ensures order + added == Grow(g, player, order, c, 0)
    ensures Marks(visited, order + added)
    ensures surrounded' == (surrounded && !OnEdge(g, c))
  {
    added := [];
    surrounded' := surrounded;
    ghost var cur := order;
    for k := 0 to 4
      invariant cur == order + added
      invariant Grow(g, player, cur, c, k) == Grow(g, player, order, c, 0)
      invariant Marks(visited, cur)
      invariant surrounded' == (surrounded && StepsInBounds(g, c, k))
    {
      var n := Step(c, FourDirections[k]);
      ghost var before, wasSurrounded := cur, surrounded';
      var joined;
      joined, surrounded' := Visit(g, width, height, visited, cur, n, player, surrounded');
      if joined {
        assert order + (added + [n]) == cur + [n];
        added := added + [n];
        cur := cur + [n];
      }
      assert Grow(g, player, cur, c, k + 1) == Grow(g, player, order, c, 0) by {
        GrowStep(g, player, before, c, k);
      }
      assert surrounded' == (surrounded && StepsInBounds(g, c, k + 1)) by {
        StepsInBoundsNext(g, c, k);
      }
    }
  }

  /** One neighbour `n` of the cell being expanded: on the board, it joins
      the queue when it is not yet visited and is empty or held by
      `player`, and it is then marked as visited; off the board, it clears
      `surrounded`. */
  method Visit(g: Cells, width: nat, height: nat, visited: array2<bool>, ghost cur: seq<Pos>, n: Pos, player: Player,
               surrounded: bool)
    returns (joined: bool, surrounded': bool)
    requires |g| == height + 1 && forall j :: 0 <= j < |g| ==> |g[j]| == width + 1
    requires visited.Length0 == height + 1 && visited.Length1 == width + 1
    requires Marks(visited, cur)
    modifies visited
    ensures joined == (Joinable(g, player, n) && n !in cur)
    ensures Marks(visited, if joined then cur + [n] else cur)
    ensures surrounded' == (surrounded && InBounds(g, n))
  {
    joined, surrounded' := false, surrounded;
    if 0 <= n.0 <= width && 0 <= n.1 <= height {
      if !visited[n.1, n.0] {
        if g[n.1][n.0] == Dot(player) || g[n.1][n.0] == Empty {
          visited[n.1, n.0] := true;
          joined := true;
        }
      }
    } else {
      surrounded' := false;
    }
  }

  /** The second pass of the search: `surrounded` stays set only if every
      in-bounds 4-neighbour of a member that is outside the group holds
      `opponent`; the pass stops at the first one that does not. */
  method CheckSealed(g: Cells, group: seq<Pos>, opponent: Player, surrounded: bool) returns (sealed: bool)
    ensures sealed == (surrounded && AllSealed(g, group, opponent))
  {
    sealed := surrounded;
    var m := 0;
    while m < |group|
      invariant 0 <= m <= |group|
      invariant sealed ==>
        surrounded && forall i, k :: 0 <= i < m && 0 <= k < 4 ==> SealedDir(g, group, group[i], k, opponent)
      invariant !sealed ==> !(surrounded && AllSealed(g, group, opponent))
    {
      var c := group[m];
      for k := 0 to 4
        invariant sealed ==>
          surrounded && forall d :: 0 <= d < k ==> SealedDir(g, group, c, d, opponent)
        invariant !sealed ==> !(surrounded && AllSealed(g, group, opponent))
      {
        var n := Step(c, FourDirections[k]);
        if InBounds(g, n) {
          if n !in group && At(g, n) != Dot(opponent) {
            assert !SealedDir(g, group, group[m], k, opponent);
            sealed := false;
            break;
          }
        }
      }
      if !sealed {
        break;
      }
      m := m + 1;
    }
  }

  /** Moving the read position of `order` one cell on, and appending
      `added`, splits the list as the loop's group and queue. */
  lemma SliceStep(order: seq<Pos>, head: nat, added: seq<Pos>)
    requires head < |order|
    ensures (order + added)[..head + 1] == order[..head] + [order[head]]
    ensures (order + added)[head + 1..] == order[head..][1..] + added
  {
  }

  /** Adding 0 to a score leaves the table as it was. */
  lemma AddNothing(m: map<Player, int>, q: Player)
    requires q in m
    ensures m[q := m[q] + 0] == m
  {
  }

  /** The visited matrix marks exactly the enqueued cells. */
  ghost predicate Marks(visited: array2<bool>, order: seq<Pos>)
    reads visited
  {
    forall j, i :: 0 <= j < visited.Length0 && 0 <= i < visited.Length1 ==>
      (visited[j, i] <==> (i, j) in order)
  }
}
