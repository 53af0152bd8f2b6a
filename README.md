# Dots game: a verified model of the rules engine

This project models the core of a two-player Dots game in Dafny. Players take
turns putting dots on the intersections of a (width+1) x (height+1) grid. A
move may surround groups of the opponent's dots, and each surrounded dot
scores a point for the mover. A move may also surround the mover's own dots,
which then score for the opponent. The game ends when every cell is taken.
A computer player plays either at random or "smart": first a capture, then a
cell next to player 1's dots, then at random. A leaderboard keeps the three
best results. A small piece of the UI turns the two final scores into a
result.

The model follows the Python source file by file:

- `grid.dfy` (`Grid`): cells, players, positions, placement and the
  filled-cell count.
- `flood.dfy` (`Flood`): the group search of `_get_group_with_status`. It is
  a breadth-first traversal defined as a recursive function, plus the
  "surrounded" test.
- `capture.dfy` (`Capture`): what the capture checks add up. There is one
  probe per orthogonal neighbour of the new dot.
- `segments.dfy` (`Segments`): the connecting lines `_check_neighbors`
  draws.
- `turn.dfy` (`Turn`): what `place_dot` does, as a function of the game
  state, split into the steps the method takes. It also covers
  `switch_player`.
- `heuristic.dfy` (`Heuristic`): the smart player's capture probe, its
  proximity score, its candidate cells and its tie-breaking choice. It also
  has the random player's choice of sample.
- `ai.dfy` (`Ai`): what a computer move does to the game state.
- `game_logic.dfy` (`Game`): the class `GameLogic` with its fields, written
  as imperative methods and loops. Every method is proved to compute
  exactly the matching function of the modules above.
- `leaderboard.dfy` (`Leaderboard`): the default table and the update rule.
  The update rejects a result, or appends it, sorts stably by key, keeps
  three entries and renumbers them.
- `game_result.dfy` (`GameOutcome`): the result of a game, its text and
  colour, and the score recorded for it.

State-changing methods of `GameLogic` state their whole new state through
`Snapshot()`, which packs the fields into a `Turn.State`. `PlaceDot` is proved
to produce exactly `Turn.PlaceDotSpec`. The lemmas about `PlaceDotSpec`
state what a move promises:

- A rejected move changes nothing.
- An accepted move fills exactly one cell.
- A move that fills the board stops at once.
- Scores never go down.
- Each score rises exactly when a surrounded group is found.

Randomness is a parameter. `sample(i)` is the cell drawn at the i-th attempt
of random play. `coin(i)` is the draw `random.random() < 0.5` made when the
i-th candidate ties with the best so far.

Two behaviours of the code are modelled as written:

- **Captures double-count shared groups.** `_check_captures` probes the four
  neighbours of the new dot independently. A surrounded group that touches
  the dot from two sides is counted once per side
  (`Capture.SharedGroupScoredTwice`). Self-capture behaves the same way.
- **Groups flood through empty cells.** A group grows through empty cells as
  well as the player's own dots. So a group whose empty surroundings reach
  the edge of the board is never surrounded, even when every neighbour of
  the player's dots that is not empty holds an opponent dot. For example,
  player 1's dots at (1,1), (2,1) and (1,2) with player 2's dot placed at
  (2,2) on a 6 x 6 board capture nothing: the group floods through the
  empty cells around it to the edge (`Capture.CornerGroupNotCaptured`).
  A single dot with opponent dots on all four sides is captured
  (`Capture.CentreDotCaptured`).

## Model

| member | source | states |
|---|---|---|
| Grid.EmptyGrid | dots/game_logic.py:36 | the start grid has height+1 rows of width+1 cells, all empty |
| Grid.EmptyGridUnfilled | dots/game_logic.py:36-41 | the start grid has no dot, matching the filled-cell counter's start value 0 |
| Grid.Place | dots/game_logic.py:76-78 | writing the player into a cell puts its dot there, keeps every other cell and keeps the grid's shape |
| Grid.PlaceFillsOne | dots/game_logic.py:76-79 | placing on a free cell adds exactly one to the number of dots on the board |
| Grid.FullIffNoValidMove | dots/game_logic.py:44-46 | the dot count never exceeds the cell count and reaches it exactly when no cell is free |
| Grid.OnEdgeIffBorder | dots/game_logic.py:154-162 | an orthogonal step leaves the board exactly from a cell in the first or last row or column |
| Flood.FloodFill | dots/game_logic.py:143-160 | the group starts with the seed, has no repeats and stays on the board; each member after the seed is empty or the player's; no step of the search leads out of it |
| Flood.Traverse | dots/game_logic.py:143-160 | definition of the breadth-first search: expand the queued cells in order, appending unvisited joinable neighbours, until the head reaches the end; its result keeps the search invariant and extends the queue it started from (properties in `Flood.ExpandStep` and `Flood.FloodFill`) |
| Flood.FloodFillLeast | dots/game_logic.py:150-160 | the group lies inside every set that contains the seed and that the search cannot leave |
| Flood.SameGroupFromMember | dots/game_logic.py:150-160 | a search started from any joinable member of a group finds the same set of cells |
| Flood.GrowFacts | dots/game_logic.py:154-160 | one expansion only appends, keeps the queue duplicate-free and on the board, and enqueues only unseen joinable neighbours |
| Flood.GrowAppends | dots/game_logic.py:154-160 | one expansion only appends, keeps the queue duplicate-free and on the board, and appends only joinable neighbours of the cell not enqueued before |
| Flood.GrowEnqueues | dots/game_logic.py:154-160 | after one expansion every joinable neighbour of the cell in the remaining directions is enqueued |
| Flood.GrowExtends | dots/game_logic.py:160 | one expansion never removes or reorders an enqueued cell |
| Flood.ExpandStep | dots/game_logic.py:150-160 | one round of the queue keeps the search invariant and its final result, and strictly shrinks the unvisited cells or ends |
| Flood.ClosedGroupSealed | dots/game_logic.py:163-171 | every on-board neighbour outside a closed group holds the opponent's dot |
| Flood.Enclosed | dots/game_logic.py:150-171 | definition of the surrounded flag: no member of the group is on the edge and every on-board neighbour outside the group holds the opponent (characterised by `Flood.EnclosedIffOffEdge`) |
| Flood.EnclosedIffOffEdge | dots/game_logic.py:150-171 | a searched group is reported surrounded exactly when none of its members lies on the board edge |
| Flood.EnclosedAwayFromBorder | dots/game_logic.py:156-162 | no member of a surrounded group is in the first or last row or column |
| Capture.OwnedCountIsSetSize | dots/game_logic.py:133 | the count of owned members of a duplicate-free group is the number of distinct owned cells |
| Capture.OwnedSetCons | dots/game_logic.py:133 | the owned cells of a group are those of its first cell, if owned, together with those of the rest |
| Capture.OwnedCount | dots/game_logic.py:133 | definition of the captured count: the members of the group holding the target's dots, at most the group's size (equal to the owned set's size by `Capture.OwnedCountIsSetSize`) |
| Capture.ProbeCapture | dots/game_logic.py:127-133 | definition of one probe: the owned count of the group flooded from a target dot when it is surrounded, else 0 (characterised by `Capture.ProbeScoresIffSurrounded`) |
| Capture.CaptureSum | dots/game_logic.py:127-133 | definition of the capture total: the sum of the probes in the four directions (characterised by `Capture.CapturesIffSurroundedNeighbour`) |
| Capture.ProbeScoresIffSurrounded | dots/game_logic.py:129-133 | a probe scores something exactly when it finds a surrounded group, and at most the group's size |
| Capture.ProbeOutcome | dots/game_logic.py:129-133 | helper: unfolds `Capture.ProbeCapture` by whether the probed cell holds a target dot |
| Capture.CapturesIffSurroundedNeighbour | dots/game_logic.py:125-136 | the capture total is positive exactly when one of the four probes finds a surrounded group |
| Capture.SameGroupSameProbe | dots/game_logic.py:127-133 | probing two members of one group scores the same |
| Capture.SharedGroupScoredTwice | dots/game_logic.py:127-133 | a surrounded group reached from two directions adds at least twice its count |
| Capture.EdgeNeighbourNotSurrounded | dots/game_logic.py:143-171 | a probed dot with an empty or own neighbour on the edge is in a group that is never surrounded, and the probe scores 0 |
| Capture.RingedDotScoresOne | dots/game_logic.py:127-171 | a target dot with opponent dots on all four sides is a group of its own, is surrounded and scores 1 |
| Capture.CornerGroupNotCaptured | dots/game_logic.py:127-171 | after player 1 plays (1,1), (2,1), (1,2) on an empty 6 x 6 board and player 2 plays (2,2), the capture check for player 1's groups scores 0 |
| Capture.EmptyCornerLeaks | dots/game_logic.py:127-171 | on a 6 x 6 board, a dot at (2,2) next to player 1's dots at (1,2) and (2,1), with (3,2), (2,3) and the edge cells (0,2), (2,0) empty, captures nothing |
| Capture.CentreDotCaptured | dots/game_logic.py:127-171 | player 1 in the centre of a 3 x 3 board with player 2 on its four sides, the last placed at (1,2), captures 1 |
| Segments.AddLinks | dots/game_logic.py:108-118 | definition of the line scan: each of the eight neighbours in turn holding the player's dot adds its line unless already present (properties in `Segments.AddLinksExtends`, `Segments.AddLinksComplete`, `Segments.AddLinksSound`) |
| Segments.AddLinksExtends | dots/game_logic.py:102-118 | the line list is only appended to and stays free of repeats |
| Segments.AddLinksComplete | dots/game_logic.py:108-118 | every neighbour holding the player's dot has its line in the list afterwards |
| Segments.AddLinksSound | dots/game_logic.py:108-118 | every line added joins the new dot to a neighbour holding the player's dot |
| Segments.AddLinksIdempotent | dots/game_logic.py:117-118 | examining the neighbours a second time adds nothing |
| Segments.AddLinksKeeps | dots/game_logic.py:117-118 | when every line is already present the list is unchanged |
| Turn.Placed | dots/game_logic.py:76-79 | the mover's dot is on the cell, the filled count is one higher and nothing else changes |
| Turn.WithLines | dots/game_logic.py:102-118 | the old lines are a prefix of the new ones and nothing else changes |
| Turn.MoverCredited | dots/game_logic.py:81-86 | only the scores and the last capture change; the last capture is non-negative and no score key is added |
| Turn.OpponentCredited | dots/game_logic.py:88-100 | only the scores change and no score key is added |
| Turn.PlaceDotSpec | dots/game_logic.py:54-68 | a move keeps the state consistent: rectangular grid, filled count equal to the dots, total equal to the cells, non-negative scores, distinct lines |
| Turn.RejectedMoveChangesNothing | dots/game_logic.py:56-57 | a move off the board or on a taken cell returns false and leaves the state as it was |
| Turn.AcceptedMoveWritesOneCell | dots/game_logic.py:59-66 | an accepted move writes the mover into that one cell, keeps every other cell, counts one more filled cell and keeps the turn |
| Turn.FullIffNoFreeCellLeft | dots/game_logic.py:61-68 | the move reports true exactly when it was accepted and no free cell is left |
| Turn.FillingMoveScoresNothing | dots/game_logic.py:61-62 | a move that fills the board reports true and leaves lines, scores and last capture unchanged |
| Turn.OrdinaryMoveSteps | dots/game_logic.py:59-66 | helper: unfolds `Turn.PlaceDotSpec` for an accepted move that leaves a free cell into placement, lines, mover's credit and opponent's credit |
| Turn.OrdinaryMoveReportsFalse | dots/game_logic.py:64-68 | an accepted move that leaves a free cell reports false |
| Turn.ScoresNeverDecrease | dots/game_logic.py:81-100 | no score goes down and no score key appears |
| Turn.MoverGainsIffCapture | dots/game_logic.py:81-86 | the mover's score rises exactly when a neighbour of the new dot is in a surrounded opponent group, and rises by the recorded last capture |
| Turn.OpponentGainsIffSelfCapture | dots/game_logic.py:88-100 | the opponent's score rises exactly when a neighbour of the new dot is in a surrounded group of the mover's own |
| Turn.PassTurn | dots/game_logic.py:175-177 | the turn goes to the other player and nothing else changes |
| Turn.SwitchTwice | dots/game_logic.py:175-177 | switching twice gives the turn back |
| Heuristic.FirstCaptureMove | dots/game_logic.py:204-210 | definition of the move the scan finds: a free cell whose probe finds a capture, with no such cell before it row by row (unique by `Heuristic.FirstCaptureMoveUnique`) |
| Heuristic.FirstCaptureMoveUnique | dots/game_logic.py:204-210 | the first capture move row by row is unique |
| Heuristic.NeighbourCountPositive | dots/game_logic.py:262-268 | a neighbour count is positive exactly when some neighbour holds that player's dot |
| Heuristic.NeighbourCountsShareEight | dots/game_logic.py:262-268 | together the two players hold at most eight neighbours |
| Heuristic.MoveScore | dots/game_logic.py:259-269 | definition of the proximity score: 3 per neighbouring dot of player 1 and 1 per neighbouring dot of player 2 (bounds in `Heuristic.MoveScoreBounds`) |
| Heuristic.MoveScoreBounds | dots/game_logic.py:259-269 | the proximity score lies in 0..24 and is 0 exactly when no neighbour holds a dot |
| Heuristic.CandidateScoresThree | dots/game_logic.py:233-242 | every free cell next to a dot of player 1 scores at least 3 |
| Heuristic.FirstValid | dots/game_logic.py:179-190 | the chosen attempt is the first free sample before the attempt limit; with none, no sample before the limit is free |
| Heuristic.FullBoardNoSample | dots/game_logic.py:179-190 | on a full board random play finds no cell |
| Heuristic.DotsBeforeExactly | dots/game_logic.py:226-230 | the partial list holds exactly player 1's dots read so far, in strictly increasing row-major order |
| Heuristic.DotsBeforeMembers | dots/game_logic.py:226-230 | a cell is in the partial list exactly when it holds a dot of player 1 and was read before the current position |
| Heuristic.DotsBeforeOrdered | dots/game_logic.py:226-230 | the partial list is in strictly increasing row-major order |
| Heuristic.PlayerDots | dots/game_logic.py:224-231 | definition of the dot list: player 1's dots read row by row (characterised by `Heuristic.PlayerDotsExactly`) |
| Heuristic.PlayerDotsExactly | dots/game_logic.py:224-231 | the dot list holds exactly player 1's dots, row by row, without repeats |
| Heuristic.AroundExactly | dots/game_logic.py:237-241 | the free cells listed around a dot are exactly its free neighbours |
| Heuristic.Candidates | dots/game_logic.py:233-242 | definition of the candidate list: the free neighbours of each dot in turn, in direction order, repeats kept (characterised by `Heuristic.CandidatesExactly`) |
| Heuristic.CandidatesExactly | dots/game_logic.py:233-242 | a cell is a candidate exactly when it is free and next to a listed dot |
| Heuristic.StrategicCandidatesExactly | dots/game_logic.py:212-242 | the candidates next to player 1's dots are exactly the free cells next to a dot of player 1 |
| Heuristic.Pick | dots/game_logic.py:249-257 | definition of the tie-breaking choice: start from index 0 and score -1, a later candidate replaces the choice when it scores higher, or equal with its coin up (properties in `Heuristic.PickIsBest` and the two coin lemmas) |
| Heuristic.PickIsBest | dots/game_logic.py:249-257 | the choice is one of the candidates seen, carries its own score, and no candidate seen scores more |
| Heuristic.PickFirstWithoutCoins | dots/game_logic.py:254 | when no tie-break draw succeeds, the first best candidate is chosen |
| Heuristic.PickLastWithCoins | dots/game_logic.py:254 | when every tie-break draw succeeds, the last best candidate is chosen |
| Heuristic.PickedScoresHighest | dots/game_logic.py:249-257 | the chosen candidate scores at least as much as every candidate on the list |
| Heuristic.StrategicMove | dots/game_logic.py:212-222 | definition of the strategic choice: none without a dot of player 1 or a candidate, else the pick among all candidates (characterised by `Heuristic.StrategicMoveIsBest`) |
| Heuristic.StrategicMoveIsBest | dots/game_logic.py:212-222 | a strategic move exists exactly when a free cell touches a dot of player 1, and it is such a cell with the highest score |
| Ai.AiPlay | dots/game_logic.py:271-275 | a computer move keeps the game state consistent |
| Ai.RandomMove | dots/game_logic.py:179-190 | random play keeps the game state consistent |
| Ai.SmartMove | dots/game_logic.py:192-202 | smart play keeps the game state consistent |
| Ai.NoCaptureMove | dots/game_logic.py:198-202 | play without a capture move, strategic or else random, keeps the game state consistent |
| Ai.AiPlayReportsItsCell | dots/game_logic.py:271-275 | playing a free cell puts the mover's dot there, keeps the turn, and reports the cell exactly when a free cell is left |
| Ai.RandomMoveOnFullBoard | dots/game_logic.py:179-190 | random play on a full board changes nothing and reports nothing |
| Ai.SmartMoveCapturesFirst | dots/game_logic.py:192-196 | when a capture move exists the smart player plays the first one row by row |
| Ai.SmartMovePlaysBestCandidate | dots/game_logic.py:198-200 | without a capture move, when a cell touches a dot of player 1, the smart player plays such a cell with the highest score |
| Ai.SmartMoveOnFullBoard | dots/game_logic.py:192-202 | smart play on a full board changes nothing and reports nothing |
| Ai.SmartMoveReportsItsCell | dots/game_logic.py:192-202 | any cell the smart player reports was free and now holds its dot |
| Game.GameLogic.constructor | dots/game_logic.py:26-42 | a new game has an empty board, both scores 0, player 1 to move, no lines, nothing filled and (width+1)(height+1) cells |
| Game.GameLogic.IsBoardFull | dots/game_logic.py:44-46 | the board is full exactly when no cell is free |
| Game.GameLogic.IsValidMove | dots/game_logic.py:48-52 | a move is valid exactly on an empty cell of the board |
| Game.GameLogic.ValidateMove | dots/game_logic.py:70-74 | the validation accepts exactly the empty cells of the board |
| Game.GameLogic.ExecuteMove | dots/game_logic.py:76-79 | the new state is the old one with the mover's dot placed and one more filled cell |
| Game.GameLogic.GetGroupWithStatus | dots/game_logic.py:138-173 | the group is the breadth-first flood from the seed, and the flag is the surrounded test on it |
| Game.GameLogic.CheckNeighbors | dots/game_logic.py:102-118 | the new state has the lines of `Segments.AddLinks` and is otherwise unchanged |
| Game.GameLogic.CheckCaptures | dots/game_logic.py:120-136 | the result and the last capture both equal the sum of the four probes for the opponent |
| Game.ProbeGroup | dots/game_logic.py:128-133 | one probe counts exactly `Capture.ProbeCapture`: the target's dots in the surrounded group seeded at a target dot next to the move, else 0 |
| Game.GameLogic.HandleCaptures | dots/game_logic.py:81-86 | the new state is `Turn.MoverCredited` of the old one |
| Game.GameLogic.CheckSelfCapture | dots/game_logic.py:88-100 | the new state is `Turn.OpponentCredited` of the old one |
| Game.GameLogic.PlaceDot | dots/game_logic.py:54-68 | the new state and the result are exactly `Turn.PlaceDotSpec` of the old state |
| Game.GameLogic.SwitchPlayer | dots/game_logic.py:175-177 | the new state is `Turn.PassTurn` of the old one |
| Game.GameLogic.MakeAiMoveRandom | dots/game_logic.py:179-190 | the new state and the result are exactly `Ai.RandomMove` of the old state |
| Game.GameLogic.MakeAiMoveSmart | dots/game_logic.py:192-202 | the new state and the result are exactly `Ai.SmartMove` of the old state |
| Game.GameLogic.FindCaptureMove | dots/game_logic.py:204-210 | a reported cell is the first capture move row by row; with none reported there is no capture move |
| Game.GameLogic.FindStrategicMove | dots/game_logic.py:212-222 | the state is unchanged and the result is `Heuristic.StrategicMove` |
| Game.GameLogic.GetPlayerDots | dots/game_logic.py:224-231 | the result is player 1's dots row by row |
| Game.GameLogic.GetCandidateMoves | dots/game_logic.py:233-242 | the result is the free neighbours of each dot in turn, in direction order |
| Game.GameLogic.SelectBestMove | dots/game_logic.py:244-257 | with candidates the state is unchanged and the result is the tie-broken pick; with none, random play is made and its cell, or (0, 0), returned |
| Game.GameLogic.BestCandidate | dots/game_logic.py:249-257 | the loop returns the candidate that the tie-breaking pick chooses over the candidates' scores |
| Game.GameLogic.CalculateMoveScore | dots/game_logic.py:259-269 | the result is 3 per neighbouring dot of player 1 plus 1 per neighbouring dot of player 2 |
| Game.GameLogic.ExecuteAiMove | dots/game_logic.py:271-275 | the new state and the result are exactly `Ai.AiPlay` of the old state |
| Game.GameLogic.WouldCapturePlayer | dots/game_logic.py:277-286 | true exactly when a neighbour holds a dot of player 1 whose group is surrounded |
| Game.ProbeForCapture | dots/game_logic.py:279-286 | the loop answers the capture probe of the cell |
| Game.CreditSelfCaptures | dots/game_logic.py:90-100 | the opponent's entry grows by exactly the sum of the four self-capture probes |
| Game.DrawLinks | dots/game_logic.py:107-118 | the loop produces the line list of `Segments.AddLinks` |
| Game.Search | dots/game_logic.py:143-171 | the queue loop yields the flood of `Flood.Traverse` and the surrounded test on it |
| Game.Round | dots/game_logic.py:150-162 | one turn of the queue keeps the search invariant and the final result, and the visited matrix marks exactly the enqueued cells |
| Game.RoundFacts | dots/game_logic.py:150-162 | moving the head of the queue to the group and appending its expansion keeps the search invariant, leaves the traversal unchanged and brings the search closer to its end |
| Game.ExpandCell | dots/game_logic.py:154-162 | expanding a cell enqueues exactly `Flood.Grow`'s new cells, marks them visited, and clears the flag when a step leaves the board |
| Game.Visit | dots/game_logic.py:155-162 | a neighbour on the board is enqueued and marked exactly when it is unvisited and joinable; a neighbour off the board clears the surrounded flag |
| Game.CheckSealed | dots/game_logic.py:163-171 | the flag stays set exactly when every on-board neighbour outside the group holds the opponent |
| Leaderboard.DefaultTable | dots/leaderboard.py:30-33 | the default table has exactly three entries with places 1, 2, 3, name "None" and score 0 |
| Leaderboard.LoadLeaderboard | dots/leaderboard.py:24-37 | without a file the default table, otherwise the stored entries |
| Leaderboard.Key | dots/leaderboard.py:59 | definition of the sort key: the score of a real entry and -1 for a placeholder named "None" |
| Leaderboard.SortDescending | dots/leaderboard.py:59 | definition of the sort: insertion by key, highest first, equal keys kept in input order (characterised by `Leaderboard.SortDescendingIsStableSort` and `Leaderboard.SortDescendingIsTheStableSort`) |
| Leaderboard.SortDescendingIsStableSort | dots/leaderboard.py:59 | the sort is a permutation, non-increasing by key, and keeps the order of entries with equal keys |
| Leaderboard.StableOrderUnique | dots/leaderboard.py:59 | two key-ordered sequences with the same entries of each key, in the same order, are equal |
| Leaderboard.InitsAgree | dots/leaderboard.py:59 | two key-ordered sequences with the same entries of each key end in the same entry, and what precedes it agrees in the same way |
| Leaderboard.SortDescendingIsTheStableSort | dots/leaderboard.py:59 | any stable descending arrangement of the entries is the model's sorted sequence |
| Leaderboard.SortDescendingKeepsSorted | dots/leaderboard.py:59 | a table already ordered by key is left as it is |
| Leaderboard.SortDescendingIdempotent | dots/leaderboard.py:59 | sorting twice is sorting once |
| Leaderboard.Top | dots/leaderboard.py:60 | the first three entries, or all when there are fewer |
| Leaderboard.Renumbered | dots/leaderboard.py:62-63 | entry i gets place i+1 and keeps its name and score |
| Leaderboard.Rejects | dots/leaderboard.py:55-56 | definition of the rejection test: the last entry is a real result and the new score does not beat it (used by `Leaderboard.UpdateLeaderboard`) |
| Leaderboard.Ranked | dots/leaderboard.py:58-63 | definition of the new table: the new entry appended, sorted, the first three kept and renumbered (properties in `Leaderboard.RankedShape`, `Leaderboard.RankedOrder`, `Leaderboard.RankedFromInputs`) |
| Leaderboard.RankedShape | dots/leaderboard.py:58-63 | an accepted update leaves min(n+1, 3) entries, placed 1, 2, ... in order, with the names and scores of the first sorted entries |
| Leaderboard.RankedOrder | dots/leaderboard.py:59-60 | the kept entries are ordered by key and no dropped entry has a higher key than a kept one |
| Leaderboard.RankedFromInputs | dots/leaderboard.py:58-60 | the kept entries come from the old table or are the new entry, each at most as often as there |
| Leaderboard.NewEntryLastAmongEqual | dots/leaderboard.py:58-59 | among entries with the new entry's key, the new entry ranks last |
| Leaderboard.UpdateLeaderboard | dots/leaderboard.py:49-66 | an empty stored table fails on its last entry; otherwise the result is rejected exactly when the last entry is real and not beaten, and a saved table is the ranked one |
| Leaderboard.NewResultOnDefaultTable | dots/leaderboard.py:49-63 | a first real result on the default table takes place 1 ahead of two placeholders |
| Leaderboard.NewResultInTheMiddle | dots/leaderboard.py:49-63 | Alice 100, Bob 80, Charlie 50 plus Dave 90 give Alice, Dave, Bob |
| Leaderboard.EqualToLastIsRejected | dots/leaderboard.py:55-56 | a full table of real results rejects a score equal to its last |
| GameOutcome.DetermineResult | dots/dots_game.py:34-42 | blue wins exactly when blue scores more, red exactly when red scores more, a draw exactly on equal scores |
| GameOutcome.DetermineResultSwaps | dots/dots_game.py:38-42 | swapping the scores swaps the two wins and keeps a draw |
| GameOutcome.WinnerText | dots/dots_game.py:23-26 | the text is "Синий игрок" exactly for a blue win, "Красный игрок" exactly for a red win and "Ничья" exactly for a draw |
| GameOutcome.Color | dots/dots_game.py:28-31 | the colour is "darkblue" exactly for a blue win, "darkred" exactly for a red win and "black" exactly for a draw |
| GameOutcome.AnnouncedResult | dots/dots_game.py:23-42 | the final scores are announced as the blue player in dark blue exactly when blue has more, the red player in dark red exactly when red has more, and a draw in black exactly on equal scores |
| GameOutcome.WinningScore | dots/dots_game.py:150-155 | the recorded score is one of the two scores, at least both, and the winner's score for a win |

## Left out

- The UI callback `update_scoreboard` (dots/game_logic.py:86 and 100) and
  the `game_ui` constructor parameter: they only redraw the screen.
- Game.GameLogic.constructor: takes `width` and `height` as natural numbers,
  and every state keeps a grid with at least one row and one column. The
  source accepts any integers, and the size dialog rejects only sizes above
  30 x 33 (dots/dots_game.py:482). A negative size gives a board without
  cells: a negative width gives empty rows, and a negative height gives no
  rows. No move on such a board is valid. The cell total
  `(width + 1) * (height + 1)` (dots/game_logic.py:40) is then 0 when a size
  is -1, negative when exactly one size is below -1 and the other is at
  least 0, and positive when both are -2 or less. The board is reported full
  from the start exactly when that total is 0 or negative, so with both
  sizes -2 or less it is never full. Random play draws from
  `random.randint(0, width)` and `random.randint(0, height)`
  (dots/game_logic.py:183-184), which raise ValueError for a negative size.
  The model does not cover these boards.
- The unused `_controlled_areas` field (dots/game_logic.py:42).
- Game.GameLogic.CheckNeighbors: lines are kept in grid coordinates rather
  than canvas pixels. The pixel form uses `CELL_SIZE`, `OFFSET_X` and
  `OFFSET_Y` from `constants.py`, which is not part of this model. The map
  from grid to pixels is one-to-one, so the no-duplicate rule is the same.
- The random number generator: `random.randint` and `random.random()` are
  the parameters `sample` and `coin`.
  - Game.GameLogic.MakeAiMoveRandom: a sample is any position, not only one
    drawn within the board. Off-board samples are rejected like taken
    cells.
  - Heuristic.Pick: `coin(i)` is consulted only on a tie, as the draw is in
    the source.
- Game.GameLogic.CheckSelfCapture: the source adds each surrounded group's
  count to the opponent's score as soon as it is found. The model adds up
  the four probes and writes the total once. The final score is the same.
  Only the left-out UI callback `update_scoreboard` (dots/game_logic.py:100)
  sees the running totals between groups; the model has no such
  intermediate state.
- Game.GameLogic.GetGroupWithStatus: requires a seed on the board. Every
  caller passes one. Python's negative list indices for an off-board seed
  are not modelled.
- The leaderboard file: `save_leaderboard`, JSON, `Path.exists` and pydantic
  validation are left out. The file is the parameter `File` and the saved
  table is returned. A malformed file is not modelled; an empty stored table
  gives `IndexError`, as reading its last entry does.
- Python's `list.sort(reverse=True)` is modelled as a stable insertion sort.
  It is proved equal to every stable descending arrangement
  (`Leaderboard.SortDescendingIsTheStableSort`).
- In `dots_game.py`, everything except `determine_result`, the text and
  colour maps and the winning-score map is tkinter UI: dialogs, canvas,
  click handling and the end-of-game message.
