/** How a finished game is reported: who won, the text and colour shown
    for it, and the score that goes to the leaderboard. */
module GameOutcome {

  datatype GameResult = BlueWin | RedWin | Draw

  /** The result from the two final scores. */
  function DetermineResult(blueScore: int, redScore: int): (r: GameResult)
    ensures r == BlueWin <==> blueScore > redScore
    ensures r == RedWin <==> redScore > blueScore
    ensures r == Draw <==> blueScore == redScore
  {
    if blueScore > redScore then BlueWin
    else if redScore > blueScore then RedWin
    else Draw
  }

  /** The same result seen from the other side. */
  function Swapped(r: GameResult): GameResult
  {
    match r
    case BlueWin => RedWin
    case RedWin => BlueWin
    case Draw => Draw
  }

  /** Swapping the two scores swaps the two wins and keeps a draw. */
  lemma DetermineResultSwaps(blueScore: int, redScore: int)
    ensures DetermineResult(redScore, blueScore) == Swapped(DetermineResult(blueScore, redScore))
  {
  }

  /** The text naming the winner, or announcing a draw: each result has
      its own text. */
  function WinnerText(r: GameResult): (t: string)
    ensures t == "Синий игрок" <==> r == BlueWin
    ensures t == "Красный игрок" <==> r == RedWin
    ensures t == "Ничья" <==> r == Draw
  {
    match r
    case BlueWin => "Синий игрок"
    case RedWin => "Красный игрок"
    case Draw => "Ничья"
  }

  /** The colour the result is shown in: each result has its own colour. */
  function Color(r: GameResult): (c: string)
    ensures c == "darkblue" <==> r == BlueWin
    ensures c == "darkred" <==> r == RedWin
    ensures c == "black" <==> r == Draw
  {
    match r
    case BlueWin => "darkblue"
    case RedWin => "darkred"
    case Draw => "black"
  }

  /** How the final scores are announced: the blue player's name in dark
      blue when blue has more points, the red player's name in dark red
      when red has more, and a draw in black when they are level. */
  lemma AnnouncedResult(blueScore: int, redScore: int)
    ensures var r := DetermineResult(blueScore, redScore);
      (WinnerText(r) == "Синий игрок" && Color(r) == "darkblue") <==> blueScore > redScore
    ensures var r := DetermineResult(blueScore, redScore);
      (WinnerText(r) == "Красный игрок" && Color(r) == "darkred") <==> redScore > blueScore
    ensures var r := DetermineResult(blueScore, redScore);
      (WinnerText(r) == "Ничья" && Color(r) == "black") <==> blueScore == redScore
  {
  }

  /** The score recorded for the game: the winner's score, and the higher
      of the two (they are equal) for a draw. */
  function WinningScore(blueScore: int, redScore: int): (w: int)
    ensures w >= blueScore && w >= redScore
    ensures w == blueScore || w == redScore
    ensures DetermineResult(blueScore, redScore) == BlueWin ==> w == blueScore
    ensures DetermineResult(blueScore, redScore) == RedWin ==> w == redScore
  {
    match DetermineResult(blueScore, redScore)
    case BlueWin => blueScore
    case RedWin => redScore
    case Draw => if blueScore >= redScore then blueScore else redScore
  }
}
