/** The connecting lines drawn after a move: a line from the new dot to
    every dot of the same player among its eight neighbours, each line drawn
    at most once. Lines are kept in grid coordinates; the game stores them
    in canvas pixels, a fixed affine image of these. */
module Segments {
  import opened Grid

  /** A line from (x1, y1) to (x2, y2) in a player's colour. */
  datatype Line = Line(x1: int, y1: int, x2: int, y2: int, color: string)

  /** The drawing colour of each player. */
  function PlayerColor(p: Player): string
  {
    if p == Player1 then "darkblue" else "darkred"
  }

  /** The line from `p` to `n` in `player`'s colour. */
  function Segment(p: Pos, n: Pos, player: Player): Line
  {
    Line(p.0, p.1, n.0, n.1, PlayerColor(player))
  }

  /** The k-th of the eight neighbours of `p` holds a dot of `player`. */
  predicate Linked(g: Cells, p: Pos, player: Player, k: nat)
    requires k < 8
  {
    var n := Step(p, EightDirections[k]);
    InBounds(g, n) && At(g, n) == Dot(player)
  }

  /** The line list after the neighbours k.. of `p` are examined: each
      neighbour holding a dot of `player` contributes its line unless that
      line is already in the list. */
  function AddLinks(g: Cells, p: Pos, player: Player, lines: seq<Line>, k: nat): seq<Line>
    requires k <= 8
    decreases g, 8 - k
  {
    if k == 8 then lines
    else
      var line := Segment(p, Step(p, EightDirections[k]), player);
      var next := if Linked(g, p, player, k) && line !in lines then lines + [line] else lines;
      AddLinks(g, p, player, next, k + 1)
  }

  /** The lines are only ever appended to, and stay free of repeats. */
  lemma {:induction false} AddLinksExtends(g: Cells, p: Pos, player: Player, lines: seq<Line>, k: nat)
    requires k <= 8
    ensures lines <= AddLinks(g, p, player, lines, k)
    ensures Distinct(lines) ==> Distinct(AddLinks(g, p, player, lines, k))
    decreases 8 - k
  {
    if k < 8 {
      var line := Segment(p, Step(p, EightDirections[k]), player);
      var next := if Linked(g, p, player, k) && line !in lines then lines + [line] else lines;
      AddLinksExtends(g, p, player, next, k + 1);
    }
  }

  /** Every neighbour k.. that holds a dot of `player` ends up linked. */
  lemma AddLinksComplete(g: Cells, p: Pos, player: Player, lines: seq<Line>, k: nat)
    requires k <= 8
    ensures forall j :: k <= j < 8 && Linked(g, p, player, j) ==>
      Segment(p, Step(p, EightDirections[j]), player) in AddLinks(g, p, player, lines, k)
  {
    forall j | k <= j < 8 && Linked(g, p, player, j)
      ensures Segment(p, Step(p, EightDirections[j]), player) in AddLinks(g, p, player, lines, k)
    {
      AddLinksHas(g, p, player, lines, k, j);
    }
  }

  lemma {:induction false} AddLinksHas(g: Cells, p: Pos, player: Player, lines: seq<Line>, k: nat, j: nat)
    requires k <= j < 8 && Linked(g, p, player, j)
    ensures Segment(p, Step(p, EightDirections[j]), player) in AddLinks(g, p, player, lines, k)
    decreases 8 - k
  {
    var line := Segment(p, Step(p, EightDirections[k]), player);
    var next := if Linked(g, p, player, k) && line !in lines then lines + [line] else lines;
    if j == k {
      assert line in next;
      AddLinksExtends(g, p, player, next, k + 1);
    } else {
      AddLinksHas(g, p, player, next, k + 1, j);
    }
  }

  /** `line` joins `p` to one of its neighbours k.. holding a dot of
      `player`. */
  ghost predicate LinkFrom(g: Cells, p: Pos, player: Player, k: nat, line: Line)
  {
    exists j :: k <= j < 8 && Linked(g, p, player, j) && line == Segment(p, Step(p, EightDirections[j]), player)
  }

  /** Every line added joins `p` to a neighbour k.. holding a dot of
      `player`. */
  lemma {:induction false} AddLinksSound(g: Cells, p: Pos, player: Player, lines: seq<Line>, k: nat)
    requires k <= 8
    ensures forall i :: |lines| <= i < |AddLinks(g, p, player, lines, k)| ==>
      LinkFrom(g, p, player, k, AddLinks(g, p, player, lines, k)[i])
    decreases 8 - k
  {
    if k < 8 {
      var line := Segment(p, Step(p, EightDirections[k]), player);
      var next := if Linked(g, p, player, k) && line !in lines then lines + [line] else lines;
      var r := AddLinks(g, p, player, next, k + 1);
      assert AddLinks(g, p, player, lines, k) == r;
      AddLinksSound(g, p, player, next, k + 1);
      AddLinksExtends(g, p, player, next, k + 1);
      forall i | |lines| <= i < |r|
        ensures LinkFrom(g, p, player, k, r[i])
      {
        if i < |next| {
          assert next == lines + [line] && i == |lines|;
          assert r[i] == next[i] == line;
          assert Linked(g, p, player, k);
        } else {
          assert LinkFrom(g, p, player, k + 1, r[i]);
        }
      }
    }
  }

  /** One step of `AddLinks`, unfolded. */
  lemma AddLinksStep(g: Cells, p: Pos, player: Player, lines: seq<Line>, k: nat)
    requires k < 8
    ensures var line := Segment(p, Step(p, EightDirections[k]), player);
      AddLinks(g, p, player, lines, k) ==
        AddLinks(g, p, player, if Linked(g, p, player, k) && line !in lines then lines + [line] else lines, k + 1)
  {
  }

  /** Examining the neighbours again adds nothing: every line the first pass
      could add is already there. */
  lemma {:induction false} AddLinksIdempotent(g: Cells, p: Pos, player: Player, lines: seq<Line>, k: nat)
    requires k <= 8
    ensures AddLinks(g, p, player, AddLinks(g, p, player, lines, k), k) == AddLinks(g, p, player, lines, k)
  {
    var once := AddLinks(g, p, player, lines, k);
    AddLinksComplete(g, p, player, lines, k);
    AddLinksKeeps(g, p, player, once, k);
  }

  /** When every line the neighbours k.. would add is present, nothing is
      added. */
  lemma {:induction false} AddLinksKeeps(g: Cells, p: Pos, player: Player, lines: seq<Line>, k: nat)
    requires k <= 8
    requires forall j :: k <= j < 8 && Linked(g, p, player, j) ==>
      Segment(p, Step(p, EightDirections[j]), player) in lines
    ensures AddLinks(g, p, player, lines, k) == lines
    decreases 8 - k
  {
    if k < 8 {
      AddLinksKeeps(g, p, player, lines, k + 1);
    }
  }
}
