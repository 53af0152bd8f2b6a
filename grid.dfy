/** The playing field of the Dots game: a (height+1) x (width+1) grid of
    intersections, each empty or holding a dot of one of the two players.
    Coordinates are (x, y) with x the column and y the row, and a grid is
    indexed row first, g[y][x], as the game logic's list of lists is. */
module Grid {

  datatype Option<T> = None | Some(value: T)

  datatype Player = Player1 | Player2

  /** Cell codes 0 (empty), 1 (player 1) and 2 (player 2). */
  datatype Cell = Empty | Dot(owner: Player)

  /** A grid coordinate (x, y). */
  type Pos = (int, int)

  type Cells = seq<seq<Cell>>

  /** The other player: player 2 for player 1 and player 1 otherwise. */
  function Opponent(p: Player): (q: Player)
    ensures q != p
  {
    if p == Player1 then Player2 else Player1
  }

  /** No element occurs twice. */
  predicate Distinct<T(==)>(s: seq<T>)
  {
    forall i, j :: 0 <= i < j < |s| ==> s[i] != s[j]
  }

  /** The four orthogonal steps, in the order the game probes them. */
  const FourDirections: seq<(int, int)> := [(-1, 0), (1, 0), (0, -1), (0, 1)]

  /** The eight surrounding steps, in the order the game probes them. */
  const EightDirections: seq<(int, int)> :=
    [(-1, -1), (-1, 0), (-1, 1), (0, -1), (0, 1), (1, -1), (1, 0), (1, 1)]

  function Step(p: Pos, d: (int, int)): Pos
  {
    (p.0 + d.0, p.1 + d.1)
  }

  /** A non-empty rectangular grid. */
  ghost predicate WellFormed(g: Cells)
  {
    |g| > 0 && |g[0]| > 0 && forall y :: 0 <= y < |g| ==> |g[y]| == |g[0]|
  }

  /** The grid the game starts with: every cell empty. */
  function EmptyGrid(width: nat, height: nat): (g: Cells)
    ensures WellFormed(g) && |g| == height + 1 && |g[0]| == width + 1
    ensures forall y, x :: 0 <= y < |g| && 0 <= x < |g[y]| ==> g[y][x] == Empty
  {
    seq(height + 1, _ => seq(width + 1, _ => Empty))
  }

  predicate InBounds(g: Cells, p: Pos)
  {
    0 <= p.1 < |g| && 0 <= p.0 < |g[p.1]|
  }

  function At(g: Cells, p: Pos): Cell
    requires InBounds(g, p)
  {
    g[p.1][p.0]
  }

  /** A cell is free when it is on the board and empty: the cells a move
      may be made on. */
  predicate IsFree(g: Cells, p: Pos)
  {
    InBounds(g, p) && At(g, p) == Empty
  }

  /** The grid after `player` puts a dot on `p`. */
  function Place(g: Cells, p: Pos, player: Player): (r: Cells)
    requires InBounds(g, p)
    ensures |r| == |g| && forall y :: 0 <= y < |g| ==> |r[y]| == |g[y]|
    ensures WellFormed(g) ==> WellFormed(r)
    ensures At(r, p) == Dot(player)
    ensures forall q :: InBounds(g, q) && q != p ==> At(r, q) == At(g, q)
  {
    g[p.1 := g[p.1][p.0 := Dot(player)]]
  }

  /** True when some orthogonal step from `p` leaves the board. */
  predicate OnEdge(g: Cells, p: Pos)
  {
    exists k :: 0 <= k < 4 && !InBounds(g, Step(p, FourDirections[k]))
  }

  /** A cell of the board lies on its edge exactly when it is in the first or
      last row or column. */
  lemma OnEdgeIffBorder(g: Cells, p: Pos)
    requires WellFormed(g) && InBounds(g, p)
    ensures OnEdge(g, p) <==> p.0 == 0 || p.1 == 0 || p.0 == |g[0]| - 1 || p.1 == |g| - 1
  {
    if p.0 == 0 {
      assert !InBounds(g, Step(p, FourDirections[0]));
    } else if p.0 == |g[0]| - 1 {
      assert !InBounds(g, Step(p, FourDirections[1]));
    } else if p.1 == 0 {
      assert !InBounds(g, Step(p, FourDirections[2]));
    } else if p.1 == |g| - 1 {
      assert !InBounds(g, Step(p, FourDirections[3]));
    } else {
      forall k | 0 <= k < 4 ensures InBounds(g, Step(p, FourDirections[k])) {
        assert |g[p.1 + FourDirections[k].1]| == |g[0]|;
      }
    }
  }

  /** Number of non-empty cells of a row. */
  function RowFilled(row: seq<Cell>): (n: nat)
    ensures n <= |row|
  {
    if row == [] then 0 else (if row[0] != Empty then 1 else 0) + RowFilled(row[1..])
  }

  /** Number of non-empty cells of a grid. */
  function Filled(g: Cells): nat
  {
    if g == [] then 0 else RowFilled(g[0]) + Filled(g[1..])
  }

  /** Number of cells of a grid. */
  function CellCount(g: Cells): nat
  {
    if g == [] then 0 else |g[0]| + CellCount(g[1..])
  }

  lemma {:induction false} RowFilledPut(row: seq<Cell>, x: nat, v: Cell)
    requires x < |row| && row[x] == Empty && v != Empty
    ensures RowFilled(row[x := v]) == RowFilled(row) + 1
  {
    if x > 0 {
      assert row[x := v][1..] == row[1..][x - 1 := v];
      RowFilledPut(row[1..], x - 1, v);
    } else {
      assert row[x := v][1..] == row[1..];
    }
  }

  lemma {:induction false} FilledPutRow(g: Cells, y: nat, r: seq<Cell>)
    requires y < |g|
    ensures Filled(g[y := r]) == Filled(g) - RowFilled(g[y]) + RowFilled(r)
  {
    if y > 0 {
      assert g[y := r][1..] == g[1..][y - 1 := r];
      FilledPutRow(g[1..], y - 1, r);
    } else {
      assert g[y := r][1..] == g[1..];
    }
  }

  /** Placing a dot on a valid cell fills exactly one more cell. */
  lemma PlaceFillsOne(g: Cells, p: Pos, player: Player)
    requires IsFree(g, p)
    ensures Filled(Place(g, p, player)) == Filled(g) + 1
  {
    RowFilledPut(g[p.1], p.0, Dot(player));
    FilledPutRow(g, p.1, g[p.1][p.0 := Dot(player)]);
  }

  lemma {:induction false} RowFilledAll(row: seq<Cell>)
    ensures RowFilled(row) == |row| <==> forall x :: 0 <= x < |row| ==> row[x] != Empty
  {
    if row != [] {
      RowFilledAll(row[1..]);
      assert forall x :: 1 <= x < |row| ==> row[x] == row[1..][x - 1];
    }
  }

  lemma {:induction false} RowFilledNone(row: seq<Cell>)
    requires forall x :: 0 <= x < |row| ==> row[x] == Empty
    ensures RowFilled(row) == 0
  {
    if row != [] {
      RowFilledNone(row[1..]);
    }
  }

  lemma {:induction false} FilledAll(g: Cells)
    ensures Filled(g) <= CellCount(g)
    ensures Filled(g) == CellCount(g) <==>
      forall y, x :: 0 <= y < |g| && 0 <= x < |g[y]| ==> g[y][x] != Empty
  {
    if g != [] {
      FilledAll(g[1..]);
      RowFilledAll(g[0]);
      assert forall y :: 1 <= y < |g| ==> g[y] == g[1..][y - 1];
    }
  }

  lemma {:induction false} FilledNone(g: Cells)
    requires forall y, x :: 0 <= y < |g| && 0 <= x < |g[y]| ==> g[y][x] == Empty
    ensures Filled(g) == 0
  {
    if g != [] {
      RowFilledNone(g[0]);
      assert forall y :: 1 <= y < |g[1..]| ==> g[1..][y] == g[y + 1];
      FilledNone(g[1..]);
    }
  }

  lemma {:induction false} CellCountRect(g: Cells, w: nat)
    requires forall y :: 0 <= y < |g| ==> |g[y]| == w
    ensures CellCount(g) == |g| * w
  {
    if g != [] {
      assert forall y :: 0 <= y < |g[1..]| ==> g[1..][y] == g[y + 1];
      CellCountRect(g[1..], w);
      assert |g| * w == w + (|g| - 1) * w;
    }
  }

  /** The filled-cell count reaches the number of cells exactly when no cell
      is left empty, that is, when no move is valid. */
  lemma FullIffNoValidMove(g: Cells)
    requires WellFormed(g)
    ensures Filled(g) <= |g| * |g[0]|
    ensures Filled(g) >= |g| * |g[0]| <==> forall p :: !IsFree(g, p)
  {
    CellCountRect(g, |g[0]|);
    FilledAll(g);
    if Filled(g) < |g| * |g[0]| {
      var y, x :| 0 <= y < |g| && 0 <= x < |g[y]| && g[y][x] == Empty;
      assert IsFree(g, (x, y));
    }
  }

  /** The empty start grid has no filled cell. */
  lemma EmptyGridUnfilled(width: nat, height: nat)
    ensures Filled(EmptyGrid(width, height)) == 0
  {
    FilledNone(EmptyGrid(width, height));
  }
}
