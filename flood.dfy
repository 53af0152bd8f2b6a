/** The group analysis of the Dots game: a breadth-first flood fill from a
    seed over the 4-neighbours that are empty or owned by a target player,
    and the test whether the group found is surrounded by the opponent.
    `Traverse` is the traversal the game runs, written as a recursion over the
    list of cells enqueued so far and the index of the next one to expand;
    the game's loop with its deque and visited matrix is proved equal to it. */
module Flood {
  import opened Grid

  ghost predicate AllInBounds(g: Cells, s: seq<Pos>)
  {
    forall i :: 0 <= i < |s| ==> InBounds(g, s[i])
  }

  /** The cells a flood fill for `player` may enter: on the board and empty
      or holding a dot of `player`. */
  predicate Joinable(g: Cells, player: Player, p: Pos)
  {
    InBounds(g, p) && (At(g, p) == Empty || At(g, p) == Dot(player))
  }

  /** `b` is one orthogonal step away from `a`. */
  ghost predicate Adjacent(a: Pos, b: Pos)
  {
    exists k :: 0 <= k < 4 && b == Step(a, FourDirections[k])
  }

  ghost function Board(g: Cells): set<Pos>
  {
    set y, x | 0 <= y < |g| && 0 <= x < |g[y]| :: (x, y)
  }

  ghost function Elems(s: seq<Pos>): set<Pos>
  {
    set p | p in s
  }

  /** A set of cells that the flood fill cannot leave: every joinable
      4-neighbour of a member is a member. */
  ghost predicate Closed(g: Cells, player: Player, s: set<Pos>)
  {
    forall p, k :: p in s && 0 <= k < 4 ==> EntersSet(g, player, s, p, k)
  }

  /** The k-th neighbour of `p` is in `s` if the flood may enter it. */
  ghost predicate EntersSet(g: Cells, player: Player, s: set<Pos>, p: Pos, k: nat)
    requires k < 4
  {
    Joinable(g, player, Step(p, FourDirections[k])) ==> Step(p, FourDirections[k]) in s
  }

  /** The k-th neighbour of `p` is in `order` if the flood may enter it. */
  ghost predicate Enqueued(g: Cells, player: Player, order: seq<Pos>, p: Pos, k: nat)
    requires k < 4
  {
    Joinable(g, player, Step(p, FourDirections[k])) ==> Step(p, FourDirections[k]) in order
  }

  /** Some cell enqueued before the i-th one is its orthogonal neighbour. */
  ghost predicate HasParent(order: seq<Pos>, i: nat)
    requires i < |order|
  {
    exists j :: 0 <= j < i && Adjacent(order[j], order[i])
  }

  /** One expansion step of the traversal: the neighbours of `c` in the
      directions k.. that are joinable and not yet enqueued are appended to
      `order`, in direction order. */
  ghost function Grow(g: Cells, player: Player, order: seq<Pos>, c: Pos, k: nat): seq<Pos>
    requires k <= 4
    decreases g, 4 - k
  {
    if k == 4 then order
    else
      var n := Step(c, FourDirections[k]);
      Grow(g, player, if Joinable(g, player, n) && n !in order then order + [n] else order, c, k + 1)
  }

  /** An expansion step only appends, keeps the enqueued cells distinct and
      on the board, appends only joinable neighbours of `c` not enqueued
      before, and leaves every joinable neighbour of `c` in the directions
      k.. enqueued. */
  lemma GrowFacts(g: Cells, player: Player, order: seq<Pos>, c: Pos, k: nat)
    requires k <= 4
    requires Distinct(order) && AllInBounds(g, order)
    ensures var r := Grow(g, player, order, c, k);
      && order <= r
      && Distinct(r) && AllInBounds(g, r)
      && (forall i :: |order| <= i < |r| ==> Joinable(g, player, r[i]) && Adjacent(c, r[i]) && r[i] !in order)
      && (forall j :: k <= j < 4 ==> Enqueued(g, player, r, c, j))
  {
    GrowAppends(g, player, order, c, k);
    GrowEnqueues(g, player, order, c, k);
  }

  /** An expansion step only appends, keeps the enqueued cells distinct and
      on the board, and appends only joinable neighbours of `c` not
      enqueued before. */
  lemma {:induction false} GrowAppends(g: Cells, player: Player, order: seq<Pos>, c: Pos, k: nat)
    requires k <= 4
    requires Distinct(order) && AllInBounds(g, order)
    ensures var r := Grow(g, player, order, c, k);
      && order <= r
      && Distinct(r) && AllInBounds(g, r)
      && (forall i :: |order| <= i < |r| ==> Joinable(g, player, r[i]) && Adjacent(c, r[i]) && r[i] !in order)
    decreases 4 - k
  {
    if k < 4 {
      var n := Step(c, FourDirections[k]);
      var next := if Joinable(g, player, n) && n !in order then order + [n] else order;
      GrowAppends(g, player, next, c, k + 1);
      var r := Grow(g, player, next, c, k + 1);
      PrefixElems(next, r);
    }
  }

  /** After an expansion step every joinable neighbour of `c` in the
      directions k.. is enqueued. */
  lemma {:induction false} GrowEnqueues(g: Cells, player: Player, order: seq<Pos>, c: Pos, k: nat)
    requires k <= 4
    ensures forall j :: k <= j < 4 ==> Enqueued(g, player, Grow(g, player, order, c, k), c, j)
    decreases 4 - k
  {
    if k < 4 {
      var n := Step(c, FourDirections[k]);
      var next := if Joinable(g, player, n) && n !in order then order + [n] else order;
      GrowEnqueues(g, player, next, c, k + 1);
      var r := Grow(g, player, next, c, k + 1);
      GrowExtends(g, player, next, c, k + 1);
      PrefixElems(next, r);
      assert Joinable(g, player, n) ==> n in next;
    }
  }

  /** An expansion step only appends. */
  lemma {:induction false} GrowExtends(g: Cells, player: Player, order: seq<Pos>, c: Pos, k: nat)
    requires k <= 4
    ensures order <= Grow(g, player, order, c, k)
    decreases 4 - k
  {
    if k < 4 {
      var n := Step(c, FourDirections[k]);
      GrowExtends(g, player, if Joinable(g, player, n) && n !in order then order + [n] else order, c, k + 1);
    }
  }

  /** Unfolds one direction of an expansion step. */
  lemma GrowStep(g: Cells, player: Player, order: seq<Pos>, c: Pos, k: nat)
    requires k < 4
    ensures var n := Step(c, FourDirections[k]);
      Grow(g, player, order, c, k) ==
        Grow(g, player, if Joinable(g, player, n) && n !in order then order + [n] else order, c, k + 1)
  {
  }

  lemma PrefixElems(a: seq<Pos>, b: seq<Pos>)
    requires a <= b
    ensures Elems(a) <= Elems(b)
    ensures forall p :: p in a ==> p in b
  {
    forall p | p in Elems(a) ensures p in Elems(b) {
      var i :| 0 <= i < |a| && a[i] == p;
      assert b[i] == p;
    }
  }

  /** What holds of the enqueued cells `order` once the first `head` of them
      have been expanded. */
  ghost predicate FloodInv(g: Cells, player: Player, order: seq<Pos>, head: nat)
  {
    && WellFormed(g)
    && 0 < |order| && head <= |order|
    && Distinct(order) && AllInBounds(g, order)
    && AllJoinable(g, player, order)
    && AllHaveParents(order)
    && ExpandedUpTo(g, player, order, head)
  }

  /** Every enqueued cell after the seed may be entered by the flood. */
  ghost predicate AllJoinable(g: Cells, player: Player, order: seq<Pos>)
  {
    forall i :: 0 < i < |order| ==> Joinable(g, player, order[i])
  }

  /** Every enqueued cell after the seed was reached from an earlier one. */
  ghost predicate AllHaveParents(order: seq<Pos>)
  {
    forall i :: 0 < i < |order| ==> HasParent(order, i)
  }

  /** The first `head` enqueued cells have had their neighbours enqueued. */
  ghost predicate ExpandedUpTo(g: Cells, player: Player, order: seq<Pos>, head: nat)
    requires head <= |order|
  {
    forall i, k :: 0 <= i < head && 0 <= k < 4 ==> Enqueued(g, player, order, order[i], k)
  }

  lemma GrowKeepsParents(g: Cells, player: Player, order: seq<Pos>, head: nat)
    requires FloodInv(g, player, order, head) && head < |order|
    ensures AllHaveParents(Grow(g, player, order, order[head], 0))
  {
    var c := order[head];
    var next := Grow(g, player, order, c, 0);
    GrowFacts(g, player, order, c, 0);
    forall i | 0 < i < |next| ensures HasParent(next, i) {
      if i < |order| {
        assert next[i] == order[i];
        assert HasParent(order, i);
        var j :| 0 <= j < i && Adjacent(order[j], order[i]);
        assert next[j] == order[j];
      } else {
        assert next[head] == c && Adjacent(c, next[i]);
      }
    }
  }

  lemma GrowKeepsEnqueued(g: Cells, player: Player, order: seq<Pos>, head: nat)
    requires FloodInv(g, player, order, head) && head < |order|
    ensures head + 1 <= |Grow(g, player, order, order[head], 0)|
    ensures ExpandedUpTo(g, player, Grow(g, player, order, order[head], 0), head + 1)
  {
    var c := order[head];
    var next := Grow(g, player, order, c, 0);
    GrowFacts(g, player, order, c, 0);
    forall i, k | 0 <= i < head + 1 && 0 <= k < 4 ensures Enqueued(g, player, next, next[i], k) {
      assert next[i] == order[i];
      if i < head && Joinable(g, player, Step(order[i], FourDirections[k])) {
        assert Enqueued(g, player, order, order[i], k);
        var m :| 0 <= m < |order| && order[m] == Step(order[i], FourDirections[k]);
        assert next[m] == order[m];
      }
    }
  }

  lemma GrowKeepsJoinable(g: Cells, player: Player, order: seq<Pos>, head: nat)
    requires FloodInv(g, player, order, head) && head < |order|
    ensures AllJoinable(g, player, Grow(g, player, order, order[head], 0))
  {
    var next := Grow(g, player, order, order[head], 0);
    GrowFacts(g, player, order, order[head], 0);
    forall i | 0 < i < |next| ensures Joinable(g, player, next[i]) {
      if i < |order| { assert next[i] == order[i]; }
    }
  }

  lemma GrowKeepsInv(g: Cells, player: Player, order: seq<Pos>, head: nat)
    requires FloodInv(g, player, order, head) && head < |order|
    ensures var next := Grow(g, player, order, order[head], 0);
      && FloodInv(g, player, next, head + 1)
      && order <= next
      && (|next| == |order| ==> next == order)

  {
    var next := Grow(g, player, order, order[head], 0);
    GrowFacts(g, player, order, order[head], 0);
    GrowKeepsParents(g, player, order, head);
    GrowKeepsEnqueued(g, player, order, head);
    GrowKeepsJoinable(g, player, order, head);

  }

  lemma GrowShrinksUnvisited(g: Cells, order: seq<Pos>, next: seq<Pos>)
    requires order <= next && |order| < |next|
    requires InBounds(g, next[|order|]) && next[|order|] !in order
    ensures Board(g) - Elems(next) < Board(g) - Elems(order)
  {
    var n := next[|order|];
    assert n in Board(g);
    assert n in Elems(next) && n !in Elems(order);
    PrefixElems(order, next);
  }

  /** One round of the traversal: expanding the next cell keeps the
      invariant, does not change where the traversal ends, and either
      enqueues a cell not seen before or leaves the enqueued cells as they
      were. */
  lemma ExpandStep(g: Cells, player: Player, order: seq<Pos>, head: nat, next: seq<Pos>)
    requires FloodInv(g, player, order, head) && head < |order|
    requires next == Grow(g, player, order, order[head], 0)
    ensures FloodInv(g, player, next, head + 1)
    ensures Traverse(g, player, next, head + 1) == Traverse(g, player, order, head)
    ensures next == order || Board(g) - Elems(next) < Board(g) - Elems(order)
  {
    GrowKeepsInv(g, player, order, head);
    if |next| != |order| {
      GrowShrinksUnvisited(g, order, next);
    }
  }

  /** The breadth-first traversal: expand the enqueued cells in order until
      every one has been expanded. */
  ghost function Traverse(g: Cells, player: Player, order: seq<Pos>, head: nat): (r: seq<Pos>)
    requires FloodInv(g, player, order, head)
    ensures FloodInv(g, player, r, |r|)
    ensures order <= r
    decreases Board(g) - Elems(order), |order| - head
  {
    if head == |order| then order
    else
      GrowKeepsInv(g, player, order, head);
      var next := Grow(g, player, order, order[head], 0);
      if |next| == |order| then
        Traverse(g, player, next, head + 1)
      else
        GrowShrinksUnvisited(g, order, next);
        Traverse(g, player, next, head + 1)
  }

  /** The group the game collects from `seed` for `player`: the seed first,
      then every cell reached, each once. */
  ghost function FloodFill(g: Cells, seed: Pos, player: Player): (r: seq<Pos>)
    requires WellFormed(g) && InBounds(g, seed)
    ensures |r| > 0 && r[0] == seed
    ensures Distinct(r) && AllInBounds(g, r)
    ensures forall i :: 0 < i < |r| ==> Joinable(g, player, r[i])
    ensures Closed(g, player, Elems(r))
    ensures FloodInv(g, player, r, |r|)
  {
    var r := Traverse(g, player, [seed], 0);
    assert r[0] == r[..1][0];
    forall p, k | p in Elems(r) && 0 <= k < 4 ensures EntersSet(g, player, Elems(r), p, k) {
      var i :| 0 <= i < |r| && r[i] == p;
      assert Enqueued(g, player, r, r[i], k);
      if Joinable(g, player, Step(p, FourDirections[k])) {
        var m :| 0 <= m < |r| && r[m] == Step(r[i], FourDirections[k]);
      }
    }
    r
  }

  /** The k-th neighbour of `p`, when on the board and outside `group`,
      holds `opponent`. */
  ghost predicate SealedDir(g: Cells, group: seq<Pos>, p: Pos, k: nat, opponent: Player)
    requires k < 4
  {
    InBounds(g, Step(p, FourDirections[k])) && Step(p, FourDirections[k]) !in group ==>
      At(g, Step(p, FourDirections[k])) == Dot(opponent)
  }

  /** The surrounded status the game reports for a group: no member lies on
      the edge of the board, and every in-bounds 4-neighbour of a member that
      is outside the group holds `opponent`. */
  ghost predicate Enclosed(g: Cells, group: seq<Pos>, opponent: Player)
  {
    AllOffEdge(g, group) && AllSealed(g, group, opponent)
  }

  /** No member of `group` lies on the edge of the board. */
  ghost predicate AllOffEdge(g: Cells, group: seq<Pos>)
  {
    forall i :: 0 <= i < |group| ==> !OnEdge(g, group[i])
  }

  /** Every in-bounds 4-neighbour of a member that is outside `group` holds
      `opponent`. */
  ghost predicate AllSealed(g: Cells, group: seq<Pos>, opponent: Player)
  {
    forall i, k :: 0 <= i < |group| && 0 <= k < 4 ==> SealedDir(g, group, group[i], k, opponent)
  }

  /** The steps from `c` in the directions ..k-1 all stay on the board. */
  ghost predicate StepsInBounds(g: Cells, c: Pos, k: nat)
    requires k <= 4
  {
    forall d :: 0 <= d < k ==> InBounds(g, Step(c, FourDirections[d]))
  }

  lemma StepsInBoundsNext(g: Cells, c: Pos, k: nat)
    requires k < 4
    ensures StepsInBounds(g, c, k + 1) <==> StepsInBounds(g, c, k) && InBounds(g, Step(c, FourDirections[k]))
    ensures StepsInBounds(g, c, 4) <==> !OnEdge(g, c)
  {
  }

  /** A group extended by one cell is off the edge exactly when the group is
      and the cell is. */
  lemma AllOffEdgeSnoc(g: Cells, group: seq<Pos>, c: Pos)
    ensures AllOffEdge(g, group + [c]) <==> AllOffEdge(g, group) && !OnEdge(g, c)
  {
    var s := group + [c];
    assert s[|group|] == c;
    assert forall i :: 0 <= i < |group| ==> s[i] == group[i];
  }

  /** A surrounded group has no cell in the first or last row or column. */
  lemma EnclosedAwayFromBorder(g: Cells, group: seq<Pos>, opponent: Player)
    requires WellFormed(g) && AllInBounds(g, group) && Enclosed(g, group, opponent)
    ensures forall i :: 0 <= i < |group| ==>
      0 < group[i].0 < |g[0]| - 1 && 0 < group[i].1 < |g| - 1
  {
    forall i | 0 <= i < |group| ensures 0 < group[i].0 < |g[0]| - 1 && 0 < group[i].1 < |g| - 1 {
      OnEdgeIffBorder(g, group[i]);
    }
  }

  /** For a flood-filled group the sealing test never fails: each in-bounds
      neighbour outside the group was not joinable, so it holds the opponent.
      The group is therefore surrounded exactly when it stays off the edge. */
  lemma EnclosedIffOffEdge(g: Cells, seed: Pos, player: Player)
    requires WellFormed(g) && InBounds(g, seed)
    ensures var group := FloodFill(g, seed, player);
      Enclosed(g, group, Opponent(player)) <==> AllOffEdge(g, group)
  {
    var group := FloodFill(g, seed, player);
    ClosedGroupSealed(g, player, group);
  }

  lemma ClosedGroupSealed(g: Cells, player: Player, group: seq<Pos>)
    requires AllInBounds(g, group) && Closed(g, player, Elems(group))
    ensures forall i, k :: 0 <= i < |group| && 0 <= k < 4 ==> SealedDir(g, group, group[i], k, Opponent(player))
  {
    forall i, k | 0 <= i < |group| && 0 <= k < 4 ensures SealedDir(g, group, group[i], k, Opponent(player)) {
      var n := Step(group[i], FourDirections[k]);
      if InBounds(g, n) && n !in group {
        assert group[i] in Elems(group);
        assert EntersSet(g, player, Elems(group), group[i], k);
        if Joinable(g, player, n) {
          assert false;
        }
      }
    }
  }

  lemma {:induction false} MemberInClosed(g: Cells, player: Player, r: seq<Pos>, s: set<Pos>, i: nat)
    requires FloodInv(g, player, r, |r|) && i < |r|
    requires r[0] in s && Closed(g, player, s)
    ensures r[i] in s
    decreases i
  {
    if i > 0 {
      assert HasParent(r, i);
      var j :| 0 <= j < i && Adjacent(r[j], r[i]);
      MemberInClosed(g, player, r, s, j);
      var k :| 0 <= k < 4 && r[i] == Step(r[j], FourDirections[k]);
      assert EntersSet(g, player, s, r[j], k);
    }
  }

  /** The flood fill is the least closed set containing the seed: every
      closed set that holds the seed holds the whole group. */
  lemma FloodFillLeast(g: Cells, seed: Pos, player: Player, s: set<Pos>)
    requires WellFormed(g) && InBounds(g, seed)
    requires seed in s && Closed(g, player, s)
    ensures Elems(FloodFill(g, seed, player)) <= s
  {
    var r := Traverse(g, player, [seed], 0);
    assert r[0] == r[..1][0];
    forall p | p in Elems(r) ensures p in s {
      var i :| 0 <= i < |r| && r[i] == p;
      MemberInClosed(g, player, r, s, i);
    }
  }

  /** The direction that undoes direction k. */
  function Back(k: nat): (b: nat)
    requires k < 4
    ensures b < 4 && FourDirections[b] == (-FourDirections[k].0, -FourDirections[k].1)
  {
    if k == 0 then 1 else if k == 1 then 0 else if k == 2 then 3 else 2
  }

  lemma {:induction false} SeedInClosed(g: Cells, player: Player, r: seq<Pos>, s: set<Pos>, i: nat)
    requires FloodInv(g, player, r, |r|) && i < |r|
    requires Joinable(g, player, r[0])
    requires r[i] in s && Closed(g, player, s)
    ensures r[0] in s
    decreases i
  {
    if i > 0 {
      assert HasParent(r, i);
      var j :| 0 <= j < i && Adjacent(r[j], r[i]);
      var k :| 0 <= k < 4 && r[i] == Step(r[j], FourDirections[k]);
      var b := Back(k);
      assert Step(r[i], FourDirections[b]) == r[j];
      assert Joinable(g, player, r[j]);
      assert EntersSet(g, player, s, r[i], b);
      SeedInClosed(g, player, r, s, j);
    }
  }

  /** Flooding from any joinable member of a group gives the same set of
      cells: a group is a connected region, whatever cell it is entered from. */
  lemma SameGroupFromMember(g: Cells, player: Player, s1: Pos, s2: Pos)
    requires WellFormed(g) && Joinable(g, player, s1) && Joinable(g, player, s2)
    requires s2 in FloodFill(g, s1, player)
    ensures Elems(FloodFill(g, s2, player)) == Elems(FloodFill(g, s1, player))
  {
    var r1 := FloodFill(g, s1, player);
    var r2 := FloodFill(g, s2, player);
    var i :| 0 <= i < |r1| && r1[i] == s2;
    assert s2 in Elems(r1);
    FloodFillLeast(g, s2, player, Elems(r1));
    assert r2[0] in Elems(r2);
    SeedInClosed(g, player, r1, Elems(r2), i);
    FloodFillLeast(g, s1, player, Elems(r2));
  }
}
