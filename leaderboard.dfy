/** The table of the three best results. A table is read from a file,
    which may be missing, and an update either rejects the new result or
    ranks it among the stored ones and yields the table to write back. The
    file itself is a parameter: `Missing` or the entries it holds. */
module Leaderboard {

  datatype Entry = Entry(place: int, name: string, score: int)

  /** What the leaderboard file holds, if it exists. */
  datatype File = Missing | Holds(entries: seq<Entry>)

  /** The outcome of an update: the result is not good enough, the ranked
      table is saved, or the stored table was empty and reading its last
      entry fails. */
  datatype Update = Rejected | Saved(table: seq<Entry>) | IndexError

  const LeaderboardSize: nat := 3
  const DefaultName: string := "None"
  const DefaultScore: int := 0

  /** The table used when no file exists. */
  function DefaultTable(): (r: seq<Entry>)
    ensures |r| == 3
    ensures forall i :: 0 <= i < |r| ==> r[i].place == i + 1 && r[i].name == "None" && r[i].score == 0
  {
    seq(LeaderboardSize, i requires 0 <= i < LeaderboardSize => Entry(i + 1, DefaultName, DefaultScore))
  }

  /** Loading: the default table without a file, the stored entries
      otherwise. */
  function LoadLeaderboard(file: File): (r: seq<Entry>)
    ensures file.Missing? ==> r == DefaultTable()
    ensures file.Holds? ==> r == file.entries
  {
    match file
    case Missing => DefaultTable()
    case Holds(entries) => entries
  }

  /** The sort key: the score, or -1 for a placeholder entry. */
  function Key(e: Entry): int
  {
    if e.name != DefaultName then e.score else -1
  }

  /** Keys do not increase along the table. */
  ghost predicate SortedByKey(s: seq<Entry>)
  {
    forall i, j :: 0 <= i < j < |s| ==> Key(s[i]) >= Key(s[j])
  }

  /** The entries of `s` with key k, in their order in `s`. */
  function WithKey(s: seq<Entry>, k: int): (r: seq<Entry>)
    ensures |r| <= |s|
  {
    if s == [] then []
    else WithKey(s[..|s| - 1], k) + (if Key(s[|s| - 1]) == k then [s[|s| - 1]] else [])
  }

  /** Inserts e into a table sorted by key, after every entry whose key is
      at least e's. */
  function Insert(t: seq<Entry>, e: Entry): (r: seq<Entry>)
    ensures |r| == |t| + 1
  {
    if t == [] then [e]
    else if Key(t[|t| - 1]) >= Key(e) then t + [e]
    else Insert(t[..|t| - 1], e) + [t[|t| - 1]]
  }

  /** Sorting by key, highest first, keeping entries with equal keys in
      their original order (the behaviour of a stable sort in reverse). */
  function SortDescending(s: seq<Entry>): (r: seq<Entry>)
    ensures |r| == |s|
  {
    if s == [] then [] else Insert(SortDescending(s[..|s| - 1]), s[|s| - 1])
  }

  lemma {:induction false} WithKeyAppend(a: seq<Entry>, b: seq<Entry>, k: int)
    ensures WithKey(a + b, k) == WithKey(a, k) + WithKey(b, k)
    decreases |b|
  {
    if b == [] {
      assert a + b == a;
    } else {
      var b' := b[..|b| - 1];
      assert (a + b)[..|a + b| - 1] == a + b';
      WithKeyAppend(a, b', k);
    }
  }

  lemma WithKeySingle(e: Entry, k: int)
    ensures WithKey([e], k) == if Key(e) == k then [e] else []
  {
    assert [e][..0] == [];
  }

  lemma {:induction false} InsertPermutes(t: seq<Entry>, e: Entry)
    ensures multiset(Insert(t, e)) == multiset(t) + multiset{e}
    decreases |t|
  {
    if t != [] && Key(t[|t| - 1]) < Key(e) {
      var init := t[..|t| - 1];
      assert t == init + [t[|t| - 1]];
      InsertPermutes(init, e);
    }
  }

  /** Inserting keeps every key at least b when e's key is. */
  lemma {:induction false} InsertAbove(t: seq<Entry>, e: Entry, b: int)
    requires forall i :: 0 <= i < |t| ==> Key(t[i]) >= b
    requires Key(e) >= b
    ensures forall i :: 0 <= i < |t| + 1 ==> Key(Insert(t, e)[i]) >= b
    decreases |t|
  {
    if t != [] && Key(t[|t| - 1]) < Key(e) {
      InsertAbove(t[..|t| - 1], e, b);
    }
  }

  lemma {:induction false} InsertKeepsSorted(t: seq<Entry>, e: Entry)
    requires SortedByKey(t)
    ensures SortedByKey(Insert(t, e))
    decreases |t|
  {
    if t != [] && Key(t[|t| - 1]) < Key(e) {
      var init, last := t[..|t| - 1], t[|t| - 1];
      InsertKeepsSorted(init, e);
      InsertAbove(init, e, Key(last));
    }
  }

  lemma {:induction false} InsertStable(t: seq<Entry>, e: Entry, k: int)
    ensures WithKey(Insert(t, e), k) == WithKey(t, k) + WithKey([e], k)
    decreases |t|
  {
    if t == [] {
      assert WithKey(t, k) == [];
      assert Insert(t, e) == [e];
    } else if Key(t[|t| - 1]) >= Key(e) {
      assert Insert(t, e) == t + [e];
      WithKeyAppend(t, [e], k);
    } else {
      var init, last := t[..|t| - 1], t[|t| - 1];
      var before, mid, after := WithKey(init, k), WithKey([e], k), WithKey([last], k);
      assert WithKey(Insert(t, e), k) == before + mid + after by {
        assert Insert(t, e) == Insert(init, e) + [last];
        InsertStable(init, e, k);
        WithKeyAppend(Insert(init, e), [last], k);
      }
      assert WithKey(t, k) == before + after by {
        assert t == init + [last];
        WithKeyAppend(init, [last], k);
      }
      WithKeySingle(e, k);
      WithKeySingle(last, k);
      if Key(e) == k {
        assert after == [];
      } else {
        assert mid == [];
      }
    }
  }

  /** The sort is a permutation, ordered by key, and stable: the entries
      with any given key appear in the order they had before. */
  lemma {:induction false} SortDescendingIsStableSort(s: seq<Entry>)
    ensures multiset(SortDescending(s)) == multiset(s)
    ensures SortedByKey(SortDescending(s))
    ensures forall k :: WithKey(SortDescending(s), k) == WithKey(s, k)
    decreases |s|
  {
    if s != [] {
      var init, last := s[..|s| - 1], s[|s| - 1];
      assert s == init + [last];
      SortDescendingIsStableSort(init);
      InsertPermutes(SortDescending(init), last);
      InsertKeepsSorted(SortDescending(init), last);
      forall k ensures WithKey(SortDescending(s), k) == WithKey(s, k) {
        InsertStable(SortDescending(init), last, k);
        WithKeyAppend(init, [last], k);
      }
    }
  }

  lemma {:induction false} WithKeyMembers(s: seq<Entry>, k: int)
    ensures forall x :: x in WithKey(s, k) ==> x in s && Key(x) == k
    decreases |s|
  {
    if s != [] {
      WithKeyMembers(s[..|s| - 1], k);
    }
  }

  lemma {:induction false} WithKeyHas(s: seq<Entry>, i: nat)
    requires i < |s|
    ensures WithKey(s, Key(s[i])) != []
    decreases |s|
  {
    if i < |s| - 1 {
      WithKeyHas(s[..|s| - 1], i);
    }
  }

  /** A sorted sequence ends in its lowest key. */
  lemma SortedEndsLowest(r: seq<Entry>, k: int)
    requires SortedByKey(r) && WithKey(r, k) != []
    ensures r != [] && Key(r[|r| - 1]) <= k
  {
    WithKeyMembers(r, k);
    var x := WithKey(r, k)[0];
    assert x in WithKey(r, k);
    var i :| 0 <= i < |r| && r[i] == x;
  }

  /** Removing equal last entries keeps the entries of each key equal. */
  lemma WithKeyOfInits(init1: seq<Entry>, init2: seq<Entry>, last: Entry)
    requires forall k :: WithKey(init1 + [last], k) == WithKey(init2 + [last], k)
    ensures forall k :: WithKey(init1, k) == WithKey(init2, k)
  {
    forall k ensures WithKey(init1, k) == WithKey(init2, k) {
      WithKeyAppend(init1, [last], k);
      WithKeyAppend(init2, [last], k);
      WithKeySingle(last, k);
      var w := WithKey(init1 + [last], k);
      assert w == WithKey(init2 + [last], k);
      if Key(last) == k {
        assert w == WithKey(init1, k) + [last] == WithKey(init2, k) + [last];
        assert WithKey(init1, k) == w[..|w| - 1];
        assert WithKey(init2, k) == w[..|w| - 1];
      } else {
        assert WithKey(init1, k) + [] == WithKey(init1, k);
        assert WithKey(init2, k) + [] == WithKey(init2, k);
      }
    }
  }

  /** The last key of a sequence ordered by key is at most the last key
      of any sequence with the same entries of each key. */
  lemma {:induction false} LastKeyAtMost(r1: seq<Entry>, r2: seq<Entry>)
    requires SortedByKey(r1) && r2 != []
    requires forall k :: WithKey(r1, k) == WithKey(r2, k)
    ensures r1 != [] && Key(r1[|r1| - 1]) <= Key(r2[|r2| - 1])
  {
    var k2 := Key(r2[|r2| - 1]);
    WithKeyHas(r2, |r2| - 1);
    assert WithKey(r1, k2) == WithKey(r2, k2);
    SortedEndsLowest(r1, k2);
  }

  /** Two sequences ordered by key with the same entries of each key end
      in the same entry. */
  lemma {:induction false} SameLast(r1: seq<Entry>, r2: seq<Entry>)
    requires SortedByKey(r1) && SortedByKey(r2) && r1 != [] && r2 != []
    requires forall k :: WithKey(r1, k) == WithKey(r2, k)
    ensures r1[|r1| - 1] == r2[|r2| - 1]
  {
    LastKeyAtMost(r1, r2);
    LastKeyAtMost(r2, r1);
    var w := WithKey(r1, Key(r1[|r1| - 1]));
    assert w == WithKey(r2, Key(r2[|r2| - 1]));
    assert w[|w| - 1] == r1[|r1| - 1];
  }

  /** Only the empty sequence has no entry of any key. */
  lemma NoEntriesMeansEmpty(r: seq<Entry>)
    requires forall k :: WithKey(r, k) == WithKey([], k)
    ensures r == []
  {
    if r != [] {
      WithKeyHas(r, 0);
    }
  }

  /** A sequence ordered by key is determined by its entries of each key
      in order: there is exactly one stable descending arrangement. */
  lemma {:induction false} StableOrderUnique(r1: seq<Entry>, r2: seq<Entry>)
    requires SortedByKey(r1) && SortedByKey(r2)
    requires forall k :: WithKey(r1, k) == WithKey(r2, k)
    ensures r1 == r2
    decreases |r1|
  {
    if r1 == [] {
      NoEntriesMeansEmpty(r2);
    } else if r2 == [] {
      NoEntriesMeansEmpty(r1);
    } else {
      var init1, init2 := r1[..|r1| - 1], r2[..|r2| - 1];
      InitsAgree(r1, r2, init1, init2);
      StableOrderUnique(init1, init2);
      assert r1 == init1 + [r1[|r1| - 1]] && r2 == init2 + [r2[|r2| - 1]];
    }
  }

  /** Two sequences ordered by key with the same entries of each key end
      in the same entry, and what comes before it is again ordered by key
      with the same entries of each key. */
  lemma {:induction false} InitsAgree(r1: seq<Entry>, r2: seq<Entry>, init1: seq<Entry>, init2: seq<Entry>)
    requires SortedByKey(r1) && SortedByKey(r2) && r1 != [] && r2 != []
    requires forall k :: WithKey(r1, k) == WithKey(r2, k)
    requires init1 == r1[..|r1| - 1] && init2 == r2[..|r2| - 1]
    ensures r1[|r1| - 1] == r2[|r2| - 1]
    ensures SortedByKey(init1) && SortedByKey(init2)
    ensures forall k :: WithKey(init1, k) == WithKey(init2, k)
  {
    assert r1 == init1 + [r1[|r1| - 1]];
    assert r2 == init2 + [r2[|r2| - 1]];
    SameLast(r1, r2);
    WithKeyOfInits(init1, init2, r1[|r1| - 1]);
  }

  /** The sort agrees with every stable sort by key in descending order:
      any arrangement ordered by key that keeps the order of equal keys is
      the sorted sequence. */
  lemma SortDescendingIsTheStableSort(s: seq<Entry>, r: seq<Entry>)
    requires SortedByKey(r) && forall k :: WithKey(r, k) == WithKey(s, k)
    ensures r == SortDescending(s)
  {
    SortDescendingIsStableSort(s);
    StableOrderUnique(r, SortDescending(s));
  }

  /** The rejection test: the last entry is a real result and the new
      score does not beat it. */
  predicate Rejects(table: seq<Entry>, score: int)
    requires |table| > 0
  {
    score <= table[|table| - 1].score && table[|table| - 1].name != DefaultName
  }

  /** Places 1, 2, ... in table order. */
  function Renumbered(s: seq<Entry>): (r: seq<Entry>)
    ensures |r| == |s|
    ensures forall i :: 0 <= i < |r| ==> r[i] == s[i].(place := i + 1)
  {
    seq(|s|, i requires 0 <= i < |s| => s[i].(place := i + 1))
  }

  /** The first three entries, or all of them when there are fewer. */
  function Top(s: seq<Entry>): (r: seq<Entry>)
    ensures |r| == if |s| < LeaderboardSize then |s| else LeaderboardSize
    ensures r == s[..|r|]
  {
    s[..if |s| < LeaderboardSize then |s| else LeaderboardSize]
  }

  /** The table after an accepted result: the new entry appended with
      place 0, everything sorted, the first three kept and renumbered. */
  function Ranked(table: seq<Entry>, name: string, score: int): seq<Entry>
  {
    Renumbered(Top(SortDescending(table + [Entry(0, name, score)])))
  }

  /** The ranked table holds min(n + 1, 3) entries, numbered 1, 2, ... in
      order, with the names and scores of the first sorted entries. */
  lemma RankedShape(table: seq<Entry>, name: string, score: int)
    ensures var r := Ranked(table, name, score);
      var sorted := SortDescending(table + [Entry(0, name, score)]);
      && |r| == (if |table| + 1 < 3 then |table| + 1 else 3)
      && forall i :: 0 <= i < |r| ==> r[i].place == i + 1 && r[i].name == sorted[i].name && r[i].score == sorted[i].score
  {
  }

  /** The ranked table is ordered by key, and no dropped entry has a
      higher key than a kept one. */
  lemma {:induction false} RankedOrder(table: seq<Entry>, name: string, score: int)
    ensures var r := Ranked(table, name, score);
      var sorted := SortDescending(table + [Entry(0, name, score)]);
      && (forall i, j :: 0 <= i < j < |r| ==> Key(r[i]) >= Key(r[j]))
      && (forall i, j :: 0 <= i < |r| <= j < |sorted| ==> Key(r[i]) >= Key(sorted[j]))
  {
    SortDescendingIsStableSort(table + [Entry(0, name, score)]);
  }

  lemma PrefixWithin(s: seq<Entry>, n: nat)
    requires n <= |s|
    ensures multiset(s[..n]) <= multiset(s)
  {
    assert s == s[..n] + s[n..];
  }

  /** The kept entries are taken from the old table and the new entry,
      each no more often than it occurs there. */
  lemma RankedFromInputs(table: seq<Entry>, name: string, score: int)
    ensures var sorted := SortDescending(table + [Entry(0, name, score)]);
      multiset(Top(sorted)) <= multiset(table + [Entry(0, name, score)])
  {
    var sorted := SortDescending(table + [Entry(0, name, score)]);
    SortDescendingIsStableSort(table + [Entry(0, name, score)]);
    PrefixWithin(sorted, |Top(sorted)|);
  }

  /** Among the entries whose key equals the new entry's, the new entry
      comes last: a tie goes to the result already on the table. */
  lemma NewEntryLastAmongEqual(table: seq<Entry>, name: string, score: int)
    ensures var e := Entry(0, name, score);
      WithKey(SortDescending(table + [e]), Key(e)) == WithKey(table, Key(e)) + [e]
  {
    var e := Entry(0, name, score);
    SortDescendingIsStableSort(table + [e]);
    WithKeyAppend(table, [e], Key(e));
    WithKeySingle(e, Key(e));
  }

  /** A table already ordered by key is left as it is by the sort. */
  lemma {:induction false} SortDescendingKeepsSorted(s: seq<Entry>)
    requires SortedByKey(s)
    ensures SortDescending(s) == s
    decreases |s|
  {
    if s != [] {
      var init := s[..|s| - 1];
      SortDescendingKeepsSorted(init);
      assert init + [s[|s| - 1]] == s;
    }
  }

  /** Sorting twice is sorting once. */
  lemma SortDescendingIdempotent(s: seq<Entry>)
    ensures SortDescending(SortDescending(s)) == SortDescending(s)
  {
    SortDescendingIsStableSort(s);
    SortDescendingKeepsSorted(SortDescending(s));
  }

  /** An entry with a key above every key of t goes first. */
  lemma {:induction false} InsertAboveAll(t: seq<Entry>, e: Entry)
    requires forall i :: 0 <= i < |t| ==> Key(t[i]) < Key(e)
    ensures Insert(t, e) == [e] + t
    decreases |t|
  {
    if t != [] {
      var init := t[..|t| - 1];
      InsertAboveAll(init, e);
      assert [e] + init + [t[|t| - 1]] == [e] + t;
    }
  }

  /** The update as written: read the table, reject the result or append
      it, sort, keep three and renumber. The returned table is the one
      that is saved. */
  method UpdateLeaderboard(file: File, newName: string, newScore: int) returns (r: Update)
    ensures var table := LoadLeaderboard(file);
      && (|table| == 0 <==> r == IndexError)
      && (|table| > 0 ==> (r == Rejected <==> Rejects(table, newScore)))
      && (r.Saved? ==> r.table == Ranked(table, newName, newScore))
  {
    var board := LoadLeaderboard(file);
    if |board| == 0 {
      return IndexError;
    }
    var last := board[|board| - 1];
    if newScore <= last.score && last.name != DefaultName {
      return Rejected;
    }
    ghost var table := board;
    board := board + [Entry(0, newName, newScore)];
    board := SortDescending(board);
    board := Top(board);
    ghost var top := board;
    for i := 0 to |board|
      invariant |board| == |top|
      invariant forall j :: 0 <= j < i ==> board[j] == top[j].(place := j + 1)
      invariant forall j :: i <= j < |board| ==> board[j] == top[j]
    {
      board := board[i := board[i].(place := i + 1)];
    }
    assert board == Renumbered(top);
    return Saved(board);
  }

  /** A first real result on the default table takes first place ahead
      of two placeholders. */
  lemma NewResultOnDefaultTable(name: string, score: int)
    requires name != DefaultName && score >= 0
    ensures Ranked(DefaultTable(), name, score) ==
      [Entry(1, name, score), Entry(2, DefaultName, DefaultScore), Entry(3, DefaultName, DefaultScore)]
  {
    var d := DefaultTable();
    var e := Entry(0, name, score);
    var sorted := SortDescending(d + [e]);
    assert sorted == [e] + d by {
      assert (d + [e])[..3] == d;
      SortDescendingKeepsSorted(d);
      InsertAboveAll(d, e);
    }
    var r := Ranked(d, name, score);
    assert r == Renumbered(sorted[..3]);
    assert r[0] == Entry(1, name, score) && r[1] == d[0].(place := 2) && r[2] == d[1].(place := 3);
  }

  /** Alice 100, Bob 80 and Charlie 50 with Dave's 90 added give Alice,
      Dave and Bob. */
  lemma NewResultInTheMiddle()
    ensures Ranked([Entry(1, "Alice", 100), Entry(2, "Bob", 80), Entry(3, "Charlie", 50)], "Dave", 90) ==
      [Entry(1, "Alice", 100), Entry(2, "Dave", 90), Entry(3, "Bob", 80)]
  {
    var a, b, c, d := Entry(1, "Alice", 100), Entry(2, "Bob", 80), Entry(3, "Charlie", 50), Entry(0, "Dave", 90);
    var table := [a, b, c];
    SortDescendingKeepsSorted(table);
    assert (table + [d])[..3] == table;
    assert table[..2] == [a, b];
    assert [a, b][..1] == [a];
    assert Insert([a], d) == [a, d];
    assert Insert([a, b], d) == [a, d, b];
    assert Insert(table, d) == [a, d, b, c];
  }

  /** A full table of real results rejects a score equal to its last. */
  lemma EqualToLastIsRejected()
    ensures Rejects([Entry(1, "Alice", 100), Entry(2, "Bob", 80), Entry(3, "Charlie", 50)], 50)
  {
  }
}
