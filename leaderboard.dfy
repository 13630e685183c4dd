/**
 * leaderboard.json: player name to {score, date}. The high-score rule every game mode
 * applies when it ends (app.py:1277-1281 and its copies) and the top-ten ranking the
 * start page shows (app.py:1219).
 */
module Leaderboard {
  datatype Entry = Entry(score: int, date: string)

  type Board = map<string, Entry>

  /** The rule's condition: no entry yet, or a strictly higher score. */
  predicate Improves(board: Board, player: string, score: int) {
    player !in board || board[player].score < score
  }

  /** The board after the rule has run for one finished game. */
  function Recorded(board: Board, player: string, score: int, date: string): (r: Board)
    ensures r.Keys == board.Keys + {player}
  {
    if Improves(board, player, score) then board[player := Entry(score, date)] else board
  }

  function Max(a: int, b: int): int {
    if a >= b then a else b
  }

  /**
   * The rule writes exactly when it changes the board; afterwards the player's score is the
   * maximum of the old and the new one; a tie keeps the old entry and its date; other
   * players are untouched.
   */
  lemma RecordedSpec(board: Board, player: string, score: int, date: string)
    ensures Improves(board, player, score) <==> Recorded(board, player, score, date) != board
    ensures Recorded(board, player, score, date)[player].score ==
      if player in board then Max(board[player].score, score) else score
    ensures player in board && board[player].score == score ==> Recorded(board, player, score, date) == board
    ensures forall q :: q in board && q != player ==> Recorded(board, player, score, date)[q] == board[q]
  {
    if Improves(board, player, score) {
      assert Recorded(board, player, score, date)[player] == Entry(score, date);
      if player in board {
        assert board[player] != Entry(score, date);
      }
    }
  }

  /** A sequence of finished games, each with its score and the time it ended. */
  datatype Game = Game(player: string, score: int, date: string)

  function RecordAll(board: Board, games: seq<Game>): (r: Board)
    decreases |games|
  {
    if games == [] then board
    else Recorded(RecordAll(board, games[..|games| - 1]), games[|games| - 1].player,
                  games[|games| - 1].score, games[|games| - 1].date)
  }

  /** The highest score a player reached in the games, if the player played. */
  function Best(games: seq<Game>, player: string): (r: int)
    requires exists k :: 0 <= k < |games| && games[k].player == player
    ensures exists k :: 0 <= k < |games| && games[k].player == player && games[k].score == r
    ensures forall k :: 0 <= k < |games| && games[k].player == player ==> games[k].score <= r
    decreases |games|
  {
    var last := games[|games| - 1];
    var init := games[..|games| - 1];
    if exists k :: 0 <= k < |init| && init[k].player == player then
      var b := Best(init, player);
      if last.player == player then Max(b, last.score) else b
    else
      last.score
  }

  /** Starting from an empty board, each player's stored score is the best they ever reached. */
  lemma {:induction false} RunningMaximum(games: seq<Game>, player: string)
    ensures player in RecordAll(map[], games) <==> exists k :: 0 <= k < |games| && games[k].player == player
    ensures player in RecordAll(map[], games) ==> RecordAll(map[], games)[player].score == Best(games, player)
    decreases |games|
  {
    if games != [] {
      var init := games[..|games| - 1];
      var last := games[|games| - 1];
      RunningMaximum(init, player);
      var b := RecordAll(map[], init);
      RecordedSpec(b, last.player, last.score, last.date);
      assert forall k :: 0 <= k < |init| ==> init[k] == games[k];
      if exists k :: 0 <= k < |games| && games[k].player == player {
        var k :| 0 <= k < |games| && games[k].player == player;
        if k < |init| {
          assert init[k].player == player;
        }
      }
    }
  }

  /** Three games of one player, scoring 12, 9 and 15, leave 15 with the third game's date. */
  lemma ThreeGames(alice: string, d1: string, d2: string, d3: string)
    ensures RecordAll(map[], [Game(alice, 12, d1), Game(alice, 9, d2), Game(alice, 15, d3)]) == map[alice := Entry(15, d3)]
  {
    var g := [Game(alice, 12, d1), Game(alice, 9, d2), Game(alice, 15, d3)];
    assert g[..2][..1][..0] == [];
    assert RecordAll(map[], g[..1]) == map[alice := Entry(12, d1)];
    assert RecordAll(map[], g[..2]) == map[alice := Entry(12, d1)];
  }

  // ---- ranking ----

  /** A pair of board.items(), in the order the file lists them. */
  datatype Item = Item(name: string, entry: Entry)

  predicate Descending(s: seq<Item>) {
    forall i, j :: 0 <= i < j < |s| ==> s[i].entry.score >= s[j].entry.score
  }

  /** Insert x before the first item that does not score more (so x comes first among ties). */
  function InsertDesc(x: Item, s: seq<Item>): (r: seq<Item>)
    requires Descending(s)
    ensures Descending(r)
    ensures multiset(r) == multiset(s) + multiset{x}
  {
    if s == [] || s[0].entry.score <= x.entry.score then
      InsertFront(x, s);
      [x] + s
    else
      DescendingTail(s);
      var t := InsertDesc(x, s[1..]);
      InsertBehind(x, s, t);
      [s[0]] + t
  }

  lemma DescendingTail(s: seq<Item>)
    requires Descending(s) && s != []
    ensures Descending(s[1..])
    ensures forall j :: 0 <= j < |s[1..]| ==> s[1..][j].entry.score <= s[0].entry.score
  {
    var rest := s[1..];
    forall j | 0 <= j < |rest| ensures rest[j] == s[j + 1] { }
  }

  /** x goes first when it scores at least as much as the head. */
  lemma InsertFront(x: Item, s: seq<Item>)
    requires Descending(s) && (s == [] || s[0].entry.score <= x.entry.score)
    ensures Descending([x] + s)
  {
    if s != [] {
      forall k | 0 <= k < |s| ensures s[k].entry.score <= x.entry.score {
        assert s[0].entry.score >= s[k].entry.score || k == 0;
      }
    }
    DescendingCons(x, s);
  }

  /** The head stays in front of the tail x was inserted into. */
  lemma InsertBehind(x: Item, s: seq<Item>, t: seq<Item>)
    requires Descending(s) && s != [] && x.entry.score < s[0].entry.score
    requires Descending(t) && multiset(t) == multiset(s[1..]) + multiset{x}
    ensures Descending([s[0]] + t)
    ensures multiset([s[0]] + t) == multiset(s) + multiset{x}
  {
    DescendingTail(s);
    assert s == [s[0]] + s[1..];
    BoundedByMultiset(t, s[1..], x, s[0].entry.score);
    DescendingCons(s[0], t);
  }

  lemma DescendingCons(y: Item, t: seq<Item>)
    requires Descending(t) && forall k :: 0 <= k < |t| ==> t[k].entry.score <= y.entry.score
    ensures Descending([y] + t)
  {
    var r := [y] + t;
    forall i, j | 0 <= i < j < |r| ensures r[i].entry.score >= r[j].entry.score {
      assert r[j] == t[j - 1];
      if i > 0 {
        assert r[i] == t[i - 1];
      }
    }
  }

  lemma BoundedByMultiset(t: seq<Item>, s: seq<Item>, x: Item, b: int)
    requires multiset(t) == multiset(s) + multiset{x}
    requires x.entry.score <= b && forall j :: 0 <= j < |s| ==> s[j].entry.score <= b
    ensures forall k :: 0 <= k < |t| ==> t[k].entry.score <= b
  {
    forall k | 0 <= k < |t| ensures t[k].entry.score <= b {
      assert t[k] in multiset(t);
      if t[k] != x {
        assert t[k] in multiset(s);
      }
    }
  }

  /** The items that have score v, in their order. */
  function WithScore(s: seq<Item>, v: int): seq<Item> {
    if s == [] then []
    else (if s[0].entry.score == v then [s[0]] else []) + WithScore(s[1..], v)
  }

  lemma {:induction false} WithScoreAppend(a: seq<Item>, b: seq<Item>, v: int)
    ensures WithScore(a + b, v) == WithScore(a, v) + WithScore(b, v)
    decreases |a|
  {
    if a != [] {
      assert (a + b)[1..] == a[1..] + b;
      WithScoreAppend(a[1..], b, v);
    } else {
      assert a + b == b;
    }
  }

  /** x comes first among the items scoring as much as it does; other ties keep their order. */
  lemma {:induction false} InsertStable(x: Item, s: seq<Item>, v: int)
    requires Descending(s)
    ensures WithScore(InsertDesc(x, s), v) == (if x.entry.score == v then [x] else []) + WithScore(s, v)
    decreases |s|
  {
    if s == [] || s[0].entry.score <= x.entry.score {
      WithScoreCons(x, s, v);
    } else {
      DescendingTail(s);
      InsertStable(x, s[1..], v);
      StableBehind(x, s, InsertDesc(x, s[1..]), v);
    }
  }

  /** Putting the head back in front of the tail x was inserted into keeps the ties' order. */
  lemma StableBehind(x: Item, s: seq<Item>, t: seq<Item>, v: int)
    requires s != [] && x.entry.score < s[0].entry.score
    requires WithScore(t, v) == (if x.entry.score == v then [x] else []) + WithScore(s[1..], v)
    ensures WithScore([s[0]] + t, v) == (if x.entry.score == v then [x] else []) + WithScore(s, v)
  {
    WithScoreCons(s[0], t, v);
    assert s == [s[0]] + s[1..];
    WithScoreCons(s[0], s[1..], v);
  }

  lemma WithScoreCons(y: Item, t: seq<Item>, v: int)
    ensures WithScore([y] + t, v) == (if y.entry.score == v then [y] else []) + WithScore(t, v)
  {
    assert ([y] + t)[0] == y;
    assert ([y] + t)[1..] == t;
  }

  /**
   * The sort is stable: for every score, the items with that score keep the order they had,
   * as Python's sorted() guarantees with reverse=True.
   */
  lemma {:induction false} SortStable(s: seq<Item>, v: int)
    ensures WithScore(SortDesc(s), v) == WithScore(s, v)
    decreases |s|
  {
    if s != [] {
      SortStable(s[1..], v);
      InsertStable(s[0], SortDesc(s[1..]), v);
    }
  }

  /** sorted(items, key=score, reverse=True): an insertion sort that keeps tied items in their order. */
  function SortDesc(s: seq<Item>): (r: seq<Item>)
    ensures Descending(r)
    ensures multiset(r) == multiset(s)
    ensures |r| == |s|
  {
    if s == [] then []
    else
      assert s == [s[0]] + s[1..];
      InsertDesc(s[0], SortDesc(s[1..]))
  }

  const RankingSize := 10

  /** The first ten of the sorted items. */
  function Ranking(items: seq<Item>): (r: seq<Item>)
    ensures |r| == if |items| < RankingSize then |items| else RankingSize
  {
    var sorted := SortDesc(items);
    if |sorted| <= RankingSize then sorted else sorted[..RankingSize]
  }

  /**
   * The ranking lists up to ten items from the board in non-increasing score order, every
   * item left out scores no more than the last one shown, and among items with equal scores
   * the ones shown are the first in the board's order, in that order.
   */
  lemma RankingSpec(items: seq<Item>)
    ensures Descending(Ranking(items))
    ensures forall k :: 0 <= k < |Ranking(items)| ==> Ranking(items)[k] in items
    ensures multiset(Ranking(items)) <= multiset(items)
    ensures forall x :: x in items && x !in Ranking(items) ==>
      Ranking(items) != [] && x.entry.score <= Ranking(items)[|Ranking(items)| - 1].entry.score
    ensures forall v :: WithScore(Ranking(items), v) <= WithScore(items, v)
  {
    var sorted := SortDesc(items);
    var r := Ranking(items);
    TopSpec(sorted, r);
    forall v ensures WithScore(r, v) <= WithScore(items, v) {
      RankingStable(items, v);
    }
    forall x | x in items ensures x in multiset(sorted) {
      assert x in multiset(items);
    }
    forall k | 0 <= k < |r| ensures r[k] in items {
      assert r[k] in multiset(sorted);
    }
  }

  /** The tied items the ranking shows are the first of their score in the board's order. */
  lemma RankingStable(items: seq<Item>, v: int)
    ensures WithScore(Ranking(items), v) <= WithScore(items, v)
  {
    var sorted := SortDesc(items);
    SortStable(items, v);
    if |sorted| > RankingSize {
      var r := sorted[..RankingSize];
      assert sorted == r + sorted[RankingSize..];
      WithScoreAppend(r, sorted[RankingSize..], v);
    }
  }

  /** The head of a descending sequence, cut to the ranking's size. */
  lemma TopSpec(sorted: seq<Item>, r: seq<Item>)
    requires Descending(sorted)
    requires r == if |sorted| <= RankingSize then sorted else sorted[..RankingSize]
    ensures Descending(r) && multiset(r) <= multiset(sorted)
    ensures forall x :: x in multiset(sorted) && x !in r ==> r != [] && x.entry.score <= r[|r| - 1].entry.score
  {
    if |sorted| > RankingSize {
      assert sorted == r + sorted[RankingSize..];
      assert multiset(sorted) == multiset(r) + multiset(sorted[RankingSize..]);
      forall x | x in multiset(sorted) && x !in r
        ensures x.entry.score <= r[|r| - 1].entry.score
      {
        var k :| 0 <= k < |sorted| && sorted[k] == x;
        assert k >= RankingSize;
      }
    }
  }
}
