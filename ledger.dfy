/**
 * The score table as the match view changes it: one row appended per
 * accepted submission, and a row taken out by `remove_score`.
 */
module Ledger {
  import opened Scores

  class ScoreTable {
    /** The rows of the score table, in insertion order. */
    var rows: seq<Score>

    /** Every (user, match, turn) triple names at most one row. */
    ghost predicate Valid()
      reads this
    {
      UniqueTurns(rows)
    }

    constructor ()
      ensures Valid() && rows == []
    {
      rows := [];
    }

    /** The scores recorded by `user`, in table order. */
    function ScoresOfUser(user: int): (sel: seq<Score>)
      reads this
      ensures forall r :: r in sel <==> r in rows && r.userId == user
      ensures forall r :: multiset(sel)[r] == if r.userId == user then multiset(rows)[r] else 0
    {
      Select(rows, ByUser(user))
    }

    /** The scores recorded in match `game`, in table order: the list the match page shows. */
    function ScoresOfMatch(game: int): (sel: seq<Score>)
      reads this
      ensures forall r :: r in sel <==> r in rows && r.matchId == game
      ensures forall r :: multiset(sel)[r] == if r.matchId == game then multiset(rows)[r] else 0
    {
      Select(rows, ByMatch(game))
    }

    /**
     * Records `user`'s score `value` for match `game` under the next turn
     * of that pair, and returns the new row.
     */
    method Add(user: int, game: int, value: int) returns (added: Score)
      requires Valid()
      modifies this
      ensures Valid()
      ensures added == Allocate(old(rows), user, game, value)
      ensures added.userId == user && added.matchId == game && added.score == value
      ensures forall r :: r in old(rows) && r.userId == user && r.matchId == game ==>
                r.turnNumber < added.turnNumber
      ensures rows == old(rows) + [added]
      ensures ScoresOfMatch(game) == old(ScoresOfMatch(game)) + [added]
      ensures forall m :: m != game ==> ScoresOfMatch(m) == old(ScoresOfMatch(m))
    {
      added := Allocate(rows, user, game, value);
      AllocateKeepsTurnsUnique(rows, user, game, value);
      NextTurnForRows(rows, user, game);
      SelectAppend(rows, [added], ByMatch(game));
      assert Select([added], ByMatch(game)) == [added] by { assert [added][1..] == []; }
      forall m | m != game ensures Select(rows + [added], ByMatch(m)) == Select(rows, ByMatch(m)) {
        SelectAppend(rows, [added], ByMatch(m));
        SelectNone([added], ByMatch(m));
      }
      rows := rows + [added];
    }

    /**
     * Takes `s` out of the table. With unique triples at most one row is
     * `s`, so exactly one row goes when `s` is present, none otherwise.
     */
    method Remove(s: Score)
      requires Valid()
      modifies this
      ensures Valid()
      ensures rows == Select(old(rows), AllBut(s))
      ensures s !in ScoresOfUser(s.userId) && s !in ScoresOfMatch(s.matchId)
      ensures forall r :: r in rows <==> r in old(rows) && r != s
      ensures |rows| == if s in old(rows) then |old(rows)| - 1 else |old(rows)|
    {
      SelectKeepsTurnsUnique(rows, AllBut(s));
      if s in rows {
        RemoveDropsOneRow(rows, s);
      } else {
        SelectAll(rows, AllBut(s));
      }
      rows := Select(rows, AllBut(s));
    }
  }

  /**
   * The add-then-remove scenario of the score test case: the user's and
   * the match's lists before the score is added, after it is added, and
   * after it is removed.
   */
  method ScoreLifecycle(user: int, game: int) returns (userLists: seq<seq<Score>>, matchLists: seq<seq<Score>>)
    ensures userLists == [[], [Score(user, game, 1, 5)], []]
    ensures matchLists == [[], [Score(user, game, 1, 5)], []]
  {
    var table := new ScoreTable();
    userLists, matchLists := [table.ScoresOfUser(user)], [table.ScoresOfMatch(game)];
    var s := table.Add(user, game, 5);
    assert table.rows == [s];
    assert [s][1..] == [];
    userLists, matchLists := userLists + [table.ScoresOfUser(user)], matchLists + [table.ScoresOfMatch(game)];
    table.Remove(s);
    userLists, matchLists := userLists + [table.ScoresOfUser(user)], matchLists + [table.ScoresOfMatch(game)];
  }
}
