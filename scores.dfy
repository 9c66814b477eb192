/**
 * The score table of app/routes.py as plain values: the Score row, the
 * queries the views and tests run over the table, and the allocation of
 * the next turn number for a (user, match) pair.
 */
module Scores {

  /** One row of the score table: `user_id`, `match_id`, `turn_number`, `score`. */
  datatype Score = Score(userId: int, matchId: int, turnNumber: int, score: int)

  /** The row filters run against the table. */
  datatype Query =
    | ByUser(user: int)                 // one user's scores
    | ByMatch(game: int)                // one match's scores
    | ByPair(user: int, game: int)      // one user's scores in one match
    | AllBut(row: Score)                // what is left after removing a row

  predicate Selects(q: Query, r: Score) {
    match q
    case ByUser(u) => r.userId == u
    case ByMatch(m) => r.matchId == m
    case ByPair(u, m) => r.userId == u && r.matchId == m
    case AllBut(s) => r != s
  }

  /** The rows a query returns, in table order. */
  function Select(rows: seq<Score>, q: Query): (sel: seq<Score>)
    ensures |sel| <= |rows|
    ensures forall r :: r in sel <==> r in rows && Selects(q, r)
    ensures forall r :: multiset(sel)[r] == if Selects(q, r) then multiset(rows)[r] else 0
  {
    if rows == [] then []
    else
      assert multiset(rows) == multiset([rows[0]]) + multiset(rows[1..]) by {
        assert rows == [rows[0]] + rows[1..];
      }
      if Selects(q, rows[0]) then [rows[0]] + Select(rows[1..], q)
      else Select(rows[1..], q)
  }

  /** Selecting from two stretches of the table is selecting from each, in order. */
  lemma {:induction false} SelectAppend(a: seq<Score>, b: seq<Score>, q: Query)
    ensures Select(a + b, q) == Select(a, q) + Select(b, q)
  {
    if a == [] {
      assert a + b == b;
    } else {
      assert (a + b)[0] == a[0];
      assert (a + b)[1..] == a[1..] + b;
      SelectAppend(a[1..], b, q);
    }
  }

  /** A query every row passes returns the table unchanged. */
  lemma {:induction false} SelectAll(rows: seq<Score>, q: Query)
    requires forall r :: r in rows ==> Selects(q, r)
    ensures Select(rows, q) == rows
  {
    if rows != [] {
      assert rows[0] in rows;
      SelectAll(rows[1..], q);
    }
  }

  /** A query no row passes returns nothing. */
  lemma {:induction false} SelectNone(rows: seq<Score>, q: Query)
    requires forall r :: r in rows ==> !Selects(q, r)
    ensures Select(rows, q) == []
  {
    if rows != [] {
      assert rows[0] in rows;
      SelectNone(rows[1..], q);
    }
  }

  /** The turn numbers of some rows, in the same order. */
  function TurnsOf(rows: seq<Score>): (turns: seq<int>)
    ensures |turns| == |rows|
    ensures forall i :: 0 <= i < |rows| ==> turns[i] == rows[i].turnNumber
  {
    if rows == [] then [] else [rows[0].turnNumber] + TurnsOf(rows[1..])
  }

  /** The turn numbers already recorded for one (user, match) pair. */
  function PairTurns(rows: seq<Score>, user: int, game: int): seq<int> {
    TurnsOf(Select(rows, ByPair(user, game)))
  }

  /** The largest of a non-empty list of turn numbers. */
  function MaxTurn(turns: seq<int>): (m: int)
    requires turns != []
    ensures m in turns
    ensures forall t :: t in turns ==> t <= m
  {
    if |turns| == 1 then turns[0]
    else
      var rest := MaxTurn(turns[1..]);
      assert turns == [turns[0]] + turns[1..];
      if turns[0] >= rest then turns[0] else rest
  }

  /**
   * The turn number given to a new score: one more than the largest
   * existing turn, or 1 when there is none.
   */
  function NextTurn(turns: seq<int>): (t: int)
    ensures turns == [] ==> t == 1
    ensures turns != [] ==> t - 1 in turns
    ensures forall x :: x in turns ==> x < t
  {
    if turns == [] then 1 else MaxTurn(turns) + 1
  }

  ghost predicate Descending(s: seq<int>) {
    forall i, j :: 0 <= i < j < |s| ==> s[i] >= s[j]
  }

  /**
   * The source sorts the pair's turn numbers in descending order and adds
   * 1 to the first; whatever order ties come in, that is NextTurn.
   */
  lemma FirstOfDescendingOrder(turns: seq<int>, ordered: seq<int>)
    requires multiset(ordered) == multiset(turns)
    requires Descending(ordered)
    requires ordered != []
    ensures turns != []
    ensures ordered[0] + 1 == NextTurn(turns)
  {
    assert ordered[0] in multiset(ordered);
    assert ordered[0] in turns;
    var top := MaxTurn(turns);
    assert top in multiset(turns);
    assert top in ordered;
    var j :| 0 <= j < |ordered| && ordered[j] == top;
    assert j == 0 || ordered[0] >= ordered[j];
  }

  /** The turn the next score of `user` in match `game` receives. */
  function NextTurnFor(rows: seq<Score>, user: int, game: int): (t: int)
    ensures PairTurns(rows, user, game) == [] ==> t == 1
    ensures PairTurns(rows, user, game) != [] ==> t - 1 in PairTurns(rows, user, game)
    ensures forall x :: x in PairTurns(rows, user, game) ==> x < t
  {
    NextTurn(PairTurns(rows, user, game))
  }

  /** The next turn read off the table itself, row by row. */
  lemma NextTurnForRows(rows: seq<Score>, user: int, game: int)
    ensures (forall r :: r in rows ==> !(r.userId == user && r.matchId == game)) ==> NextTurnFor(rows, user, game) == 1
    ensures (exists r :: r in rows && r.userId == user && r.matchId == game) ==>
              exists r :: r in rows && r.userId == user && r.matchId == game
                           && r.turnNumber + 1 == NextTurnFor(rows, user, game)
    ensures forall r :: r in rows && r.userId == user && r.matchId == game ==>
              r.turnNumber < NextTurnFor(rows, user, game)
  {
    var sel := Select(rows, ByPair(user, game));
    var t := NextTurnFor(rows, user, game);
    forall r | r in sel ensures r.turnNumber in TurnsOf(sel) {
      var i :| 0 <= i < |sel| && sel[i] == r;
      assert TurnsOf(sel)[i] == r.turnNumber;
    }
    if sel != [] {
      var i :| 0 <= i < |TurnsOf(sel)| && TurnsOf(sel)[i] == t - 1;
      assert sel[i] in sel;
    }
    if forall r :: r in rows ==> !(r.userId == user && r.matchId == game) {
      SelectNone(rows, ByPair(user, game));
    }
  }

  /**
   * The row the match view inserts for `user`'s score `value` in match
   * `game`: its turn is above every turn the pair already holds, so it is
   * a row the table does not yet contain.
   */
  function Allocate(rows: seq<Score>, user: int, game: int, value: int): (a: Score)
    ensures a.userId == user && a.matchId == game && a.score == value
    ensures forall r :: r in rows && r.userId == user && r.matchId == game ==> r.turnNumber < a.turnNumber
    ensures a !in rows
  {
    NextTurnForRows(rows, user, game);
    Score(user, game, NextTurnFor(rows, user, game), value)
  }

  /** No two rows share a (user, match, turn) triple. */
  ghost predicate UniqueTurns(rows: seq<Score>) {
    forall i, j :: 0 <= i < j < |rows| ==>
      !(rows[i].userId == rows[j].userId && rows[i].matchId == rows[j].matchId
        && rows[i].turnNumber == rows[j].turnNumber)
  }

  /** Appending the allocated row keeps every (user, match, turn) triple unique. */
  lemma AllocateKeepsTurnsUnique(rows: seq<Score>, user: int, game: int, value: int)
    requires UniqueTurns(rows)
    ensures UniqueTurns(rows + [Allocate(rows, user, game, value)])
  {
    var s := Allocate(rows, user, game, value);
    var rows' := rows + [s];
    NextTurnForRows(rows, user, game);
    forall i, j | 0 <= i < j < |rows'|
      ensures !(rows'[i].userId == rows'[j].userId && rows'[i].matchId == rows'[j].matchId
                && rows'[i].turnNumber == rows'[j].turnNumber)
    {
      if j == |rows| {
        assert rows'[i] == rows[i] && rows[i] in rows;
      } else {
        assert rows'[i] == rows[i] && rows'[j] == rows[j];
      }
    }
  }

  /** Rows of other users or other matches, before or after, do not move the next turn. */
  lemma AllocationIgnoresOtherRows(rows: seq<Score>, others: seq<Score>, user: int, game: int)
    requires forall r :: r in others ==> !(r.userId == user && r.matchId == game)
    ensures NextTurnFor(rows + others, user, game) == NextTurnFor(rows, user, game)
    ensures NextTurnFor(others + rows, user, game) == NextTurnFor(rows, user, game)
  {
    var q := ByPair(user, game);
    SelectAppend(rows, others, q);
    SelectAppend(others, rows, q);
    SelectNone(others, q);
    assert Select(rows + others, q) == Select(rows, q);
    assert Select(others + rows, q) == Select(rows, q);
  }

  /** The turns 1, 2, ..., k. */
  function OneTo(k: nat): (s: seq<int>)
    ensures |s| == k
    ensures forall i :: 0 <= i < k ==> s[i] == i + 1
  {
    if k == 0 then [] else OneTo(k - 1) + [k]
  }

  /** The table after `user` submits `values` for match `game`, one submission after another. */
  function AddSeveral(rows: seq<Score>, user: int, game: int, values: seq<int>): seq<Score>
    decreases |values|
  {
    if values == [] then rows
    else AddSeveral(rows + [Allocate(rows, user, game, values[0])], user, game, values[1..])
  }

  /** The rows the successive submissions append when the pair already holds turns 1..done. */
  function Numbered(user: int, game: int, done: nat, values: seq<int>): (appended: seq<Score>)
    ensures |appended| == |values|
  {
    seq(|values|, i requires 0 <= i < |values| => Score(user, game, done + 1 + i, values[i]))
  }

  lemma NumberedCons(user: int, game: int, done: nat, values: seq<int>)
    requires values != []
    ensures Numbered(user, game, done, values)
         == [Score(user, game, done + 1, values[0])] + Numbered(user, game, done + 1, values[1..])
  {
  }

  lemma TurnsOfAppend(a: seq<Score>, b: seq<Score>)
    ensures TurnsOf(a + b) == TurnsOf(a) + TurnsOf(b)
  {
  }

  /** After the turns 1..done comes turn done + 1. */
  lemma NextTurnAfterOneTo(done: nat)
    ensures NextTurn(OneTo(done)) == done + 1
  {
    var turns := OneTo(done);
    var t := NextTurn(turns);
    if done > 0 {
      var i :| 0 <= i < done && turns[i] == t - 1;
      assert turns[done - 1] == done && turns[done - 1] in turns;
    }
  }

  /** One more submission on a pair holding turns 1..done is numbered done + 1. */
  lemma NextOwnTurn(rows: seq<Score>, user: int, game: int, done: nat, value: int)
    requires PairTurns(rows, user, game) == OneTo(done)
    ensures Allocate(rows, user, game, value) == Score(user, game, done + 1, value)
    ensures PairTurns(rows + [Allocate(rows, user, game, value)], user, game) == OneTo(done + 1)
  {
    var q := ByPair(user, game);
    var s := Allocate(rows, user, game, value);
    NextTurnAfterOneTo(done);
    assert s.turnNumber == NextTurn(OneTo(done));
    SelectAppend(rows, [s], q);
    TurnsOfAppend(Select(rows, q), Select([s], q));
    assert Select([s], q) == [s] by { assert [s][1..] == []; }
  }

  /** The first of several submissions on a pair holding turns 1..done. */
  lemma AddSeveralStep(rows: seq<Score>, user: int, game: int, done: nat, values: seq<int>)
    requires PairTurns(rows, user, game) == OneTo(done)
    requires values != []
    ensures AddSeveral(rows, user, game, values) ==
              AddSeveral(rows + [Score(user, game, done + 1, values[0])], user, game, values[1..])
    ensures PairTurns(rows + [Score(user, game, done + 1, values[0])], user, game) == OneTo(done + 1)
  {
    NextOwnTurn(rows, user, game, done, values[0]);
  }

  /**
   * When the pair already holds exactly the turns 1..done, k further
   * submissions append one row each, numbered done+1 .. done+k and
   * carrying the submitted values in order.
   */
  lemma {:induction false} SuccessiveRows(rows: seq<Score>, user: int, game: int, done: nat, values: seq<int>)
    requires PairTurns(rows, user, game) == OneTo(done)
    ensures AddSeveral(rows, user, game, values) == rows + Numbered(user, game, done, values)
    decreases |values|
  {
    if values == [] {
      assert Numbered(user, game, done, values) == [];
    } else {
      var s := Score(user, game, done + 1, values[0]);
      var tail := Numbered(user, game, done + 1, values[1..]);
      assert AddSeveral(rows, user, game, values) == rows + [s] + tail by {
        AddSeveralStep(rows, user, game, done, values);
        SuccessiveRows(rows + [s], user, game, done + 1, values[1..]);
      }
      assert Numbered(user, game, done, values) == [s] + tail by {
        NumberedCons(user, game, done, values);
      }
      assert rows + [s] + tail == rows + ([s] + tail);
    }
  }

  lemma NumberedOwnPair(user: int, game: int, done: nat, values: seq<int>)
    ensures Select(Numbered(user, game, done, values), ByPair(user, game)) == Numbered(user, game, done, values)
  {
    var appended := Numbered(user, game, done, values);
    forall r | r in appended ensures Selects(ByPair(user, game), r) {
      var i :| 0 <= i < |appended| && appended[i] == r;
    }
    SelectAll(appended, ByPair(user, game));
  }

  lemma NumberedTurns(user: int, game: int, done: nat, values: seq<int>)
    ensures OneTo(done) + TurnsOf(Numbered(user, game, done, values)) == OneTo(done + |values|)
  {
  }

  lemma PairTurnsAppend(a: seq<Score>, b: seq<Score>, user: int, game: int)
    ensures PairTurns(a + b, user, game) == PairTurns(a, user, game) + PairTurns(b, user, game)
  {
    SelectAppend(a, b, ByPair(user, game));
    TurnsOfAppend(Select(a, ByPair(user, game)), Select(b, ByPair(user, game)));
  }

  /** ... and the pair then holds exactly the turns 1..done+k. */
  lemma SuccessiveTurns(rows: seq<Score>, user: int, game: int, done: nat, values: seq<int>)
    requires PairTurns(rows, user, game) == OneTo(done)
    ensures PairTurns(AddSeveral(rows, user, game, values), user, game) == OneTo(done + |values|)
  {
    var appended := Numbered(user, game, done, values);
    SuccessiveRows(rows, user, game, done, values);
    PairTurnsAppend(rows, appended, user, game);
    NumberedOwnPair(user, game, done, values);
    NumberedTurns(user, game, done, values);
  }

  /** From a pair with no scores, k submissions are numbered exactly 1..k. */
  lemma FirstSubmissionsNumberedFromOne(rows: seq<Score>, user: int, game: int, values: seq<int>)
    requires forall r :: r in rows ==> !(r.userId == user && r.matchId == game)
    ensures PairTurns(AddSeveral(rows, user, game, values), user, game) == OneTo(|values|)
  {
    SelectNone(rows, ByPair(user, game));
    SuccessiveTurns(rows, user, game, 0, values);
  }

  /** Dropping the first row keeps the triples unique. */
  lemma UniqueTail(rows: seq<Score>)
    requires rows != [] && UniqueTurns(rows)
    ensures UniqueTurns(rows[1..])
  {
    var rest := rows[1..];
    forall i, j | 0 <= i < j < |rest|
      ensures !(rest[i].userId == rest[j].userId && rest[i].matchId == rest[j].matchId
                && rest[i].turnNumber == rest[j].turnNumber)
    {
      assert rest[i] == rows[i + 1] && rest[j] == rows[j + 1];
    }
  }

  /**
   * Putting the first row of a unique table in front of a unique table
   * drawn from the other rows keeps the triples unique.
   */
  lemma UniqueCons(rows: seq<Score>, tail: seq<Score>)
    requires rows != [] && UniqueTurns(rows) && UniqueTurns(tail)
    requires forall r :: r in tail ==> r in rows[1..]
    ensures UniqueTurns([rows[0]] + tail)
  {
    var sel := [rows[0]] + tail;
    forall i, j | 0 <= i < j < |sel|
      ensures !(sel[i].userId == sel[j].userId && sel[i].matchId == sel[j].matchId
                && sel[i].turnNumber == sel[j].turnNumber)
    {
      if i == 0 {
        assert sel[j] == tail[j - 1] && tail[j - 1] in tail;
        var k :| 0 <= k < |rows[1..]| && rows[1..][k] == sel[j];
        assert rows[k + 1] == sel[j];
      } else {
        assert sel[i] == tail[i - 1] && sel[j] == tail[j - 1];
      }
    }
  }

  /** Every query over a table with unique triples returns a table with unique triples. */
  lemma {:induction false} SelectKeepsTurnsUnique(rows: seq<Score>, q: Query)
    requires UniqueTurns(rows)
    ensures UniqueTurns(Select(rows, q))
  {
    if rows != [] {
      UniqueTail(rows);
      SelectKeepsTurnsUnique(rows[1..], q);
      if Selects(q, rows[0]) {
        UniqueCons(rows, Select(rows[1..], q));
      }
    }
  }

  /** With unique triples, a row that is in the table occurs there exactly once. */
  lemma {:induction false} RemoveDropsOneRow(rows: seq<Score>, s: Score)
    requires UniqueTurns(rows)
    requires s in rows
    ensures |Select(rows, AllBut(s))| == |rows| - 1
  {
    var rest := rows[1..];
    if rows[0] == s {
      forall r | r in rest ensures Selects(AllBut(s), r) {
        var k :| 0 <= k < |rest| && rest[k] == r;
        assert rows[k + 1] == r;
      }
      SelectAll(rest, AllBut(s));
    } else {
      assert s in rest;
      UniqueTail(rows);
      RemoveDropsOneRow(rest, s);
    }
  }
}
