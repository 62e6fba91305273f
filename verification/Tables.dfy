/** Walking an argument table row by row, up to its end marker. */
module Tables {
  import opened Wire

  /** An argument table ends with an end marker. */
  ghost predicate Terminated(rows: seq<Row>) {
    |rows| > 0 && rows[|rows| - 1].direction == RPC_END
  }

  /** What the loops look at. Nothing from the end marker on; before it, each row of the
      direction once and in the table's order, whatever other rows stand between them. */
  lemma {:induction false} MatchingSplits(direction: int, front: seq<Row>, row: Row, back: seq<Row>)
    requires forall k :: 0 <= k < |front| ==> front[k].direction != RPC_END
    ensures row.direction == RPC_END ==>
              Matching(direction, front + [row] + back) == Matching(direction, front)
    ensures row.direction != RPC_END ==>
              Matching(direction, front + [row] + back)
              == Matching(direction, front) + (if row.direction == direction then [row] else [])
                 + Matching(direction, back)
    ensures |Matching(direction, front)| <= |front|
    decreases |front|
  {
    var all := front + [row] + back;
    if front == [] {
      assert all == [row] + back && all[1..] == back;
    } else {
      assert all[1..] == front[1..] + [row] + back;
      MatchingSplits(direction, front[1..], row, back);
    }
  }

  /** The matching rows that are still to come at row `i`. */
  function Rest(direction: int, rows: seq<Row>, i: nat): seq<Row>
    requires i <= |rows|
  {
    Matching(direction, rows[i..])
  }

  lemma RestStarts(direction: int, rows: seq<Row>)
    ensures Rest(direction, rows, 0) == Matching(direction, rows)
  {
    assert rows[0..] == rows;
  }

  lemma RestStep(direction: int, rows: seq<Row>, i: nat)
    requires i < |rows|
    ensures rows[i].direction == RPC_END ==> Rest(direction, rows, i) == []
    ensures rows[i].direction != RPC_END && rows[i].direction != direction ==>
              Rest(direction, rows, i) == Rest(direction, rows, i + 1)
    ensures rows[i].direction != RPC_END && rows[i].direction == direction ==>
              Rest(direction, rows, i) == [rows[i]] + Rest(direction, rows, i + 1)
  {
    assert rows[i..][0] == rows[i] && rows[i..][1..] == rows[i + 1..];
  }
}
