/** The table the script writes: one row per sender of the merged tally,
    with the sender's total and a cell per channel key, sorted by total,
    largest first. */
module Reporting {
  import opened Results
  import opened Tally

  /** One line of the table: the sender, the sum of its counts, and its
      count under each channel key. */
  datatype Row = Row(sender: string, total: nat, counts: Counts)

  /** The row is sender `row.sender`'s line of `m`. */
  ghost predicate RowFor(m: Matrix, row: Row) {
    row.sender in m && row.counts == m[row.sender] && row.total == Sum(m[row.sender])
  }

  predicate Distinct(rows: seq<Row>) {
    forall i, j :: 0 <= i < j < |rows| ==> rows[i].sender != rows[j].sender
  }

  predicate Descending(rows: seq<Row>) {
    forall i, j :: 0 <= i < j < |rows| ==> rows[j].total <= rows[i].total
  }

  /** Every sender of `m` has exactly one row, and that row is its line. */
  ghost predicate Table(m: Matrix, rows: seq<Row>) {
    (forall i :: 0 <= i < |rows| ==> RowFor(m, rows[i]))
    && Distinct(rows)
    && (forall s :: s in m ==> exists i :: 0 <= i < |rows| && rows[i].sender == s)
  }

  /** The total of one sender's row: its counts over every channel key,
      added up. */
  method RowTotal(c: Counts) returns (t: nat)
    ensures t == Sum(c)
  {
    var rest := c;
    t := 0;
    while rest != map[]
      invariant t + Sum(rest) == Sum(c)
      decreases |rest.Keys|
    {
      var k :| k in rest;
      SumRemove(rest, k);
      t := t + rest[k];
      rest := rest - {k};
    }
  }

  /** Puts `x` before the first row with a smaller total: the rows and `x`,
      each kept exactly as often as it was given. */
  function InsertRow(rows: seq<Row>, x: Row): (r: seq<Row>)
    ensures multiset(r) == multiset(rows) + multiset{x}
    ensures Descending(rows) ==> Descending(r)
  {
    if rows == [] || rows[0].total < x.total then [x] + rows
    else
      var rest := InsertRow(rows[1..], x);
      InsertStep(rows, x, rest);
      [rows[0]] + rest
  }

  /** The first row stays in front of the insertion into the others, which
      keeps both the rows and their order. */
  lemma InsertStep(rows: seq<Row>, x: Row, rest: seq<Row>)
    requires rows != [] && x.total <= rows[0].total
    requires multiset(rest) == multiset(rows[1..]) + multiset{x}
    requires Descending(rows[1..]) ==> Descending(rest)
    ensures multiset([rows[0]] + rest) == multiset(rows) + multiset{x}
    ensures Descending(rows) ==> Descending([rows[0]] + rest)
  {
    assert rows == [rows[0]] + rows[1..];
    if Descending(rows) {
      assert Descending(rows[1..]);
      InsertedMembers(rows[1..], x, rest);
      var r := [rows[0]] + rest;
      forall i, j | 0 <= i < j < |r| ensures r[j].total <= r[i].total {
        if i == 0 {
          assert r[j] == rest[j - 1] && rest[j - 1] in rest;
          if r[j] != x {
            var k :| 0 <= k < |rows[1..]| && rows[1..][k] == r[j];
            assert rows[k + 1] == r[j];
          }
        } else {
          assert r[i] == rest[i - 1] && r[j] == rest[j - 1];
        }
      }
    }
  }

  /** A sequence holding the rows and `x` once more holds exactly them. */
  lemma InsertedMembers(rows: seq<Row>, x: Row, r: seq<Row>)
    requires multiset(r) == multiset(rows) + multiset{x}
    ensures forall y :: y in r <==> y in rows || y == x
  {
    forall y ensures y in r <==> y in rows || y == x {
      assert y in r <==> y in multiset(r);
      assert y in rows <==> y in multiset(rows);
    }
  }

  /** Inserting a row for a new sender keeps the senders distinct. */
  lemma {:induction false} InsertDistinct(rows: seq<Row>, x: Row)
    requires Distinct(rows)
    requires forall i :: 0 <= i < |rows| ==> rows[i].sender != x.sender
    ensures Distinct(InsertRow(rows, x))
  {
    if rows != [] && rows[0].total >= x.total {
      var rest := InsertRow(rows[1..], x);
      InsertDistinct(rows[1..], x);
      var r := [rows[0]] + rest;
      forall i, j | 0 <= i < j < |r| ensures r[i].sender != r[j].sender {
        if i == 0 {
          InsertedMembers(rows[1..], x, rest);
          assert r[j] == rest[j - 1] && rest[j - 1] in rest;
        } else {
          assert r[i] == rest[i - 1] && r[j] == rest[j - 1];
        }
      }
    }
  }

  /** Building the frame and `sort_values(by='Total Messages',
      ascending=False)`. A frame built from no rows has no such column and
      the sort raises. The sort is not stable, so the order of rows with equal
      totals is not promised. */
  method Report(m: Matrix) returns (r: Result<seq<Row>>)
    ensures r.Err? <==> m == map[]
    ensures r.Err? ==> r.error == NoTotalColumn
    ensures r.Ok? ==> Table(m, r.value) && Descending(r.value)
  {
    if m == map[] {
      return Err(NoTotalColumn);
    }
    var rows: seq<Row> := [];
    var rest := m.Keys;
    while rest != {}
      invariant rest <= m.Keys
      invariant forall i :: 0 <= i < |rows| ==> RowFor(m, rows[i]) && rows[i].sender !in rest
      invariant forall s :: s in m && s !in rest ==> exists i :: 0 <= i < |rows| && rows[i].sender == s
      invariant Distinct(rows) && Descending(rows)
      decreases rest
    {
      var s :| s in rest;
      var t := RowTotal(m[s]);
      var x := Row(s, t, m[s]);
      var next := InsertRow(rows, x);
      InsertedMembers(rows, x, next);
      InsertDistinct(rows, x);
      forall s' | s' in m && s' !in rest - {s}
        ensures exists i :: 0 <= i < |next| && next[i].sender == s'
      {
        if s' == s {
          assert x in next;
        } else {
          var i :| 0 <= i < |rows| && rows[i].sender == s';
          assert rows[i] in next;
        }
      }
      forall i | 0 <= i < |next|
        ensures RowFor(m, next[i]) && next[i].sender !in rest - {s}
      {
        assert next[i] in rows || next[i] == x;
      }
      rows, rest := next, rest - {s};
    }
    return Ok(rows);
  }

  /** The sum of a column of totals. */
  function TotalsSum(rows: seq<Row>): nat {
    if rows == [] then 0 else rows[0].total + TotalsSum(rows[1..])
  }

  /** The `Total Messages` column adds up to the number of messages the
      tally credits. */
  lemma {:induction false} RowsAddUp(m: Matrix, rows: seq<Row>)
    requires Table(m, rows)
    ensures TotalsSum(rows) == Grand(m)
    decreases |rows|
  {
    if rows == [] {
      assert m.Keys == {};
      assert Totals(m) == map[];
    } else {
      var s := rows[0].sender;
      var m' := m - {s};
      TableRest(m, rows);
      RowsAddUp(m', rows[1..]);
      assert RowFor(m, rows[0]);
      TotalsKeys(m);
      SumRemove(Totals(m), s);
      assert Totals(m) - {s} == Totals(m');
    }
  }

  /** Without its first row, a table is the table of the other senders. */
  lemma TableRest(m: Matrix, rows: seq<Row>)
    requires Table(m, rows) && rows != []
    ensures Table(m - {rows[0].sender}, rows[1..])
  {
    var m' := m - {rows[0].sender};
    forall i | 0 <= i < |rows[1..]| ensures RowFor(m', rows[1..][i]) {
      assert rows[1..][i] == rows[i + 1];
      assert RowFor(m, rows[i + 1]) && rows[0].sender != rows[i + 1].sender;
    }
    forall s' | s' in m' ensures exists i :: 0 <= i < |rows[1..]| && rows[1..][i].sender == s' {
      var i :| 0 <= i < |rows| && rows[i].sender == s';
      assert i != 0;
      assert rows[1..][i - 1] == rows[i];
    }
  }
}
