/**
  The table shape shared by the four tables of the mobile store
  (mobile_app/utils/database.ts): rows with an `AUTOINCREMENT` id, a creation
  timestamp and the remaining columns. Timestamps are readings of a clock that
  never goes back, so ISO-8601 strings compare like the numbers used here.
 */
module Tables {

  /** One row: `id`, the creation stamp (`created_at` or `added_at`) and the other columns. */
  datatype Row<D> = Row(id: nat, stamp: nat, data: D)

  /** Rows in insertion order: ids strictly increase and stay below the next id
      to hand out, stamps never decrease and never pass the clock. */
  predicate Chronological<D>(rows: seq<Row<D>>, nextId: nat, clock: nat) {
    && (forall i, j :: 0 <= i < j < |rows| ==> rows[i].id < rows[j].id && rows[i].stamp <= rows[j].stamp)
    && (forall i :: 0 <= i < |rows| ==> rows[i].id < nextId && rows[i].stamp <= clock)
  }

  /** Appending a row with the next id at the current clock keeps the order. */
  lemma AppendKeepsChronological<D>(rows: seq<Row<D>>, nextId: nat, clock: nat, now: nat, data: D)
    requires Chronological(rows, nextId, clock) && clock <= now
    ensures Chronological(rows + [Row(nextId, now, data)], nextId + 1, now)
  {
  }

  /** A later clock reading keeps a table in order. */
  lemma ChronologicalLater<D>(rows: seq<Row<D>>, nextId: nat, clock: nat, later: nat)
    requires Chronological(rows, nextId, clock) && clock <= later
    ensures Chronological(rows, nextId, later)
  {
  }

  /** `ORDER BY stamp DESC`: the stamps never increase along the sequence. */
  predicate NewestFirst<D>(rows: seq<Row<D>>) {
    forall i, j :: 0 <= i < j < |rows| ==> rows[i].stamp >= rows[j].stamp
  }

  function Reverse<D>(rows: seq<Row<D>>): (r: seq<Row<D>>)
    ensures |r| == |rows|
    ensures forall i :: 0 <= i < |rows| ==> r[i] == rows[|rows| - 1 - i]
  {
    if rows == [] then [] else [rows[|rows| - 1]] + Reverse(rows[..|rows| - 1])
  }

  /** Reading a table newest first returns every row once, in descending stamp order. */
  lemma {:induction false} ReverseIsNewestFirst<D>(rows: seq<Row<D>>, nextId: nat, clock: nat)
    requires Chronological(rows, nextId, clock)
    ensures NewestFirst(Reverse(rows))
    ensures multiset(Reverse(rows)) == multiset(rows)
  {
    var r := Reverse(rows);
    forall i, j | 0 <= i < j < |r| ensures r[i].stamp >= r[j].stamp {
      assert r[i] == rows[|rows| - 1 - i] && r[j] == rows[|rows| - 1 - j];
    }
    ReversePermutes(rows);
  }

  lemma {:induction false} ReversePermutes<D>(rows: seq<Row<D>>)
    ensures multiset(Reverse(rows)) == multiset(rows)
  {
    if rows != [] {
      var n := |rows| - 1;
      ReversePermutes(rows[..n]);
      assert rows == rows[..n] + [rows[n]];
    }
  }

  /** `LIMIT limit`: a negative limit means no limit. */
  function Take<D>(rows: seq<Row<D>>, limit: int): (r: seq<Row<D>>)
    ensures limit < 0 ==> r == rows
    ensures limit >= 0 ==> |r| == if limit < |rows| then limit else |rows|
    ensures r == rows[..|r|]
  {
    if limit < 0 || |rows| <= limit then rows else rows[..limit]
  }

  /** The rows `keep` accepts, in their order (`DELETE ... WHERE` keeps the others). */
  function Filter<D(!new)>(rows: seq<Row<D>>, keep: Row<D> -> bool): (r: seq<Row<D>>)
    ensures |r| <= |rows|
    ensures forall x :: x in r <==> x in rows && keep(x)
  {
    if rows == [] then []
    else
      var n := |rows| - 1;
      var init := Filter(rows[..n], keep);
      assert rows == rows[..n] + [rows[n]];
      if keep(rows[n]) then init + [rows[n]] else init
  }

  /** Removing rows keeps the rest in order. */
  lemma {:induction false} FilterKeepsChronological<D(!new)>(rows: seq<Row<D>>, keep: Row<D> -> bool,
                                                             nextId: nat, clock: nat)
    requires Chronological(rows, nextId, clock)
    ensures Chronological(Filter(rows, keep), nextId, clock)
  {
    if rows != [] {
      var n := |rows| - 1;
      var init := Filter(rows[..n], keep);
      FilterKeepsChronological(rows[..n], keep, nextId, clock);
      if keep(rows[n]) {
        forall x | x in init ensures x.id < rows[n].id && x.stamp <= rows[n].stamp {
          var k :| 0 <= k < n && rows[..n][k] == x;
          assert rows[k] == x;
        }
        var r := init + [rows[n]];
        forall i, j | 0 <= i < j < |r| ensures r[i].id < r[j].id && r[i].stamp <= r[j].stamp {
          if j == |init| { assert r[i] in init; }
          else { assert r[i] == init[i] && r[j] == init[j]; }
        }
      }
    }
  }

  /** `DELETE FROM table WHERE id = ?`. */
  function WithoutId<D(!new)>(rows: seq<Row<D>>, id: int): seq<Row<D>> {
    Filter(rows, (x: Row<D>) => x.id != id)
  }

  /** Deleting by id removes exactly the rows with that id: afterwards none is
      left, every other row is still there, and the table stays in order. */
  lemma DeleteRemovesExactlyThatId<D(!new)>(rows: seq<Row<D>>, id: int, nextId: nat, clock: nat)
    requires Chronological(rows, nextId, clock)
    ensures forall x :: x in WithoutId(rows, id) <==> x in rows && x.id != id
    ensures |WithoutId(rows, id)| <= |rows|
    ensures Chronological(WithoutId(rows, id), nextId, clock)
    ensures (forall x :: x in rows ==> x.id != id) ==> WithoutId(rows, id) == rows
  {
    FilterKeepsChronological(rows, (x: Row<D>) => x.id != id, nextId, clock);
    if forall x :: x in rows ==> x.id != id {
      FilterOfAllKept(rows, (x: Row<D>) => x.id != id);
    }
  }

  lemma {:induction false} FilterOfAllKept<D(!new)>(rows: seq<Row<D>>, keep: Row<D> -> bool)
    requires forall x :: x in rows ==> keep(x)
    ensures Filter(rows, keep) == rows
  {
    if rows != [] {
      var n := |rows| - 1;
      assert rows == rows[..n] + [rows[n]];
      FilterOfAllKept(rows[..n], keep);
    }
  }

  /** The first rows of a newest-first listing are the newest of all rows. */
  lemma NewestPrefix<D>(all: seq<Row<D>>, prefix: seq<Row<D>>)
    requires NewestFirst(all) && |prefix| <= |all| && prefix == all[..|prefix|]
    ensures NewestFirst(prefix)
    ensures multiset(prefix) <= multiset(all)
    ensures forall x, y :: x in all && x !in prefix && y in prefix ==> x.stamp <= y.stamp
  {
    var rest := all[|prefix|..];
    assert all == prefix + rest;
    forall x, y | x in all && x !in prefix && y in prefix ensures x.stamp <= y.stamp {
      var i :| 0 <= i < |all| && all[i] == x;
      var j :| 0 <= j < |prefix| && prefix[j] == y;
      assert i >= |prefix|;
      assert all[j] == y;
    }
  }

  /** `ORDER BY stamp DESC LIMIT limit` over a table in insertion order: the
      newest `limit` rows (all of them for a negative limit), newest first. */
  lemma NewestRows<D>(rows: seq<Row<D>>, nextId: nat, clock: nat, limit: int)
    requires Chronological(rows, nextId, clock)
    ensures var r := Take(Reverse(rows), limit);
      && NewestFirst(r)
      && |r| == (if 0 <= limit < |rows| then limit else |rows|)
      && multiset(r) <= multiset(rows)
      && (forall x, y :: x in rows && x !in r && y in r ==> x.stamp <= y.stamp)
  {
    ReverseIsNewestFirst(rows, nextId, clock);
    var all := Reverse(rows);
    NewestPrefix(all, Take(all, limit));
    forall x | x in rows ensures x in all {
      assert x in multiset(rows);
    }
  }
}
