/** Facts about the tables that hold for every file, in order or not. */
module TableFacts {
  import opened Sequences
  import opened Decision
  import opened Tables

  lemma {:induction false} KeyRowsMembers(history: seq<HistoryRow>, key: string)
    ensures forall row :: row in KeyRows(history, key) <==> row in history && row.key == key
  {
    if history != [] {
      var pre, last := history[..|history| - 1], history[|history| - 1];
      KeyRowsMembers(pre, key);
      SplitLast(history);
    }
  }

  lemma {:induction false} KeyRowsOfInsert(history: seq<HistoryRow>, row: HistoryRow, key: string)
    ensures KeyRows(InsertHistory(history, row), key)
            == if row.key == key then InsertHistory(KeyRows(history, key), row) else KeyRows(history, key)
  {
    KeyRowsMembers(history, row.key);
    var rows := KeyRows(history, row.key);
    if Present(history, row) {
      var i :| 0 <= i < |history| && Conflicts(history[i], row);
      assert history[i] in rows;
    } else {
      assert (history + [row])[..|history|] == history;
      assert forall i :: 0 <= i < |rows| ==> rows[i] in history;
    }
  }

  /** What a file does to the rows of one property depends on that property alone. */
  function WriteKey(plan: Planner, rows: seq<HistoryRow>, os: seq<Record>): seq<HistoryRow> {
    if os == [] then rows
    else
      var n := |os| - 1;
      var before := WriteKey(plan, rows, os[..n]);
      StepKey(Compared(plan, rows, os, n), before, os[n])
  }

  /** The hash that observation n of a property is compared with. */
  function Compared(plan: Planner, rows: seq<HistoryRow>, os: seq<Record>, n: nat): string
    requires n < |os|
  {
    if n == 0 then Newest(plan, rows) else os[n - 1].hash
  }

  function StepKey(latest: string, rows: seq<HistoryRow>, o: Record): seq<HistoryRow> {
    if ShouldInsertHistory(latest, o.hash) then InsertHistory(rows, RowOf(o)) else rows
  }

  // What the transaction knows about one property after the observations `os` of it.
  ghost predicate Tracks(plan: Planner, rows: seq<HistoryRow>, os: seq<Record>, tx: Tx, key: string) {
    && KeyRows(tx.db.history, key) == WriteKey(plan, rows, os)
    && if os == [] then key !in tx.cache else key in tx.cache && tx.cache[key] == os[|os| - 1].hash
  }

  lemma {:induction false} TracksOther(plan: Planner, rows: seq<HistoryRow>, os: seq<Record>, tx: Tx, r: Record, key: string)
    requires Tracks(plan, rows, os, tx, key) && r.key != key
    ensures Tracks(plan, rows, os, WriteRecord(plan, tx, r), key)
  {
    KeyRowsOfInsert(tx.db.history, RowOf(r), key);
  }

  lemma {:induction false} TracksFirst(plan: Planner, rows: seq<HistoryRow>, tx: Tx, r: Record)
    requires Tracks(plan, rows, [], tx, r.key)
    ensures Tracks(plan, rows, [r], WriteRecord(plan, tx, r), r.key)
  {
    KeyRowsOfInsert(tx.db.history, RowOf(r), r.key);
    assert [r][..0] == [];
    assert WriteKey(plan, rows, [r]) == StepKey(Newest(plan, rows), rows, r);
  }

  lemma {:induction false} TracksNext(plan: Planner, rows: seq<HistoryRow>, os: seq<Record>, tx: Tx, r: Record)
    requires os != [] && Tracks(plan, rows, os, tx, r.key)
    ensures Tracks(plan, rows, os + [r], WriteRecord(plan, tx, r), r.key)
  {
    KeyRowsOfInsert(tx.db.history, RowOf(r), r.key);
    WriteKeyOfNext(plan, rows, os, r);
  }

  lemma {:induction false} WriteKeyOfNext(plan: Planner, rows: seq<HistoryRow>, os: seq<Record>, r: Record)
    requires os != []
    ensures WriteKey(plan, rows, os + [r]) == StepKey(os[|os| - 1].hash, WriteKey(plan, rows, os), r)
  {
    assert (os + [r])[..|os|] == os;
  }

  lemma {:induction false} TracksOwn(plan: Planner, rows: seq<HistoryRow>, os: seq<Record>, tx: Tx, r: Record)
    requires Tracks(plan, rows, os, tx, r.key)
    ensures Tracks(plan, rows, os + [r], WriteRecord(plan, tx, r), r.key)
  {
    if os == [] {
      TracksFirst(plan, rows, tx, r);
      assert os + [r] == [r];
    } else {
      TracksNext(plan, rows, os, tx, r);
    }
  }

  lemma {:induction false} PropertiesAreIndependent(plan: Planner, db: Db, rs: seq<Record>, key: string)
    ensures Tracks(plan, KeyRows(db.history, key), Observations(rs, key), WriteRecords(plan, db, rs), key)
  {
    if rs != [] {
      var pre, r := rs[..|rs| - 1], rs[|rs| - 1];
      PropertiesAreIndependent(plan, db, pre, key);
      var rows, os, tx := KeyRows(db.history, key), Observations(pre, key), WriteRecords(plan, db, pre);
      if r.key == key {
        TracksOwn(plan, rows, os, tx, r);
      } else {
        TracksOther(plan, rows, os, tx, r, key);
      }
    }
  }

  /** Where a row can come from. */
  ghost predicate From(history: seq<HistoryRow>, rs: seq<Record>, row: HistoryRow) {
    row in history || exists i :: 0 <= i < |rs| && row == RowOf(rs[i])
  }

  lemma {:induction false} RowsAreObservations(plan: Planner, db: Db, rs: seq<Record>)
    ensures forall row :: row in WriteFile(plan, db, rs).history ==> From(db.history, rs, row)
  {
    if rs != [] {
      var pre, r := rs[..|rs| - 1], rs[|rs| - 1];
      RowsAreObservations(plan, db, pre);
      forall row | row in WriteFile(plan, db, rs).history
        ensures From(db.history, rs, row)
      {
        if row in WriteFile(plan, db, pre).history {
          if row !in db.history {
            var i :| 0 <= i < |pre| && row == RowOf(pre[i]);
            assert row == RowOf(rs[i]);
          }
        } else {
          assert row == RowOf(rs[|rs| - 1]);
        }
      }
    }
  }

  lemma {:induction false} FromFront(history: seq<HistoryRow>, a: seq<Record>, b: seq<Record>, row: HistoryRow)
    requires From(history, a, row)
    ensures From(history, a + b, row)
  {
    if row !in history {
      var i :| 0 <= i < |a| && row == RowOf(a[i]);
      assert row == RowOf((a + b)[i]);
    }
  }

  lemma {:induction false} FromBack(history: seq<HistoryRow>, a: seq<Record>, b: seq<Record>, row: HistoryRow)
    requires exists i :: 0 <= i < |b| && row == RowOf(b[i])
    ensures From(history, a + b, row)
  {
    var i :| 0 <= i < |b| && row == RowOf(b[i]);
    assert row == RowOf((a + b)[|a| + i]);
  }

  lemma {:induction false} RowsOfFilesAreObservations(plan: Planner, db: Db, files: seq<seq<Record>>)
    ensures forall row :: row in WriteFiles(plan, db, files).history ==> From(db.history, Flatten(files), row)
  {
    if files != [] {
      var pre, file := files[..|files| - 1], files[|files| - 1];
      RowsOfFilesAreObservations(plan, db, pre);
      var before := WriteFiles(plan, db, pre);
      RowsAreObservations(plan, before, file);
      forall row | row in WriteFiles(plan, db, files).history
        ensures From(db.history, Flatten(files), row)
      {
        if row in before.history {
          FromFront(db.history, Flatten(pre), file, row);
        } else {
          FromBack(db.history, Flatten(pre), file, row);
        }
      }
    }
  }

  /** price_history is append-only. */
  lemma {:induction false} HistoryIsAppendOnly(plan: Planner, db: Db, rs: seq<Record>)
    ensures db.history <= WriteFile(plan, db, rs).history
  {
    if rs != [] {
      HistoryIsAppendOnly(plan, db, rs[..|rs| - 1]);
    }
  }

  lemma {:induction false} ObservationsMembers(rs: seq<Record>, key: string)
    ensures forall r :: r in Observations(rs, key) <==> r in rs && r.key == key
  {
    if rs != [] {
      var pre, last := rs[..|rs| - 1], rs[|rs| - 1];
      ObservationsMembers(pre, key);
      SplitLast(rs);
    }
  }
}
