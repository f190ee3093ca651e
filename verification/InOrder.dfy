/** Streams whose observations arrive in time order: the cache agrees with the query it
    stands for, cutting a stream into files changes nothing, and the history is a lossless
    compression of the stream (README.md "Event-only history"). */
module InOrderStreams {
  import opened Sequences
  import opened Tables
  import opened TableFacts

  /** Per property, times never decrease, and equal times carry equal hashes. */
  ghost predicate InOrder(rs: seq<Record>) {
    forall i, j :: 0 <= i < j < |rs| && rs[i].key == rs[j].key ==>
      rs[i].at <= rs[j].at && (rs[i].at == rs[j].at ==> rs[i].hash == rs[j].hash)
  }

  /** The same, between rows already stored and the records of a stream. */
  ghost predicate Follows(history: seq<HistoryRow>, rs: seq<Record>) {
    forall row, r :: row in history && r in rs && row.key == r.key ==>
      row.at <= r.at && (row.at == r.at ==> row.hash == r.hash)
  }

  ghost predicate OneHashPerTime(history: seq<HistoryRow>) {
    forall a, b :: a in history && b in history && a.key == b.key && a.at == b.at ==> a.hash == b.hash
  }

  ghost predicate InOrderAfter(history: seq<HistoryRow>, rs: seq<Record>) {
    OneHashPerTime(history) && Follows(history, rs) && InOrder(rs)
  }

  // Once `done` has been processed, the rest of the stream is in order after the new table.
  lemma {:induction false} InOrderAdvances(history: seq<HistoryRow>, done: seq<Record>, rest: seq<Record>, after: seq<HistoryRow>)
    requires InOrderAfter(history, done + rest)
    requires forall row :: row in after ==> From(history, done, row)
    ensures InOrderAfter(after, rest)
  {
    forall row, r | row in after && r in rest && row.key == r.key
      ensures row.at <= r.at && (row.at == r.at ==> row.hash == r.hash)
    {
      RowIsFollowed(history, done, rest, row, r);
    }
    forall a, b | a in after && b in after && a.key == b.key && a.at == b.at
      ensures a.hash == b.hash
    {
      RowsAgree(history, done, rest, a, b);
    }
    var all := done + rest;
    assert forall i :: 0 <= i < |rest| ==> all[|done| + i] == rest[i];
  }

  // A row of the new table, and a record of the rest.
  lemma {:induction false} RowIsFollowed(history: seq<HistoryRow>, done: seq<Record>, rest: seq<Record>, row: HistoryRow, r: Record)
    requires InOrderAfter(history, done + rest) && From(history, done, row) && r in rest && row.key == r.key
    ensures row.at <= r.at && (row.at == r.at ==> row.hash == r.hash)
  {
    var all := done + rest;
    var j :| 0 <= j < |rest| && rest[j] == r;
    assert all[|done| + j] == r;
    if row !in history {
      var i :| 0 <= i < |done| && row == RowOf(done[i]);
      assert all[i] == done[i];
    }
  }

  // Two rows of the new table that carry the same time.
  lemma {:induction false} RowsAgree(history: seq<HistoryRow>, done: seq<Record>, rest: seq<Record>, a: HistoryRow, b: HistoryRow)
    requires InOrderAfter(history, done + rest) && From(history, done, a) && From(history, done, b)
    requires a.key == b.key && a.at == b.at
    ensures a.hash == b.hash
  {
    var all := done + rest;
    assert forall i :: 0 <= i < |done| ==> all[i] == done[i];
    if a !in history {
      var i :| 0 <= i < |done| && a == RowOf(done[i]);
      assert all[i] in all;
      if b !in history {
        var j :| 0 <= j < |done| && b == RowOf(done[j]);
        assert all[j] in all;
      }
    } else if b !in history {
      var j :| 0 <= j < |done| && b == RowOf(done[j]);
      assert all[j] in all;
    }
  }

  lemma {:induction false} InOrderPrefix(history: seq<HistoryRow>, rs: seq<Record>, n: nat)
    requires n <= |rs| && InOrderAfter(history, rs)
    ensures InOrderAfter(history, rs[..n])
  {
    assert forall r :: r in rs[..n] ==> r in rs;
  }

  lemma {:induction false} InsertedIsThere(rows: seq<HistoryRow>, row: HistoryRow) returns (j: nat)
    ensures j < |InsertHistory(rows, row)| && Conflicts(InsertHistory(rows, row)[j], row)
  {
    if Present(rows, row) {
      j :| 0 <= j < |rows| && Conflicts(rows[j], row);
    } else {
      j := |rows|;
    }
  }

  // A row of the property is either stored before or the one just written.
  lemma {:induction false} RowBeforeOrWritten(history: seq<HistoryRow>, r: Record, row: HistoryRow)
    requires row in KeyRows(InsertHistory(history, RowOf(r)), r.key)
    ensures row == RowOf(r) || (row in history && row.key == r.key)
  {
    KeyRowsMembers(InsertHistory(history, RowOf(r)), r.key);
  }

  // Whatever newest row the query picks, it carries the hash that was just written.
  lemma {:induction false} NewestIsLastWritten(plan: Planner, history: seq<HistoryRow>, r: Record)
    requires InOrderAfter(history, [r])
    ensures Latest(plan, InsertHistory(history, RowOf(r)), r.key) == r.hash
  {
    KeyRowsOfInsert(history, RowOf(r), r.key);
    var rows := KeyRows(InsertHistory(history, RowOf(r)), r.key);
    var j := InsertedIsThere(KeyRows(history, r.key), RowOf(r));
    var newest := rows[plan(rows)];
    assert rows[j].at <= newest.at;
    RowBeforeOrWritten(history, r, newest);
    assert r in [r];
  }

  ghost predicate CacheIsCurrent(plan: Planner, tx: Tx) {
    forall key :: key in tx.cache ==> tx.cache[key] == Latest(plan, tx.db.history, key)
  }

  lemma {:induction false} CacheAnswersQuery(plan: Planner, tx: Tx, r: Record)
    requires CacheIsCurrent(plan, tx)
    ensures WriteRecord(plan, tx, r).db == UncachedStep(plan, tx.db, r)
  {
    var latest := if r.key in tx.cache then tx.cache[r.key] else Latest(plan, tx.db.history, r.key);
    assert latest == Latest(plan, tx.db.history, r.key);
  }

  // The hash in force for a property after one more record.
  lemma {:induction false} LatestAfter(plan: Planner, tx: Tx, r: Record, key: string)
    requires CacheIsCurrent(plan, tx) && InOrderAfter(tx.db.history, [r])
    ensures Latest(plan, WriteRecord(plan, tx, r).db.history, key)
            == if key == r.key then r.hash else Latest(plan, tx.db.history, key)
  {
    KeyRowsOfInsert(tx.db.history, RowOf(r), key);
    NewestIsLastWritten(plan, tx.db.history, r);
  }

  lemma {:induction false} CacheStaysCurrent(plan: Planner, tx: Tx, r: Record)
    requires CacheIsCurrent(plan, tx)
    requires InOrderAfter(tx.db.history, [r])
    ensures CacheIsCurrent(plan, WriteRecord(plan, tx, r))
  {
    var after := WriteRecord(plan, tx, r);
    forall key | key in after.cache
      ensures after.cache[key] == Latest(plan, after.db.history, key)
    {
      LatestAfter(plan, tx, r, key);
      CachedAfter(plan, tx, r, key);
    }
  }

  lemma {:induction false} CachedAfter(plan: Planner, tx: Tx, r: Record, key: string)
    requires key in WriteRecord(plan, tx, r).cache
    ensures if key == r.key then WriteRecord(plan, tx, r).cache[key] == r.hash
            else key in tx.cache && WriteRecord(plan, tx, r).cache[key] == tx.cache[key]
  {
  }

  /** At every record of an in-order stream the cached hash is the one the query would
      return, so the loop computes what the loop without a cache computes. */
  lemma {:induction false} CacheAgreesWithQuery(plan: Planner, db: Db, rs: seq<Record>)
    requires InOrderAfter(db.history, rs)
    ensures CacheIsCurrent(plan, WriteRecords(plan, db, rs))
    ensures WriteFile(plan, db, rs) == WriteUncached(plan, db, rs)
  {
    if rs != [] {
      var pre, r := rs[..|rs| - 1], rs[|rs| - 1];
      SplitLast(rs);
      InOrderPrefix(db.history, rs, |pre|);
      CacheAgreesWithQuery(plan, db, pre);
      RowsAreObservations(plan, db, pre);
      var tx := WriteRecords(plan, db, pre);
      InOrderAdvances(db.history, pre, [r], tx.db.history);
      CacheStaysCurrent(plan, tx, r);
      CacheAnswersQuery(plan, tx, r);
    }
  }

  lemma {:induction false} FoldSplits<S, T>(start: S, a: seq<T>, b: seq<T>, step: (S, T) -> S)
    ensures Fold(start, a + b, step) == Fold(Fold(start, a, step), b, step)
  {
    if b == [] {
      assert a + b == a;
    } else {
      var pre := b[..|b| - 1];
      FoldSplits(start, a, pre, step);
      assert (a + b)[..|a + b| - 1] == a + pre;
    }
  }

  lemma {:induction false} UncachedSplits(plan: Planner, db: Db, a: seq<Record>, b: seq<Record>)
    ensures WriteUncached(plan, db, a + b) == WriteUncached(plan, WriteUncached(plan, db, a), b)
  {
    FoldSplits(db, a, b, (db: Db, r: Record) => UncachedStep(plan, db, r));
  }

  /** Cutting an in-order stream into files, one transaction each, changes nothing:
      every cut leaves the tables of the uncut stream. */
  lemma {:induction false} BatchingIsIrrelevant(plan: Planner, db: Db, files: seq<seq<Record>>)
    requires InOrderAfter(db.history, Flatten(files))
    ensures WriteFiles(plan, db, files) == WriteFile(plan, db, Flatten(files))
  {
    var all := Flatten(files);
    if files != [] {
      var pre, file := files[..|files| - 1], files[|files| - 1];
      var done := Flatten(pre);
      assert all == done + file && all[..|done|] == done && all[|done|..] == file;
      InOrderPrefix(db.history, all, |done|);
      BatchingIsIrrelevant(plan, db, pre);
      CacheAgreesWithQuery(plan, db, done);
      var before := WriteFiles(plan, db, pre);
      RowsOfFilesAreObservations(plan, db, pre);
      InOrderAdvances(db.history, done, file, before.history);
      CacheAgreesWithQuery(plan, before, file);
      UncachedSplits(plan, db, done, file);
      CacheAgreesWithQuery(plan, db, all);
    }
  }

  /* ---- Lossless compression ---- */

  /** The observations that differ from their predecessor: the events. */
  function Events(os: seq<Record>): seq<HistoryRow> {
    if os == [] then []
    else
      var n := |os| - 1;
      var before := Events(os[..n]);
      if n == 0 || os[n - 1].hash != os[n].hash then before + [RowOf(os[n])] else before
  }

  /** What a reader gets by forward-filling: the last row not after `t`. */
  function ForwardFill(rows: seq<HistoryRow>, t: int): string {
    if rows == [] then ""
    else
      var last := rows[|rows| - 1];
      if last.at <= t then last.hash else ForwardFill(rows[..|rows| - 1], t)
  }

  predicate Differs(os: seq<Record>, i: int)
    requires 0 < i < |os|
  {
    os[i - 1].hash != os[i].hash
  }

  // The positions at which the stream changes its hash.
  ghost function Changes(os: seq<Record>): set<int> {
    set i | 0 < i < |os| && Differs(os, i)
  }

  // The rows written for one property of an in-order stream are exactly its events.
  lemma {:induction false} StoredRowsAreEvents(plan: Planner, os: seq<Record>)
    requires InOrder(os)
    requires forall i, j :: 0 <= i < |os| && 0 <= j < |os| ==> os[i].key == os[j].key
    ensures WriteKey(plan, [], os) == Events(os)
  {
    if os != [] {
      var n := |os| - 1;
      StoredRowsAreEvents(plan, os[..n]);
      var o := os[n];
      if n > 0 && os[n - 1].hash != o.hash {
        EventsBeforeLast(os[..n]);
        assert !Present(Events(os[..n]), RowOf(o)) by {
          assert os[n - 1].at < o.at;
        }
      }
    }
  }

  // Events run forward in time, end with the hash in force, and alternate.
  lemma {:induction false} EventsBeforeLast(os: seq<Record>)
    requires InOrder(os)
    requires forall i, j :: 0 <= i < |os| && 0 <= j < |os| ==> os[i].key == os[j].key
    ensures var rows := Events(os);
            && (os != [] ==> rows != [] && rows[|rows| - 1].hash == os[|os| - 1].hash)
            && (forall i :: 0 <= i < |rows| ==> rows[i].at <= os[|os| - 1].at)
            && (forall i, j :: 0 <= i < j < |rows| ==> rows[i].at < rows[j].at)
            && (forall i :: 1 <= i < |rows| ==> rows[i - 1].hash != rows[i].hash)
  {
    if os != [] {
      EventsBeforeLast(os[..|os| - 1]);
    }
  }

  lemma {:induction false} EventsAreCounted(os: seq<Record>)
    ensures |Events(os)| == if os == [] then 0 else 1 + |Changes(os)|
  {
    if |os| == 1 {
      assert Changes(os) == {};
    } else if |os| > 1 {
      EventsAreCounted(os[..|os| - 1]);
      ChangesOfLast(os);
    }
  }

  lemma {:induction false} ChangesOfLast(os: seq<Record>)
    requires |os| > 1
    ensures |Changes(os)| == |Changes(os[..|os| - 1])| + if Differs(os, |os| - 1) then 1 else 0
  {
    var n := |os| - 1;
    assert forall i :: 0 < i < n ==> Differs(os[..n], i) == Differs(os, i);
    assert Changes(os) == Changes(os[..n]) + if Differs(os, n) then {n} else {};
  }

  lemma {:induction false} EventsFillForward(os: seq<Record>, i: nat)
    requires InOrder(os) && i < |os|
    requires forall i, j :: 0 <= i < |os| && 0 <= j < |os| ==> os[i].key == os[j].key
    ensures ForwardFill(Events(os), os[i].at) == os[i].hash
  {
    var n := |os| - 1;
    if i == n {
      EventsBeforeLast(os);
    } else {
      EventsFillForward(os[..n], i);
      assert os[i].at <= os[n - 1].at <= os[n].at;
      if os[n - 1].hash != os[n].hash {
        LaterRowIsSkipped(Events(os[..n]), RowOf(os[n]), os[i].at);
      }
    }
  }

  lemma {:induction false} LaterRowIsSkipped(rows: seq<HistoryRow>, row: HistoryRow, t: int)
    requires row.at > t
    ensures ForwardFill(rows + [row], t) == ForwardFill(rows, t)
  {
    assert (rows + [row])[..|rows|] == rows;
  }

  lemma {:induction false} ObservationsInOrder(rs: seq<Record>, key: string)
    requires InOrder(rs)
    ensures InOrder(Observations(rs, key))
  {
    if rs != [] {
      var pre, last := rs[..|rs| - 1], rs[|rs| - 1];
      ObservationsInOrder(pre, key);
      ObservationsMembers(pre, key);
      var os := Observations(pre, key);
      forall i | 0 <= i < |os| && last.key == key
        ensures os[i].at <= last.at && (os[i].at == last.at ==> os[i].hash == last.hash)
      {
        var j :| 0 <= j < |pre| && pre[j] == os[i];
        assert rs[j] == os[i];
      }
    }
  }

  /** README.md "Event-only history": however an in-order stream is cut into files, the rows
      stored for a property are its events, so adjacent rows differ, their number is one plus
      the number of changes, and forward-filling them gives back every observation. */
  lemma {:induction false} HistoryIsLossless(plan: Planner, files: seq<seq<Record>>, key: string)
    requires InOrder(Flatten(files))
    ensures var os := Observations(Flatten(files), key);
            var rows := KeyRows(WriteFiles(plan, EmptyDb, files).history, key);
            && rows == Events(os)
            && (forall i :: 0 <= i < |os| ==> ForwardFill(rows, os[i].at) == os[i].hash)
            && (forall i :: 1 <= i < |rows| ==> rows[i - 1].at < rows[i].at && rows[i - 1].hash != rows[i].hash)
            && |rows| == (if os == [] then 0 else 1 + |Changes(os)|)
  {
    var all := Flatten(files);
    BatchingIsIrrelevant(plan, EmptyDb, files);
    PropertiesAreIndependent(plan, EmptyDb, all, key);
    ObservationsInOrder(all, key);
    StoredRowsAreEvents(plan, Observations(all, key));
    EventsAreLossless(Observations(all, key));
  }

  lemma {:induction false} EventsAreLossless(os: seq<Record>)
    requires InOrder(os)
    requires forall i, j :: 0 <= i < |os| && 0 <= j < |os| ==> os[i].key == os[j].key
    ensures forall i :: 0 <= i < |os| ==> ForwardFill(Events(os), os[i].at) == os[i].hash
    ensures forall i :: 1 <= i < |Events(os)| ==>
              Events(os)[i - 1].at < Events(os)[i].at && Events(os)[i - 1].hash != Events(os)[i].hash
    ensures |Events(os)| == if os == [] then 0 else 1 + |Changes(os)|
  {
    EventsBeforeLast(os);
    EventsAreCounted(os);
    forall i | 0 <= i < |os|
      ensures ForwardFill(Events(os), os[i].at) == os[i].hash
    {
      EventsFillForward(os, i);
    }
  }
}
