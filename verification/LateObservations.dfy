/** Event-only history (README.md "Event-only history") when observations arrive late: exactly when
    the loop of writeToDB keeps it. */
module LateObservations {
  import opened Tables
  import opened TableFacts
  import opened AnyOrderStreams

  ghost predicate Neighbours(rows: seq<HistoryRow>, s: int, t: int) {
    forall row :: row in rows ==> !(s < row.at < t)
  }

  /** Rows that follow each other in time differ. */
  ghost predicate EventOnly(rows: seq<HistoryRow>) {
    forall a, b :: a in rows && b in rows && a.at < b.at && Neighbours(rows, a.at, b.at) ==> a.hash != b.hash
  }

  /** The rows just before and just after time `o.at` differ from `o`. */
  ghost predicate DiffersFromNeighbours(rows: seq<HistoryRow>, o: Record) {
    && (forall a :: a in rows && a.at < o.at && Neighbours(rows, a.at, o.at) ==> a.hash != o.hash)
    && (forall b :: b in rows && o.at < b.at && Neighbours(rows, o.at, b.at) ==> b.hash != o.hash)
  }

  /** `latest` is the hash that the loop compares with: the cached one, or that of the query. */
  ghost predicate Fits(latest: string, rows: seq<HistoryRow>, o: Record) {
    latest == o.hash || Present(rows, RowOf(o)) || DiffersFromNeighbours(rows, o)
  }

  lemma {:induction false} NeighboursOfOneMore(rows: seq<HistoryRow>, row: HistoryRow, s: int, t: int)
    ensures Neighbours(rows + [row], s, t) <==> Neighbours(rows, s, t) && !(s < row.at < t)
  {
    assert row in rows + [row];
  }

  // A new row keeps the rows event-only exactly when it differs from its neighbours.
  lemma {:induction false} RowKeepsEventOnly(rows: seq<HistoryRow>, o: Record)
    requires EventOnly(rows)
    ensures EventOnly(rows + [RowOf(o)]) <==> DiffersFromNeighbours(rows, o)
  {
    var row := RowOf(o);
    var after := rows + [row];
    assert forall r :: r in after <==> r in rows || r == row;
    forall s, t
      ensures Neighbours(after, s, t) <==> Neighbours(rows, s, t) && !(s < o.at < t)
    {
      NeighboursOfOneMore(rows, row, s, t);
    }
    if EventOnly(after) {
      forall a | a in rows && a.at < o.at && Neighbours(rows, a.at, o.at)
        ensures a.hash != o.hash
      {
        assert Neighbours(after, a.at, row.at);
      }
      forall b | b in rows && o.at < b.at && Neighbours(rows, o.at, b.at)
        ensures b.hash != o.hash
      {
        assert Neighbours(after, row.at, b.at);
      }
    }
  }

  /** One observation, at any time and whatever hash the loop compares it with, keeps the history
      of its property event-only if and only if it equals that hash, or is stored, or differs from
      its neighbours in time. */
  lemma {:induction false} EventOnlyIsKeptExactly(latest: string, rows: seq<HistoryRow>, o: Record)
    requires EventOnly(rows)
    ensures EventOnly(StepKey(latest, rows, o)) <==> Fits(latest, rows, o)
  {
    if latest != o.hash && !Present(rows, RowOf(o)) {
      RowKeepsEventOnly(rows, o);
    }
  }

  /* ---- Whole files ---- */

  ghost predicate AllUpTo(p: nat -> bool, n: nat) {
    forall i: nat :: i <= n ==> p(i)
  }

  ghost predicate AllBelow(p: nat -> bool, n: nat) {
    forall i: nat :: i < n ==> p(i)
  }

  // What holds after every step, when each step keeps it exactly under a condition.
  lemma {:induction false} StepByStep(good: nat -> bool, fits: nat -> bool, n: nat)
    requires forall i: nat :: i < n && good(i) ==> (good(i + 1) <==> fits(i))
    ensures AllUpTo(good, n) <==> good(0) && AllBelow(fits, n)
  {
    if n > 0 {
      var last: nat := n - 1;
      StepByStep(good, fits, last);
      assert good(last) ==> (good(last + 1) <==> fits(last));
    }
  }

  /** Whether the rows are event-only after n observations. */
  ghost function EventOnlyAfter(plan: Planner, rows: seq<HistoryRow>, os: seq<Record>): nat -> bool {
    (n: nat) => n <= |os| && EventOnly(WriteKey(plan, rows, os[..n]))
  }

  /** Whether observation n fits, against the hash that the loop compares it with. */
  ghost function FitsAt(plan: Planner, rows: seq<HistoryRow>, os: seq<Record>): nat -> bool {
    (n: nat) => n < |os| && Fits(Compared(plan, rows, os, n), WriteKey(plan, rows, os[..n]), os[n])
  }

  lemma {:induction false} StepKeepsEventOnly(plan: Planner, rows: seq<HistoryRow>, os: seq<Record>, n: nat)
    requires n < |os| && EventOnlyAfter(plan, rows, os)(n)
    ensures EventOnlyAfter(plan, rows, os)(n + 1) <==> FitsAt(plan, rows, os)(n)
  {
    WriteKeyStep(plan, rows, os, n);
    EventOnlyIsKeptExactly(Compared(plan, rows, os, n), WriteKey(plan, rows, os[..n]), os[n]);
  }

  /** The observations of one property in a file, in any order: its history is event-only after
      each of them if and only if it was before and every observation fits, the first one against
      the newest stored hash and each other one against its predecessor in the file. */
  lemma {:induction false} KeyKeepsEventOnlyExactly(plan: Planner, rows: seq<HistoryRow>, os: seq<Record>)
    ensures AllUpTo(EventOnlyAfter(plan, rows, os), |os|)
            <==> EventOnly(rows) && AllBelow(FitsAt(plan, rows, os), |os|)
  {
    var good, fits := EventOnlyAfter(plan, rows, os), FitsAt(plan, rows, os);
    forall n: nat | n < |os| && good(n)
      ensures good(n + 1) <==> fits(n)
    {
      StepKeepsEventOnly(plan, rows, os, n);
    }
    StepByStep(good, fits, |os|);
    assert good(0) <==> EventOnly(rows) by { assert os[..0] == []; }
  }

  ghost predicate EventOnlyTable(history: seq<HistoryRow>) {
    forall key :: EventOnly(KeyRows(history, key))
  }

  /** The next record of a transaction fits, against its cache or the query. */
  ghost predicate FitsNext(plan: Planner, tx: Tx, r: Record) {
    var latest := if r.key in tx.cache then tx.cache[r.key] else Latest(plan, tx.db.history, r.key);
    Fits(latest, KeyRows(tx.db.history, r.key), r)
  }

  lemma {:induction false} RecordKeepsEventOnlyExactly(plan: Planner, tx: Tx, r: Record)
    requires EventOnlyTable(tx.db.history)
    ensures EventOnlyTable(WriteRecord(plan, tx, r).db.history) <==> FitsNext(plan, tx, r)
  {
    var history := tx.db.history;
    var latest := if r.key in tx.cache then tx.cache[r.key] else Latest(plan, history, r.key);
    var after := WriteRecord(plan, tx, r).db.history;
    EventOnlyIsKeptExactly(latest, KeyRows(history, r.key), r);
    forall key
      ensures KeyRows(after, key) == if key == r.key then StepKey(latest, KeyRows(history, key), r) else KeyRows(history, key)
    {
      KeyRowsOfInsert(history, RowOf(r), key);
    }
    assert EventOnlyTable(after) <==> EventOnly(KeyRows(after, r.key));
  }

  /** Whether the table is event-only after n records of a file. */
  ghost function TableAfter(plan: Planner, db: Db, rs: seq<Record>): nat -> bool {
    (n: nat) => n <= |rs| && EventOnlyTable(WriteFile(plan, db, rs[..n]).history)
  }

  /** Whether record n fits when it comes. */
  ghost function RecordFits(plan: Planner, db: Db, rs: seq<Record>): nat -> bool {
    (n: nat) => n < |rs| && FitsNext(plan, WriteRecords(plan, db, rs[..n]), rs[n])
  }

  lemma {:induction false} NextRecordKeepsEventOnly(plan: Planner, db: Db, rs: seq<Record>, n: nat)
    requires n < |rs| && TableAfter(plan, db, rs)(n)
    ensures TableAfter(plan, db, rs)(n + 1) <==> RecordFits(plan, db, rs)(n)
  {
    NextRecordOf(plan, db, rs, n);
    RecordKeepsEventOnlyExactly(plan, WriteRecords(plan, db, rs[..n]), rs[n]);
  }

  /** A whole file, whatever its records and the tables: the history is event-only before it and
      after each of its records if and only if it was before and every record fits when it comes. */
  lemma {:induction false} FileKeepsEventOnlyExactly(plan: Planner, db: Db, rs: seq<Record>)
    ensures AllUpTo(TableAfter(plan, db, rs), |rs|)
            <==> EventOnlyTable(db.history) && AllBelow(RecordFits(plan, db, rs), |rs|)
  {
    var good, fits := TableAfter(plan, db, rs), RecordFits(plan, db, rs);
    forall n: nat | n < |rs| && good(n)
      ensures good(n + 1) <==> fits(n)
    {
      NextRecordKeepsEventOnly(plan, db, rs, n);
    }
    StepByStep(good, fits, |rs|);
    assert good(0) <==> EventOnlyTable(db.history) by { assert rs[..0] == []; }
  }

  lemma {:induction false} NextRecordOf(plan: Planner, db: Db, rs: seq<Record>, n: nat)
    requires n < |rs|
    ensures WriteRecords(plan, db, rs[..n + 1]) == WriteRecord(plan, WriteRecords(plan, db, rs[..n]), rs[n])
  {
    assert rs[..n + 1][..n] == rs[..n];
  }

  /* ---- Two ways to break it ---- */

  lemma {:induction false} LateRepeatBreaksEventOnly(latest: string, ra: HistoryRow, o: Record, rb: HistoryRow)
    requires ra.at < o.at < rb.at && ra.hash == o.hash != rb.hash && latest == rb.hash
    ensures EventOnly([ra, rb]) && !EventOnly(StepKey(latest, [ra, rb], o))
  {
    var rows := [ra, rb];
    assert ra in rows && Neighbours(rows, ra.at, o.at);
    EventOnlyIsKeptExactly(latest, rows, o);
  }

  lemma {:induction false} SingleStep(plan: Planner, rows: seq<HistoryRow>, o: Record)
    ensures WriteKey(plan, rows, [o]) == StepKey(Newest(plan, rows), rows, o)
  {
    assert [o][..0] == [];
  }

  lemma {:induction false} ChangeIsStored(latest: string, row: HistoryRow, r: Record)
    requires latest != r.hash && row.at != r.at
    ensures StepKey(latest, [row], r) == [row, RowOf(r)]
  {
    assert [row] + [RowOf(r)] == [row, RowOf(r)];
  }

  /** A late retry stores a row equal to its predecessor. */
  lemma {:induction false} LateObservationBreaksEventOnly(plan: Planner)
    ensures var db := WriteFile(plan, WriteFile(plan, EmptyDb, [At(0, "a")]), [At(2, "b")]);
            && EventOnly(KeyRows(db.history, "k"))
            && !EventOnly(KeyRows(WriteFile(plan, db, [At(1, "a")]).history, "k"))
  {
    var ra, o, rb := At(0, "a"), At(1, "a"), At(2, "b");
    assert ra.hash[0] != rb.hash[0];
    var first := WriteFile(plan, EmptyDb, [ra]);
    var db := WriteFile(plan, first, [rb]);
    FirstRecordIsStored(plan, ra);
    OneRecordFile(plan, first, rb);
    SingleStep(plan, [RowOf(ra)], rb);
    ChangeIsStored(ra.hash, RowOf(ra), rb);
    OneRecordFile(plan, db, o);
    LaterIsNewest(plan, RowOf(ra), RowOf(rb));
    SingleStep(plan, [RowOf(ra), RowOf(rb)], o);
    LateRepeatBreaksEventOnly(rb.hash, RowOf(ra), o, RowOf(rb));
  }

  lemma {:induction false} LaterIsNewest(plan: Planner, a: HistoryRow, b: HistoryRow)
    ensures Newest(plan, [a]) == a.hash
    ensures a.at < b.at ==> Newest(plan, [a, b]) == b.hash
    ensures b.at < a.at ==> Newest(plan, [a, b]) == a.hash
  {
    var rows := [a, b];
    assert rows[0].at <= rows[plan(rows)].at && rows[1].at <= rows[plan(rows)].at;
  }

  // Two late observations of one file, the second equal to the row in force: it is compared with
  // the first one, and stored in front of its equal.
  lemma {:induction false} CachedRepeatBreaksEventOnly(plan: Planner, row: HistoryRow, oa: Record, ob: Record)
    requires oa.at < ob.at < row.at && oa.hash != ob.hash == row.hash
    ensures EventOnly(WriteKey(plan, [row], [oa])) && Newest(plan, WriteKey(plan, [row], [oa])) == ob.hash
    ensures !EventOnly(WriteKey(plan, [row], [oa, ob]))
  {
    var rows := [row, RowOf(oa)];
    LaterIsNewest(plan, row, RowOf(oa));
    SingleStep(plan, [row], oa);
    ChangeIsStored(row.hash, row, oa);
    WriteKeyStep(plan, [row], [oa, ob], 1);
    assert [oa, ob][..1] == [oa] && [oa, ob][..2] == [oa, ob];
    BetweenEqualsDoesNotFit(row, RowOf(oa), ob);
    EventOnlyIsKeptExactly(oa.hash, rows, ob);
  }

  lemma {:induction false} BetweenEqualsDoesNotFit(row: HistoryRow, ra: HistoryRow, ob: Record)
    requires ra.at < ob.at < row.at && ra.hash != ob.hash == row.hash
    ensures EventOnly([row, ra]) && !Fits(ra.hash, [row, ra], ob)
  {
    assert row in [row, ra] && Neighbours([row, ra], ob.at, row.at);
  }

  /** Inside a file the cache decides. Behind the first record of the second file the history is
      event-only and its newest row carries the hash of the second record, but the cache does not:
      the record is stored just in front of its equal. */
  lemma {:induction false} CacheBreaksEventOnly(plan: Planner)
    ensures var db := WriteFile(plan, EmptyDb, [At(10, "c")]);
            && EventOnly(KeyRows(WriteFile(plan, db, [At(5, "b")]).history, "k"))
            && Latest(plan, WriteFile(plan, db, [At(5, "b")]).history, "k") == At(7, "c").hash
            && !EventOnly(KeyRows(WriteFile(plan, db, [At(5, "b"), At(7, "c")]).history, "k"))
  {
    var first, oa, ob := At(10, "c"), At(5, "b"), At(7, "c");
    assert oa.hash[0] != ob.hash[0];
    var db := WriteFile(plan, EmptyDb, [first]);
    FirstRecordIsStored(plan, first);
    OneRecordFile(plan, db, oa);
    TwoObservations(oa, ob);
    PropertiesAreIndependent(plan, db, [oa, ob], "k");
    CachedRepeatBreaksEventOnly(plan, RowOf(first), oa, ob);
  }
}
