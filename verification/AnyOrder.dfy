/** What holds for every sequence of committed files: repeated, late, out of order.
    The protocol commits such a sequence (README.md "Idempotent ingestion"). */
module AnyOrderStreams {
  import opened Sequences
  import opened Decision
  import opened Tables
  import opened TableFacts

  /* ---- Safety of the tables ---- */

  ghost predicate NoDuplicates(history: seq<HistoryRow>) {
    forall i, j :: 0 <= i < j < |history| ==> !Conflicts(history[i], history[j])
  }

  /** A listing shows the last observation applied, and the earliest time applied. */
  ghost predicate Reflects(l: Listing, os: seq<Record>) {
    && os != []
    && (var last := os[|os| - 1];
        l.snapshot == last.snapshot && l.details == last.details && l.lastSeen == last.at)
    && (forall o :: o in os ==> l.firstSeen <= o.at)
    && (exists o :: o in os && l.firstSeen == o.at)
  }

  ghost predicate SoundHistory(history: seq<HistoryRow>, applied: seq<Record>) {
    && NoDuplicates(history)
    && (forall row :: row in history ==> From([], applied, row))
  }

  ghost predicate SoundListings(listings: map<string, Listing>, applied: seq<Record>) {
    forall key :: SoundListing(listings, Observations(applied, key), key)
  }

  ghost predicate SoundListing(listings: map<string, Listing>, os: seq<Record>, key: string) {
    (key in listings <==> os != []) && (key in listings ==> Reflects(listings[key], os))
  }

  ghost predicate SameKeys(db: Db) {
    forall key :: key in db.listings <==> KeyRows(db.history, key) != []
  }

  /** The tables after the records `applied` were written to empty tables. */
  ghost predicate Sound(db: Db, applied: seq<Record>) {
    SoundHistory(db.history, applied) && SoundListings(db.listings, applied) && SameKeys(db)
  }

  ghost predicate CacheHasRows(tx: Tx) {
    forall key :: key in tx.cache ==> KeyRows(tx.db.history, key) != [] && tx.cache[key] != ""
  }

  lemma {:induction false} ObservationsOfOneMore(applied: seq<Record>, r: Record, key: string)
    ensures Observations(applied + [r], key)
            == if r.key == key then Observations(applied, key) + [r] else Observations(applied, key)
  {
    assert (applied + [r])[..|applied|] == applied;
  }

  lemma {:induction false} ListingStaysSound(listings: map<string, Listing>, os: seq<Record>, r: Record)
    requires SoundListing(listings, os, r.key)
    ensures SoundListing(Upsert(listings, r), os + [r], r.key)
  {
    var l, os' := Upsert(listings, r)[r.key], os + [r];
    assert r in os';
    assert forall o :: o in os' <==> o in os || o == r;
    if r.key in listings && listings[r.key].firstSeen < r.at {
      var o :| o in os && listings[r.key].firstSeen == o.at;
      assert o in os' && l.firstSeen == o.at;
    }
  }

  lemma {:induction false} OtherListingStaysSound(listings: map<string, Listing>, os: seq<Record>, r: Record, key: string)
    requires SoundListing(listings, os, key) && key != r.key
    ensures SoundListing(Upsert(listings, r), os, key)
  {
  }

  lemma {:induction false} ListingsStaySound(listings: map<string, Listing>, applied: seq<Record>, r: Record)
    requires SoundListings(listings, applied)
    ensures SoundListings(Upsert(listings, r), applied + [r])
  {
    forall key
      ensures SoundListing(Upsert(listings, r), Observations(applied + [r], key), key)
    {
      ObservationsOfOneMore(applied, r, key);
      if key == r.key {
        ListingStaysSound(listings, Observations(applied, key), r);
      } else {
        OtherListingStaysSound(listings, Observations(applied, key), r, key);
      }
    }
  }

  lemma {:induction false} HistoryStaysSound(history: seq<HistoryRow>, applied: seq<Record>, r: Record)
    requires SoundHistory(history, applied)
    ensures SoundHistory(history, applied + [r]) && SoundHistory(InsertHistory(history, RowOf(r)), applied + [r])
  {
    var after := InsertHistory(history, RowOf(r));
    forall row | row in history
      ensures From([], applied + [r], row)
    {
      var i :| 0 <= i < |applied| && row == RowOf(applied[i]);
      assert row == RowOf((applied + [r])[i]);
    }
    assert RowOf(r) == RowOf((applied + [r])[|applied|]);
    assert forall row :: row in after ==> row in history || row == RowOf(r);
  }

  // The properties with rows after a record are those before it, and its own.
  ghost predicate AddsKey(history: seq<HistoryRow>, after: seq<HistoryRow>, key: string) {
    forall k :: KeyRows(after, k) != [] <==> k == key || KeyRows(history, k) != []
  }

  lemma {:induction false} RecordAddsKey(plan: Planner, tx: Tx, r: Record)
    requires CacheHasRows(tx)
    ensures AddsKey(tx.db.history, WriteRecord(plan, tx, r).db.history, r.key)
  {
    var history := tx.db.history;
    var latest := if r.key in tx.cache then tx.cache[r.key] else Latest(plan, history, r.key);
    if ShouldInsertHistory(latest, r.hash) {
      InsertAddsKey(history, RowOf(r));
    } else {
      assert KeyRows(history, r.key) != [];
    }
  }

  lemma {:induction false} InsertAddsKey(history: seq<HistoryRow>, row: HistoryRow)
    ensures AddsKey(history, InsertHistory(history, row), row.key)
  {
    forall k
      ensures KeyRows(InsertHistory(history, row), k) != [] <==> k == row.key || KeyRows(history, k) != []
    {
      KeyRowsOfInsert(history, row, k);
    }
  }

  lemma {:induction false} KeysStayPaired(plan: Planner, tx: Tx, r: Record)
    requires SameKeys(tx.db) && CacheHasRows(tx)
    ensures SameKeys(WriteRecord(plan, tx, r).db) && CacheHasRows(WriteRecord(plan, tx, r))
  {
    RecordAddsKey(plan, tx, r);
    var after := WriteRecord(plan, tx, r);
    assert forall k :: k in after.db.listings <==> k == r.key || k in tx.db.listings;
    assert forall k :: k in after.cache && k != r.key ==> k in tx.cache && after.cache[k] == tx.cache[k];
    assert after.cache[r.key] != "";
  }

  lemma {:induction false} RecordStaysSound(plan: Planner, tx: Tx, applied: seq<Record>, r: Record)
    requires Sound(tx.db, applied) && CacheHasRows(tx)
    ensures Sound(WriteRecord(plan, tx, r).db, applied + [r]) && CacheHasRows(WriteRecord(plan, tx, r))
  {
    HistoryStaysSound(tx.db.history, applied, r);
    ListingsStaySound(tx.db.listings, applied, r);
    KeysStayPaired(plan, tx, r);
    WriteRecordTables(plan, tx, r);
  }

  lemma {:induction false} WriteRecordTables(plan: Planner, tx: Tx, r: Record)
    ensures WriteRecord(plan, tx, r).db.listings == Upsert(tx.db.listings, r)
    ensures WriteRecord(plan, tx, r).db.history in {tx.db.history, InsertHistory(tx.db.history, RowOf(r))}
  {
  }

  lemma {:induction false} FileStaysSound(plan: Planner, db: Db, applied: seq<Record>, rs: seq<Record>)
    requires Sound(db, applied)
    ensures SoundTx(WriteRecords(plan, db, rs), applied + rs)
  {
    if rs == [] {
      assert applied + rs == applied;
      assert SoundTx(Tx(db, map[]), applied);
    } else {
      var pre, r := rs[..|rs| - 1], rs[|rs| - 1];
      FileStaysSound(plan, db, applied, pre);
      var tx := WriteRecords(plan, db, pre);
      NextStaysSound(plan, tx, applied + pre, r);
      AppendLast(applied, rs);
    }
  }

  ghost predicate SoundTx(tx: Tx, applied: seq<Record>) {
    Sound(tx.db, applied) && CacheHasRows(tx)
  }

  lemma {:induction false} NextStaysSound(plan: Planner, tx: Tx, applied: seq<Record>, r: Record)
    requires SoundTx(tx, applied)
    ensures SoundTx(WriteRecord(plan, tx, r), applied + [r])
  {
    RecordStaysSound(plan, tx, applied, r);
  }

  /** Every sequence of commits leaves sound tables: history is free of duplicates and holds
      observations only, listings and history have the same properties, a listing shows the
      last commit, and first_seen_at is the least time applied. */
  lemma {:induction false} TablesAreSound(plan: Planner, files: seq<seq<Record>>)
    ensures Sound(WriteFiles(plan, EmptyDb, files), Flatten(files))
  {
    if files != [] {
      var pre := files[..|files| - 1];
      TablesAreSound(plan, pre);
      FileStaysSound(plan, WriteFiles(plan, EmptyDb, pre), Flatten(pre), files[|files| - 1]);
    }
  }

  /** What makes two observations the same row. */
  datatype Identity = Identity(key: string, at: int, hash: Hash)

  ghost function Identities(rs: seq<Record>): set<Identity> {
    set r | r in rs :: Identity(r.key, r.at, r.hash)
  }

  ghost function RowIdentities(rows: seq<HistoryRow>): set<Identity> {
    set row | row in rows :: Identity(row.key, row.at, row.hash)
  }

  lemma {:induction false} DistinctRowsCount(rows: seq<HistoryRow>)
    requires NoDuplicates(rows)
    ensures |RowIdentities(rows)| == |rows|
  {
    if rows != [] {
      var pre, last := rows[..|rows| - 1], rows[|rows| - 1];
      DistinctRowsCount(pre);
      SplitLast(rows);
      var id := Identity(last.key, last.at, last.hash);
      assert id !in RowIdentities(pre);
      assert RowIdentities(rows) == RowIdentities(pre) + {id};
    }
  }

  /** However often files are committed again, history has at most one row for each distinct
      observation. */
  lemma {:induction false} HistoryIsBounded(db: Db, applied: seq<Record>)
    requires Sound(db, applied)
    ensures |db.history| <= |Identities(applied)|
  {
    DistinctRowsCount(db.history);
    forall id | id in RowIdentities(db.history)
      ensures id in Identities(applied)
    {
      var row :| row in db.history && id == Identity(row.key, row.at, row.hash);
      assert From([], applied, row);
      var i :| 0 <= i < |applied| && row == RowOf(applied[i]);
      assert applied[i] in applied;
    }
    SubsetCount(RowIdentities(db.history), Identities(applied));
  }

  lemma {:induction false} SubsetCount<T>(a: set<T>, b: set<T>)
    requires a <= b
    ensures |a| <= |b|
  {
    assert b == a + (b - a);
  }

  /** first_seen_at never exceeds last_seen_at. */
  lemma {:induction false} SeenTimesAreOrdered(db: Db, applied: seq<Record>, key: string)
    requires Sound(db, applied) && key in db.listings
    ensures db.listings[key].firstSeen <= db.listings[key].lastSeen
  {
    var os := Observations(applied, key);
    assert os[|os| - 1] in os;
  }

  /* ---- Replaying a file that was committed but not entered in the ledger ---- */

  lemma {:induction false} PresentInLonger(rows: seq<HistoryRow>, more: seq<HistoryRow>, row: HistoryRow)
    requires rows <= more && Present(rows, row)
    ensures Present(more, row)
  {
    var j :| 0 <= j < |rows| && Conflicts(rows[j], row);
    assert more[j] == rows[j];
  }

  lemma {:induction false} InsertIsPresent(latest: string, rows: seq<HistoryRow>, o: Record)
    requires ShouldInsertHistory(latest, o.hash)
    ensures Present(StepKey(latest, rows, o), RowOf(o))
  {
    if !Present(rows, RowOf(o)) {
      assert StepKey(latest, rows, o)[|rows|] == RowOf(o);
    }
  }

  lemma {:induction false} StepGrows(latest: string, rows: seq<HistoryRow>, o: Record)
    ensures rows <= StepKey(latest, rows, o)
  {
  }

  lemma {:induction false} WriteKeyStep(plan: Planner, rows: seq<HistoryRow>, os: seq<Record>, n: nat)
    requires n < |os|
    ensures WriteKey(plan, rows, os[..n + 1]) == StepKey(Compared(plan, rows, os, n), WriteKey(plan, rows, os[..n]), os[n])
  {
    assert os[..n + 1][..n] == os[..n];
  }

  lemma {:induction false} OneMoreGrows(plan: Planner, rows: seq<HistoryRow>, os: seq<Record>, n: nat)
    requires n < |os|
    ensures WriteKey(plan, rows, os[..n]) <= WriteKey(plan, rows, os[..n + 1])
  {
    WriteKeyStep(plan, rows, os, n);
    StepGrows(Compared(plan, rows, os, n), WriteKey(plan, rows, os[..n]), os[n]);
  }

  lemma {:induction false} WriteKeyGrows(plan: Planner, rows: seq<HistoryRow>, os: seq<Record>, k: nat, n: nat)
    requires k <= n <= |os|
    ensures WriteKey(plan, rows, os[..k]) <= WriteKey(plan, rows, os[..n])
  {
    var after := (i: nat) => if i <= |os| then WriteKey(plan, rows, os[..i]) else [];
    forall i: nat | k <= i < n
      ensures after(i) <= after(i + 1)
    {
      OneMoreGrows(plan, rows, os, i);
    }
    StepsGrow(after, k, n);
  }

  lemma {:induction false} ChangeIsPresent(plan: Planner, rows: seq<HistoryRow>, os: seq<Record>, i: nat)
    requires i < |os| && ShouldInsertHistory(Compared(plan, rows, os, i), os[i].hash)
    ensures Present(WriteKey(plan, rows, os[..i + 1]), RowOf(os[i]))
  {
    WriteKeyStep(plan, rows, os, i);
    InsertIsPresent(Compared(plan, rows, os, i), WriteKey(plan, rows, os[..i]), os[i]);
  }

  // Every change inside the file left its row in the table.
  lemma {:induction false} ChangesArePresent(plan: Planner, rows: seq<HistoryRow>, os: seq<Record>, i: nat)
    requires i < |os| && ShouldInsertHistory(Compared(plan, rows, os, i), os[i].hash)
    ensures Present(WriteKey(plan, rows, os), RowOf(os[i]))
  {
    ChangeIsPresent(plan, rows, os, i);
    WriteKeyGrows(plan, rows, os, i + 1, |os|);
    assert os[..|os|] == os;
    PresentInLonger(WriteKey(plan, rows, os[..i + 1]), WriteKey(plan, rows, os), RowOf(os[i]));
  }

  lemma {:induction false} KnownAddsNothing(latest: string, rows: seq<HistoryRow>, o: Record)
    requires latest == o.hash || Present(rows, RowOf(o))
    ensures StepKey(latest, rows, o) == rows
  {
  }

  // If the later changes are in the table, only the first observation can add a row.
  lemma {:induction false} OnlyFirstMatters(plan: Planner, rows: seq<HistoryRow>, os: seq<Record>)
    requires os != []
    requires forall i :: 0 < i < |os| && os[i - 1].hash != os[i].hash ==> Present(rows, RowOf(os[i]))
    ensures WriteKey(plan, rows, os) == StepKey(Newest(plan, rows), rows, os[0])
  {
    var n := |os| - 1;
    assert WriteKey(plan, rows, os) == StepKey(Compared(plan, rows, os, n), WriteKey(plan, rows, os[..n]), os[n]);
    if n == 0 {
      assert os[..0] == [];
    } else {
      OnlyFirstMatters(plan, rows, os[..n]);
      var before := WriteKey(plan, rows, os[..n]);
      if Present(rows, RowOf(os[n])) {
        StepGrows(Newest(plan, rows), rows, os[0]);
        PresentInLonger(rows, before, RowOf(os[n]));
      }
      KnownAddsNothing(os[n - 1].hash, before, os[n]);
    }
  }

  lemma {:induction false} KeyRowsAppend(a: seq<HistoryRow>, b: seq<HistoryRow>, key: string)
    ensures KeyRows(a + b, key) == KeyRows(a, key) + KeyRows(b, key)
  {
    if b == [] {
      assert a + b == a;
    } else {
      var pre := b[..|b| - 1];
      KeyRowsAppend(a, pre, key);
      assert (a + b)[..|a + b| - 1] == a + pre;
    }
  }

  // A table that grew without any property gaining a row did not grow.
  lemma {:induction false} SameRowsSameTable(before: seq<HistoryRow>, after: seq<HistoryRow>)
    requires before <= after
    requires forall key :: KeyRows(before, key) == KeyRows(after, key)
    ensures before == after
  {
    var more := after[|before|..];
    assert after == before + more;
    var grown := more != [] && KeyRows(before, more[|more| - 1].key) != KeyRows(after, more[|more| - 1].key);
    if more != [] {
      KeyRowsAppend(before, more, more[|more| - 1].key);
    }
    assert more == [] || grown;
  }

  function FirstSeen(listings: map<string, Listing>, key: string, os: seq<Record>): int
    requires os != []
  {
    var last := os[|os| - 1];
    if |os| == 1 then
      if key in listings && listings[key].firstSeen < last.at then listings[key].firstSeen else last.at
    else
      var first := FirstSeen(listings, key, os[..|os| - 1]);
      if first < last.at then first else last.at
  }

  // The listing of a property after its observations `os`.
  ghost predicate ListsAfter(before: map<string, Listing>, after: map<string, Listing>, os: seq<Record>, key: string) {
    if os == [] then
      (key in after <==> key in before) && (key in after ==> after[key] == before[key])
    else
      var last := os[|os| - 1];
      key in after && after[key] == Listing(last.snapshot, last.details, FirstSeen(before, key, os), last.at)
  }

  lemma {:induction false} UpsertLists(before: map<string, Listing>, after: map<string, Listing>, os: seq<Record>, r: Record)
    requires ListsAfter(before, after, os, r.key)
    ensures ListsAfter(before, Upsert(after, r), os + [r], r.key)
  {
    assert (os + [r])[..|os|] == os;
  }

  lemma {:induction false} ListingAfterFile(plan: Planner, db: Db, rs: seq<Record>, key: string)
    ensures ListsAfter(db.listings, WriteFile(plan, db, rs).listings, Observations(rs, key), key)
  {
    if rs != [] {
      var pre, r := rs[..|rs| - 1], rs[|rs| - 1];
      ListingAfterFile(plan, db, pre, key);
      var listings := WriteFile(plan, db, pre).listings;
      assert WriteFile(plan, db, rs).listings == Upsert(listings, r);
      if r.key == key {
        UpsertLists(db.listings, listings, Observations(pre, key), r);
      }
    }
  }

  lemma {:induction false} FirstSeenIsLeast(listings: map<string, Listing>, key: string, os: seq<Record>)
    requires os != []
    ensures forall i :: 0 <= i < |os| ==> FirstSeen(listings, key, os) <= os[i].at
  {
    if |os| > 1 {
      FirstSeenIsLeast(listings, key, os[..|os| - 1]);
    }
  }

  lemma {:induction false} FirstSeenSettles(listings: map<string, Listing>, key: string, os: seq<Record>)
    requires os != [] && key in listings
    requires forall i :: 0 <= i < |os| ==> listings[key].firstSeen <= os[i].at
    ensures FirstSeen(listings, key, os) == listings[key].firstSeen
  {
    if |os| > 1 {
      FirstSeenSettles(listings, key, os[..|os| - 1]);
    }
  }

  lemma {:induction false} ListingsReplay(plan: Planner, db: Db, rs: seq<Record>)
    ensures var once := WriteFile(plan, db, rs); WriteFile(plan, once, rs).listings == once.listings
  {
    var once := WriteFile(plan, db, rs);
    var twice := WriteFile(plan, once, rs);
    forall key
      ensures key in twice.listings <==> key in once.listings
      ensures key in once.listings ==> twice.listings[key] == once.listings[key]
    {
      var os := Observations(rs, key);
      ListingAfterFile(plan, db, rs, key);
      ListingAfterFile(plan, once, rs, key);
      if os != [] {
        FirstSeenIsLeast(db.listings, key, os);
        FirstSeenSettles(once.listings, key, os);
      }
    }
  }

  /** The first observation of a property in the file is in force, or is stored already. */
  ghost predicate FirstIsKnown(plan: Planner, history: seq<HistoryRow>, rs: seq<Record>, key: string) {
    var os := Observations(rs, key);
    os != [] ==> Latest(plan, history, key) == os[0].hash || Present(KeyRows(history, key), RowOf(os[0]))
  }

  lemma {:induction false} ReplayOfKey(plan: Planner, db: Db, rs: seq<Record>, key: string)
    ensures var once := WriteFile(plan, db, rs).history;
            KeyRows(WriteFile(plan, WriteFile(plan, db, rs), rs).history, key) == KeyRows(once, key)
            <==> FirstIsKnown(plan, once, rs, key)
  {
    var once := WriteFile(plan, db, rs);
    var os := Observations(rs, key);
    var rows := KeyRows(once.history, key);
    PropertiesAreIndependent(plan, db, rs, key);
    PropertiesAreIndependent(plan, once, rs, key);
    if os != [] {
      forall i | 0 < i < |os| && os[i - 1].hash != os[i].hash
        ensures Present(rows, RowOf(os[i]))
      {
        ChangesArePresent(plan, KeyRows(db.history, key), os, i);
      }
      OnlyFirstMatters(plan, rows, os);
    }
  }

  /** Writing a file a second time, right after its commit, leaves the tables as they are if and
      only if the first observation of each of its properties is then in force or stored. */
  lemma {:induction false} ReplayIsIdempotentExactly(plan: Planner, db: Db, rs: seq<Record>)
    ensures var once := WriteFile(plan, db, rs);
            WriteFile(plan, once, rs) == once <==> forall key :: FirstIsKnown(plan, once.history, rs, key)
  {
    var once := WriteFile(plan, db, rs);
    var twice := WriteFile(plan, once, rs);
    ListingsReplay(plan, db, rs);
    HistoryIsAppendOnly(plan, once, rs);
    forall key
      ensures KeyRows(twice.history, key) == KeyRows(once.history, key) <==> FirstIsKnown(plan, once.history, rs, key)
    {
      ReplayOfKey(plan, db, rs, key);
    }
    if forall key :: FirstIsKnown(plan, once.history, rs, key) {
      SameRowsSameTable(once.history, twice.history);
    }
  }

  ghost predicate OneHashPerProperty(rs: seq<Record>) {
    forall a, b :: a in rs && b in rs && a.key == b.key ==> a.hash == b.hash
  }

  /** A file with one snapshot per property can be replayed on any tables, whatever its times. */
  lemma {:induction false} OneHashReplays(plan: Planner, db: Db, rs: seq<Record>)
    requires OneHashPerProperty(rs)
    ensures var once := WriteFile(plan, db, rs); WriteFile(plan, once, rs) == once
  {
    var once := WriteFile(plan, db, rs);
    ReplayIsIdempotentExactly(plan, db, rs);
    forall key
      ensures FirstIsKnown(plan, once.history, rs, key)
    {
      var os := Observations(rs, key);
      if os != [] {
        ObservationsMembers(rs, key);
        assert forall i :: 0 <= i < |os| ==> os[i] in rs;
        PropertiesAreIndependent(plan, db, rs, key);
        var rows := KeyRows(db.history, key);
        if ShouldInsertHistory(Newest(plan, rows), os[0].hash) {
          ChangesArePresent(plan, rows, os, 0);
        } else {
          OnlyFirstMatters(plan, rows, os);
        }
      }
    }
  }

  function At(t: int, hash: Hash): Record {
    Record("k", t, hash, Snapshot("", "", "", "", "", ""), Details("", "", "", "", "", ""))
  }

  // One more record of a property, in a file of its own.
  lemma {:induction false} OneRecordFile(plan: Planner, db: Db, r: Record)
    ensures KeyRows(WriteFile(plan, db, [r]).history, r.key) == WriteKey(plan, KeyRows(db.history, r.key), [r])
  {
    ObservationsOfOneMore([], r, r.key);
    assert [] + [r] == [r];
    PropertiesAreIndependent(plan, db, [r], r.key);
  }

  lemma {:induction false} FirstRecordIsStored(plan: Planner, r: Record)
    ensures KeyRows(WriteFile(plan, EmptyDb, [r]).history, r.key) == [RowOf(r)]
  {
    OneRecordFile(plan, EmptyDb, r);
    assert [r][..0] == [];
    assert [] + [RowOf(r)] == [RowOf(r)];
  }

  /** Two snapshots of one property in one file: the replay adds a row. */
  lemma {:induction false} ReplayCanGrowHistory(plan: Planner)
    ensures var db := WriteFile(plan, EmptyDb, [At(0, "a")]);
            var file := [At(1, "a"), At(1, "b")];
            var once := WriteFile(plan, db, file);
            WriteFile(plan, once, file) != once
  {
    var first, ra, rb := At(0, "a"), At(1, "a"), At(1, "b");
    assert ra.hash[0] != rb.hash[0];
    FirstRecordIsStored(plan, first);
    TwoSnapshotsGrow(plan, WriteFile(plan, EmptyDb, [first]), RowOf(first), ra, rb);
  }

  // A file that repeats the hash in force and then brings another.
  lemma {:induction false} TwoSnapshotsGrow(plan: Planner, db: Db, row: HistoryRow, ra: Record, rb: Record)
    requires ra.key == rb.key && KeyRows(db.history, ra.key) == [row]
    requires row.hash == ra.hash != rb.hash && row.at < ra.at && row.at < rb.at
    ensures var once := WriteFile(plan, db, [ra, rb]); WriteFile(plan, once, [ra, rb]) != once
  {
    var once := WriteFile(plan, db, [ra, rb]);
    TwoSnapshots(plan, db, ra, rb);
    FirstIsUnknown(plan, once.history, row, ra, rb);
    ReplayOfKey(plan, db, [ra, rb], ra.key);
  }

  lemma {:induction false} FirstIsUnknown(plan: Planner, history: seq<HistoryRow>, row: HistoryRow, ra: Record, rb: Record)
    requires ra.key == rb.key && KeyRows(history, ra.key) == [row, RowOf(rb)] && Observations([ra, rb], ra.key) == [ra, rb]
    requires row.hash == ra.hash != rb.hash && row.at < ra.at && row.at < rb.at
    ensures !FirstIsKnown(plan, history, [ra, rb], ra.key)
  {
    var rows := [row, RowOf(rb)];
    assert rows[1].at <= rows[plan(rows)].at;
    assert !Conflicts(rows[0], RowOf(ra)) && !Conflicts(rows[1], RowOf(ra));
  }

  // The observation with the hash in force adds nothing, and the other one a row.
  lemma {:induction false} TwoSnapshots(plan: Planner, db: Db, ra: Record, rb: Record)
    requires ra.key == rb.key && |KeyRows(db.history, ra.key)| == 1
    requires KeyRows(db.history, ra.key)[0].hash == ra.hash != rb.hash
    requires KeyRows(db.history, ra.key)[0].at < rb.at
    ensures KeyRows(WriteFile(plan, db, [ra, rb]).history, ra.key) == KeyRows(db.history, ra.key) + [RowOf(rb)]
    ensures Observations([ra, rb], ra.key) == [ra, rb]
  {
    TwoObservations(ra, rb);
    PropertiesAreIndependent(plan, db, [ra, rb], ra.key);
    SecondIsWritten(plan, KeyRows(db.history, ra.key), ra, rb);
  }

  lemma {:induction false} TwoObservations(ra: Record, rb: Record)
    requires ra.key == rb.key
    ensures Observations([ra, rb], ra.key) == [ra, rb]
  {
    ObservationsOfOneMore([], ra, ra.key);
    ObservationsOfOneMore([ra], rb, ra.key);
    assert [] + [ra] == [ra] && [ra] + [rb] == [ra, rb];
  }

  lemma {:induction false} SecondIsWritten(plan: Planner, rows: seq<HistoryRow>, ra: Record, rb: Record)
    requires |rows| == 1 && rows[0].hash == ra.hash != rb.hash && rows[0].at < rb.at
    ensures WriteKey(plan, rows, [ra, rb]) == rows + [RowOf(rb)]
  {
    assert [ra][..0] == [] && [ra, rb][..1] == [ra];
    assert WriteKey(plan, rows, [ra]) == rows;
  }
}
