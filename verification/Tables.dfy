/** The `listings` and `price_history` tables, and the meaning of every statement the
    parser runs on them inside one transaction (db.go, processor.go, migration 002). */
module Tables {
  import opened Decision

  // A snapshot hash is a hex digest, so it is never the empty string.
  type Hash = h: string | h != "" witness "0"

  /** The tracked columns, each in the text form in which it is hashed. */
  datatype Snapshot = Snapshot(
    price: string, beds: string, baths: string, sqft: string,
    sourceListingId: string, propertyType: string)

  /** The columns of a listing that do not take part in the hash. */
  datatype Details = Details(address: string, unit: string, postalCode: string,
                             lat: string, lon: string, url: string)

  datatype Record = Record(key: string, at: int, hash: Hash, snapshot: Snapshot, details: Details)

  datatype Listing = Listing(snapshot: Snapshot, details: Details, firstSeen: int, lastSeen: int)

  // A history row keeps the snapshot without its property type.
  datatype HistoryRow = HistoryRow(
    key: string, at: int, hash: Hash,
    price: string, beds: string, baths: string, sqft: string, sourceListingId: string)

  datatype Db = Db(listings: map<string, Listing>, history: seq<HistoryRow>)

  const EmptyDb := Db(map[], [])

  function RowOf(r: Record): HistoryRow {
    HistoryRow(r.key, r.at, r.hash,
               r.snapshot.price, r.snapshot.beds, r.snapshot.baths, r.snapshot.sqft,
               r.snapshot.sourceListingId)
  }

  // The columns of the unique constraint on price_history.
  predicate Conflicts(a: HistoryRow, b: HistoryRow) {
    a.key == b.key && a.at == b.at && a.hash == b.hash
  }

  predicate Present(history: seq<HistoryRow>, row: HistoryRow) {
    exists i :: 0 <= i < |history| && Conflicts(history[i], row)
  }

  /** INSERT ... ON CONFLICT DO NOTHING. */
  function InsertHistory(history: seq<HistoryRow>, row: HistoryRow): seq<HistoryRow> {
    if Present(history, row) then history else history + [row]
  }

  /** INSERT ... ON CONFLICT (property_key) DO UPDATE: every column is overwritten,
      first_seen_at keeps the smaller of the two times. */
  function Upsert(listings: map<string, Listing>, r: Record): map<string, Listing> {
    var first := if r.key in listings && listings[r.key].firstSeen < r.at
                 then listings[r.key].firstSeen else r.at;
    listings[r.key := Listing(r.snapshot, r.details, first, r.at)]
  }

  /** The history rows of one property, in insertion order. */
  function KeyRows(history: seq<HistoryRow>, key: string): (rows: seq<HistoryRow>)
    ensures forall i :: 0 <= i < |rows| ==> rows[i].key == key
  {
    if history == [] then []
    else
      var rows := KeyRows(history[..|history| - 1], key);
      var row := history[|history| - 1];
      if row.key == key then rows + [row] else rows
  }

  /** `ORDER BY observed_at DESC LIMIT 1` says nothing about ties, so the row returned for a
      property is a choice the query planner makes among its newest rows. A planner maps the
      (non-empty) rows of one property to the index of the row the query returns. */
  ghost predicate PicksNewest(plan: seq<HistoryRow> -> nat) {
    forall rows :: rows != [] ==> plan(rows) < |rows| && IsNewest(rows, plan(rows))
  }

  ghost predicate IsNewest(rows: seq<HistoryRow>, n: nat)
    requires n < |rows|
  {
    forall i :: 0 <= i < |rows| ==> rows[i].at <= rows[n].at
  }

  type Planner = plan: seq<HistoryRow> -> nat | PicksNewest(plan) ghost witness LastNewest

  // One possible planner; it only shows that planners exist.
  function LastNewest(rows: seq<HistoryRow>): (n: nat)
    ensures rows != [] ==> n < |rows| && IsNewest(rows, n)
  {
    LastGreatest(Times(rows))
  }

  function Times(rows: seq<HistoryRow>): (times: seq<int>)
    ensures |times| == |rows| && forall i :: 0 <= i < |rows| ==> times[i] == rows[i].at
  {
    seq(|rows|, i requires 0 <= i < |rows| => rows[i].at)
  }

  function LastGreatest(times: seq<int>): (n: nat)
    ensures times != [] ==> n < |times| && forall i :: 0 <= i < |times| ==> times[i] <= times[n]
  {
    if |times| <= 1 then 0
    else
      var last := |times| - 1;
      var n := LastGreatest(times[..last]);
      assert forall i :: 0 <= i < last ==> times[..last][i] == times[i];
      if times[n] <= times[last] then last else n
  }

  function Newest(plan: Planner, rows: seq<HistoryRow>): string {
    if rows == [] then "" else rows[plan(rows)].hash
  }

  /** LatestSnapshotHash, with "" when the property has no history. */
  function Latest(plan: Planner, history: seq<HistoryRow>, key: string): string {
    Newest(plan, KeyRows(history, key))
  }

  /** The state of a transaction: the tables it sees and its latestCache. */
  datatype Tx = Tx(db: Db, cache: map<string, string>)

  /** One iteration of the loop of writeToDB. */
  function WriteRecord(plan: Planner, tx: Tx, r: Record): Tx {
    var listings := Upsert(tx.db.listings, r);
    var latest := if r.key in tx.cache then tx.cache[r.key] else Latest(plan, tx.db.history, r.key);
    if ShouldInsertHistory(latest, r.hash) then
      Tx(Db(listings, InsertHistory(tx.db.history, RowOf(r))), tx.cache[r.key := r.hash])
    else
      Tx(Db(listings, tx.db.history), tx.cache[r.key := latest])
  }

  /** The loop of writeToDB over the records of one file, from an empty cache. */
  function WriteRecords(plan: Planner, db: Db, rs: seq<Record>): Tx {
    if rs == [] then Tx(db, map[])
    else WriteRecord(plan, WriteRecords(plan, db, rs[..|rs| - 1]), rs[|rs| - 1])
  }

  /** One committed transaction. */
  function WriteFile(plan: Planner, db: Db, rs: seq<Record>): Db {
    WriteRecords(plan, db, rs).db
  }

  /** The calls that writeToDB makes for the next record, when none fails: the upsert, the query
      where the cache has no answer, and the insert where the hash is new. */
  function RecordCalls(plan: Planner, tx: Tx, r: Record): nat {
    var latest := if r.key in tx.cache then tx.cache[r.key] else Latest(plan, tx.db.history, r.key);
    1 + (if r.key in tx.cache then 0 else 1) + (if ShouldInsertHistory(latest, r.hash) then 1 else 0)
  }

  /** The calls in front of the commit; the first one begins the transaction. */
  function Calls(plan: Planner, db: Db, rs: seq<Record>): nat {
    if rs == [] then 1
    else
      var n := |rs| - 1;
      Calls(plan, db, rs[..n]) + RecordCalls(plan, WriteRecords(plan, db, rs[..n]), rs[n])
  }

  /** Whether writeToDB commits, where `fails(n)` says whether its n-th call fails: no call up to the
      commit fails. Without records it makes no call. */
  ghost predicate Commits(plan: Planner, db: Db, rs: seq<Record>, fails: nat -> bool) {
    rs == [] || forall n: nat :: n <= Calls(plan, db, rs) ==> !fails(n)
  }

  /** Several files, one transaction each, in commit order. */
  function WriteFiles(plan: Planner, db: Db, files: seq<seq<Record>>): Db {
    if files == [] then db
    else WriteFile(plan, WriteFiles(plan, db, files[..|files| - 1]), files[|files| - 1])
  }

  /** The reference: the same loop without a cache, asking the table at every record. */
  function WriteUncached(plan: Planner, db: Db, rs: seq<Record>): Db {
    Fold(db, rs, (db: Db, r: Record) => UncachedStep(plan, db, r))
  }

  function Fold<S, T>(start: S, xs: seq<T>, step: (S, T) -> S): S {
    if xs == [] then start else step(Fold(start, xs[..|xs| - 1], step), xs[|xs| - 1])
  }

  function UncachedStep(plan: Planner, db: Db, r: Record): Db {
    WriteRecord(plan, Tx(db, map[]), r).db
  }

  function Flatten(files: seq<seq<Record>>): seq<Record> {
    if files == [] then [] else Flatten(files[..|files| - 1]) + files[|files| - 1]
  }

  /** The observations of one property, in stream order. */
  function Observations(rs: seq<Record>, key: string): (os: seq<Record>)
    ensures forall i :: 0 <= i < |os| ==> os[i].key == key
  {
    if rs == [] then []
    else
      var os := Observations(rs[..|rs| - 1], key);
      var r := rs[|rs| - 1];
      if r.key == key then os + [r] else os
  }
}
