/** The parser's database (db.go): four tables updated in place. A call that may fail takes a
    flag that says whether it does; a failing statement changes nothing. */
module Database {
  import opened Decision
  import opened Objects
  import opened Tables

  class Db {
    const plan: Planner
    var listings: map<string, Listing>
    var history: seq<HistoryRow>
    var processed: seq<Version>
    var attempts: map<Version, nat>

    constructor (plan: Planner)
      ensures this.plan == plan && Contents() == EmptyDb && processed == [] && attempts == map[]
    {
      this.plan := plan;
      listings, history, processed, attempts := map[], [], [], map[];
    }

    function Contents(): Tables.Db
      reads this
    {
      Tables.Db(listings, history)
    }

    method UpsertListing(r: Record, fails: bool) returns (ok: bool)
      modifies this`listings
      ensures ok == !fails
      ensures listings == if ok then Upsert(old(listings), r) else old(listings)
    {
      if fails { return false; }
      var first := r.at;
      if r.key in listings && listings[r.key].firstSeen < r.at {
        first := listings[r.key].firstSeen;
      }
      listings := listings[r.key := Listing(r.snapshot, r.details, first, r.at)];
      return true;
    }

    method LatestSnapshotHash(key: string, fails: bool) returns (ok: bool, hash: string, found: bool)
      ensures ok == !fails
      ensures ok ==> found == (KeyRows(history, key) != []) && hash == Latest(plan, history, key)
    {
      if fails { return false, "", false; }
      var rows := KeyRows(history, key);
      if rows == [] { return true, "", false; }
      return true, rows[plan(rows)].hash, true;
    }

    method InsertPriceHistory(r: Record, fails: bool) returns (ok: bool)
      modifies this`history
      ensures ok == !fails
      ensures history == if ok then InsertHistory(old(history), RowOf(r)) else old(history)
    {
      if fails { return false; }
      var row := RowOf(r);
      var i := 0;
      while i < |history|
        invariant 0 <= i <= |history|
        invariant forall j :: 0 <= j < i ==> !Conflicts(history[j], row)
      {
        if Conflicts(history[i], row) { return true; }
        i := i + 1;
      }
      history := history + [row];
      return true;
    }

    method ProcessedExists(v: Version, fails: bool) returns (ok: bool, found: bool)
      ensures ok == !fails && (ok ==> found == (v in processed))
    {
      return !fails, v in processed;
    }

    /** The row is inserted with count 0 if absent, then read; either statement may fail. */
    method EnsureAttempt(v: Version, insertFails: bool, readFails: bool) returns (ok: bool, count: nat)
      modifies this`attempts
      ensures ok == (!insertFails && !readFails)
      ensures attempts == if insertFails || v in old(attempts) then old(attempts) else old(attempts)[v := 0]
      ensures ok ==> v in attempts && count == attempts[v]
    {
      if insertFails { return false, 0; }
      if v !in attempts {
        attempts := attempts[v := 0];
      }
      if readFails { return false, 0; }
      return true, attempts[v];
    }

    /** UPDATE, or INSERT with count 1 when the row is gone. */
    method IncrementAttempt(v: Version, fails: bool) returns (ok: bool)
      modifies this`attempts
      ensures ok == !fails
      ensures attempts == if !ok then old(attempts)
                          else old(attempts)[v := 1 + if v in old(attempts) then old(attempts)[v] else 0]
    {
      if fails { return false; }
      if v in attempts {
        attempts := attempts[v := attempts[v] + 1];
      } else {
        attempts := attempts[v := 1];
      }
      return true;
    }

    method DeleteAttempt(v: Version, fails: bool)
      modifies this`attempts
      ensures attempts == if fails then old(attempts) else old(attempts) - {v}
    {
      if !fails {
        attempts := attempts - {v};
      }
    }

    /** The unique constraint of migration 004 refuses a second row. */
    method InsertProcessed(v: Version, fails: bool) returns (ok: bool)
      modifies this`processed
      ensures ok == (!fails && v !in old(processed))
      ensures processed == if ok then old(processed) + [v] else old(processed)
    {
      if fails || v in processed { return false; }
      processed := processed + [v];
      return true;
    }

    /** The hash that the next record is compared with: the cached one, or that of the query. */
    method LatestHash(key: string, cache: map<string, string>, fails: nat -> bool, call: nat)
      returns (ok: bool, latest: string, next: nat)
      ensures ok <==> key in cache || !fails(call)
      ensures ok ==> latest == if key in cache then cache[key] else Latest(plan, history, key)
      ensures next == call + if key in cache then 0 else 1
    {
      if key in cache {
        return true, cache[key], call;
      }
      var found;
      ok, latest, found := LatestSnapshotHash(key, fails(call));
      if !found { latest := ""; }
      next := call + 1;
    }

    /** The rest of the round: the insert where the hash is new, and the cache. */
    method InsertIfNew(r: Record, latest: string, latestCache: map<string, string>, fails: nat -> bool, call: nat)
      returns (ok: bool, cache: map<string, string>, next: nat)
      modifies this`history
      ensures ok <==> !ShouldInsertHistory(latest, r.hash) || !fails(call)
      ensures ok ==> history == if ShouldInsertHistory(latest, r.hash) then InsertHistory(old(history), RowOf(r)) else old(history)
      ensures cache == latestCache[r.key := if ShouldInsertHistory(latest, r.hash) then r.hash else latest]
      ensures next == call + if ShouldInsertHistory(latest, r.hash) then 1 else 0
    {
      ok, next := true, call;
      if ShouldInsertHistory(latest, r.hash) {
        ok := InsertPriceHistory(r, fails(call));
        next := call + 1;
        cache := latestCache[r.key := r.hash];
      } else {
        cache := latestCache[r.key := latest];
      }
    }

    /** One round of the loop of writeToDB; its first call is number `call`. It goes through if and
        only if none of the calls that it would make fails. */
    method WriteNext(r: Record, latestCache: map<string, string>, fails: nat -> bool, call: nat)
      returns (ok: bool, cache: map<string, string>, next: nat)
      modifies this`listings, this`history
      ensures ok <==> NoneFails(fails, call, call + RecordCalls(plan, Tx(old(Contents()), latestCache), r))
      ensures ok ==> Tx(Contents(), cache) == WriteRecord(plan, Tx(old(Contents()), latestCache), r)
      ensures ok ==> next == call + RecordCalls(plan, Tx(old(Contents()), latestCache), r)
    {
      cache, next := latestCache, call;
      ghost var asked := if r.key in cache then cache[r.key] else Latest(plan, history, r.key);
      NoneOfThree(fails, call, if r.key in cache then 0 else 1, if ShouldInsertHistory(asked, r.hash) then 1 else 0);
      ok := UpsertListing(r, fails(call));
      if !ok { return; }
      var latest;
      ok, latest, next := LatestHash(r.key, cache, fails, call + 1);
      if !ok { return; }
      ok, cache, next := InsertIfNew(r, latest, cache, fails, next);
    }

    /** writeToDB: one transaction, rolled back when a call fails. `fails(n)` says whether the
        n-th database call fails. */
    method WriteToDb(records: seq<Record>, fails: nat -> bool) returns (ok: bool)
      modifies this`listings, this`history
      ensures Contents() == if ok then WriteFile(plan, old(Contents()), records) else old(Contents())
      ensures ok <==> Commits(plan, old(Contents()), records, fails)
    {
      if |records| == 0 { return true; }
      if fails(0) { return false; }
      ghost var start := Contents();
      var savedListings, savedHistory := listings, history;
      var latestCache: map<string, string> := map[];
      var call: nat, i := 1, 0;
      ok := true;
      while i < |records| && ok
        invariant start == Tables.Db(savedListings, savedHistory)
        invariant InRound(plan, start, records, fails, i, ok, Tx(Contents(), latestCache), call)
      {
        ghost var tx, first := Tx(Contents(), latestCache), call;
        ok, latestCache, call := WriteNext(records[i], latestCache, fails, call);
        NextRound(plan, start, records, fails, i, tx, first, ok, Tx(Contents(), latestCache), call);
        i := i + 1;
      }
      assert records[..|records|] == records;
      NoneUpTo(fails, Calls(plan, start, records));
      if ok {
        ok := !fails(call);
      }
      if !ok {
        listings, history := savedListings, savedHistory;
      }
    }
  }

  ghost predicate NoneFails(fails: nat -> bool, from: nat, to: nat) {
    forall n: nat :: from <= n < to ==> !fails(n)
  }

  // One call, and after it at most one and at most another.
  lemma {:induction false} NoneOfThree(fails: nat -> bool, call: nat, a: nat, b: nat)
    requires a <= 1 && b <= 1
    ensures NoneFails(fails, call, call + 1 + a + b)
            <==> !fails(call) && (a == 1 ==> !fails(call + 1)) && (b == 1 ==> !fails(call + 1 + a))
  {
  }

  lemma {:induction false} NoneUpTo(fails: nat -> bool, n: nat)
    ensures (forall k: nat :: k <= n ==> !fails(k)) <==> NoneFails(fails, 0, n) && !fails(n)
  {
  }

  // After i rounds: what they have written, and that no call failed; or that a call did fail.
  ghost predicate InRound(plan: Planner, start: Tables.Db, rs: seq<Record>, fails: nat -> bool, i: int, ok: bool, tx: Tx, call: nat)
  {
    && 0 <= i <= |rs|
    && if ok then tx == WriteRecords(plan, start, rs[..i]) && call == Calls(plan, start, rs[..i]) && NoneFails(fails, 0, call)
       else !NoneFails(fails, 0, Calls(plan, start, rs))
  }

  lemma {:induction false} NextRound(plan: Planner, start: Tables.Db, rs: seq<Record>, fails: nat -> bool, i: nat, tx: Tx, call: nat,
                                     ok: bool, after: Tx, next: nat)
    requires i < |rs| && InRound(plan, start, rs, fails, i, true, tx, call)
    requires ok <==> NoneFails(fails, call, call + RecordCalls(plan, tx, rs[i]))
    requires ok ==> after == WriteRecord(plan, tx, rs[i]) && next == call + RecordCalls(plan, tx, rs[i])
    ensures InRound(plan, start, rs, fails, i + 1, ok, after, next)
  {
    CallsOfNext(plan, start, rs, i);
    var to := call + RecordCalls(plan, tx, rs[i]);
    assert NoneFails(fails, 0, Calls(plan, start, rs)) ==> NoneFails(fails, call, to);
  }

  // One more record, and the calls for it.
  lemma {:induction false} CallsOfNext(plan: Planner, db: Tables.Db, rs: seq<Record>, n: nat)
    requires n < |rs|
    ensures WriteRecords(plan, db, rs[..n + 1]) == WriteRecord(plan, WriteRecords(plan, db, rs[..n]), rs[n])
    ensures Calls(plan, db, rs[..n + 1])
            == Calls(plan, db, rs[..n]) + RecordCalls(plan, WriteRecords(plan, db, rs[..n]), rs[n])
    ensures Calls(plan, db, rs[..n + 1]) <= Calls(plan, db, rs)
  {
    assert rs[..n + 1][..n] == rs[..n];
    CallsGrow(plan, db, rs, n + 1);
  }

  lemma {:induction false} CallsGrow(plan: Planner, db: Tables.Db, rs: seq<Record>, n: nat)
    requires n <= |rs|
    ensures Calls(plan, db, rs[..n]) <= Calls(plan, db, rs)
  {
    if n == |rs| {
      assert rs[..n] == rs;
    } else {
      var pre := rs[..|rs| - 1];
      CallsGrow(plan, db, pre, n);
      assert pre[..n] == rs[..n];
    }
  }
}
