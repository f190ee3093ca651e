/** One parser worker (processor.go): ProcessOnce's handling of a message, record by record.
    Every call to the queue, the object store or the database may fail. */
module Processor {
  import opened Sequences
  import opened Decision
  import opened Objects
  import opened Tables
  import opened Delivery
  import opened DeliveryFacts
  import Database

  class Processor {
    const db: Database.Db
    const maxRetries: nat
    // The raw objects: immutable per etag, and not replaced while the worker runs.
    const etag: ObjectKey -> string
    const records: Version -> seq<Record>
    var vault: set<VaultKey>

    constructor (db: Database.Db, maxRetries: nat, etag: ObjectKey -> string, records: Version -> seq<Record>)
      ensures this.db == db && this.maxRetries == maxRetries && this.etag == etag && this.records == records
      ensures vault == {}
    {
      this.db, this.maxRetries, this.etag, this.records := db, maxRetries, etag, records;
      vault := {};
    }

    function VersionOf(o: ObjectKey): Version {
      Version(o, etag(o))
    }

    function Versions(os: seq<ObjectKey>): (vs: seq<Version>)
      ensures |vs| == |os| && forall i :: 0 <= i < |os| ==> vs[i] == VersionOf(os[i])
    {
      if os == [] then [] else Versions(os[..|os| - 1]) + [VersionOf(os[|os| - 1])]
    }

    /** Everything the worker can change. */
    function Contents(): Store
      reads this, db
    {
      Store(db.Contents(), db.processed, db.attempts, vault)
    }

    method HandleFailure(v: Version, f: Faults)
      modifies this, db`attempts
      ensures Contents() == AfterFailure(old(Contents()), v, f)
      ensures vault == old(vault) + if f.putFailure then {} else {Errors(v.obj.key)}
      ensures forall u :: Count(db.attempts, u)
                == Count(old(db.attempts), u) + if u == v && v.etag != "" && !f.increment then 1 else 0
    {
      if !f.putFailure {
        vault := vault + {Errors(v.obj.key)};
      }
      if v.etag != "" {
        var _ := db.IncrementAttempt(v, f.increment);
      }
    }

    /** Commit, archive and ledger, after the attempt was admitted. */
    method Ingest(v: Version, f: Faults) returns (ok: bool)
      modifies this, db
      ensures (Contents(), ok) == AfterIngest(db.plan, old(Contents()), v, records(v), f,
                                              Commits(db.plan, old(db.Contents()), records(v), f.write))
      ensures Fair(f) ==> (ok <==> v !in old(db.processed))
    {
      if f.get || f.parse { return false; }
      ok := db.WriteToDb(records(v), f.write);
      if !ok { return false; }
      if f.copyRaw { return false; }
      vault := vault + {Raw(v.obj.key)};
      if f.putNormalized { return false; }
      vault := vault + {Normalized(v.obj.key)};
      if f.putErrors { return false; }
      vault := vault + {Errors(v.obj.key)};
      ok := db.InsertProcessed(v, f.ledger);
    }

    /** processRecord. Without a failing call an unsettled version is ingested. */
    method ProcessRecord(o: ObjectKey, f: Faults) returns (ok: bool)
      modifies this, db
      ensures (Contents(), ok)
              == AfterRecord(db.plan, maxRetries, old(Contents()), VersionOf(o), records(VersionOf(o)), f)
      ensures Fair(f) ==> ok
      ensures Fair(f) && VersionOf(o) !in old(db.processed) && Count(old(db.attempts), VersionOf(o)) < maxRetries ==>
                IsIngested(db.plan, old(Contents()), VersionOf(o), records(VersionOf(o)), Contents())
    {
      var v := VersionOf(o);
      ghost var before := Contents();
      if Fair(f) {
        FairRecordIsIngested(db.plan, maxRetries, before, v, records(v), f);
      }
      if f.head { return false; }
      var done, attempts;
      ok, done := db.ProcessedExists(v, f.lookup);
      if !ok { return false; }
      if ShouldSkipProcessed(done) { return true; }
      ok, attempts := db.EnsureAttempt(v, f.ensureInsert, f.ensureRead);
      if !ok { return false; }
      if !ShouldProcessAttempt(attempts, maxRetries) { return true; }
      ok := Ingest(v, f);
      if ok {
        db.DeleteAttempt(v, f.cleanup);
      } else {
        HandleFailure(v, f);
      }
    }

    /** The loop of handleMessage, which stops at the first failing record. */
    method HandleRecords(os: seq<ObjectKey>, f: nat -> Faults) returns (ok: bool)
      modifies this, db
      ensures (Contents(), ok) == Through(old(Contents()), RecordStep(db.plan, maxRetries, records, Versions(os), f), |os|)
    {
      ghost var start, step := Contents(), RecordStep(db.plan, maxRetries, records, Versions(os), f);
      var i := 0;
      ok := true;
      while i < |os| && ok
        invariant 0 <= i <= |os|
        invariant (Contents(), ok) == Through(start, step, i)
      {
        ok := ProcessRecord(os[i], f(i));
        i := i + 1;
      }
      if !ok {
        FailureStands(start, step, i, |os|);
      }
    }

    /** handleMessage. Without a failing call the message is deleted, and each version is in the
        ledger unless its attempts were used up before. */
    method HandleMessage(os: seq<ObjectKey>, f: nat -> Faults) returns (delete: bool)
      modifies this, db
      ensures (Contents(), delete)
              == AfterRecords(db.plan, maxRetries, records, old(Contents()), Versions(os), f, |os|)
      ensures (forall i :: 0 <= i < |os| ==> Fair(f(i))) ==>
                delete && forall i :: 0 <= i < |os| ==>
                  VersionOf(os[i]) in db.processed || Count(old(db.attempts), VersionOf(os[i])) >= maxRetries
    {
      FairMessage(os, f);
      delete := HandleRecords(os, f);
    }

    // What the specification says of a message without a failing call.
    lemma {:induction false} FairMessage(os: seq<ObjectKey>, f: nat -> Faults)
      ensures (forall i :: 0 <= i < |os| ==> Fair(f(i))) ==>
                var (after, ok) := AfterRecords(db.plan, maxRetries, records, Contents(), Versions(os), f, |os|);
                ok && forall i :: 0 <= i < |os| ==>
                  VersionOf(os[i]) in after.processed || Count(db.attempts, VersionOf(os[i])) >= maxRetries
    {
      if forall i :: 0 <= i < |os| ==> Fair(f(i)) {
        FairDeliveryIngests(db.plan, maxRetries, records, Contents(), Versions(os), f);
        FreshOrSettled(Contents(), maxRetries, Versions(os), |os|);
      }
    }

    /** The accounting calls work, and the etags are not empty. */
    predicate Accountable(os: seq<ObjectKey>, f: nat -> Faults) {
      forall i :: 0 <= i < |os| ==> Dependable(f(i)) && etag(os[i]) != ""
    }

    /** One delivery: it settles every version, or makes the budget of the message smaller. It gives
        no version an attempt back, and unsettles none. */
    method Deliver(os: seq<ObjectKey>, f: nat -> Faults) returns (delete: bool)
      requires Accountable(os, f)
      modifies this, db
      ensures delete ==> AllSettled(Contents(), maxRetries, Versions(os))
      ensures Budget(Contents(), maxRetries, Versions(os)) <= old(Budget(Contents(), maxRetries, Versions(os)))
      ensures !delete ==> Budget(Contents(), maxRetries, Versions(os)) < old(Budget(Contents(), maxRetries, Versions(os)))
      ensures KeepsAccounts(old(Contents()), Contents(), maxRetries)
      ensures (forall i :: 0 <= i < |os| ==> Fair(f(i))) ==> delete
    {
      ghost var before := Contents();
      delete := HandleMessage(os, f);
      RecordsSettle(db.plan, maxRetries, records, before, Versions(os), f);
      BudgetShrinks(before, Contents(), maxRetries, Versions(os));
    }

    /** The queue delivers a message until a delivery deletes it. When the accounting calls work
        and etags are not empty, at most |os| * maxRetries deliveries fail, and then every
        version is settled. */
    method DeliverUntilDeleted(os: seq<ObjectKey>, f: nat -> nat -> Faults) returns (failures: nat)
      requires forall d :: Accountable(os, f(d))
      modifies this, db
      ensures failures <= |os| * maxRetries
      ensures AllSettled(Contents(), maxRetries, Versions(os))
    {
      failures := 0;
      var delete := false;
      ghost var budget := Budget(Contents(), maxRetries, Versions(os));
      while !delete
        invariant Budget(Contents(), maxRetries, Versions(os)) + failures <= budget
        invariant delete ==> AllSettled(Contents(), maxRetries, Versions(os))
        decreases !delete, Budget(Contents(), maxRetries, Versions(os))
      {
        delete := Deliver(os, f(failures));
        if !delete {
          failures := failures + 1;
        }
      }
    }

    /** Several messages, delivered in any interleaving: delivery n is of message schedule[n]. Each
        message by itself fails at most as often as it has records times maxRetries; so one that is
        delivered more often than that is deleted; and what a deleting delivery has settled stays
        settled. */
    method DeliverInterleaved(ms: seq<seq<ObjectKey>>, schedule: seq<nat>, f: nat -> nat -> Faults) returns (deleted: seq<bool>)
      requires forall n :: 0 <= n < |schedule| ==> schedule[n] < |ms|
      requires forall m, d :: 0 <= m < |ms| ==> Accountable(ms[m], f(d))
      modifies this, db
      ensures |deleted| == |schedule|
      ensures KeepsSchedule(Contents(), maxRetries, VersionLists(ms), schedule, deleted)
    {
      deleted := [];
      ghost var start, vss := Contents(), VersionLists(ms);
      ghost var delivered: seq<nat> := [];
      for n := 0 to |schedule|
        invariant delivered == schedule[..n] && |deleted| == n
        invariant OnSchedule(start, Contents(), maxRetries, vss, delivered, deleted)
      {
        var m := schedule[n];
        ghost var before := Contents();
        var delete := Deliver(ms[m], f(n));
        ScheduleStep(start, before, Contents(), maxRetries, vss, delivered, deleted, m, delete);
        TakeNext(schedule, n);
        delivered := delivered + [m];
        deleted := deleted + [delete];
      }
      assert delivered == schedule;
      ScheduleEnds(start, Contents(), maxRetries, vss, schedule, deleted);
    }

    ghost function VersionLists(ms: seq<seq<ObjectKey>>): (vss: seq<seq<Version>>)
      ensures |vss| == |ms| && forall m :: 0 <= m < |ms| ==> vss[m] == Versions(ms[m]) && |vss[m]| == |ms[m]|
    {
      seq(|ms|, m requires 0 <= m < |ms| => Versions(ms[m]))
    }
  }
}
