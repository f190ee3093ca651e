/** What a delivery keeps, and what a failed one costs. */
module DeliveryFacts {
  import opened Sequences
  import opened Objects
  import opened Tables
  import opened Delivery

  predicate SettledIn(st: Store, maxRetries: nat, v: Version) {
    Settled(st.processed, st.attempts, maxRetries, v)
  }

  /** How often handling the version can still fail. */
  function Remaining(st: Store, maxRetries: nat, v: Version): nat {
    if v in st.processed || Count(st.attempts, v) >= maxRetries then 0 else maxRetries - Count(st.attempts, v)
  }

  function Budget(st: Store, maxRetries: nat, vs: seq<Version>): (b: nat)
    ensures b <= |vs| * maxRetries
  {
    if vs == [] then 0
    else
      assert |vs| * maxRetries == |vs[..|vs| - 1]| * maxRetries + maxRetries;
      Budget(st, maxRetries, vs[..|vs| - 1]) + Remaining(st, maxRetries, vs[|vs| - 1])
  }

  lemma {:induction false} BudgetShrinks(st: Store, after: Store, maxRetries: nat, vs: seq<Version>)
    requires forall v :: v in vs ==> Remaining(after, maxRetries, v) <= Remaining(st, maxRetries, v)
    ensures Budget(after, maxRetries, vs) <= Budget(st, maxRetries, vs)
    ensures (exists v :: v in vs && Remaining(after, maxRetries, v) < Remaining(st, maxRetries, v)) ==>
              Budget(after, maxRetries, vs) < Budget(st, maxRetries, vs)
  {
    if vs != [] {
      var pre, last := vs[..|vs| - 1], vs[|vs| - 1];
      SplitLast(vs);
      BudgetShrinks(st, after, maxRetries, pre);
    }
  }

  // Ingestion leaves the counters alone; it enters the ledger last, or not at all.
  ghost predicate Ingested(plan: Planner, st: Store, v: Version, rs: seq<Record>, after: Store, ok: bool) {
    && st.vault <= after.vault && after.attempts == st.attempts
    && (after.tables == st.tables || after.tables == WriteFile(plan, st.tables, rs))
    && after.processed == (if ok then st.processed + [v] else st.processed)
    && (ok ==> after.tables == WriteFile(plan, st.tables, rs)
               && {Raw(v.obj.key), Normalized(v.obj.key), Errors(v.obj.key)} <= after.vault)
  }

  lemma {:induction false} IngestFacts(plan: Planner, st: Store, v: Version, rs: seq<Record>, f: Faults, wrote: bool)
    ensures var (after, ok) := AfterIngest(plan, st, v, rs, f, wrote); Ingested(plan, st, v, rs, after, ok)
  {
  }

  /** What handling one record keeps: the ledger row comes after the commit and the three vault
      objects, the tables change by the whole file or not at all, and other versions keep their
      counters. */
  ghost predicate HandlesRecord(plan: Planner, st: Store, v: Version, rs: seq<Record>, after: Store) {
    && st.vault <= after.vault
    && (after.tables == st.tables || after.tables == WriteFile(plan, st.tables, rs))
    && (after.processed == st.processed
        || (&& v !in st.processed && after.processed == st.processed + [v]
            && after.tables == WriteFile(plan, st.tables, rs)
            && {Raw(v.obj.key), Normalized(v.obj.key), Errors(v.obj.key)} <= after.vault))
    && (forall u :: u != v ==> (u in after.attempts <==> u in st.attempts) && Count(after.attempts, u) == Count(st.attempts, u))
  }

  lemma {:induction false} AttemptIsHandled(plan: Planner, st: Store, v: Version, rs: seq<Record>, f: Faults, wrote: bool)
    requires v !in st.processed
    ensures HandlesRecord(plan, st, v, rs, AfterAttempt(plan, st, v, rs, f, wrote).0)
  {
    IngestFacts(plan, st, v, rs, f, wrote);
  }

  // An attempt enters the ledger, or is counted.
  lemma {:induction false} AttemptCounts(plan: Planner, st: Store, v: Version, rs: seq<Record>, f: Faults, wrote: bool)
    requires v !in st.processed
    ensures var (after, ok) := AfterAttempt(plan, st, v, rs, f, wrote);
            if ok then v in after.processed
            else after.processed == st.processed
                 && Count(after.attempts, v) == Count(st.attempts, v) + if v.etag == "" || f.increment then 0 else 1
  {
    IngestFacts(plan, st, v, rs, f, wrote);
  }

  lemma {:induction false} AdmissionIsHandled(plan: Planner, st: Store, v: Version, rs: seq<Record>, after: Store)
    requires HandlesRecord(plan, Admitted(st, v), v, rs, after)
    ensures HandlesRecord(plan, st, v, rs, after)
  {
  }

  lemma {:induction false} ReadIsHandled(
      plan: Planner, maxRetries: nat, st: Store, v: Version, rs: seq<Record>, f: Faults, wrote: bool)
    requires v in st.attempts && v !in st.processed
    ensures HandlesRecord(plan, st, v, rs, AfterRead(plan, maxRetries, st, v, rs, f, wrote).0)
  {
    AttemptIsHandled(plan, st, v, rs, f, wrote);
  }

  lemma {:induction false} RecordIsHandled(
      plan: Planner, maxRetries: nat, st: Store, v: Version, rs: seq<Record>, f: Faults)
    ensures HandlesRecord(plan, st, v, rs, AfterRecord(plan, maxRetries, st, v, rs, f).0)
  {
    if !f.head && !f.lookup && v !in st.processed && !f.ensureInsert {
      var wrote := Commits(plan, st.tables, rs, f.write);
      ReadIsHandled(plan, maxRetries, Admitted(st, v), v, rs, f, wrote);
      AdmissionIsHandled(plan, st, v, rs, AfterRead(plan, maxRetries, Admitted(st, v), v, rs, f, wrote).0);
    }
  }

  // What a delivery of v does to its account.
  ghost predicate Settles(st: Store, maxRetries: nat, v: Version, f: Faults, after: Store, ok: bool) {
    && (ok ==> SettledIn(after, maxRetries, v))
    && (SettledIn(st, maxRetries, v) ==>
          SettledIn(after, maxRetries, v) && after.tables == st.tables && (Dependable(f) ==> ok))
    && Remaining(after, maxRetries, v) <= Remaining(st, maxRetries, v)
    && (!ok && Dependable(f) && v.etag != "" ==> Remaining(after, maxRetries, v) < Remaining(st, maxRetries, v))
  }

  lemma {:induction false} ReadSettles(
      plan: Planner, maxRetries: nat, st: Store, v: Version, rs: seq<Record>, f: Faults, wrote: bool)
    requires v in st.attempts && v !in st.processed
    ensures var (after, ok) := AfterRead(plan, maxRetries, st, v, rs, f, wrote); Settles(st, maxRetries, v, f, after, ok)
  {
    AttemptCounts(plan, st, v, rs, f, wrote);
  }

  lemma {:induction false} AdmissionSettles(st: Store, maxRetries: nat, v: Version, f: Faults, after: Store, ok: bool)
    requires v !in st.processed && Settles(Admitted(st, v), maxRetries, v, f, after, ok)
    ensures Settles(st, maxRetries, v, f, after, ok)
  {
  }

  /** Success settles the version, a settled version is left alone, and a failure of a dependable
      delivery uses up an attempt. */
  lemma {:induction false} RecordSettles(
      plan: Planner, maxRetries: nat, st: Store, v: Version, rs: seq<Record>, f: Faults)
    ensures var (after, ok) := AfterRecord(plan, maxRetries, st, v, rs, f); Settles(st, maxRetries, v, f, after, ok)
  {
    if !f.head && !f.lookup && v !in st.processed && !f.ensureInsert {
      var wrote := Commits(plan, st.tables, rs, f.write);
      var (after, ok) := AfterRead(plan, maxRetries, Admitted(st, v), v, rs, f, wrote);
      ReadSettles(plan, maxRetries, Admitted(st, v), v, rs, f, wrote);
      AdmissionSettles(st, maxRetries, v, f, after, ok);
    }
  }

  lemma {:induction false} OthersStay(st: Store, after: Store, maxRetries: nat, plan: Planner, v: Version, rs: seq<Record>)
    requires HandlesRecord(plan, st, v, rs, after)
    ensures forall u :: u != v ==> Remaining(after, maxRetries, u) == Remaining(st, maxRetries, u)
    ensures forall u :: u != v && SettledIn(st, maxRetries, u) ==> SettledIn(after, maxRetries, u)
  {
  }

  lemma {:induction false} RecordKeepsAccounts(
      plan: Planner, maxRetries: nat, st: Store, v: Version, rs: seq<Record>, f: Faults)
    ensures KeepsAccounts(st, AfterRecord(plan, maxRetries, st, v, rs, f).0, maxRetries)
  {
    RecordIsHandled(plan, maxRetries, st, v, rs, f);
    RecordSettles(plan, maxRetries, st, v, rs, f);
    OthersStay(st, AfterRecord(plan, maxRetries, st, v, rs, f).0, maxRetries, plan, v, rs);
  }

  // A record more, or the error that stands.
  lemma {:induction false} RoundOfRecords(plan: Planner, maxRetries: nat, records: Version -> seq<Record>, st: Store,
                                         vs: seq<Version>, f: nat -> Faults, n: nat)
    requires n < |vs|
    ensures var (before, ok) := AfterRecords(plan, maxRetries, records, st, vs, f, n);
            AfterRecords(plan, maxRetries, records, st, vs, f, n + 1)
            == if ok then AfterRecord(plan, maxRetries, before, vs[n], records(vs[n]), f(n)) else (before, false)
  {
  }

  // What a round keeps, and an error leaves.
  ghost predicate Keeps(step: (Store, nat) -> (Store, bool), inv: (Store, bool, nat) -> bool, s: Store, i: nat) {
    && (inv(s, true, i) ==> inv(step(s, i).0, step(s, i).1, i + 1))
    && (inv(s, false, i) ==> inv(s, false, i + 1))
  }

  lemma {:induction false} ThroughKeeps(st: Store, step: (Store, nat) -> (Store, bool), n: nat, inv: (Store, bool, nat) -> bool)
    requires inv(st, true, 0)
    requires forall s, i: nat :: i < n ==> Keeps(step, inv, s, i)
    ensures inv(Through(st, step, n).0, Through(st, step, n).1, n)
  {
    if n > 0 {
      var k: nat := n - 1;
      ThroughKeeps(st, step, k, inv);
      assert Keeps(step, inv, Through(st, step, k).0, k);
    }
  }

  ghost predicate SettlesRecords(st: Store, maxRetries: nat, vs: seq<Version>, f: nat -> Faults, after: Store, ok: bool, n: nat)
  {
    && n <= |vs| && KeepsAccounts(st, after, maxRetries)
    && (ok ==> forall i :: 0 <= i < n ==> SettledIn(after, maxRetries, vs[i]))
    && (!ok ==> exists i :: 0 <= i < n && Spent(st, after, maxRetries, vs[i], f(i)))
  }

  lemma {:induction false} SettlesNext(plan: Planner, maxRetries: nat, records: Version -> seq<Record>, st: Store,
                                       vs: seq<Version>, f: nat -> Faults, before: Store, n: nat)
    requires n < |vs| && SettlesRecords(st, maxRetries, vs, f, before, true, n)
    ensures var (after, ok) := AfterRecord(plan, maxRetries, before, vs[n], records(vs[n]), f(n));
            SettlesRecords(st, maxRetries, vs, f, after, ok, n + 1)
  {
    RecordKeepsAccounts(plan, maxRetries, before, vs[n], records(vs[n]), f(n));
    RecordSettles(plan, maxRetries, before, vs[n], records(vs[n]), f(n));
    var (after, ok) := AfterRecord(plan, maxRetries, before, vs[n], records(vs[n]), f(n));
    OneMoreSettles(st, maxRetries, vs, f, before, n, after, ok);
  }

  lemma {:induction false} OneMoreSettles(st: Store, maxRetries: nat, vs: seq<Version>, f: nat -> Faults, before: Store, n: nat,
                                          after: Store, ok: bool)
    requires n < |vs| && SettlesRecords(st, maxRetries, vs, f, before, true, n)
    requires KeepsAccounts(before, after, maxRetries) && Settles(before, maxRetries, vs[n], f(n), after, ok)
    ensures SettlesRecords(st, maxRetries, vs, f, after, ok, n + 1)
  {
    assert !ok ==> Spent(st, after, maxRetries, vs[n], f(n));
  }

  ghost function SettlesInvariant(st: Store, maxRetries: nat, vs: seq<Version>, f: nat -> Faults): (Store, bool, nat) -> bool {
    (s: Store, ok: bool, i: nat) => i <= |vs| ==> SettlesRecords(st, maxRetries, vs, f, s, ok, i)
  }

  lemma {:induction false} SettlesStep(plan: Planner, maxRetries: nat, records: Version -> seq<Record>, st: Store,
                                       vs: seq<Version>, f: nat -> Faults, s: Store, i: nat)
    requires i < |vs|
    ensures Keeps(RecordStep(plan, maxRetries, records, vs, f), SettlesInvariant(st, maxRetries, vs, f), s, i)
  {
    if SettlesRecords(st, maxRetries, vs, f, s, true, i) {
      SettlesNext(plan, maxRetries, records, st, vs, f, s, i);
    }
  }

  /** A delivery keeps every account. If it gets through, what it handled is settled; if it stops,
      a dependable failure has cost the record it stopped at an attempt. */
  lemma {:induction false} RecordsSettle(plan: Planner, maxRetries: nat, records: Version -> seq<Record>, st: Store,
                                         vs: seq<Version>, f: nat -> Faults)
    ensures var (after, ok) := AfterRecords(plan, maxRetries, records, st, vs, f, |vs|);
            && KeepsAccounts(st, after, maxRetries)
            && (ok ==> AllSettled(after, maxRetries, vs))
            && (!ok ==> exists i :: 0 <= i < |vs| && Spent(st, after, maxRetries, vs[i], f(i)))
  {
    forall s, i: nat | i < |vs|
      ensures Keeps(RecordStep(plan, maxRetries, records, vs, f), SettlesInvariant(st, maxRetries, vs, f), s, i)
    {
      SettlesStep(plan, maxRetries, records, st, vs, f, s, i);
    }
    ThroughKeeps(st, RecordStep(plan, maxRetries, records, vs, f), |vs|, SettlesInvariant(st, maxRetries, vs, f));
  }

  // Once a record has failed, the message has.
  lemma {:induction false} FailureStands(st: Store, step: (Store, nat) -> (Store, bool), k: nat, n: nat)
    requires k <= n && !Through(st, step, k).1
    ensures Through(st, step, n) == Through(st, step, k)
  {
    if k < n {
      FailureStands(st, step, k, n - 1);
    }
  }

  /* ---- Which calls decide ---- */

  /** The record is looked up, is not in the ledger, and has an attempt left. */
  predicate IsTried(maxRetries: nat, st: Store, v: Version, f: Faults) {
    && !f.head && !f.lookup && v !in st.processed
    && !f.ensureInsert && !f.ensureRead && Count(st.attempts, v) < maxRetries
  }

  ghost predicate IsCommitted(plan: Planner, maxRetries: nat, st: Store, v: Version, rs: seq<Record>, f: Faults) {
    IsTried(maxRetries, st, v, f) && !f.get && !f.parse && Commits(plan, st.tables, rs, f.write)
  }

  /** Every call up to the ledger row works. */
  ghost predicate IsEntered(plan: Planner, maxRetries: nat, st: Store, v: Version, rs: seq<Record>, f: Faults) {
    && IsCommitted(plan, maxRetries, st, v, rs, f)
    && !f.copyRaw && !f.putNormalized && !f.putErrors && !f.ledger
  }

  /** A record is handled without an error exactly when the calls it needs work: none but the lookups
      where it is settled, and all up to the ledger row where it is tried. */
  lemma {:induction false} RecordSucceedsExactly(
      plan: Planner, maxRetries: nat, st: Store, v: Version, rs: seq<Record>, f: Faults)
    ensures AfterRecord(plan, maxRetries, st, v, rs, f).1
            <==> || IsEntered(plan, maxRetries, st, v, rs, f)
                 || (!f.head && !f.lookup
                     && (v in st.processed
                         || (!f.ensureInsert && !f.ensureRead && Count(st.attempts, v) >= maxRetries)))
  {
  }

  /** What has changed: the tables where the transaction commits, the vault call by call, the ledger
      where every call up to it works, and the counter where the record was tried. A failed try leaves
      the errors artifact and counts, as far as these two calls work. */
  ghost predicate IsOutcome(plan: Planner, st: Store, v: Version, rs: seq<Record>, f: Faults, tried: bool, committed: bool,
                            after: Store)
  {
    var copied := committed && !f.copyRaw;
    var normalized := copied && !f.putNormalized;
    var archived := normalized && !f.putErrors;
    var entered := archived && !f.ledger;
    var failed := tried && !entered;
    && after.tables == (if committed then WriteFile(plan, st.tables, rs) else st.tables)
    && after.processed == (if entered then st.processed + [v] else st.processed)
    && after.vault == st.vault
         + (if copied then {Raw(v.obj.key)} else {})
         + (if normalized then {Normalized(v.obj.key)} else {})
         + (if archived || (failed && !f.putFailure) then {Errors(v.obj.key)} else {})
    && (if entered && !f.cleanup then v !in after.attempts
        else Count(after.attempts, v)
             == Count(st.attempts, v) + if failed && v.etag != "" && !f.increment then 1 else 0)
  }

  lemma {:induction false} RecordOutcome(
      plan: Planner, maxRetries: nat, st: Store, v: Version, rs: seq<Record>, f: Faults)
    ensures IsOutcome(plan, st, v, rs, f, IsTried(maxRetries, st, v, f), IsCommitted(plan, maxRetries, st, v, rs, f),
                      AfterRecord(plan, maxRetries, st, v, rs, f).0)
  {
    if IsTried(maxRetries, st, v, f) {
      var admitted, wrote := Admitted(st, v), Commits(plan, st.tables, rs, f.write);
      TriedRecord(plan, maxRetries, st, v, rs, f);
      AttemptOutcome(plan, admitted, v, rs, f, wrote);
      AdmissionIsNoOutcome(plan, st, v, rs, f, !f.get && !f.parse && wrote, AfterAttempt(plan, admitted, v, rs, f, wrote).0);
    } else {
      UntriedRecord(plan, maxRetries, st, v, rs, f);
    }
  }

  lemma {:induction false} TriedRecord(plan: Planner, maxRetries: nat, st: Store, v: Version, rs: seq<Record>, f: Faults)
    requires IsTried(maxRetries, st, v, f)
    ensures AfterRecord(plan, maxRetries, st, v, rs, f)
            == AfterAttempt(plan, Admitted(st, v), v, rs, f, Commits(plan, st.tables, rs, f.write))
  {
  }

  lemma {:induction false} UntriedRecord(plan: Planner, maxRetries: nat, st: Store, v: Version, rs: seq<Record>, f: Faults)
    requires !IsTried(maxRetries, st, v, f)
    ensures IsOutcome(plan, st, v, rs, f, false, false, AfterRecord(plan, maxRetries, st, v, rs, f).0)
  {
  }

  lemma {:induction false} AdmissionIsNoOutcome(
      plan: Planner, st: Store, v: Version, rs: seq<Record>, f: Faults, committed: bool, after: Store)
    requires IsOutcome(plan, Admitted(st, v), v, rs, f, true, committed, after)
    ensures IsOutcome(plan, st, v, rs, f, true, committed, after)
  {
  }

  lemma {:induction false} AttemptOutcome(plan: Planner, st: Store, v: Version, rs: seq<Record>, f: Faults, wrote: bool)
    requires v !in st.processed
    ensures IsOutcome(plan, st, v, rs, f, true, !f.get && !f.parse && wrote, AfterAttempt(plan, st, v, rs, f, wrote).0)
  {
  }

  /* ---- Deliveries without a failing call ---- */

  /** No call fails that a delivery makes on its way to the ledger. */
  ghost predicate Fair(f: Faults) {
    && !f.head && !f.lookup && !f.ensureInsert && !f.ensureRead && !f.get && !f.parse
    && !f.copyRaw && !f.putNormalized && !f.putErrors && !f.ledger && !f.cleanup
    && forall n: nat :: !f.write(n)
  }

  /** The version was ingested: its file is committed, its three vault objects exist, it is in the
      ledger, and its counter is gone. */
  ghost predicate IsIngested(plan: Planner, st: Store, v: Version, rs: seq<Record>, after: Store) {
    && after.tables == WriteFile(plan, st.tables, rs)
    && after.vault == st.vault + {Raw(v.obj.key), Normalized(v.obj.key), Errors(v.obj.key)}
    && after.processed == st.processed + [v]
    && after.attempts == st.attempts - {v}
  }

  /** Without a failing call, an unsettled version is ingested, and a settled one left alone. */
  lemma {:induction false} FairRecordIsIngested(
      plan: Planner, maxRetries: nat, st: Store, v: Version, rs: seq<Record>, f: Faults)
    requires Fair(f)
    ensures var (after, ok) := AfterRecord(plan, maxRetries, st, v, rs, f);
            && ok
            && (v !in st.processed && Count(st.attempts, v) < maxRetries ==> IsIngested(plan, st, v, rs, after))
            && (v in st.processed || Count(st.attempts, v) >= maxRetries ==>
                  after.tables == st.tables && after.vault == st.vault && after.processed == st.processed)
  {
    if v !in st.processed && Count(st.attempts, v) < maxRetries {
      var admitted := Admitted(st, v);
      assert admitted.attempts - {v} == st.attempts - {v};
      assert Commits(plan, st.tables, rs, f.write);
      FairAttemptIsIngested(plan, admitted, v, rs, f);
    }
  }

  lemma {:induction false} FairAttemptIsIngested(plan: Planner, st: Store, v: Version, rs: seq<Record>, f: Faults)
    requires Fair(f) && v !in st.processed
    ensures var (after, ok) := AfterAttempt(plan, st, v, rs, f, true); ok && IsIngested(plan, st, v, rs, after)
  {
  }

  /** Those of the first n versions that are unsettled, each once. */
  function FreshOnes(st: Store, maxRetries: nat, vs: seq<Version>, n: nat): seq<Version>
    requires n <= |vs|
  {
    if n == 0 then []
    else
      var pre, v := FreshOnes(st, maxRetries, vs, n - 1), vs[n - 1];
      if v in pre || v in st.processed || Count(st.attempts, v) >= maxRetries then pre else pre + [v]
  }

  function FilesOf(records: Version -> seq<Record>, vs: seq<Version>): seq<seq<Record>> {
    if vs == [] then [] else FilesOf(records, vs[..|vs| - 1]) + [records(vs[|vs| - 1])]
  }

  lemma {:induction false} OneMoreFile(plan: Planner, db: Db, records: Version -> seq<Record>, vs: seq<Version>, v: Version)
    ensures WriteFiles(plan, db, FilesOf(records, vs + [v])) == WriteFile(plan, WriteFiles(plan, db, FilesOf(records, vs)), records(v))
  {
    assert (vs + [v])[..|vs|] == vs;
    var files := FilesOf(records, vs);
    assert (files + [records(v)])[..|files|] == files;
  }

  // What a delivery without a failing call has done, when it has ingested the versions `news`.
  ghost predicate HasIngested(plan: Planner, records: Version -> seq<Record>, st: Store, news: seq<Version>, after: Store) {
    && after.processed == st.processed + news
    && after.tables == WriteFiles(plan, st.tables, FilesOf(records, news))
    && AreArchived(news, after.vault)
    && CountersGone(news, st.attempts, after.attempts)
  }

  predicate AreArchived(vs: seq<Version>, vault: set<VaultKey>) {
    forall i :: 0 <= i < |vs| ==> {Raw(vs[i].obj.key), Normalized(vs[i].obj.key), Errors(vs[i].obj.key)} <= vault
  }

  // The counters of `news` are gone, and no other count has changed.
  ghost predicate CountersGone(news: seq<Version>, before: map<Version, nat>, after: map<Version, nat>) {
    && (forall v :: v in news ==> v !in after)
    && (forall u :: u !in news ==> Count(after, u) == Count(before, u))
  }

  lemma {:induction false} CountersStay(
      plan: Planner, maxRetries: nat, st: Store, v: Version, rs: seq<Record>, f: Faults)
    requires Fair(f)
    ensures var after := AfterRecord(plan, maxRetries, st, v, rs, f).0;
            && st.vault <= after.vault
            && (forall u :: u != v ==> (u in after.attempts <==> u in st.attempts) && Count(after.attempts, u) == Count(st.attempts, u))
            && (v in st.processed ==> after == st)
            && (v !in st.processed && Count(st.attempts, v) >= maxRetries ==> Count(after.attempts, v) == Count(st.attempts, v))
  {
    RecordIsHandled(plan, maxRetries, st, v, rs, f);
  }

  lemma {:induction false} OneMoreGone(news: seq<Version>, v: Version, start: map<Version, nat>, before: map<Version, nat>)
    requires CountersGone(news, start, before)
    ensures CountersGone(news + [v], start, before - {v})
  {
    assert forall u :: u in news + [v] <==> u in news || u == v;
  }

  lemma {:induction false} OneMoreArchived(vs: seq<Version>, v: Version, vault: set<VaultKey>)
    requires AreArchived(vs, vault)
    ensures AreArchived(vs + [v], vault + {Raw(v.obj.key), Normalized(v.obj.key), Errors(v.obj.key)})
  {
  }

  lemma {:induction false} FreshStep(plan: Planner, records: Version -> seq<Record>, st: Store, news: seq<Version>, v: Version,
                                     before: Store, after: Store)
    requires HasIngested(plan, records, st, news, before) && IsIngested(plan, before, v, records(v), after)
    ensures HasIngested(plan, records, st, news + [v], after)
  {
    OneMoreFile(plan, st.tables, records, news, v);
    AppendLast(st.processed, news + [v]);
    assert (news + [v])[..|news + [v]| - 1] == news;
    OneMoreGone(news, v, st.attempts, before.attempts);
    OneMoreArchived(news, v, before.vault);
  }

  lemma {:induction false} OldStep(plan: Planner, records: Version -> seq<Record>, st: Store, news: seq<Version>, v: Version,
                                   before: Store, after: Store)
    requires HasIngested(plan, records, st, news, before)
    requires after.tables == before.tables && after.vault == before.vault && after.processed == before.processed
    requires v in before.processed ==> after == before
    requires v !in news && forall u :: u != v ==> (u in after.attempts <==> u in before.attempts)
    requires forall u :: Count(after.attempts, u) == Count(before.attempts, u)
    ensures HasIngested(plan, records, st, news, after)
  {
  }

  lemma {:induction false} FairStep(plan: Planner, maxRetries: nat, records: Version -> seq<Record>, st: Store,
                                    vs: seq<Version>, n: nat, before: Store, f: Faults)
    requires n < |vs| && Fair(f) && HasIngested(plan, records, st, FreshOnes(st, maxRetries, vs, n), before)
    ensures var (after, ok) := AfterRecord(plan, maxRetries, before, vs[n], records(vs[n]), f);
            ok && HasIngested(plan, records, st, FreshOnes(st, maxRetries, vs, n + 1), after)
  {
    var v, news := vs[n], FreshOnes(st, maxRetries, vs, n);
    var (after, ok) := AfterRecord(plan, maxRetries, before, v, records(v), f);
    FairRecordIsIngested(plan, maxRetries, before, v, records(v), f);
    CountersStay(plan, maxRetries, before, v, records(v), f);
    assert v in before.processed <==> v in st.processed || v in news;
    if v in news || v in st.processed || Count(st.attempts, v) >= maxRetries {
      if v !in news {
        OldStep(plan, records, st, news, v, before, after);
      }
    } else {
      FreshStep(plan, records, st, news, v, before, after);
    }
  }

  lemma {:induction false} NothingIngested(plan: Planner, records: Version -> seq<Record>, st: Store)
    ensures HasIngested(plan, records, st, [], st)
  {
    assert st.processed + [] == st.processed;
    assert FilesOf(records, []) == [];
  }

  ghost function FairInvariant(plan: Planner, maxRetries: nat, records: Version -> seq<Record>, st: Store, vs: seq<Version>)
    : (Store, bool, nat) -> bool
  {
    (s: Store, ok: bool, i: nat) =>
      i <= |vs| ==> ok && HasIngested(plan, records, st, FreshOnes(st, maxRetries, vs, i), s)
  }

  lemma {:induction false} FairStepAt(plan: Planner, maxRetries: nat, records: Version -> seq<Record>, st: Store,
                                      vs: seq<Version>, f: nat -> Faults, s: Store, i: nat)
    requires i < |vs| && Fair(f(i))
    ensures Keeps(RecordStep(plan, maxRetries, records, vs, f), FairInvariant(plan, maxRetries, records, st, vs), s, i)
  {
    if HasIngested(plan, records, st, FreshOnes(st, maxRetries, vs, i), s) {
      FairStep(plan, maxRetries, records, st, vs, i, s, f(i));
    }
  }

  /** Without a failing call a delivery gets through, and ingests the unsettled versions of its
      message, each once and in order. */
  lemma {:induction false} FairDeliveryIngests(plan: Planner, maxRetries: nat, records: Version -> seq<Record>, st: Store,
                                               vs: seq<Version>, f: nat -> Faults)
    requires forall i :: 0 <= i < |vs| ==> Fair(f(i))
    ensures var (after, ok) := AfterRecords(plan, maxRetries, records, st, vs, f, |vs|);
            ok && HasIngested(plan, records, st, FreshOnes(st, maxRetries, vs, |vs|), after)
  {
    NothingIngested(plan, records, st);
    forall s, i: nat | i < |vs|
      ensures Keeps(RecordStep(plan, maxRetries, records, vs, f), FairInvariant(plan, maxRetries, records, st, vs), s, i)
    {
      FairStepAt(plan, maxRetries, records, st, vs, f, s, i);
    }
    ThroughKeeps(st, RecordStep(plan, maxRetries, records, vs, f), |vs|, FairInvariant(plan, maxRetries, records, st, vs));
  }

  lemma {:induction false} FreshOrSettled(st: Store, maxRetries: nat, vs: seq<Version>, n: nat)
    requires n <= |vs|
    ensures forall i :: 0 <= i < n ==>
              vs[i] in FreshOnes(st, maxRetries, vs, n) || vs[i] in st.processed || Count(st.attempts, vs[i]) >= maxRetries
  {
    if n > 0 {
      FreshOrSettled(st, maxRetries, vs, n - 1);
    }
  }

  // A dependable failure cost the version an attempt.
  ghost predicate Spent(st: Store, after: Store, maxRetries: nat, v: Version, f: Faults) {
    Dependable(f) && v.etag != "" ==> Remaining(after, maxRetries, v) < Remaining(st, maxRetries, v)
  }

  ghost predicate KeepsAccounts(st: Store, after: Store, maxRetries: nat) {
    && (forall u :: Remaining(after, maxRetries, u) <= Remaining(st, maxRetries, u))
    && (forall u :: SettledIn(st, maxRetries, u) ==> SettledIn(after, maxRetries, u))
  }

  predicate AllSettled(st: Store, maxRetries: nat, vs: seq<Version>) {
    forall i :: 0 <= i < |vs| ==> SettledIn(st, maxRetries, vs[i])
  }

  /* ---- Schedules of deliveries ---- */

  /** How often message m is delivered. */
  function Deliveries(schedule: seq<nat>, m: nat): nat {
    if schedule == [] then 0
    else Deliveries(schedule[..|schedule| - 1], m) + if schedule[|schedule| - 1] == m then 1 else 0
  }

  /** How often it is delivered and not deleted. */
  function Failures(schedule: seq<nat>, deleted: seq<bool>, m: nat): nat
    requires |schedule| == |deleted|
  {
    if schedule == [] then 0
    else
      var n := |schedule| - 1;
      Failures(schedule[..n], deleted[..n], m) + if schedule[n] == m && !deleted[n] then 1 else 0
  }

  ghost predicate IsDeleted(schedule: seq<nat>, deleted: seq<bool>, m: nat)
    requires |schedule| == |deleted|
  {
    exists n :: 0 <= n < |schedule| && schedule[n] == m && deleted[n]
  }

  lemma {:induction false} OneMoreDelivery(schedule: seq<nat>, deleted: seq<bool>, m: nat, delete: bool, k: nat)
    requires |schedule| == |deleted|
    ensures Failures(schedule + [m], deleted + [delete], k) == Failures(schedule, deleted, k) + if m == k && !delete then 1 else 0
    ensures IsDeleted(schedule + [m], deleted + [delete], k) <==> IsDeleted(schedule, deleted, k) || (m == k && delete)
  {
    var s, d := schedule + [m], deleted + [delete];
    assert s[..|schedule|] == schedule && d[..|deleted|] == deleted;
    if IsDeleted(schedule, deleted, k) {
      var n :| 0 <= n < |schedule| && schedule[n] == k && deleted[n];
      assert s[n] == k && d[n];
    }
    if m == k && delete {
      assert s[|schedule|] == k && d[|schedule|];
    }
  }

  lemma {:induction false} FailuresAreDeliveries(schedule: seq<nat>, deleted: seq<bool>, m: nat)
    requires |schedule| == |deleted| && !IsDeleted(schedule, deleted, m)
    ensures Failures(schedule, deleted, m) == Deliveries(schedule, m)
  {
    if schedule != [] {
      var n := |schedule| - 1;
      FailuresAreDeliveries(schedule[..n], deleted[..n], m);
    }
  }

  /** So far: the failures of each message and those it has left stay within its first budget, and
      deleted messages are settled. */
  ghost predicate OnSchedule(start: Store, now: Store, maxRetries: nat, vss: seq<seq<Version>>, schedule: seq<nat>,
                             deleted: seq<bool>)
    requires |schedule| == |deleted|
  {
    forall m :: 0 <= m < |vss| ==> MessageOnSchedule(start, now, maxRetries, vss[m], schedule, deleted, m)
  }

  ghost predicate MessageOnSchedule(start: Store, now: Store, maxRetries: nat, vs: seq<Version>, schedule: seq<nat>,
                                    deleted: seq<bool>, m: nat)
    requires |schedule| == |deleted|
  {
    && Budget(now, maxRetries, vs) + Failures(schedule, deleted, m) <= Budget(start, maxRetries, vs)
    && (IsDeleted(schedule, deleted, m) ==> AllSettled(now, maxRetries, vs))
  }

  lemma {:induction false} ScheduleStep(start: Store, before: Store, now: Store, maxRetries: nat, vss: seq<seq<Version>>,
                                        schedule: seq<nat>, deleted: seq<bool>, m: nat, delete: bool)
    requires |schedule| == |deleted| && m < |vss| && KeepsAccounts(before, now, maxRetries)
    requires OnSchedule(start, before, maxRetries, vss, schedule, deleted)
    requires if delete then AllSettled(now, maxRetries, vss[m])
             else Budget(now, maxRetries, vss[m]) < Budget(before, maxRetries, vss[m])
    ensures OnSchedule(start, now, maxRetries, vss, schedule + [m], deleted + [delete])
  {
    forall k | 0 <= k < |vss|
      ensures MessageOnSchedule(start, now, maxRetries, vss[k], schedule + [m], deleted + [delete], k)
    {
      BudgetShrinks(before, now, maxRetries, vss[k]);
      OneMoreDelivery(schedule, deleted, m, delete, k);
      assert MessageOnSchedule(start, before, maxRetries, vss[k], schedule, deleted, k);
      assert AllSettled(before, maxRetries, vss[k]) ==> AllSettled(now, maxRetries, vss[k]);
    }
  }

  /** Each message fails at most as often as it has records times maxRetries, is deleted if it is
      delivered more often than that, and is settled once it is deleted. */
  ghost predicate KeepsSchedule(now: Store, maxRetries: nat, vss: seq<seq<Version>>, schedule: seq<nat>, deleted: seq<bool>)
    requires |schedule| == |deleted|
  {
    forall m :: 0 <= m < |vss| ==>
      && Failures(schedule, deleted, m) <= |vss[m]| * maxRetries
      && (Deliveries(schedule, m) > |vss[m]| * maxRetries ==> IsDeleted(schedule, deleted, m))
      && (IsDeleted(schedule, deleted, m) ==> AllSettled(now, maxRetries, vss[m]))
  }

  lemma {:induction false} ScheduleEnds(start: Store, now: Store, maxRetries: nat, vss: seq<seq<Version>>, schedule: seq<nat>,
                                        deleted: seq<bool>)
    requires |schedule| == |deleted| && OnSchedule(start, now, maxRetries, vss, schedule, deleted)
    ensures KeepsSchedule(now, maxRetries, vss, schedule, deleted)
  {
    forall m | 0 <= m < |vss|
      ensures Failures(schedule, deleted, m) <= |vss[m]| * maxRetries
      ensures !IsDeleted(schedule, deleted, m) ==> Deliveries(schedule, m) <= |vss[m]| * maxRetries
      ensures IsDeleted(schedule, deleted, m) ==> AllSettled(now, maxRetries, vss[m])
    {
      assert MessageOnSchedule(start, now, maxRetries, vss[m], schedule, deleted, m);
      if !IsDeleted(schedule, deleted, m) {
        FailuresAreDeliveries(schedule, deleted, m);
      }
    }
  }
}
