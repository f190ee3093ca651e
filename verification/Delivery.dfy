/** What one delivery does to everything a worker can change, as a function of the calls that
    fail (processor.go). */
module Delivery {
  import opened Decision
  import opened Objects
  import opened Tables

  /** Which calls fail while one record is handled. */
  datatype Faults = Faults(
    head: bool, lookup: bool, ensureInsert: bool, ensureRead: bool,
    get: bool, parse: bool, write: nat -> bool,
    copyRaw: bool, putNormalized: bool, putErrors: bool, ledger: bool, cleanup: bool,
    putFailure: bool, increment: bool)

  // The calls that the retry accounting itself depends on.
  predicate Dependable(f: Faults) {
    !f.head && !f.lookup && !f.ensureInsert && !f.ensureRead && !f.increment
  }

  /** The database and the vault. */
  datatype Store = Store(tables: Db, processed: seq<Version>, attempts: map<Version, nat>, vault: set<VaultKey>)

  function AfterFailure(st: Store, v: Version, f: Faults): Store {
    var st := if f.putFailure then st else st.(vault := st.vault + {Errors(v.obj.key)});
    if v.etag == "" || f.increment then st else st.(attempts := st.attempts[v := Count(st.attempts, v) + 1])
  }

  /* The calls behind the commit; false stands for an error. */

  function AfterEnter(st: Store, v: Version, f: Faults): (Store, bool) {
    if f.ledger || v in st.processed then (st, false) else (st.(processed := st.processed + [v]), true)
  }

  function AfterErrors(st: Store, v: Version, f: Faults): (Store, bool) {
    if f.putErrors then (st, false) else AfterEnter(st.(vault := st.vault + {Errors(v.obj.key)}), v, f)
  }

  function AfterNormalized(st: Store, v: Version, f: Faults): (Store, bool) {
    if f.putNormalized then (st, false) else AfterErrors(st.(vault := st.vault + {Normalized(v.obj.key)}), v, f)
  }

  function AfterCopy(st: Store, v: Version, f: Faults): (Store, bool) {
    if f.copyRaw then (st, false) else AfterNormalized(st.(vault := st.vault + {Raw(v.obj.key)}), v, f)
  }

  /** `wrote` says whether writeToDB commits. */
  function AfterIngest(plan: Planner, st: Store, v: Version, rs: seq<Record>, f: Faults, wrote: bool): (Store, bool) {
    if f.get || f.parse || !wrote then (st, false)
    else AfterCopy(st.(tables := WriteFile(plan, st.tables, rs)), v, f)
  }

  function AfterAttempt(plan: Planner, st: Store, v: Version, rs: seq<Record>, f: Faults, wrote: bool): (Store, bool) {
    var (after, ok) := AfterIngest(plan, st, v, rs, f, wrote);
    if !ok then (AfterFailure(after, v, f), false)
    else (if f.cleanup then after else after.(attempts := after.attempts - {v}), true)
  }

  // EnsureAttempt: a counter at 0 where there is none.
  function Admitted(st: Store, v: Version): Store {
    if v in st.attempts then st else st.(attempts := st.attempts[v := 0])
  }

  function AfterRead(plan: Planner, maxRetries: nat, st: Store, v: Version, rs: seq<Record>, f: Faults, wrote: bool)
    : (Store, bool)
    requires v in st.attempts
  {
    if f.ensureRead then (st, false)
    else if !ShouldProcessAttempt(st.attempts[v], maxRetries) then (st, true)
    else AfterAttempt(plan, st, v, rs, f, wrote)
  }

  function AfterEnsure(plan: Planner, maxRetries: nat, st: Store, v: Version, rs: seq<Record>, f: Faults, wrote: bool)
    : (Store, bool)
  {
    if f.ensureInsert then (st, false) else AfterRead(plan, maxRetries, Admitted(st, v), v, rs, f, wrote)
  }

  /** processRecord. */
  ghost function AfterRecord(plan: Planner, maxRetries: nat, st: Store, v: Version, rs: seq<Record>, f: Faults): (Store, bool) {
    if f.head || f.lookup then (st, false)
    else if ShouldSkipProcessed(v in st.processed) then (st, true)
    else AfterEnsure(plan, maxRetries, st, v, rs, f, Commits(plan, st.tables, rs, f.write))
  }

  /** The first n rounds of a loop that stops at the first error. */
  ghost function Through(st: Store, step: (Store, nat) -> (Store, bool), n: nat): (Store, bool) {
    if n == 0 then (st, true)
    else
      var (before, ok) := Through(st, step, n - 1);
      if ok then step(before, n - 1) else (before, false)
  }

  ghost function RecordStep(plan: Planner, maxRetries: nat, records: Version -> seq<Record>, vs: seq<Version>,
                            f: nat -> Faults): (Store, nat) -> (Store, bool)
  {
    (st: Store, i: nat) => if i < |vs| then AfterRecord(plan, maxRetries, st, vs[i], records(vs[i]), f(i)) else (st, false)
  }

  /** handleMessage, as far as the first n records. */
  ghost function AfterRecords(plan: Planner, maxRetries: nat, records: Version -> seq<Record>, st: Store, vs: seq<Version>,
                              f: nat -> Faults, n: nat): (Store, bool)
    requires n <= |vs|
  {
    Through(st, RecordStep(plan, maxRetries, records, vs, f), n)
  }
}
