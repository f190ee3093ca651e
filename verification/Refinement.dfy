/** Every delivery that the worker of `Processor` makes is a run of the state machine of
    `Protocol`, so what holds in all its runs holds of the worker. */
module Refinement {
  import opened Sequences
  import opened Decision
  import opened Objects
  import opened Tables
  import opened Delivery
  import opened Protocol
  import opened ProtocolRetries
  import opened ProtocolSafety
  import Database
  import DeliveryFacts
  import P = Processor

  /** What one worker can change of the shared state. */
  function StoreOf(t: Shared): Store {
    Store(t.db, t.processed, t.attempts, t.vault)
  }

  /** A run that leaves the store `st` and worker w at `b`, and neither receives, sends nor deletes. */
  ghost predicate Leads(c: Config, s: State, w: nat, steps: seq<Step>, st: Store, b: Worker)
    requires w < |s.workers|
  {
    var s' := Run(c, s, steps);
    && StoreOf(s'.t) == st && s'.workers == s.workers[w := b]
    && s'.t.messages == s.t.messages && s'.t.raw == s.t.raw && s'.t.deleted == s.t.deleted
  }

  lemma {:induction false} RunFirst(c: Config, s: State, first: Step, rest: seq<Step>)
    ensures Run(c, s, [first] + rest) == Run(c, Next(c, s, first), rest)
  {
    RunOneMore(c, s, [], first);
    assert [] + [first] == [first];
    RunAppends(c, s, [first], rest);
  }

  // A call, and a run from where it leaves the worker.
  lemma {:induction false} CallThen(c: Config, s: State, w: nat, outcome: Outcome, b: Worker, rest: seq<Step>,
                                    st: Store, b': Worker)
    requires w < |s.workers| && s.workers[w].Busy?
    requires var s1 := Next(c, s, Call(w, outcome));
             && s1.workers == s.workers[w := b]
             && s1.t.messages == s.t.messages && s1.t.raw == s.t.raw && s1.t.deleted == s.t.deleted
             && Leads(c, s1, w, rest, st, b')
    ensures Leads(c, s, w, [Call(w, outcome)] + rest, st, b')
  {
    RunFirst(c, s, Call(w, outcome), rest);
    assert s.workers[w := b][w := b'] == s.workers[w := b'];
  }

  lemma {:induction false} Stay(c: Config, s: State, w: nat)
    requires w < |s.workers|
    ensures Leads(c, s, w, [], StoreOf(s.t), s.workers[w])
  {
  }

  function Told(fails: bool): Outcome { if fails then Fails else Works }

  // Worker w is at a stage of its message.
  ghost predicate Stands(s: State, w: nat, m: nat, done: seq<Version>, stage: Stage) {
    w < |s.workers| && s.workers[w] == Busy(m, done, stage)
  }

  lemma {:induction false} LeadsThen(c: Config, s: State, w: nat, a: seq<Step>, st: Store, b: Worker,
                                     rest: seq<Step>, st': Store, b': Worker)
    requires w < |s.workers| && Leads(c, s, w, a, st, b)
    requires Leads(c, Run(c, s, a), w, rest, st', b')
    ensures Leads(c, s, w, a + rest, st', b')
  {
    RunAppends(c, s, a, rest);
    assert s.workers[w := b][w := b'] == s.workers[w := b'];
  }

  // One call that leaves the worker at b and the store at st.
  lemma {:induction false} OneCall(c: Config, s: State, w: nat, outcome: Outcome, st: Store, b: Worker) returns (steps: seq<Step>)
    requires w < |s.workers| && s.workers[w].Busy?
    requires var s1 := Next(c, s, Call(w, outcome));
             && StoreOf(s1.t) == st && s1.workers == s.workers[w := b]
             && s1.t.messages == s.t.messages && s1.t.raw == s.t.raw && s1.t.deleted == s.t.deleted
    ensures Leads(c, s, w, steps, st, b) && Run(c, s, steps) == Next(c, s, Call(w, outcome))
  {
    steps := [Call(w, outcome)];
    assert steps[..0] == [];
  }

  /* ---- Stage by stage ---- */

  // Where an ingestion ends.
  function Ended(m: nat, done: seq<Version>, v: Version, ok: bool): Worker {
    Busy(m, done, if ok then Cleanup(v) else PutFailure(v))
  }

  lemma {:induction false} EnterLeads(c: Config, s: State, w: nat, m: nat, done: seq<Version>, v: Version, f: Faults)
    returns (steps: seq<Step>)
    requires Stands(s, w, m, done, Enter(v))
    ensures var (st, ok) := AfterEnter(StoreOf(s.t), v, f); Leads(c, s, w, steps, st, Ended(m, done, v, ok))
  {
    var (st, ok) := AfterEnter(StoreOf(s.t), v, f);
    steps := OneCall(c, s, w, Told(f.ledger), st, Ended(m, done, v, ok));
  }

  lemma {:induction false} ErrorsLeads(c: Config, s: State, w: nat, m: nat, done: seq<Version>, v: Version, f: Faults)
    returns (steps: seq<Step>)
    requires Stands(s, w, m, done, PutErrors(v))
    ensures var (st, ok) := AfterErrors(StoreOf(s.t), v, f); Leads(c, s, w, steps, st, Ended(m, done, v, ok))
  {
    if f.putErrors {
      steps := OneCall(c, s, w, Fails, StoreOf(s.t), Ended(m, done, v, false));
    } else {
      var s1 := Next(c, s, Call(w, Works));
      var rest := EnterLeads(c, s1, w, m, done, v, f);
      var (st, ok) := AfterEnter(StoreOf(s1.t), v, f);
      CallThen(c, s, w, Works, Busy(m, done, Enter(v)), rest, st, Ended(m, done, v, ok));
      steps := [Call(w, Works)] + rest;
    }
  }

  lemma {:induction false} NormalizedLeads(c: Config, s: State, w: nat, m: nat, done: seq<Version>, v: Version, f: Faults)
    returns (steps: seq<Step>)
    requires Stands(s, w, m, done, PutNormalized(v))
    ensures var (st, ok) := AfterNormalized(StoreOf(s.t), v, f); Leads(c, s, w, steps, st, Ended(m, done, v, ok))
  {
    if f.putNormalized {
      steps := OneCall(c, s, w, Fails, StoreOf(s.t), Ended(m, done, v, false));
    } else {
      var s1 := Next(c, s, Call(w, Works));
      var rest := ErrorsLeads(c, s1, w, m, done, v, f);
      var (st, ok) := AfterErrors(StoreOf(s1.t), v, f);
      CallThen(c, s, w, Works, Busy(m, done, PutErrors(v)), rest, st, Ended(m, done, v, ok));
      steps := [Call(w, Works)] + rest;
    }
  }

  lemma {:induction false} CopyLeads(c: Config, s: State, w: nat, m: nat, done: seq<Version>, v: Version, f: Faults)
    returns (steps: seq<Step>)
    requires Stands(s, w, m, done, CopyRaw(v))
    ensures var (st, ok) := AfterCopy(StoreOf(s.t), v, f); Leads(c, s, w, steps, st, Ended(m, done, v, ok))
  {
    if f.copyRaw {
      steps := OneCall(c, s, w, Fails, StoreOf(s.t), Ended(m, done, v, false));
    } else {
      var s1 := Next(c, s, Call(w, Works));
      var rest := NormalizedLeads(c, s1, w, m, done, v, f);
      var (st, ok) := AfterNormalized(StoreOf(s1.t), v, f);
      CallThen(c, s, w, Works, Busy(m, done, PutNormalized(v)), rest, st, Ended(m, done, v, ok));
      steps := [Call(w, Works)] + rest;
    }
  }

  lemma {:induction false} WriteLeads(c: Config, s: State, w: nat, m: nat, done: seq<Version>, v: Version, f: Faults)
    returns (steps: seq<Step>)
    requires Stands(s, w, m, done, Write(v))
    ensures var st := StoreOf(s.t).(tables := WriteFile(c.plan, s.t.db, c.records(v)));
            var (after, ok) := AfterCopy(st, v, f); Leads(c, s, w, steps, after, Ended(m, done, v, ok))
  {
    var s1 := Next(c, s, Call(w, Works));
    var rest := CopyLeads(c, s1, w, m, done, v, f);
    var (st, ok) := AfterCopy(StoreOf(s1.t), v, f);
    CallThen(c, s, w, Works, Busy(m, done, CopyRaw(v)), rest, st, Ended(m, done, v, ok));
    steps := [Call(w, Works)] + rest;
  }

  lemma {:induction false} IngestLeads(c: Config, s: State, w: nat, m: nat, done: seq<Version>, v: Version, f: Faults, wrote: bool)
    returns (steps: seq<Step>)
    requires Stands(s, w, m, done, Get(v))
    ensures var (st, ok) := AfterIngest(c.plan, StoreOf(s.t), v, c.records(v), f, wrote);
            Leads(c, s, w, steps, st, Ended(m, done, v, ok))
  {
    if f.get || f.parse {
      steps := OneCall(c, s, w, Fails, StoreOf(s.t), Ended(m, done, v, false));
    } else {
      var s1 := Next(c, s, Call(w, Works));
      var (st, ok) := AfterIngest(c.plan, StoreOf(s.t), v, c.records(v), f, wrote);
      var rest;
      if wrote {
        rest := WriteLeads(c, s1, w, m, done, v, f);
      } else {
        rest := OneCall(c, s1, w, Fails, StoreOf(s1.t), Ended(m, done, v, false));
      }
      CallThen(c, s, w, Works, Busy(m, done, Write(v)), rest, st, Ended(m, done, v, ok));
      steps := [Call(w, Works)] + rest;
    }
  }

  lemma {:induction false} IncrementLeads(c: Config, s: State, w: nat, m: nat, done: seq<Version>, v: Version, f: Faults)
    returns (steps: seq<Step>)
    requires Stands(s, w, m, done, Increment(v))
    ensures var st := StoreOf(s.t);
            Leads(c, s, w, steps, if f.increment then st else st.(attempts := st.attempts[v := Count(st.attempts, v) + 1]), Idle)
  {
    var st := StoreOf(s.t);
    var after := if f.increment then st else st.(attempts := st.attempts[v := Count(st.attempts, v) + 1]);
    if f.increment || v in s.t.attempts {
      steps := OneCall(c, s, w, Told(f.increment), after, Idle);
    } else {
      var s1 := Next(c, s, Call(w, Works));
      var rest := OneCall(c, s1, w, Works, after, Idle);
      CallThen(c, s, w, Works, Busy(m, done, Create(v)), rest, after, Idle);
      steps := [Call(w, Works)] + rest;
    }
  }

  // The store after the errors artifact.
  function AfterReport(st: Store, v: Version, f: Faults): Store {
    if f.putFailure then st else st.(vault := st.vault + {Errors(v.obj.key)})
  }

  lemma {:induction false} ReportStep(c: Config, s: State, w: nat, m: nat, done: seq<Version>, v: Version, f: Faults)
    requires Stands(s, w, m, done, PutFailure(v))
    ensures var s1 := Next(c, s, Call(w, Told(f.putFailure)));
            && StoreOf(s1.t) == AfterReport(StoreOf(s.t), v, f)
            && s1.workers == s.workers[w := if v.etag != "" then Busy(m, done, Increment(v)) else Idle]
            && s1.t.messages == s.t.messages && s1.t.raw == s.t.raw && s1.t.deleted == s.t.deleted
  {
  }

  lemma {:induction false} FailureLeads(c: Config, s: State, w: nat, m: nat, done: seq<Version>, v: Version, f: Faults)
    returns (steps: seq<Step>)
    requires Stands(s, w, m, done, PutFailure(v))
    ensures Leads(c, s, w, steps, AfterFailure(StoreOf(s.t), v, f), Idle)
  {
    var outcome, after := Told(f.putFailure), AfterFailure(StoreOf(s.t), v, f);
    ReportStep(c, s, w, m, done, v, f);
    if v.etag == "" {
      steps := OneCall(c, s, w, outcome, after, Idle);
    } else {
      var rest := IncrementLeads(c, Next(c, s, Call(w, outcome)), w, m, done, v, f);
      CallThen(c, s, w, outcome, Busy(m, done, Increment(v)), rest, after, Idle);
      steps := [Call(w, outcome)] + rest;
    }
  }

  // Where a record ends.
  function Passed(m: nat, done: seq<Version>, v: Version, ok: bool): Worker {
    if ok then Busy(m, done + [v], Head) else Idle
  }

  lemma {:induction false} AttemptLeads(c: Config, s: State, w: nat, m: nat, done: seq<Version>, v: Version, f: Faults, wrote: bool)
    returns (steps: seq<Step>)
    requires Stands(s, w, m, done, Get(v))
    ensures var (st, ok) := AfterAttempt(c.plan, StoreOf(s.t), v, c.records(v), f, wrote);
            Leads(c, s, w, steps, st, Passed(m, done, v, ok))
  {
    var front := IngestLeads(c, s, w, m, done, v, f, wrote);
    var (st, ok) := AfterIngest(c.plan, StoreOf(s.t), v, c.records(v), f, wrote);
    var (after, _) := AfterAttempt(c.plan, StoreOf(s.t), v, c.records(v), f, wrote);
    var s1 := Run(c, s, front);
    var rest;
    if ok {
      rest := OneCall(c, s1, w, Told(f.cleanup), after, Passed(m, done, v, true));
    } else {
      rest := FailureLeads(c, s1, w, m, done, v, f);
    }
    LeadsThen(c, s, w, front, st, Ended(m, done, v, ok), rest, after, Passed(m, done, v, ok));
    steps := front + rest;
  }

  lemma {:induction false} ReadLeads(c: Config, s: State, w: nat, m: nat, done: seq<Version>, v: Version, f: Faults, wrote: bool)
    returns (steps: seq<Step>)
    requires Stands(s, w, m, done, Read(v)) && v in s.t.attempts
    ensures var (st, ok) := AfterRead(c.plan, c.maxRetries, StoreOf(s.t), v, c.records(v), f, wrote);
            Leads(c, s, w, steps, st, Passed(m, done, v, ok))
  {
    var (st, ok) := AfterRead(c.plan, c.maxRetries, StoreOf(s.t), v, c.records(v), f, wrote);
    if f.ensureRead || !ShouldProcessAttempt(s.t.attempts[v], c.maxRetries) {
      steps := OneCall(c, s, w, Told(f.ensureRead), st, Passed(m, done, v, ok));
    } else {
      var s1 := Next(c, s, Call(w, Works));
      var rest := AttemptLeads(c, s1, w, m, done, v, f, wrote);
      CallThen(c, s, w, Works, Busy(m, done, Get(v)), rest, st, Passed(m, done, v, ok));
      steps := [Call(w, Works)] + rest;
    }
  }

  lemma {:induction false} EnsureLeads(c: Config, s: State, w: nat, m: nat, done: seq<Version>, v: Version, f: Faults, wrote: bool)
    returns (steps: seq<Step>)
    requires Stands(s, w, m, done, Ensure(v))
    ensures var (st, ok) := AfterEnsure(c.plan, c.maxRetries, StoreOf(s.t), v, c.records(v), f, wrote);
            Leads(c, s, w, steps, st, Passed(m, done, v, ok))
  {
    var (st, ok) := AfterEnsure(c.plan, c.maxRetries, StoreOf(s.t), v, c.records(v), f, wrote);
    if f.ensureInsert {
      steps := OneCall(c, s, w, Fails, st, Idle);
    } else {
      var s1 := Next(c, s, Call(w, Works));
      var rest := ReadLeads(c, s1, w, m, done, v, f, wrote);
      CallThen(c, s, w, Works, Busy(m, done, Read(v)), rest, st, Passed(m, done, v, ok));
      steps := [Call(w, Works)] + rest;
    }
  }

  lemma {:induction false} LookupLeads(c: Config, s: State, w: nat, m: nat, done: seq<Version>, v: Version, f: Faults)
    returns (steps: seq<Step>)
    requires Stands(s, w, m, done, Lookup(v)) && !f.head
    ensures var (st, ok) := AfterRecord(c.plan, c.maxRetries, StoreOf(s.t), v, c.records(v), f);
            Leads(c, s, w, steps, st, Passed(m, done, v, ok))
  {
    var (st, ok) := AfterRecord(c.plan, c.maxRetries, StoreOf(s.t), v, c.records(v), f);
    if f.lookup || v in s.t.processed {
      steps := OneCall(c, s, w, Told(f.lookup), st, Passed(m, done, v, ok));
    } else {
      var s1 := Next(c, s, Call(w, Works));
      var rest := EnsureLeads(c, s1, w, m, done, v, f, Commits(c.plan, s.t.db, c.records(v), f.write));
      CallThen(c, s, w, Works, Busy(m, done, Ensure(v)), rest, st, Passed(m, done, v, ok));
      steps := [Call(w, Works)] + rest;
    }
  }

  // The version is that of the next record of the message.
  ghost predicate NextIs(t: Shared, m: nat, n: nat, v: Version) {
    && m < |t.messages| && n < |t.messages[m]| && t.messages[m][n] == v.obj
    && Holds(t.raw, v)
  }

  // The object has this version now.
  predicate Holds(raw: map<ObjectKey, string>, v: Version) {
    v.obj in raw && raw[v.obj] == v.etag
  }

  /** processRecord is a run. */
  lemma {:induction false} RecordLeads(c: Config, s: State, w: nat, m: nat, done: seq<Version>, v: Version, f: Faults)
    returns (steps: seq<Step>)
    requires Stands(s, w, m, done, Head) && NextIs(s.t, m, |done|, v)
    ensures var (st, ok) := AfterRecord(c.plan, c.maxRetries, StoreOf(s.t), v, c.records(v), f);
            Leads(c, s, w, steps, st, Passed(m, done, v, ok))
  {
    var (st, ok) := AfterRecord(c.plan, c.maxRetries, StoreOf(s.t), v, c.records(v), f);
    if f.head {
      steps := OneCall(c, s, w, Fails, st, Idle);
    } else {
      var s1 := Next(c, s, Call(w, Works));
      var rest := LookupLeads(c, s1, w, m, done, v, f);
      CallThen(c, s, w, Works, Busy(m, done, Lookup(v)), rest, st, Passed(m, done, v, ok));
      steps := [Call(w, Works)] + rest;
    }
  }

  /** The message is there, with the versions vs. */
  ghost predicate NamesVersions(t: Shared, m: nat, vs: seq<Version>) {
    m < |t.messages| && |t.messages[m]| == |vs| && forall n :: 0 <= n < |vs| ==> NextIs(t, m, n, vs[n])
  }

  // The steps lead to the store after n records: the worker is behind them, or idle after an error.
  ghost predicate LeadsBehind(c: Config, s: State, w: nat, m: nat, vs: seq<Version>, n: nat, steps: seq<Step>,
                              after: (Store, bool))
    requires w < |s.workers| && n <= |vs|
  {
    Leads(c, s, w, steps, after.0, if after.1 then Busy(m, vs[..n], Head) else Idle)
  }

  /** handleMessage is a run. */
  lemma {:induction false} RecordsLead(c: Config, s: State, w: nat, m: nat, vs: seq<Version>, f: nat -> Faults, n: nat)
    returns (steps: seq<Step>)
    requires Stands(s, w, m, [], Head) && NamesVersions(s.t, m, vs) && n <= |vs|
    ensures LeadsBehind(c, s, w, m, vs, n, steps, AfterRecords(c.plan, c.maxRetries, c.records, StoreOf(s.t), vs, f, n))
  {
    if n == 0 {
      steps := [];
      NoRecords(c, s, w, m, vs, f);
    } else {
      var k: nat := n - 1;
      var front := RecordsLead(c, s, w, m, vs, f, k);
      DeliveryFacts.RoundOfRecords(c.plan, c.maxRetries, c.records, StoreOf(s.t), vs, f, k);
      steps := RoundLeads(c, s, w, m, vs, k, front, AfterRecords(c.plan, c.maxRetries, c.records, StoreOf(s.t), vs, f, k),
                          f(k), AfterRecords(c.plan, c.maxRetries, c.records, StoreOf(s.t), vs, f, n));
    }
  }

  lemma {:induction false} RoundLeads(c: Config, s: State, w: nat, m: nat, vs: seq<Version>, n: nat, front: seq<Step>,
                                      before: (Store, bool), f: Faults, after: (Store, bool)) returns (steps: seq<Step>)
    requires w < |s.workers| && n < |vs| && NamesVersions(s.t, m, vs) && LeadsBehind(c, s, w, m, vs, n, front, before)
    requires after == if before.1 then AfterRecord(c.plan, c.maxRetries, before.0, vs[n], c.records(vs[n]), f)
                      else (before.0, false)
    ensures LeadsBehind(c, s, w, m, vs, n + 1, steps, after)
  {
    if before.1 {
      steps := OneMoreRecord(c, s, w, m, vs, n, front, before.0, f);
    } else {
      steps := front;
    }
  }

  lemma {:induction false} NoRecords(c: Config, s: State, w: nat, m: nat, vs: seq<Version>, f: nat -> Faults)
    requires Stands(s, w, m, [], Head)
    ensures LeadsBehind(c, s, w, m, vs, 0, [], AfterRecords(c.plan, c.maxRetries, c.records, StoreOf(s.t), vs, f, 0))
  {
    Stay(c, s, w);
    assert vs[..0] == [];
  }

  // A run that handles n records, and one that handles the next.
  lemma {:induction false} OneMoreRecord(c: Config, s: State, w: nat, m: nat, vs: seq<Version>, n: nat, front: seq<Step>,
                                         before: Store, f: Faults) returns (steps: seq<Step>)
    requires w < |s.workers| && n < |vs| && NamesVersions(s.t, m, vs)
    requires LeadsBehind(c, s, w, m, vs, n, front, (before, true))
    ensures LeadsBehind(c, s, w, m, vs, n + 1, steps, AfterRecord(c.plan, c.maxRetries, before, vs[n], c.records(vs[n]), f))
  {
    var s1 := Run(c, s, front);
    assert NextIs(s.t, m, n, vs[n]);
    var rest := NthRecordLeads(c, s1, w, m, vs, n, f);
    var (st, ok) := AfterRecord(c.plan, c.maxRetries, before, vs[n], c.records(vs[n]), f);
    LeadsThen(c, s, w, front, before, Busy(m, vs[..n], Head), rest, st, PassedTo(m, vs, n, ok));
    steps := front + rest;
  }

  function PassedTo(m: nat, vs: seq<Version>, n: nat, ok: bool): Worker
    requires n < |vs|
  {
    if ok then Busy(m, vs[..n + 1], Head) else Idle
  }

  lemma {:induction false} NthRecordLeads(
      c: Config, s: State, w: nat, m: nat, vs: seq<Version>, n: nat, f: Faults) returns (steps: seq<Step>)
    requires n < |vs| && Stands(s, w, m, vs[..n], Head) && NextIs(s.t, m, n, vs[n])
    ensures var (st, ok) := AfterRecord(c.plan, c.maxRetries, StoreOf(s.t), vs[n], c.records(vs[n]), f);
            Leads(c, s, w, steps, st, PassedTo(m, vs, n, ok))
  {
    steps := RecordLeads(c, s, w, m, vs[..n], vs[n], f);
    TakeNext(vs, n);
  }

  /* ---- Deliveries ---- */

  ghost predicate AllIdle(s: State) {
    forall w :: 0 <= w < |s.workers| ==> s.workers[w].Idle?
  }

  /** Some run ends with this store and no worker busy. */
  ghost predicate Reachable(c: Config, st: Store) {
    exists steps :: IsEnd(Reach(c, steps), st)
  }

  ghost predicate IsEnd(s: State, st: Store) {
    StoreOf(s.t) == st && AllIdle(s)
  }

  /** An idle worker receives the message, handles it, and deletes it when it got through. */
  lemma {:induction false} DeliveryLeads(c: Config, s: State, w: nat, m: nat, vs: seq<Version>, f: nat -> Faults)
    returns (steps: seq<Step>)
    requires AllIdle(s) && w < |s.workers| && NamesVersions(s.t, m, vs)
    ensures var (st, ok) := AfterRecords(c.plan, c.maxRetries, c.records, StoreOf(s.t), vs, f, |vs|);
            var s' := Run(c, s, steps);
            StoreOf(s'.t) == st && s'.workers == s.workers && (ok ==> m in s'.t.deleted)
  {
    var (st, ok) := AfterRecords(c.plan, c.maxRetries, c.records, StoreOf(s.t), vs, f, |vs|);
    var s1 := Next(c, s, Receive(w, m));
    var front := RecordsLead(c, s1, w, m, vs, f, |vs|);
    RunFirst(c, s, Receive(w, m), front);
    steps := [Receive(w, m)] + front;
    var s2 := Run(c, s1, front);
    assert s1.workers[w := Idle] == s.workers;
    if ok {
      assert vs[..|vs|] == vs;
      DeleteStep(c, s2, w, m, vs);
      assert s1.workers[w := Busy(m, vs, Head)][w := Idle] == s.workers;
      RunOneMore(c, s, steps, Call(w, Works));
      steps := steps + [Call(w, Works)];
    }
  }

  lemma {:induction false} DeleteStep(c: Config, s: State, w: nat, m: nat, done: seq<Version>)
    requires Stands(s, w, m, done, Head) && NamesVersions(s.t, m, done)
    ensures var s' := Next(c, s, Call(w, Works));
            StoreOf(s'.t) == StoreOf(s.t) && s'.workers == s.workers[w := Idle] && m in s'.t.deleted
  {
  }

  // Equal objects have equal etags.
  predicate OneEtagEach(vs: seq<Version>) {
    forall i, j :: 0 <= i < |vs| && 0 <= j < |vs| && vs[i].obj == vs[j].obj ==> vs[i] == vs[j]
  }

  function PutsOf(vs: seq<Version>): seq<Step> {
    if vs == [] then [] else PutsOf(vs[..|vs| - 1]) + [Put(vs[|vs| - 1].obj, vs[|vs| - 1].etag)]
  }

  // While no worker is busy, the objects can be put in place.
  lemma {:induction false} PutsLead(c: Config, s: State, vs: seq<Version>) returns (raw: map<ObjectKey, string>)
    requires AllIdle(s) && OneEtagEach(vs)
    ensures Run(c, s, PutsOf(vs)) == State(s.t.(raw := raw), s.workers)
    ensures AllHold(raw, vs)
  {
    if vs == [] {
      raw := s.t.raw;
    } else {
      var n := |vs| - 1;
      var before := PutsLead(c, s, vs[..n]);
      raw := before[vs[n].obj := vs[n].etag];
      OneMoreHolds(before, vs, n);
      RunOneMore(c, s, PutsOf(vs[..n]), Put(vs[n].obj, vs[n].etag));
      PutStep(c, State(s.t.(raw := before), s.workers), vs[n]);
    }
  }

  predicate AllHold(raw: map<ObjectKey, string>, vs: seq<Version>) {
    forall i :: 0 <= i < |vs| ==> Holds(raw, vs[i])
  }

  lemma {:induction false} OneMoreHolds(raw: map<ObjectKey, string>, vs: seq<Version>, n: nat)
    requires |vs| == n + 1 && OneEtagEach(vs) && AllHold(raw, vs[..n])
    ensures AllHold(raw[vs[n].obj := vs[n].etag], vs)
  {
    forall i | 0 <= i < |vs|
      ensures Holds(raw[vs[n].obj := vs[n].etag], vs[i])
    {
      assert i < n ==> Holds(raw, vs[..n][i]);
    }
  }

  lemma {:induction false} PutStep(c: Config, s: State, v: Version)
    requires AllIdle(s)
    ensures Next(c, s, Put(v.obj, v.etag)) == State(s.t.(raw := s.t.raw[v.obj := v.etag]), s.workers)
  {
  }

  function ObjectsOf(vs: seq<Version>): (os: Message)
    ensures |os| == |vs| && forall i :: 0 <= i < |vs| ==> os[i] == vs[i].obj
  {
    seq(|vs|, i requires 0 <= i < |vs| => vs[i].obj)
  }

  lemma {:induction false} ArrivalLeads(c: Config, s: State, vs: seq<Version>) returns (steps: seq<Step>)
    requires AllIdle(s) && OneEtagEach(vs)
    ensures var s' := Run(c, s, steps);
            StoreOf(s'.t) == StoreOf(s.t) && s'.workers == s.workers && NamesVersions(s'.t, |s.t.messages|, vs)
  {
    var raw := PutsLead(c, s, vs);
    RunOneMore(c, s, PutsOf(vs), Send(ObjectsOf(vs)));
    steps := PutsOf(vs) + [Send(ObjectsOf(vs))];
  }

  /** A delivery, of any versions and with any faults, leads from a reachable store to a reachable
      store. */
  lemma {:induction false} DeliveryIsReachable(c: Config, st: Store, vs: seq<Version>, f: nat -> Faults)
    requires Reachable(c, st) && c.workers > 0 && OneEtagEach(vs)
    ensures Reachable(c, AfterRecords(c.plan, c.maxRetries, c.records, st, vs, f, |vs|).0)
  {
    var steps :| IsEnd(Reach(c, steps), st);
    var s := Reach(c, steps);
    WorkersStay(c, steps);
    var arrival := ArrivalLeads(c, s, vs);
    var s1 := Run(c, s, arrival);
    var delivery := DeliveryLeads(c, s1, 0, |s.t.messages|, vs, f);
    RunAppends(c, s, arrival, delivery);
    RunAppends(c, Start(c), steps, arrival + delivery);
    assert IsEnd(Reach(c, steps + (arrival + delivery)), AfterRecords(c.plan, c.maxRetries, c.records, st, vs, f, |vs|).0);
  }

  lemma {:induction false} WorkersStay(c: Config, steps: seq<Step>)
    ensures |Reach(c, steps).workers| == c.workers
  {
    if steps != [] {
      WorkersStay(c, steps[..|steps| - 1]);
    }
  }

  lemma {:induction false} FreshIsReachable(c: Config)
    ensures Reachable(c, Store(EmptyDb, [], map[], {}))
  {
    assert IsEnd(Reach(c, []), Store(EmptyDb, [], map[], {}));
  }

  /** What every reachable store satisfies: ledger rows are unique and archived. */
  ghost predicate LedgerIsArchived(st: Store) {
    NoRepeats(st.processed)
    && forall v :: v in st.processed ==> {Raw(v.obj.key), Normalized(v.obj.key), Errors(v.obj.key)} <= st.vault
  }

  lemma {:induction false} ReachableIsArchived(c: Config, st: Store)
    requires Reachable(c, st)
    ensures LedgerIsArchived(st)
  {
    var steps :| IsEnd(Reach(c, steps), st);
    LedgerRowsStandForIngestion(c, steps);
  }

  /** The worker refines the state machine: after any number of deliveries its database and vault
      are those at the end of a run, so whatever holds in all runs holds of them. */
  method Deliver(p: P.Processor, os: seq<ObjectKey>, f: nat -> Faults, ghost c: Config) returns (delete: bool)
    requires c.workers > 0 && c.maxRetries == p.maxRetries && c.plan == p.db.plan && c.records == p.records
    requires Reachable(c, p.Contents())
    modifies p, p.db
    ensures Reachable(c, p.Contents()) && LedgerIsArchived(p.Contents())
  {
    ghost var before := p.Contents();
    delete := p.HandleMessage(os, f);
    DeliveryIsReachable(c, before, p.Versions(os), f);
    ReachableIsArchived(c, p.Contents());
  }

  /** A new worker over a new database stands at the end of the empty run. */
  method NewWorker(plan: Planner, maxRetries: nat, etag: ObjectKey -> string, records: Version -> seq<Record>, ghost workers: nat)
    returns (p: P.Processor, ghost c: Config)
    ensures fresh(p) && fresh(p.db)
    ensures c == Config(workers, maxRetries, plan, records)
    ensures c.maxRetries == p.maxRetries && c.plan == p.db.plan && c.records == p.records && p.etag == etag
    ensures Reachable(c, p.Contents())
  {
    var db := new Database.Db(plan);
    p := new P.Processor(db, maxRetries, etag, records);
    c := Config(workers, maxRetries, plan, records);
    FreshIsReachable(c);
  }

  /** The first delivery of a new worker meets what Deliver asks for, and so does every later one. */
  method DeliverAll(p: P.Processor, messages: seq<seq<ObjectKey>>, f: nat -> nat -> Faults, ghost c: Config)
    requires c.workers > 0 && c.maxRetries == p.maxRetries && c.plan == p.db.plan && c.records == p.records
    requires Reachable(c, p.Contents())
    modifies p, p.db
    ensures Reachable(c, p.Contents()) && (messages != [] ==> LedgerIsArchived(p.Contents()))
  {
    for n := 0 to |messages|
      invariant Reachable(c, p.Contents()) && (n > 0 ==> LedgerIsArchived(p.Contents()))
    {
      var _ := Deliver(p, messages[n], f(n), c);
    }
  }
}
