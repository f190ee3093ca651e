/** What holds in every state that any run of the protocol reaches. */
module ProtocolSafety {
  import opened Sequences
  import opened Objects
  import opened Tables
  import opened TableFacts
  import opened AnyOrderStreams
  import opened Protocol

  /* ---- The invariants ---- */

  function Committed(c: Config, commits: seq<Version>): seq<seq<Record>> {
    if commits == [] then [] else Committed(c, commits[..|commits| - 1]) + [c.records(commits[|commits| - 1])]
  }

  /** The tables are what the committed files, one after the other, make of empty tables. */
  ghost predicate TablesAreCommits(c: Config, t: Shared) {
    t.db == WriteFiles(c.plan, EmptyDb, Committed(c, t.commits))
  }

  /** The records of the version were committed and its three vault objects exist. */
  ghost predicate Archived(t: Shared, v: Version) {
    v in t.commits && {Raw(v.obj.key), Normalized(v.obj.key), Errors(v.obj.key)} <= t.vault
  }

  predicate NoRepeats(vs: seq<Version>) {
    forall i, j :: 0 <= i < j < |vs| ==> vs[i] != vs[j]
  }

  /** A ledger row stands for a commit and three artifacts, and is the only one of its version. */
  ghost predicate LedgerIsSound(t: Shared) {
    NoRepeats(t.processed) && forall v :: v in t.processed ==> Archived(t, v)
  }

  ghost predicate IsSettled(c: Config, t: Shared, v: Version) {
    Settled(t.processed, t.attempts, c.maxRetries, v)
  }

  /** The versions are those of the first |vs| records of the message, and all are settled. */
  ghost predicate Handled(c: Config, t: Shared, msg: nat, vs: seq<Version>) {
    && msg < |t.messages| && |vs| <= |t.messages[msg]|
    && forall i :: 0 <= i < |vs| ==> vs[i].obj == t.messages[msg][i] && IsSettled(c, t, vs[i])
  }

  ghost predicate DeletedAreHandled(c: Config, t: Shared) {
    forall m: nat :: m in t.deleted ==> Handled(c, t, m, t.deleted[m]) && |t.deleted[m]| == |t.messages[m]|
  }

  /** What a worker has achieved by the time it reaches a stage. */
  ghost predicate StageIsEarned(t: Shared, stage: Stage) {
    match stage
    case CopyRaw(v) => v in t.commits
    case PutNormalized(v) => v in t.commits && Raw(v.obj.key) in t.vault
    case PutErrors(v) => v in t.commits && {Raw(v.obj.key), Normalized(v.obj.key)} <= t.vault
    case Enter(v) => Archived(t, v)
    case Cleanup(v) => v in t.processed
    case _ => true
  }

  ghost predicate WorkerIsSound(c: Config, t: Shared, b: Worker) {
    b.Busy? ==>
      && Handled(c, t, b.msg, b.done)
      && (b.stage.Head? || (HasNext(t, b) && b.stage.v.obj == t.messages[b.msg][|b.done|]))
      && StageIsEarned(t, b.stage)
  }

  ghost predicate SharedIsSound(c: Config, t: Shared) {
    TablesAreCommits(c, t) && LedgerIsSound(t) && DeletedAreHandled(c, t)
  }

  ghost predicate Invariant(c: Config, s: State) {
    SharedIsSound(c, s.t) && forall w :: 0 <= w < |s.workers| ==> WorkerIsSound(c, s.t, s.workers[w])
  }

  /* ---- One call ---- */

  /** The shared state only moves forward: what is committed, archived, entered or settled stays. */
  ghost predicate Forward(c: Config, t: Shared, t': Shared) {
    && t.messages <= t'.messages
    && t.db.history <= t'.db.history
    && t.commits <= t'.commits
    && t.processed <= t'.processed
    && t.vault <= t'.vault
    && (forall v :: IsSettled(c, t, v) ==> IsSettled(c, t', v))
    && (forall m: nat :: m in t.deleted ==> m in t'.deleted && t'.deleted[m] == t.deleted[m])
  }

  // Which part of the shared state a call can change, and how.
  ghost predicate EffectShape(c: Config, t: Shared, b: Worker, t': Shared)
    requires b.Busy?
  {
    && t'.messages == t.messages && t.vault <= t'.vault
    && (if b.stage.Write? then t'.db == WriteFile(c.plan, t.db, c.records(b.stage.v)) && t'.commits == t.commits + [b.stage.v]
        else t'.db == t.db && t'.commits == t.commits)
    && (t'.processed == t.processed
        || (b.stage.Enter? && b.stage.v !in t.processed && t'.processed == t.processed + [b.stage.v]))
    && (t'.deleted == t.deleted
        || (b.stage.Head? && !HasNext(t, b) && b.msg !in t.deleted && t'.deleted == t.deleted[b.msg := b.done]))
    && (forall v :: v in t.attempts && !(b.stage == Cleanup(v)) ==> v in t'.attempts && t'.attempts[v] >= t.attempts[v])
  }

  lemma {:induction false} EffectHasShape(c: Config, t: Shared, b: Worker)
    requires b.Busy?
    ensures EffectShape(c, t, b, Effect(c, t, b))
  {
    var t' := Effect(c, t, b);
    match b.stage
    case Head => assert t' == t.(deleted := t'.deleted);
    case Ensure(v) => assert t' == t.(attempts := t'.attempts);
    case Write(v) => assert t' == t.(db := t'.db, commits := t'.commits);
    case CopyRaw(v) => assert t' == t.(vault := t'.vault);
    case PutNormalized(v) => assert t' == t.(vault := t'.vault);
    case PutErrors(v) => assert t' == t.(vault := t'.vault);
    case Enter(v) => assert t' == t.(processed := t'.processed);
    case Cleanup(v) => assert t' == t.(attempts := t'.attempts);
    case PutFailure(v) => assert t' == t.(vault := t'.vault);
    case Increment(v) => assert t' == t.(attempts := t'.attempts);
    case Create(v) => assert t' == t.(attempts := t'.attempts);
    case _ => assert t' == t;
  }

  lemma {:induction false} CallsMoveForward(c: Config, t: Shared, b: Worker, t': Shared)
    requires b.Busy? && StageIsEarned(t, b.stage) && EffectShape(c, t, b, t')
    ensures Forward(c, t, t')
  {
    if b.stage.Write? {
      HistoryIsAppendOnly(c.plan, t.db, c.records(b.stage.v));
    }
  }

  lemma {:induction false} StageStaysEarned(c: Config, t: Shared, t': Shared, stage: Stage)
    requires Forward(c, t, t') && StageIsEarned(t, stage)
    ensures StageIsEarned(t', stage)
  {
    assert forall v :: v in t.commits ==> v in t'.commits;
  }

  lemma {:induction false} HandledStays(c: Config, t: Shared, t': Shared, msg: nat, vs: seq<Version>)
    requires Forward(c, t, t') && Handled(c, t, msg, vs)
    ensures Handled(c, t', msg, vs) && t'.messages[msg] == t.messages[msg]
  {
  }

  lemma {:induction false} WorkerStaysSound(c: Config, t: Shared, t': Shared, b: Worker)
    requires Forward(c, t, t') && WorkerIsSound(c, t, b)
    ensures WorkerIsSound(c, t', b)
  {
    if b.Busy? {
      HandledStays(c, t, t', b.msg, b.done);
      StageStaysEarned(c, t, t', b.stage);
    }
  }

  lemma {:induction false} TablesStayCommits(c: Config, t: Shared, v: Version)
    requires TablesAreCommits(c, t)
    ensures WriteFile(c.plan, t.db, c.records(v)) == WriteFiles(c.plan, EmptyDb, Committed(c, t.commits + [v]))
  {
    var commits := t.commits + [v];
    assert commits[..|commits| - 1] == t.commits;
    var files := Committed(c, commits);
    assert files[..|files| - 1] == Committed(c, t.commits);
  }

  lemma {:induction false} LedgerStaysSound(c: Config, t: Shared, b: Worker, t': Shared)
    requires b.Busy? && LedgerIsSound(t) && StageIsEarned(t, b.stage)
    requires EffectShape(c, t, b, t')
    ensures LedgerIsSound(t')
  {
    forall v | Archived(t, v)
      ensures Archived(t', v)
    {
    }
  }

  lemma {:induction false} DeletedStayHandled(c: Config, t: Shared, t': Shared)
    requires DeletedAreHandled(c, t) && Forward(c, t, t')
    requires forall m: nat :: m in t'.deleted && m !in t.deleted ==>
               Handled(c, t, m, t'.deleted[m]) && |t'.deleted[m]| == |t.messages[m]|
    ensures DeletedAreHandled(c, t')
  {
    forall m: nat | m in t'.deleted
      ensures Handled(c, t', m, t'.deleted[m]) && |t'.deleted[m]| == |t'.messages[m]|
    {
      HandledStays(c, t, t', m, t'.deleted[m]);
    }
  }

  lemma {:induction false} SharedStaysSound(c: Config, t: Shared, b: Worker, t': Shared)
    requires b.Busy? && SharedIsSound(c, t) && WorkerIsSound(c, t, b)
    requires EffectShape(c, t, b, t')
    ensures SharedIsSound(c, t') && Forward(c, t, t')
  {
    CallsMoveForward(c, t, b, t');
    LedgerStaysSound(c, t, b, t');
    if b.stage.Write? {
      TablesStayCommits(c, t, b.stage.v);
    }
    DeletedStayHandled(c, t, t');
  }

  // Which stage a worker comes from.
  ghost predicate ComesFrom(b: Worker, works: bool, stage: Stage)
    requires b.Busy?
  {
    match stage
    case CopyRaw(v) => works && b.stage == Write(v)
    case PutNormalized(v) => works && b.stage == CopyRaw(v)
    case PutErrors(v) => works && b.stage == PutNormalized(v)
    case Enter(v) => works && b.stage == PutErrors(v)
    case Cleanup(v) => works && b.stage == Enter(v)
    case _ => true
  }

  lemma {:induction false} StagesFollow(c: Config, t: Shared, b: Worker, works: bool)
    requires b.Busy? && Continue(c, t, b, works).Busy?
    ensures ComesFrom(b, works, Continue(c, t, b, works).stage)
  {
  }

  // A call that takes effect earns the next stage; one that fails earns nothing and needs nothing.
  lemma {:induction false} CallerEarnsStage(c: Config, t: Shared, b: Worker, outcome: Outcome)
    requires b.Busy? && WorkerIsSound(c, t, b)
    ensures var t' := if outcome == Fails then t else Effect(c, t, b);
            var b' := Continue(c, t, b, outcome == Works);
            b'.Busy? ==> StageIsEarned(t', b'.stage)
  {
    if Continue(c, t, b, outcome == Works).Busy? {
      StagesFollow(c, t, b, outcome == Works);
    }
  }

  // The message and the versions handled only change by handling one more.
  lemma {:induction false} CallerMovesOn(c: Config, t: Shared, b: Worker, works: bool)
    requires b.Busy? && WorkerIsSound(c, t, b) && Continue(c, t, b, works).Busy?
    ensures var b' := Continue(c, t, b, works);
            && b'.msg == b.msg
            && (b'.done == b.done || (b'.stage.Head? && b' == NextRecord(b, b.stage.v)))
            && (b'.stage.Head? || (HasNext(t, b') && b'.done == b.done && b'.stage.v.obj == t.messages[b.msg][|b.done|]))
  {
  }

  lemma {:induction false} CallerSettles(c: Config, t: Shared, b: Worker, works: bool)
    requires b.Busy? && WorkerIsSound(c, t, b) && !b.stage.Head?
    requires Continue(c, t, b, works) == NextRecord(b, b.stage.v)
    ensures IsSettled(c, t, b.stage.v)
  {
  }

  lemma {:induction false} CallerKeepsPlace(c: Config, t: Shared, b: Worker, outcome: Outcome)
    requires b.Busy? && WorkerIsSound(c, t, b)
    ensures var t' := if outcome == Fails then t else Effect(c, t, b);
            var b' := Continue(c, t, b, outcome == Works);
            b'.Busy? ==>
              && Handled(c, t', b'.msg, b'.done)
              && (b'.stage.Head? || (HasNext(t', b') && b'.stage.v.obj == t'.messages[b'.msg][|b'.done|]))
  {
    var t' := if outcome == Fails then t else Effect(c, t, b);
    var b' := Continue(c, t, b, outcome == Works);
    EffectHasShape(c, t, b);
    CallsMoveForward(c, t, b, Effect(c, t, b));
    if b'.Busy? {
      CallerMovesOn(c, t, b, outcome == Works);
      if b'.done != b.done {
        CallerSettles(c, t, b, outcome == Works);
      }
      HandledStays(c, t, t', b'.msg, b'.done);
    }
  }

  /* ---- Whole runs ---- */

  lemma {:induction false} CallKeepsInvariant(c: Config, s: State, w: nat, outcome: Outcome)
    requires Invariant(c, s) && w < |s.workers| && s.workers[w].Busy?
    ensures var s' := Next(c, s, Call(w, outcome)); Invariant(c, s') && Forward(c, s.t, s'.t)
  {
    var s' := Next(c, s, Call(w, outcome));
    var b := s.workers[w];
    assert WorkerIsSound(c, s.t, b);
    EffectHasShape(c, s.t, b);
    SharedStaysSound(c, s.t, b, Effect(c, s.t, b));
    CallerEarnsStage(c, s.t, b, outcome);
    CallerKeepsPlace(c, s.t, b, outcome);
    assert WorkerIsSound(c, s'.t, s'.workers[w]);
    forall i | 0 <= i < |s.workers| && i != w
      ensures WorkerIsSound(c, s'.t, s'.workers[i])
    {
      WorkerStaysSound(c, s.t, s'.t, s.workers[i]);
    }
  }

  lemma {:induction false} StepKeepsInvariant(c: Config, s: State, step: Step)
    requires Invariant(c, s)
    ensures Invariant(c, Next(c, s, step)) && Forward(c, s.t, Next(c, s, step).t)
  {
    if step.Call? {
      if step.w < |s.workers| && s.workers[step.w].Busy? {
        CallKeepsInvariant(c, s, step.w, step.outcome);
      }
    } else {
      OtherStepsKeepShared(c, s, step);
      var s' := Next(c, s, step);
      forall b | WorkerIsSound(c, s.t, b)
        ensures WorkerIsSound(c, s'.t, b)
      {
        WorkerStaysSound(c, s.t, s'.t, b);
      }
    }
  }

  lemma {:induction false} OtherStepsKeepShared(c: Config, s: State, step: Step)
    requires SharedIsSound(c, s.t) && !step.Call?
    ensures SharedIsSound(c, Next(c, s, step).t) && Forward(c, s.t, Next(c, s, step).t)
  {
    var t' := Next(c, s, step).t;
    assert t' == s.t.(messages := t'.messages, raw := t'.raw);
    DeletedStayHandled(c, s.t, t');
  }

  lemma {:induction false} RunsKeepInvariant(c: Config, s: State, steps: seq<Step>)
    requires Invariant(c, s)
    ensures Invariant(c, Run(c, s, steps)) && Forward(c, s.t, Run(c, s, steps).t)
  {
    if steps != [] {
      var pre := steps[..|steps| - 1];
      RunsKeepInvariant(c, s, pre);
      StepKeepsInvariant(c, Run(c, s, pre), steps[|steps| - 1]);
    }
  }

  /** Ledger soundness, in every reachable state, crashes and lost acknowledgements included. */
  lemma {:induction false} LedgerRowsStandForIngestion(c: Config, steps: seq<Step>)
    ensures var t := Reach(c, steps).t;
            NoRepeats(t.processed) && forall v :: v in t.processed ==> Archived(t, v)
  {
    RunsKeepInvariant(c, Start(c), steps);
  }

  /** No silent loss: every record of a deleted message has a version that is in the ledger or
      has used up its attempts, then and in every later state. */
  lemma {:induction false} DeletedMessagesAreSettled(c: Config, steps: seq<Step>, later: seq<Step>, m: nat)
    requires m in Reach(c, steps).t.deleted
    ensures var t, t' := Reach(c, steps).t, Run(c, Reach(c, steps), later).t;
            var vs := t.deleted[m];
            && m < |t.messages| && |vs| == |t.messages[m]|
            && forall i :: 0 <= i < |vs| ==>
                 vs[i].obj == t.messages[m][i] && IsSettled(c, t, vs[i]) && IsSettled(c, t', vs[i])
  {
    RunsKeepInvariant(c, Start(c), steps);
    RunsKeepInvariant(c, Reach(c, steps), later);
  }

  /** No run ever changes or removes a history row, a commit or a ledger row. */
  lemma {:induction false} RunsOnlyAppend(c: Config, steps: seq<Step>, later: seq<Step>)
    ensures var t, t' := Reach(c, steps).t, Run(c, Reach(c, steps), later).t;
            t.db.history <= t'.db.history && t.commits <= t'.commits && t.processed <= t'.processed
  {
    RunsKeepInvariant(c, Start(c), steps);
    RunsKeepInvariant(c, Reach(c, steps), later);
  }

  /** The distinct observations in the given versions. */
  ghost function Observed(c: Config, vs: seq<Version>): set<Identity> {
    set v, r | v in vs && r in c.records(v) :: Identity(r.key, r.at, r.hash)
  }

  lemma {:induction false} CommittedRecords(c: Config, commits: seq<Version>)
    ensures Identities(Flatten(Committed(c, commits))) == Observed(c, commits)
  {
    if commits != [] {
      var pre, v := commits[..|commits| - 1], commits[|commits| - 1];
      CommittedRecords(c, pre);
      var files := Committed(c, pre);
      LastFlattened(files, c.records(v));
      IdentitiesOfBoth(Flatten(files), c.records(v));
      SplitLast(commits);
      ObservedOfLast(c, pre, v);
    }
  }

  lemma {:induction false} LastFlattened(files: seq<seq<Record>>, file: seq<Record>)
    ensures Flatten(files + [file]) == Flatten(files) + file
  {
    assert (files + [file])[..|files|] == files;
  }

  lemma {:induction false} IdentitiesOfBoth(a: seq<Record>, b: seq<Record>)
    ensures Identities(a + b) == Identities(a) + Identities(b)
  {
  }

  lemma {:induction false} ObservedOfLast(c: Config, vs: seq<Version>, v: Version)
    ensures Observed(c, vs + [v]) == Observed(c, vs) + Identities(c.records(v))
  {
  }

  /** Idempotent ingestion over every run, with any number of workers, crashes and redeliveries:
      the tables are sound for the committed records, and history has at most one row for each
      distinct observation in the committed versions, however often each was committed. */
  lemma {:induction false} HistoryIsSafe(c: Config, steps: seq<Step>)
    ensures var t := Reach(c, steps).t;
            && Sound(t.db, Flatten(Committed(c, t.commits)))
            && |t.db.history| <= |Observed(c, t.commits)|
  {
    RunsKeepInvariant(c, Start(c), steps);
    var t := Reach(c, steps).t;
    TablesAreSound(c.plan, Committed(c, t.commits));
    HistoryIsBounded(t.db, Flatten(Committed(c, t.commits)));
    CommittedRecords(c, t.commits);
  }
}
