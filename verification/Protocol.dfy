/** The ingestion protocol as a state machine: any number of workers share a queue, the raw and
    vault buckets and the database. Every call is one step; it may work, fail, or take effect
    without the worker learning of it; and a worker may crash between any two calls
    (processor.go, db.go). */
module Protocol {
  import opened Decision
  import opened Objects
  import opened Tables

  type Message = seq<ObjectKey>

  /** `records(v)` is what parseJSONL makes of the content of version v. */
  datatype Config = Config(workers: nat, maxRetries: nat, plan: Planner, records: Version -> seq<Record>)

  /** The call a worker makes next, while it handles one record of its message. */
  datatype Stage =
    | Head                     // HeadObject, or DeleteMessage after the last record
    | Lookup(v: Version)       // ProcessedExists
    | Ensure(v: Version)       // EnsureAttempt: INSERT ... DO NOTHING
    | Read(v: Version)         // EnsureAttempt: SELECT attempt_count
    | Get(v: Version)          // GetObject and parseJSONL
    | Write(v: Version)        // writeToDB
    | CopyRaw(v: Version)
    | PutNormalized(v: Version)
    | PutErrors(v: Version)
    | Enter(v: Version)        // InsertProcessed
    | Cleanup(v: Version)      // DeleteAttempt
    | PutFailure(v: Version)   // handleFailure: errors artifact
    | Increment(v: Version)    // IncrementAttempt: UPDATE ... RETURNING
    | Create(v: Version)       // createAttemptOnFailure

  /** `done` are the versions of the records handled so far. */
  datatype Worker = Idle | Busy(msg: nat, done: seq<Version>, stage: Stage)

  /** What the workers share. */
  datatype Shared = Shared(
    raw: map<ObjectKey, string>,      // current etag of each raw object
    messages: seq<Message>,           // everything ever sent
    deleted: map<nat, seq<Version>>,  // deleted messages, with the versions handled
    db: Db,
    commits: seq<Version>,            // the versions whose records were committed, in order
    processed: seq<Version>,
    attempts: map<Version, nat>,
    vault: set<VaultKey>)

  datatype State = State(t: Shared, workers: seq<Worker>)

  datatype Outcome = Works | Fails | Unacknowledged

  datatype Step =
    | Send(message: Message)
    | Put(o: ObjectKey, etag: string)
    | Receive(w: nat, msg: nat)
    | Call(w: nat, outcome: Outcome)
    | Crash(w: nat)

  function Start(c: Config): State {
    State(Shared(map[], [], map[], EmptyDb, [], [], map[], {}), seq(c.workers, _ => Idle))
  }

  predicate HasNext(t: Shared, b: Worker)
    requires b.Busy?
  {
    b.msg < |t.messages| && |b.done| < |t.messages[b.msg]|
  }

  /** What the next call of a worker does to the shared state when it takes effect. */
  function Effect(c: Config, t: Shared, b: Worker): Shared
    requires b.Busy?
  {
    match b.stage
    case Head =>
      if HasNext(t, b) || b.msg in t.deleted then t else t.(deleted := t.deleted[b.msg := b.done])
    case Ensure(v) => if v in t.attempts then t else t.(attempts := t.attempts[v := 0])
    case Write(v) => t.(db := WriteFile(c.plan, t.db, c.records(v)), commits := t.commits + [v])
    case CopyRaw(v) => t.(vault := t.vault + {Raw(v.obj.key)})
    case PutNormalized(v) => t.(vault := t.vault + {Normalized(v.obj.key)})
    case PutErrors(v) => t.(vault := t.vault + {Errors(v.obj.key)})
    case Enter(v) => if v in t.processed then t else t.(processed := t.processed + [v])
    case Cleanup(v) => t.(attempts := t.attempts - {v})
    case PutFailure(v) => t.(vault := t.vault + {Errors(v.obj.key)})
    case Increment(v) => if v in t.attempts then t.(attempts := t.attempts[v := t.attempts[v] + 1]) else t
    case Create(v) => t.(attempts := t.attempts[v := Count(t.attempts, v) + 1])
    case _ => t
  }

  /** Where the worker goes on; `t` is the state the call found, `works` what the worker was
      told. `Idle` gives the message up. */
  function Continue(c: Config, t: Shared, b: Worker, works: bool): Worker
    requires b.Busy?
  {
    match b.stage
    case Head =>
      if !works || !HasNext(t, b) then Idle
      else
        var o := t.messages[b.msg][|b.done|];
        if o in t.raw then b.(stage := Lookup(Version(o, t.raw[o]))) else Idle
    case Lookup(v) =>
      if !works then Idle
      else if ShouldSkipProcessed(v in t.processed) then NextRecord(b, v)
      else b.(stage := Ensure(v))
    case Ensure(v) => if works then b.(stage := Read(v)) else Idle
    case Read(v) =>
      if !works || v !in t.attempts then Idle
      else if ShouldProcessAttempt(t.attempts[v], c.maxRetries) then b.(stage := Get(v))
      else NextRecord(b, v)
    case Get(v) => b.(stage := if works then Write(v) else PutFailure(v))
    case Write(v) => b.(stage := if works then CopyRaw(v) else PutFailure(v))
    case CopyRaw(v) => b.(stage := if works then PutNormalized(v) else PutFailure(v))
    case PutNormalized(v) => b.(stage := if works then PutErrors(v) else PutFailure(v))
    case PutErrors(v) => b.(stage := if works then Enter(v) else PutFailure(v))
    case Enter(v) => b.(stage := if works && v !in t.processed then Cleanup(v) else PutFailure(v))
    case Cleanup(v) => NextRecord(b, v)
    case PutFailure(v) => if v.etag != "" then b.(stage := Increment(v)) else Idle
    case Increment(v) => if works && v !in t.attempts then b.(stage := Create(v)) else Idle
    case Create(v) => Idle
  }

  // processRecord returned nil.
  function NextRecord(b: Worker, v: Version): Worker
    requires b.Busy?
  {
    b.(done := b.done + [v], stage := Head)
  }

  // The worker knows the etag of the object and has not read its content yet.
  predicate BetweenHeadAndGet(b: Worker, o: ObjectKey) {
    b.Busy? && (b.stage.Lookup? || b.stage.Ensure? || b.stage.Read? || b.stage.Get?) && b.stage.v.obj == o
  }

  /** One step; a step that is not enabled changes nothing. Any message ever sent can be received
      at any time, by any idle worker. A raw object is not replaced while a worker is between the
      HEAD and the GET of it. */
  function Next(c: Config, s: State, step: Step): State {
    match step
    case Send(message) => s.(t := s.t.(messages := s.t.messages + [message]))
    case Put(o, etag) =>
      if exists w :: 0 <= w < |s.workers| && BetweenHeadAndGet(s.workers[w], o) then s
      else s.(t := s.t.(raw := s.t.raw[o := etag]))
    case Receive(w, msg) =>
      if w < |s.workers| && s.workers[w].Idle? && msg < |s.t.messages|
      then s.(workers := s.workers[w := Busy(msg, [], Head)]) else s
    case Call(w, outcome) =>
      if w < |s.workers| && s.workers[w].Busy? then
        var b := s.workers[w];
        State(if outcome == Fails then s.t else Effect(c, s.t, b),
              s.workers[w := Continue(c, s.t, b, outcome == Works)])
      else s
    case Crash(w) =>
      if w < |s.workers| then s.(workers := s.workers[w := Idle]) else s
  }

  /** A run: any sequence of steps. */
  function Run(c: Config, s: State, steps: seq<Step>): State {
    if steps == [] then s else Next(c, Run(c, s, steps[..|steps| - 1]), steps[|steps| - 1])
  }

  /** The state a run reaches from the empty system. */
  function Reach(c: Config, steps: seq<Step>): State {
    Run(c, Start(c), steps)
  }
}
