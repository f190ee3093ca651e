/** How often a version can be attempted when W workers share its counter. */
module ProtocolRetries {
  import opened Objects
  import opened Protocol

  /** Admitted past the retry gate, and not yet done with the attempt. */
  predicate InFlight(b: Worker, v: Version) {
    && b.Busy?
    && (b.stage.Get? || b.stage.Write? || b.stage.CopyRaw? || b.stage.PutNormalized? || b.stage.PutErrors?
        || b.stage.Enter? || b.stage.PutFailure? || b.stage.Increment? || b.stage.Create?)
    && b.stage.v == v
  }

  function Flying(workers: seq<Worker>, v: Version): set<nat> {
    set w: nat | w < |workers| && InFlight(workers[w], v)
  }

  function Cap(c: Config): nat {
    if c.maxRetries == 0 then 0 else c.maxRetries - 1 + c.workers
  }

  /** Attempts made and attempts in flight together stay within the cap. */
  ghost predicate Bounded(c: Config, s: State) {
    && |s.workers| == c.workers
    && (c.maxRetries == 0 ==> forall v :: Flying(s.workers, v) == {})
    && forall v :: Count(s.t.attempts, v) + |Flying(s.workers, v)| <= Cap(c)
  }

  lemma {:induction false} FlyingFits(workers: seq<Worker>, v: Version)
    ensures |Flying(workers, v)| <= |workers|
  {
    if workers != [] {
      var n := |workers| - 1;
      FlyingFits(workers[..n], v);
      WithoutOne(Flying(workers, v), n);
      assert Flying(workers, v) - {n} == Flying(workers[..n], v);
    } else {
      assert Flying(workers, v) == {};
    }
  }

  lemma {:induction false} WithoutOne(a: set<nat>, w: nat)
    ensures |a| == |a - {w}| + if w in a then 1 else 0
  {
    if w in a {
      assert a == (a - {w}) + {w};
    } else {
      assert a == a - {w};
    }
  }

  lemma {:induction false} FlyingAfter(workers: seq<Worker>, w: nat, b: Worker, v: Version)
    requires w < |workers|
    ensures |Flying(workers[w := b], v)| + (if InFlight(workers[w], v) then 1 else 0)
            == |Flying(workers, v)| + (if InFlight(b, v) then 1 else 0)
  {
    var before, after := Flying(workers, v), Flying(workers[w := b], v);
    forall i: nat | i != w
      ensures i in before <==> i in after
    {
      assert i < |workers| ==> workers[w := b][i] == workers[i];
    }
    OneDiffers(before, after, w);
  }

  lemma {:induction false} OneDiffers(before: set<nat>, after: set<nat>, w: nat)
    requires forall i :: i != w ==> (i in before <==> i in after)
    ensures |after| + (if w in before then 1 else 0) == |before| + (if w in after then 1 else 0)
  {
    WithoutOne(before, w);
    WithoutOne(after, w);
    assert before - {w} == after - {w};
  }

  // A worker takes off only past the retry gate.
  lemma {:induction false} OnlyTheGateAdmits(c: Config, t: Shared, b: Worker, works: bool, v: Version)
    requires b.Busy? && InFlight(Continue(c, t, b, works), v) && !InFlight(b, v)
    ensures b.stage == Read(v) && Count(t.attempts, v) < c.maxRetries
  {
  }

  // Only the two failure calls raise a count, and only of the version in flight.
  lemma {:induction false} OnlyFailuresCount(c: Config, t: Shared, b: Worker, v: Version)
    requires b.Busy?
    ensures Count(Effect(c, t, b).attempts, v)
            <= Count(t.attempts, v)
               + if b.stage == Create(v) || (b.stage == Increment(v) && v in t.attempts) then 1 else 0
  {
  }

  /** The account of one version over one call: it never rises, except by an admission while the
      count is below the limit. */
  lemma {:induction false} CallAccount(c: Config, t: Shared, b: Worker, outcome: Outcome, v: Version)
    requires b.Busy?
    ensures var t' := if outcome == Fails then t else Effect(c, t, b);
            var b' := Continue(c, t, b, outcome == Works);
            var n, n' := Count(t.attempts, v), Count(t'.attempts, v);
            || n' + (if InFlight(b', v) then 1 else 0) <= n + (if InFlight(b, v) then 1 else 0)
            || (n' <= n < c.maxRetries && !InFlight(b, v) && InFlight(b', v))
  {
    var b' := Continue(c, t, b, outcome == Works);
    OnlyFailuresCount(c, t, b, v);
    if InFlight(b', v) && !InFlight(b, v) {
      OnlyTheGateAdmits(c, t, b, outcome == Works, v);
    }
  }

  lemma {:induction false} StepKeepsBound(c: Config, s: State, step: Step)
    requires Bounded(c, s)
    ensures Bounded(c, Next(c, s, step))
  {
    var s' := Next(c, s, step);
    if s'.workers != s.workers {
      var w := step.w;
      forall v
        ensures Count(s'.t.attempts, v) + |Flying(s'.workers, v)| <= Cap(c)
        ensures c.maxRetries == 0 ==> Flying(s'.workers, v) == {}
      {
        FlyingAfter(s.workers, w, s'.workers[w], v);
        FlyingFits(s'.workers, v);
        if step.Call? {
          CallAccount(c, s.t, s.workers[w], step.outcome, v);
        }
      }
    } else if step.Call? && step.w < |s.workers| && s.workers[step.w].Busy? {
      forall v
        ensures Count(s'.t.attempts, v) <= Count(s.t.attempts, v)
      {
        CallAccount(c, s.t, s.workers[step.w], step.outcome, v);
      }
    }
  }

  lemma {:induction false} RunsKeepBound(c: Config, steps: seq<Step>)
    ensures Bounded(c, Reach(c, steps))
  {
    if steps == [] {
      assert forall v :: Flying(Start(c).workers, v) == {};
    } else {
      RunsKeepBound(c, steps[..|steps| - 1]);
      StepKeepsBound(c, Reach(c, steps[..|steps| - 1]), steps[|steps| - 1]);
    }
  }

  /** In every run the attempt count of a version stays within MaxRetries + W - 1, and within
      MaxRetries when there is one worker. */
  lemma {:induction false} AttemptsAreBounded(c: Config, steps: seq<Step>, v: Version)
    ensures var n := Count(Reach(c, steps).t.attempts, v);
            n <= Cap(c) && (c.workers <= 1 ==> n <= c.maxRetries)
  {
    RunsKeepBound(c, steps);
  }

  /* ---- The cap is reached ---- */

  /** The version is there to be handled, is not in the ledger, and message 0 names it. */
  ghost predicate Ready(c: Config, s: State, v: Version) {
    && |s.workers| == c.workers
    && s.t.messages == [[v.obj]] && v.obj in s.t.raw && s.t.raw[v.obj] == v.etag
    && v !in s.t.processed && v.etag != ""
  }

  lemma {:induction false} RunOneMore(c: Config, s: State, steps: seq<Step>, step: Step)
    ensures Run(c, s, steps + [step]) == Next(c, Run(c, s, steps), step)
  {
    assert (steps + [step])[..|steps|] == steps;
  }

  lemma {:induction false} RunAppends(c: Config, s: State, a: seq<Step>, b: seq<Step>)
    ensures Run(c, s, a + b) == Run(c, Run(c, s, a), b)
  {
    if b == [] {
      assert a + b == a;
    } else {
      assert (a + b)[..|a + b| - 1] == a + b[..|b| - 1];
      RunAppends(c, s, a, b[..|b| - 1]);
    }
  }

  // The worker is busy with the only record of message 0.
  function On(v: Version, stage: Stage): Worker {
    Busy(0, [], stage)
  }

  // One call that works brings worker w from one stage to another and leaves the count.
  lemma {:induction false} AdmissionStep(c: Config, s: State, w: nat, v: Version, n: nat)
    requires Ready(c, s, v) && w < |s.workers| && n < 4
    requires s.workers[w] == On(v, [Head, Lookup(v), Ensure(v), Read(v)][n])
    requires Count(s.t.attempts, v) < c.maxRetries && (n == 3 ==> v in s.t.attempts)
    ensures var s' := Next(c, s, Call(w, Works));
            && Ready(c, s', v) && Count(s'.t.attempts, v) == Count(s.t.attempts, v)
            && s'.workers == s.workers[w := On(v, [Lookup(v), Ensure(v), Read(v), Get(v)][n])]
            && (n >= 2 ==> v in s'.t.attempts)
  {
  }

  // An idle worker receives the message and is admitted.
  lemma {:induction false} CanAdmit(c: Config, s: State, w: nat, v: Version) returns (steps: seq<Step>)
    requires Ready(c, s, v) && w < |s.workers| && s.workers[w].Idle?
    requires Count(s.t.attempts, v) < c.maxRetries
    ensures var s' := Run(c, s, steps);
            && Ready(c, s', v) && s'.workers == s.workers[w := On(v, Get(v))]
            && v in s'.t.attempts && s'.t.attempts[v] == Count(s.t.attempts, v)
  {
    var call := Call(w, Works);
    var s0 := Next(c, s, Receive(w, 0));
    var s2 := Next(c, Next(c, s0, call), call);
    TwoAdmissionSteps(c, s0, w, v, 0);
    TwoAdmissionSteps(c, s2, w, v, 2);
    steps := RunFive(c, s, Receive(w, 0), call, Next(c, s2, call));
  }

  lemma {:induction false} TwoAdmissionSteps(c: Config, s: State, w: nat, v: Version, n: nat)
    requires Ready(c, s, v) && w < |s.workers| && n < 3
    requires s.workers[w] == On(v, [Head, Lookup(v), Ensure(v), Read(v)][n])
    requires Count(s.t.attempts, v) < c.maxRetries
    ensures var s' := Next(c, Next(c, s, Call(w, Works)), Call(w, Works));
            && Ready(c, s', v) && Count(s'.t.attempts, v) == Count(s.t.attempts, v)
            && s'.workers == s.workers[w := On(v, [Ensure(v), Read(v), Get(v)][n])]
            && (n >= 1 ==> v in s'.t.attempts)
  {
    AdmissionStep(c, s, w, v, n);
    AdmissionStep(c, Next(c, s, Call(w, Works)), w, v, n + 1);
  }

  lemma {:induction false} RunFive(c: Config, s: State, first: Step, call: Step, s3: State) returns (steps: seq<Step>)
    requires s3 == Next(c, Next(c, Next(c, Next(c, s, first), call), call), call)
    ensures Run(c, s, steps) == Next(c, s3, call)
  {
    RunOneMore(c, s, [], first);
    RunOneMore(c, s, [] + [first], call);
    RunOneMore(c, s, [] + [first] + [call], call);
    RunOneMore(c, s, [] + [first] + [call] + [call], call);
    steps := [] + [first] + [call] + [call] + [call];
    RunOneMore(c, s, steps, call);
    steps := steps + [call];
  }

  lemma {:induction false} GetFails(c: Config, s: State, w: nat, v: Version)
    requires Ready(c, s, v) && w < |s.workers| && s.workers[w] == On(v, Get(v))
    ensures Next(c, s, Call(w, Fails)) == State(s.t, s.workers[w := On(v, PutFailure(v))])
  {
  }

  lemma {:induction false} ReportWorks(c: Config, s: State, w: nat, v: Version)
    requires Ready(c, s, v) && w < |s.workers| && s.workers[w] == On(v, PutFailure(v))
    ensures Next(c, s, Call(w, Works))
            == State(s.t.(vault := s.t.vault + {Errors(v.obj.key)}), s.workers[w := On(v, Increment(v))])
  {
  }

  lemma {:induction false} IncrementWorks(c: Config, s: State, w: nat, v: Version)
    requires Ready(c, s, v) && w < |s.workers| && s.workers[w] == On(v, Increment(v)) && v in s.t.attempts
    ensures Next(c, s, Call(w, Works))
            == State(s.t.(attempts := s.t.attempts[v := s.t.attempts[v] + 1]), s.workers[w := Idle])
  {
  }

  lemma {:induction false} FailureSteps(c: Config, s: State, w: nat, v: Version)
    requires Ready(c, s, v) && w < |s.workers| && s.workers[w] == On(v, Get(v))
    requires v in s.t.attempts
    ensures var s' := Next(c, Next(c, Next(c, s, Call(w, Fails)), Call(w, Works)), Call(w, Works));
            && Ready(c, s', v) && s'.workers == s.workers[w := Idle]
            && v in s'.t.attempts && s'.t.attempts[v] == s.t.attempts[v] + 1
  {
    GetFails(c, s, w, v);
    var s1 := State(s.t, s.workers[w := On(v, PutFailure(v))]);
    ReportWorks(c, s1, w, v);
    var s2 := State(s.t.(vault := s.t.vault + {Errors(v.obj.key)}), s1.workers[w := On(v, Increment(v))]);
    IncrementWorks(c, s2, w, v);
  }

  // An admitted worker fails, and the attempt is counted.
  lemma {:induction false} CanFail(c: Config, s: State, w: nat, v: Version) returns (steps: seq<Step>)
    requires Ready(c, s, v) && w < |s.workers| && s.workers[w] == On(v, Get(v))
    requires v in s.t.attempts
    ensures var s' := Run(c, s, steps);
            && Ready(c, s', v) && s'.workers == s.workers[w := Idle]
            && v in s'.t.attempts && s'.t.attempts[v] == s.t.attempts[v] + 1
  {
    FailureSteps(c, s, w, v);
    RunOneMore(c, s, [], Call(w, Fails));
    RunOneMore(c, s, [] + [Call(w, Fails)], Call(w, Works));
    steps := [] + [Call(w, Fails)] + [Call(w, Works)];
    RunOneMore(c, s, steps, Call(w, Works));
    steps := steps + [Call(w, Works)];
  }

  // Worker 0 alone uses up n attempts.
  lemma {:induction false} CanSpend(c: Config, s: State, v: Version, n: nat) returns (steps: seq<Step>)
    requires Ready(c, s, v) && |s.workers| > 0 && s.workers[0].Idle?
    requires Count(s.t.attempts, v) + n < c.maxRetries
    ensures var s' := Run(c, s, steps);
            Ready(c, s', v) && s'.workers == s.workers && Count(s'.t.attempts, v) == Count(s.t.attempts, v) + n
  {
    steps := [];
    if n > 0 {
      var before := CanSpend(c, s, v, n - 1);
      var s1 := Run(c, s, before);
      var admit := CanAdmit(c, s1, 0, v);
      var s2 := Run(c, s1, admit);
      var fail := CanFail(c, s2, 0, v);
      RunAppends(c, s, before, admit);
      RunAppends(c, s, before + admit, fail);
      steps := before + admit + fail;
    }
  }

  // The first k workers are admitted before any of them counts its attempt.
  lemma {:induction false} CanGather(c: Config, s: State, v: Version, k: nat) returns (steps: seq<Step>)
    requires Ready(c, s, v) && k <= |s.workers| && forall w :: 0 <= w < |s.workers| ==> s.workers[w].Idle?
    requires Count(s.t.attempts, v) < c.maxRetries
    ensures var s' := Run(c, s, steps);
            && Ready(c, s', v) && Count(s'.t.attempts, v) == Count(s.t.attempts, v)
            && (k > 0 ==> v in s'.t.attempts)
            && forall w :: 0 <= w < |s'.workers| ==> s'.workers[w] == if w < k then On(v, Get(v)) else Idle
  {
    steps := [];
    if k > 0 {
      var before := CanGather(c, s, v, k - 1);
      var admit := CanAdmit(c, Run(c, s, before), k - 1, v);
      RunAppends(c, s, before, admit);
      steps := before + admit;
    }
  }

  lemma {:induction false} CanFailTogether(c: Config, s: State, v: Version, k: nat) returns (steps: seq<Step>)
    requires Ready(c, s, v) && k <= |s.workers| && v in s.t.attempts
    requires forall w :: 0 <= w < k ==> s.workers[w] == On(v, Get(v))
    ensures var s' := Run(c, s, steps);
            && Ready(c, s', v) && v in s'.t.attempts && s'.t.attempts[v] == s.t.attempts[v] + k
            && forall w :: k <= w < |s.workers| ==> s'.workers[w] == s.workers[w]
  {
    steps := [];
    if k > 0 {
      var before := CanFailTogether(c, s, v, k - 1);
      var fail := CanFail(c, Run(c, s, before), k - 1, v);
      RunAppends(c, s, before, fail);
      steps := before + fail;
    }
  }

  /** With W workers the count does reach MaxRetries + W - 1: the bound cannot be improved. */
  lemma {:induction false} CapIsReached(c: Config, v: Version) returns (steps: seq<Step>)
    requires c.workers > 0 && c.maxRetries > 0 && v.etag != ""
    ensures Count(Reach(c, steps).t.attempts, v) == Cap(c)
  {
    var setUp := [] + [Put(v.obj, v.etag)] + [Send([v.obj])];
    RunOneMore(c, Start(c), [], Put(v.obj, v.etag));
    RunOneMore(c, Start(c), [] + [Put(v.obj, v.etag)], Send([v.obj]));
    var s := Reach(c, setUp);
    var spend := CanSpend(c, s, v, c.maxRetries - 1);
    var s1 := Run(c, s, spend);
    var gather := CanGather(c, s1, v, c.workers);
    var s2 := Run(c, s1, gather);
    var fail := CanFailTogether(c, s2, v, c.workers);
    RunAppends(c, Start(c), setUp, spend);
    RunAppends(c, Start(c), setUp + spend, gather);
    RunAppends(c, Start(c), setUp + spend + gather, fail);
    steps := setUp + spend + gather + fail;
  }
}
