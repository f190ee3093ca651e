/** Idempotent ingestion (README.md "Idempotent ingestion") over whole runs: repeated commits of a
    version leave the tables as if it had been committed once. */
module IdempotentRuns {
  import opened Sequences
  import opened Objects
  import opened Tables
  import opened TableFacts
  import opened AnyOrderStreams
  import opened Protocol
  import opened ProtocolSafety

  /** The two tables say the same about a property. */
  ghost predicate SameFor(a: Db, b: Db, key: string) {
    && KeyRows(a.history, key) == KeyRows(b.history, key)
    && (key in a.listings <==> key in b.listings)
    && (key in a.listings ==> a.listings[key] == b.listings[key])
  }

  /** The files have no property in common. */
  ghost predicate Disjoint(a: seq<Record>, b: seq<Record>) {
    forall key :: Observations(a, key) == [] || Observations(b, key) == []
  }

  lemma {:induction false} OtherKeysStay(plan: Planner, db: Db, rs: seq<Record>, key: string)
    requires Observations(rs, key) == []
    ensures SameFor(db, WriteFile(plan, db, rs), key)
  {
    PropertiesAreIndependent(plan, db, rs, key);
    ListingAfterFile(plan, db, rs, key);
  }

  // What a file does to a property, on tables that say the same about it.
  lemma {:induction false} SameEffect(plan: Planner, a: Db, b: Db, rs: seq<Record>, key: string)
    requires SameFor(a, b, key)
    ensures SameFor(WriteFile(plan, a, rs), WriteFile(plan, b, rs), key)
  {
    PropertiesAreIndependent(plan, a, rs, key);
    PropertiesAreIndependent(plan, b, rs, key);
    ListingAfterFile(plan, a, rs, key);
    ListingAfterFile(plan, b, rs, key);
    if Observations(rs, key) != [] {
      SameFirstSeen(a.listings, b.listings, key, Observations(rs, key));
    }
  }

  lemma {:induction false} SameFirstSeen(a: map<string, Listing>, b: map<string, Listing>, key: string, os: seq<Record>)
    requires os != [] && (key in a <==> key in b) && (key in a ==> a[key] == b[key])
    ensures FirstSeen(a, key, os) == FirstSeen(b, key, os)
  {
    if |os| > 1 {
      SameFirstSeen(a, b, key, os[..|os| - 1]);
    }
  }

  lemma {:induction false} SameForAllIsSame(plan: Planner, db: Db, rs: seq<Record>)
    requires forall key :: SameFor(db, WriteFile(plan, db, rs), key)
    ensures WriteFile(plan, db, rs) == db
  {
    var after := WriteFile(plan, db, rs);
    HistoryIsAppendOnly(plan, db, rs);
    forall key
      ensures KeyRows(db.history, key) == KeyRows(after.history, key)
      ensures key in db.listings <==> key in after.listings
      ensures key in db.listings ==> db.listings[key] == after.listings[key]
    {
      assert SameFor(db, after, key);
    }
    SameRowsSameTable(db.history, after.history);
    SameMaps(db.listings, after.listings);
  }

  lemma {:induction false} SameMaps<K, V>(a: map<K, V>, b: map<K, V>)
    requires forall key :: key in a <==> key in b
    requires forall key :: key in a ==> a[key] == b[key]
    ensures a == b
  {
  }

  /** Whether a file changes nothing depends only on what the tables say about its properties. */
  lemma {:induction false} IdleFileIsLocal(plan: Planner, db: Db, other: Db, rs: seq<Record>)
    requires WriteFile(plan, db, rs) == db
    requires forall key :: Observations(rs, key) != [] ==> SameFor(db, other, key)
    ensures WriteFile(plan, other, rs) == other
  {
    forall key
      ensures SameFor(other, WriteFile(plan, other, rs), key)
    {
      if Observations(rs, key) == [] {
        OtherKeysStay(plan, other, rs, key);
      } else {
        SameEffect(plan, db, other, rs, key);
      }
    }
    SameForAllIsSame(plan, other, rs);
  }

  lemma {:induction false} DisjointFileKeepsIdle(plan: Planner, db: Db, rs: seq<Record>, other: seq<Record>)
    requires WriteFile(plan, db, rs) == db && Disjoint(rs, other)
    ensures WriteFile(plan, WriteFile(plan, db, other), rs) == WriteFile(plan, db, other)
  {
    forall key | Observations(rs, key) != []
      ensures SameFor(db, WriteFile(plan, db, other), key)
    {
      OtherKeysStay(plan, db, other, key);
    }
    IdleFileIsLocal(plan, db, WriteFile(plan, db, other), rs);
  }

  /* ---- Commits ---- */

  /** The tables after these commits. */
  ghost function TablesOf(c: Config, commits: seq<Version>): Db {
    WriteFiles(c.plan, EmptyDb, Committed(c, commits))
  }

  lemma {:induction false} TablesOfNext(c: Config, commits: seq<Version>, v: Version)
    ensures TablesOf(c, commits + [v]) == WriteFile(c.plan, TablesOf(c, commits), c.records(v))
  {
    assert (commits + [v])[..|commits|] == commits;
    var files := Committed(c, commits);
    assert (files + [c.records(v)])[..|files|] == files;
  }

  /** v was committed before, and since then only files without its properties. */
  ghost predicate IsRepeat(c: Config, commits: seq<Version>, v: Version) {
    exists i :: RepeatsAt(c, commits, v, i)
  }

  ghost predicate RepeatsAt(c: Config, commits: seq<Version>, v: Version, i: int) {
    && 0 <= i < |commits| && commits[i] == v
    && forall n :: i < n < |commits| ==> Disjoint(c.records(v), c.records(commits[n]))
  }

  ghost function WithoutRepeats(c: Config, commits: seq<Version>): seq<Version> {
    if commits == [] then []
    else
      var pre, v := commits[..|commits| - 1], commits[|commits| - 1];
      if IsRepeat(c, pre, v) then WithoutRepeats(c, pre) else WithoutRepeats(c, pre) + [v]
  }

  ghost predicate OneHashEach(c: Config, commits: seq<Version>) {
    forall v :: v in commits ==> OneHashPerProperty(c.records(v))
  }

  // A file stays idle as long as only files without its properties are written.
  lemma {:induction false} StaysIdle(c: Config, commits: seq<Version>, v: Version, i: int)
    requires RepeatsAt(c, commits, v, i) && OneHashPerProperty(c.records(v))
    ensures WriteFile(c.plan, TablesOf(c, commits), c.records(v)) == TablesOf(c, commits)
    decreases |commits|
  {
    var n := |commits| - 1;
    var pre, last := commits[..n], commits[n];
    SplitLast(commits);
    TablesOfNext(c, pre, last);
    if i == n {
      OneHashReplays(c.plan, TablesOf(c, pre), c.records(v));
    } else {
      assert RepeatsAt(c, pre, v, i);
      StaysIdle(c, pre, v, i);
      DisjointFileKeepsIdle(c.plan, TablesOf(c, pre), c.records(v), c.records(last));
    }
  }

  /** The tables are those of the commits without repeats. */
  lemma {:induction false} RepeatsChangeNothing(c: Config, commits: seq<Version>)
    requires OneHashEach(c, commits)
    ensures TablesOf(c, commits) == TablesOf(c, WithoutRepeats(c, commits))
  {
    if commits != [] {
      var n := |commits| - 1;
      var pre, v := commits[..n], commits[n];
      SplitLast(commits);
      RepeatsChangeNothing(c, pre);
      TablesOfNext(c, pre, v);
      if IsRepeat(c, pre, v) {
        var i :| RepeatsAt(c, pre, v, i);
        StaysIdle(c, pre, v, i);
      } else {
        TablesOfNext(c, WithoutRepeats(c, pre), v);
      }
    }
  }

  /** Nothing that bears on its properties was committed between two commits of a version. */
  ghost predicate RepeatsAreUndisturbed(c: Config, commits: seq<Version>) {
    forall n :: 0 <= n < |commits| && commits[n] in commits[..n] ==> IsRepeat(c, commits[..n], commits[n])
  }

  lemma {:induction false} SameVersions(c: Config, commits: seq<Version>)
    ensures forall v :: v in WithoutRepeats(c, commits) <==> v in commits
  {
    if commits != [] {
      SameVersions(c, commits[..|commits| - 1]);
      SplitLast(commits);
    }
  }

  lemma {:induction false} UndisturbedBefore(c: Config, commits: seq<Version>)
    requires commits != [] && RepeatsAreUndisturbed(c, commits)
    ensures RepeatsAreUndisturbed(c, commits[..|commits| - 1])
  {
    var pre := commits[..|commits| - 1];
    forall k | 0 <= k < |pre| && pre[k] in pre[..k]
      ensures IsRepeat(c, pre[..k], pre[k])
    {
      assert pre[..k] == commits[..k];
    }
  }

  lemma {:induction false} EachOnce(c: Config, commits: seq<Version>)
    requires RepeatsAreUndisturbed(c, commits)
    ensures NoRepeats(WithoutRepeats(c, commits))
  {
    if commits != [] {
      var pre := commits[..|commits| - 1];
      UndisturbedBefore(c, commits);
      EachOnce(c, pre);
      SameVersions(c, pre);
    }
  }

  /** Reprocessing creates nothing: in every run whose files have one hash for each property, the
      tables are those of the commits without repeats. If, between two commits of a version, only
      other properties were written, these are the committed versions, each once. */
  lemma {:induction false} RunsAreIdempotent(c: Config, steps: seq<Step>)
    requires OneHashEach(c, Reach(c, steps).t.commits)
    ensures var t := Reach(c, steps).t;
            var once := WithoutRepeats(c, t.commits);
            && t.db == TablesOf(c, once)
            && (forall v :: v in once <==> v in t.commits)
            && (RepeatsAreUndisturbed(c, t.commits) ==> NoRepeats(once))
  {
    RunsKeepInvariant(c, Start(c), steps);
    RepeatsChangeNothing(c, Reach(c, steps).t.commits);
    SameVersions(c, Reach(c, steps).t.commits);
    if RepeatsAreUndisturbed(c, Reach(c, steps).t.commits) {
      EachOnce(c, Reach(c, steps).t.commits);
    }
  }
}
