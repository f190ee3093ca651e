/** The price-change feed (store.go, ListPriceChanges) as a log of each property's prices. */
module ChangeFeed {
  import opened Options
  import opened Sorting
  import opened PriceStats

  datatype Row = Row(key: string, at: int, price: real)

  datatype Change = Change(key: string, at: int, oldPrice: real, newPrice: real)

  predicate Earlier(a: Row, b: Row) { a.at <= b.at }

  /** ORDER BY observed_at ASC, property_key ASC. */
  predicate FeedLeq(a: Change, b: Change) {
    a.at < b.at || (a.at == b.at && TextLeq(a.key, b.key))
  }

  function RowsOf(history: seq<Row>, key: string): seq<Row> {
    if history == [] then []
    else (if history[0].key == key then [history[0]] else []) + RowsOf(history[1..], key)
  }

  /** GetPriceHistory. */
  function Series(history: seq<Row>, key: string): seq<Row> {
    Sort(RowsOf(history, key), Earlier)
  }

  /** LAG(price) OVER (PARTITION BY property_key ORDER BY observed_at): the row in front. */
  function Lag(series: seq<Row>, row: Row): Option<Row> {
    if |series| < 2 then None
    else if series[1] == row then Some(series[0])
    else Lag(series[1..], row)
  }

  /** What the outer query reports for one row, if anything. */
  function Reported(history: seq<Row>, row: Row, since: int): seq<Change> {
    var lag := Lag(Series(history, row.key), row);
    if row.at >= since && lag.Some? && row.price != lag.value.price
    then [Change(row.key, row.at, lag.value.price, row.price)] else []
  }

  function Changes(history: seq<Row>, rows: seq<Row>, since: int): seq<Change> {
    if rows == [] then [] else Reported(history, rows[0], since) + Changes(history, rows[1..], since)
  }

  function ListPriceChanges(history: seq<Row>, since: int): seq<Change> {
    Sort(Changes(history, history, since), FeedLeq)
  }

  function FeedOf(feed: seq<Change>, key: string): seq<Change> {
    if feed == [] then []
    else (if feed[0].key == key then [feed[0]] else []) + FeedOf(feed[1..], key)
  }

  /* ---- The feed of one property ---- */

  /** The reference: one entry for every point not before `since` that differs from its
      predecessor. */
  function Log(series: seq<Row>, since: int): seq<Change> {
    if |series| < 2 then []
    else
      var n := |series| - 1;
      var p, q := series[n - 1], series[n];
      Log(series[..n], since)
      + if q.at >= since && q.price != p.price then [Change(q.key, q.at, p.price, q.price)] else []
  }

  function RowId(r: Row): (string, int) { (r.key, r.at) }

  function ChangeId(c: Change): (string, int) { (c.key, c.at) }

  ghost predicate DistinctTimes(history: seq<Row>) {
    Distinct(history, RowId)
  }

  ghost predicate Chronological(series: seq<Row>) {
    forall i, j :: 0 <= i < j < |series| ==> series[i].at < series[j].at
  }

  ghost predicate InTime(log: seq<Change>) {
    forall i, j :: 0 <= i < j < |log| ==> log[i].at < log[j].at
  }

  lemma {:induction false} OrdersAreTotal()
    ensures TotalPreorder(Earlier) && TotalPreorder(FeedLeq)
  {
    forall a: Change, b: Change
      ensures FeedLeq(a, b) || FeedLeq(b, a)
    {
      TextLeqIsTotal(a.key, b.key);
    }
    forall a: Change, b: Change, c: Change | FeedLeq(a, b) && FeedLeq(b, c)
      ensures FeedLeq(a, c)
    {
      if a.at == c.at {
        TextLeqIsTransitive(a.key, b.key, c.key);
      }
    }
  }

  lemma {:induction false} RowsOfFacts(history: seq<Row>, key: string)
    requires DistinctTimes(history)
    ensures forall r :: r in RowsOf(history, key) <==> r in history && r.key == key
    ensures Distinct(RowsOf(history, key), RowId)
  {
    if history != [] {
      var rest := history[1..];
      assert DistinctTimes(rest);
      RowsOfFacts(rest, key);
      assert history == [history[0]] + rest;
      assert forall r :: r in rest ==> (r.key, r.at) != (history[0].key, history[0].at);
    }
  }

  lemma {:induction false} SeriesFacts(history: seq<Row>, key: string)
    requires DistinctTimes(history)
    ensures forall r :: r in Series(history, key) <==> r in history && r.key == key
    ensures Chronological(Series(history, key))
  {
    OrdersAreTotal();
    RowsOfFacts(history, key);
    var rows, series := RowsOf(history, key), Series(history, key);
    SortSorts(rows, Earlier);
    DistinctIsPermuted(rows, series, RowId);
    forall i, j | 0 <= i < j < |series|
      ensures series[i].at < series[j].at
    {
      assert series[i] in series && series[j] in series;
      assert Earlier(series[i], series[j]);
    }
  }

  lemma {:induction false} LagIsPredecessor(series: seq<Row>, i: nat)
    requires Chronological(series) && i < |series|
    ensures Lag(series, series[i]) == if i == 0 then None else Some(series[i - 1])
  {
    if |series| >= 2 && i != 1 {
      LagIsPredecessor(series[1..], if i == 0 then 0 else i - 1);
      if i == 0 {
        LagOfOther(series[1..], series[0]);
      }
    }
  }

  lemma {:induction false} LagOfOther(series: seq<Row>, row: Row)
    requires row !in series
    ensures Lag(series, row) == None
  {
    if |series| >= 2 {
      LagOfOther(series[1..], row);
    }
  }

  // An entry of a property comes from two rows that follow each other in its series.
  predicate EntryAt(series: seq<Row>, since: int, c: Change, i: int) {
    && 0 < i < |series| && series[i].at >= since && series[i].price != series[i - 1].price
    && c == Change(series[i].key, series[i].at, series[i - 1].price, series[i].price)
  }

  ghost predicate IsEntry(series: seq<Row>, since: int, c: Change) {
    exists i :: EntryAt(series, since, c, i)
  }

  lemma {:induction false} LogEntries(series: seq<Row>, since: int)
    ensures forall c :: c in Log(series, since) <==> IsEntry(series, since, c)
  {
    if |series| >= 2 {
      var n := |series| - 1;
      LogEntries(series[..n], since);
      forall c, i | 0 < i < n
        ensures EntryAt(series[..n], since, c, i) == EntryAt(series, since, c, i)
      {
      }
      var last := Change(series[n].key, series[n].at, series[n - 1].price, series[n].price);
      forall c
        ensures IsEntry(series, since, c) <==> IsEntry(series[..n], since, c) || EntryAt(series, since, c, n)
      {
        if IsEntry(series, since, c) {
          var i :| EntryAt(series, since, c, i);
          assert i == n || EntryAt(series[..n], since, c, i);
        }
        if IsEntry(series[..n], since, c) {
          var i :| EntryAt(series[..n], since, c, i);
          assert EntryAt(series, since, c, i);
        }
      }
      assert forall c :: EntryAt(series, since, c, n) ==> c == last;
    }
  }

  lemma {:induction false} LogIsOrdered(series: seq<Row>, since: int)
    requires Chronological(series)
    ensures forall c :: c in Log(series, since) ==> c.at <= series[|series| - 1].at
    ensures InTime(Log(series, since))
  {
    if |series| >= 2 {
      var pre := series[..|series| - 1];
      LogIsOrdered(pre, since);
      assert pre[|pre| - 1].at < series[|series| - 1].at;
      forall i | 0 <= i < |Log(pre, since)|
        ensures Log(pre, since)[i].at < series[|series| - 1].at
      {
        assert Log(pre, since)[i] in Log(pre, since);
      }
    }
  }

  lemma {:induction false} LogIsEmptyBefore(series: seq<Row>, since: int)
    requires Chronological(series) && (series != [] ==> series[|series| - 1].at < since)
    ensures Log(series, since) == []
  {
    if |series| >= 2 {
      LogIsEmptyBefore(series[..|series| - 1], since);
    }
  }

  predicate Reports(history: seq<Row>, row: Row, since: int, c: Change) {
    Reported(history, row, since) == [c]
  }

  lemma {:induction false} ChangesMembers(history: seq<Row>, rows: seq<Row>, since: int, c: Change)
    ensures c in Changes(history, rows, since) <==> exists row :: row in rows && Reports(history, row, since, c)
  {
    if rows != [] {
      ChangesMembers(history, rows[1..], since, c);
      assert rows == [rows[0]] + rows[1..];
      assert Reports(history, rows[0], since, c) <==> c in Reported(history, rows[0], since);
    }
  }

  lemma {:induction false} ChangesAreDistinct(history: seq<Row>, rows: seq<Row>, since: int)
    requires DistinctTimes(rows)
    ensures Distinct(Changes(history, rows, since), ChangeId)
  {
    if rows != [] {
      var rest := rows[1..];
      assert DistinctTimes(rest);
      ChangesAreDistinct(history, rest, since);
      var behind := Changes(history, rest, since);
      forall i | 0 <= i < |behind|
        ensures ChangeId(behind[i]) != RowId(rows[0])
      {
        ChangesMembers(history, rest, since, behind[i]);
        var row :| row in rest && Reports(history, row, since, behind[i]);
        var j :| 0 <= j < |rest| && rest[j] == row;
        assert rows[j + 1] == row;
      }
    }
  }

  lemma {:induction false} FeedOfMembers(feed: seq<Change>, key: string)
    ensures forall c :: c in FeedOf(feed, key) ==> c in feed && c.key == key
    ensures forall c :: c in feed && c.key == key ==> c in FeedOf(feed, key)
  {
    if feed != [] {
      FeedOfMembers(feed[1..], key);
      assert feed == [feed[0]] + feed[1..];
    }
  }

  lemma {:induction false} FeedOfIsOrdered(feed: seq<Change>, key: string)
    requires Sorted(feed, FeedLeq) && Distinct(feed, ChangeId)
    ensures InTime(FeedOf(feed, key))
  {
    if feed != [] {
      var rest := feed[1..];
      assert Sorted(rest, FeedLeq) && Distinct(rest, ChangeId);
      FeedOfIsOrdered(rest, key);
      FeedOfMembers(rest, key);
      var own := FeedOf(rest, key);
      forall i | 0 <= i < |own| && feed[0].key == key
        ensures feed[0].at < own[i].at
      {
        assert own[i] in own;
        var j :| 0 <= j < |rest| && rest[j] == own[i];
        assert feed[j + 1] == own[i];
        assert FeedLeq(feed[0], own[i]) && ChangeId(feed[0]) != ChangeId(own[i]);
      }
      assert FeedOf(feed, key) == (if feed[0].key == key then [feed[0]] else []) + own;
    }
  }

  lemma {:induction false} SameEntriesSameLog(a: seq<Change>, b: seq<Change>)
    requires InTime(a) && InTime(b) && forall c :: c in a <==> c in b
    ensures a == b
  {
    assert a != [] ==> a[0] in b;
    assert b != [] ==> b[0] in a;
    if a != [] {
      assert a[0] == b[0];
      forall c
        ensures c in a[1..] <==> c in b[1..]
      {
        assert c in a <==> c == a[0] || c in a[1..];
        assert c in b <==> c == b[0] || c in b[1..];
      }
      SameEntriesSameLog(a[1..], b[1..]);
    }
  }

  lemma {:induction false} ReportsAreEntries(history: seq<Row>, key: string, since: int, c: Change)
    requires DistinctTimes(history)
    ensures (exists row :: row in history && row.key == key && Reports(history, row, since, c))
            <==> IsEntry(Series(history, key), since, c)
  {
    var series := Series(history, key);
    SeriesFacts(history, key);
    forall row | row in history && row.key == key && Reports(history, row, since, c)
      ensures IsEntry(series, since, c)
    {
      assert row in series;
      var i :| 0 <= i < |series| && series[i] == row;
      LagIsPredecessor(series, i);
      assert EntryAt(series, since, c, i);
    }
    if IsEntry(series, since, c) {
      var i :| EntryAt(series, since, c, i);
      LagIsPredecessor(series, i);
      assert series[i] in series;
      assert Reports(history, series[i], since, c);
    }
  }

  /** What the window query reports for a property is the log of its series. */
  lemma {:induction false} FeedIsLog(history: seq<Row>, since: int, key: string)
    requires DistinctTimes(history)
    ensures FeedOf(ListPriceChanges(history, since), key) == Log(Series(history, key), since)
  {
    OrdersAreTotal();
    var changes, feed, series := Changes(history, history, since), ListPriceChanges(history, since), Series(history, key);
    ChangesAreDistinct(history, history, since);
    SortSorts(changes, FeedLeq);
    DistinctIsPermuted(changes, feed, ChangeId);
    FeedOfMembers(feed, key);
    FeedOfIsOrdered(feed, key);
    SeriesFacts(history, key);
    LogEntries(series, since);
    LogIsOrdered(series, since);
    forall c
      ensures c in FeedOf(feed, key) <==> c in Log(series, since)
    {
      ChangesMembers(history, history, since, c);
      ReportsAreEntries(history, key, since, c);
      ReportsKeepKey(history, c, since);
    }
    SameEntriesSameLog(FeedOf(feed, key), Log(series, since));
  }

  lemma {:induction false} ReportsKeepKey(history: seq<Row>, c: Change, since: int)
    ensures forall row :: Reports(history, row, since, c) ==> row.key == c.key
    ensures forall key :: DistinctTimes(history) && IsEntry(Series(history, key), since, c) ==> c.key == key
  {
    forall key | DistinctTimes(history) && IsEntry(Series(history, key), since, c)
      ensures c.key == key
    {
      SeriesFacts(history, key);
      var i :| EntryAt(Series(history, key), since, c, i);
      assert Series(history, key)[i] in Series(history, key);
    }
  }

  /* ---- The order of the feed ---- */

  /** By time, and at equal times by property. */
  predicate ComesBefore(a: Change, b: Change) {
    a.at < b.at || (a.at == b.at && a.key != b.key && TextLeq(a.key, b.key))
  }

  ghost predicate InFeedOrder(feed: seq<Change>) {
    forall i, j :: 0 <= i < j < |feed| ==> ComesBefore(feed[i], feed[j])
  }

  /** The feed runs by time, and at equal times by property; no property is named twice at a time. */
  lemma {:induction false} FeedRunsInOrder(history: seq<Row>, since: int)
    requires DistinctTimes(history)
    ensures InFeedOrder(ListPriceChanges(history, since))
  {
    var changes, feed := Changes(history, history, since), ListPriceChanges(history, since);
    OrdersAreTotal();
    ChangesAreDistinct(history, history, since);
    SortSorts(changes, FeedLeq);
    DistinctIsPermuted(changes, feed, ChangeId);
    forall i, j | 0 <= i < j < |feed|
      ensures ComesBefore(feed[i], feed[j])
    {
      assert FeedLeq(feed[i], feed[j]) && ChangeId(feed[i]) != ChangeId(feed[j]);
    }
  }

  lemma {:induction false} ComesBeforeIsStrict(a: Change, b: Change)
    ensures !ComesBefore(a, a) && (ComesBefore(a, b) ==> !ComesBefore(b, a))
  {
    TextLeqIsTotal(a.key, b.key);
  }

  /** It is the only list in this order that has, for each property, the entries of its log. */
  lemma {:induction false} FeedIsTheOnly(history: seq<Row>, since: int, other: seq<Change>)
    requires DistinctTimes(history) && InFeedOrder(other)
    requires forall key :: FeedOf(other, key) == Log(Series(history, key), since)
    ensures other == ListPriceChanges(history, since)
  {
    var feed := ListPriceChanges(history, since);
    FeedRunsInOrder(history, since);
    forall c
      ensures c in other <==> c in feed
    {
      FeedIsLog(history, since, c.key);
      FeedOfMembers(other, c.key);
      FeedOfMembers(feed, c.key);
    }
    forall a, b
      ensures !ComesBefore(a, a) && (ComesBefore(a, b) ==> !ComesBefore(b, a))
    {
      ComesBeforeIsStrict(a, b);
    }
    StrictIsUnique(other, feed, ComesBefore);
  }

  /* ---- The log is faithful ---- */

  function PriceAt(series: seq<Row>, t: int): real
    requires series != []
  {
    var last := series[|series| - 1];
    if |series| == 1 || last.at <= t then last.price else PriceAt(series[..|series| - 1], t)
  }

  /** The price a reader starts from: the one in force before `since`, or the first one. */
  function BasePrice(series: seq<Row>, since: int): real
    requires series != []
  {
    PriceAt(series, since - 1)
  }

  function Replay(base: real, log: seq<Change>, t: int): real {
    if log == [] then base
    else
      var last := log[|log| - 1];
      if last.at <= t then last.newPrice else Replay(base, log[..|log| - 1], t)
  }

  /** Replaying the log gives the price in force at every time from `since` on. */
  lemma {:induction false} ReplayIsFaithful(series: seq<Row>, since: int, t: int)
    requires Chronological(series) && series != [] && since <= t
    ensures Replay(BasePrice(series, since), Log(series, since), t) == PriceAt(series, t)
  {
    if |series| >= 2 {
      var n := |series| - 1;
      var pre, q := series[..n], series[n];
      var log := Log(series, since);
      if q.at < since {
        LogIsEmptyBefore(series, since);
      } else {
        ReplayIsFaithful(pre, since, t);
        assert BasePrice(series, since) == BasePrice(pre, since);
        if q.price != series[n - 1].price {
          assert log[..|log| - 1] == Log(pre, since) && log[|log| - 1].at == q.at;
        } else {
          assert log == Log(pre, since);
          assert q.at <= t ==> PriceAt(pre, t) == series[n - 1].price;
        }
      }
    }
  }

  /** Each old price is the new price of the entry before; the first is the base price. */
  lemma {:induction false} EntriesChain(series: seq<Row>, since: int)
    requires Chronological(series) && series != []
    ensures var log := Log(series, since);
            && (forall i :: 0 < i < |log| ==> log[i].oldPrice == log[i - 1].newPrice)
            && (log != [] ==> log[0].oldPrice == BasePrice(series, since))
            && (log != [] ==> log[|log| - 1].newPrice == series[|series| - 1].price)
            && (log == [] ==> series[|series| - 1].price == BasePrice(series, since))
  {
    if |series| >= 2 {
      var n := |series| - 1;
      var pre := series[..n];
      EntriesChain(pre, since);
      if series[n].at < since {
        LogIsEmptyBefore(pre, since);
      }
    }
  }

  function Points(series: seq<Row>): (points: seq<PricePoint>)
    ensures |points| == |series|
    ensures forall i :: 0 <= i < |series| ==> points[i] == PricePoint(series[i].at, series[i].price)
  {
    seq(|series|, i requires 0 <= i < |series| => PricePoint(series[i].at, series[i].price))
  }

  function TotalDelta(log: seq<Change>): real {
    if log == [] then 0.0
    else TotalDelta(log[..|log| - 1]) + (log[|log| - 1].newPrice - log[|log| - 1].oldPrice)
  }

  /** Without a cut-off the log agrees with the statistics of the series: it has NumPriceChanges
      entries, and they sum to AbsChange. */
  lemma {:induction false} LogAgreesWithStats(series: seq<Row>, since: int)
    requires Chronological(series) && series != [] && since <= series[0].at
    ensures |Log(series, since)| == |ChangePoints(Points(series))|
    ensures TotalDelta(Log(series, since)) == series[|series| - 1].price - series[0].price
  {
    var n := |series| - 1;
    if n == 0 {
      assert ChangePoints(Points(series)) == {};
    } else {
      var pre := series[..n];
      LogAgreesWithStats(pre, since);
      assert Points(series)[..n] == Points(pre);
      ChangePointsOfLast(Points(series));
      var log := Log(series, since);
      if series[n].price != series[n - 1].price {
        assert log[..|log| - 1] == Log(pre, since);
      } else {
        assert log == Log(pre, since);
      }
    }
  }
}
