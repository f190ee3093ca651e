/** Statistics of one price series (price_history.go). Prices are real numbers, times are whole
    seconds. */
module PriceStats {
  import opened Options

  datatype PricePoint = PricePoint(at: int, price: real)

  /** The two times stand for the formatted strings, None for the empty one. */
  datatype Stats = Stats(
    firstObservedAt: Option<int>, lastObservedAt: Option<int>,
    firstPrice: real, lastPrice: real, absChange: real, pctChange: real,
    minPrice: real, maxPrice: real,
    numObservations: int, numPriceChanges: int, daysSinceLastChange: int, maxDrawdownPct: real)

  const SECONDS_PER_DAY := 86400

  // int(d.Hours() / 24): towards zero.
  function WholeDays(seconds: int): (days: int)
    ensures seconds >= 0 ==> days * 86400 <= seconds < (days + 1) * 86400
    ensures seconds <= 0 ==> (days - 1) * 86400 < seconds <= days * 86400
  {
    if seconds >= 0 then seconds / SECONDS_PER_DAY else -((-seconds) / SECONDS_PER_DAY)
  }

  predicate ChangesAt(series: seq<PricePoint>, i: int)
    requires 0 < i < |series|
  {
    series[i - 1].price != series[i].price
  }

  ghost function ChangePoints(series: seq<PricePoint>): set<int> {
    set i | 0 < i < |series| && ChangesAt(series, i)
  }

  ghost predicate IsLeast(series: seq<PricePoint>, p: real) {
    (exists i :: 0 <= i < |series| && series[i].price == p) && forall i :: 0 <= i < |series| ==> p <= series[i].price
  }

  ghost predicate IsGreatest(series: seq<PricePoint>, p: real) {
    (exists i :: 0 <= i < |series| && series[i].price == p) && forall i :: 0 <= i < |series| ==> series[i].price <= p
  }

  /** A part in percent of the whole, and 0 percent of nothing. */
  function Percent(part: real, whole: real): real {
    if whole == 0.0 then 0.0 else part / whole * 100.0
  }

  /** Percent p of the whole are the part: p * whole == 100 * part. */
  lemma {:induction false} PercentExactly(part: real, whole: real, p: real)
    requires whole != 0.0
    ensures p == Percent(part, whole) <==> p * whole == 100.0 * part
  {
    var r := part / whole;
    assert r * whole == part;
    assert (r * 100.0) * whole == 100.0 * part;
    if p * whole == 100.0 * part {
      assert (p - r * 100.0) * whole == 0.0;
    }
  }

  /** The fall from p to q in percent of p. */
  function Drop(p: real, q: real): real
    requires p > 0.0
  {
    Percent(p - q, p)
  }

  /** d is the largest fall from a running peak, or 0 where there is none. */
  ghost predicate IsPeakDrawdown(series: seq<PricePoint>, d: real) {
    && d >= 0.0
    && (forall j, peak :: 0 <= j < |series| && IsGreatest(series[..j + 1], peak) && peak > 0.0 ==>
          Drop(peak, series[j].price) <= d)
    && (d > 0.0 ==> exists j, peak :: 0 <= j < |series| && IsGreatest(series[..j + 1], peak) && peak > 0.0
                                      && Drop(peak, series[j].price) == d)
  }

  /** d is the largest fall from any positive price to a later one (or to itself). */
  ghost predicate IsMaxDrawdown(series: seq<PricePoint>, d: real) {
    && (forall i, j :: 0 <= i <= j < |series| && series[i].price > 0.0 ==> Drop(series[i].price, series[j].price) <= d)
    && (if exists i :: 0 <= i < |series| && series[i].price > 0.0
        then exists i, j :: 0 <= i <= j < |series| && series[i].price > 0.0 && Drop(series[i].price, series[j].price) == d
        else d == 0.0)
  }

  predicate NonNegative(series: seq<PricePoint>) {
    forall i :: 0 <= i < |series| ==> series[i].price >= 0.0
  }

  /** The time of the last change, if there is one. */
  ghost predicate IsLastChange(series: seq<PricePoint>, at: int) {
    forall i :: i in ChangePoints(series) && (forall j :: j in ChangePoints(series) ==> j <= i) ==> at == series[i].at
  }

  /** Whole days from the last change to the end of the series, and 0 without a change. */
  ghost predicate IsDaysSinceChange(series: seq<PricePoint>, days: int)
    requires series != []
  {
    exists at :: IsLastChange(series, at) &&
      days == if ChangePoints(series) == {} then 0 else WholeDays(series[|series| - 1].at - at)
  }

  /** The variables of the loop. */
  datatype Scan = Scan(minPrice: real, maxPrice: real, peak: real, changes: int, lastChangeAt: int, drawdown: real)

  ghost predicate IsScan(series: seq<PricePoint>, s: Scan) {
    && IsLeast(series, s.minPrice) && IsGreatest(series, s.maxPrice) && IsGreatest(series, s.peak)
    && s.changes == |ChangePoints(series)| && IsLastChange(series, s.lastChangeAt)
    && IsPeakDrawdown(series, s.drawdown)
  }

  /** The loop of computePriceHistoryStats. */
  method ScanSeries(series: seq<PricePoint>) returns (scan: Scan)
    requires series != []
    ensures scan == ScanOf(series)
  {
    var minPrice, maxPrice, peak := series[0].price, series[0].price, series[0].price;
    var numPriceChanges, lastChangeAt, maxDrawdownPct := 0, 0, 0.0;
    var i := 1;
    while i < |series|
      invariant 1 <= i <= |series|
      invariant ScanOf(series[..i]) == Scan(minPrice, maxPrice, peak, numPriceChanges, lastChangeAt, maxDrawdownPct)
    {
      assert series[..i + 1][..i] == series[..i];
      var price := series[i].price;
      if price < minPrice { minPrice := price; }
      if price > maxPrice { maxPrice := price; }
      var prevPrice := series[i - 1].price;
      if price != prevPrice {
        numPriceChanges := numPriceChanges + 1;
        lastChangeAt := series[i].at;
      }
      if price > peak {
        peak := price;
      } else if peak > 0.0 && price < peak {
        var drawdown := Drop(peak, price);
        if drawdown > maxDrawdownPct { maxDrawdownPct := drawdown; }
      }
      i := i + 1;
    }
    assert series[..i] == series;
    scan := Scan(minPrice, maxPrice, peak, numPriceChanges, lastChangeAt, maxDrawdownPct);
  }

  /** The variables after the loop. */
  function ScanOf(series: seq<PricePoint>): Scan
    requires series != []
  {
    var n := |series| - 1;
    if n == 0 then Scan(series[0].price, series[0].price, series[0].price, 0, 0, 0.0)
    else NextScan(ScanOf(series[..n]), series[n - 1], series[n])
  }

  /** computePriceHistoryStats, over any series. */
  method ComputePriceHistoryStats(series: seq<PricePoint>) returns (stats: Stats)
    ensures stats.numObservations == |series|
    ensures series == [] ==> stats == Stats(None, None, 0.0, 0.0, 0.0, 0.0, 0.0, 0.0, 0, 0, 0, 0.0)
    ensures series != [] ==> HasEnds(series, stats) && HasScan(series, stats)
    ensures stats.numPriceChanges == |ChangePoints(series)| && IsPeakDrawdown(series, stats.maxDrawdownPct)
  {
    stats := Stats(None, None, 0.0, 0.0, 0.0, 0.0, 0.0, 0.0, |series|, 0, 0, 0.0);
    if |series| == 0 { return; }
    var first, last := series[0], series[|series| - 1];
    stats := stats.(firstObservedAt := Some(first.at), lastObservedAt := Some(last.at),
                    firstPrice := first.price, lastPrice := last.price, absChange := last.price - first.price);
    if first.price != 0.0 {
      stats := stats.(pctChange := Percent(stats.absChange, first.price));
    }
    assert HasEnds(series, stats);
    var scan := ScanSeries(series);
    ScanIsRight(series);
    ScanIsStats(series, scan, stats);
    stats := stats.(minPrice := scan.minPrice, maxPrice := scan.maxPrice,
                    numPriceChanges := scan.changes, maxDrawdownPct := scan.drawdown);
    if stats.numPriceChanges > 0 {
      stats := stats.(daysSinceLastChange := WholeDays(last.at - scan.lastChangeAt));
    }
  }

  /** The fields that come from the first and the last point. */
  predicate HasEnds(series: seq<PricePoint>, stats: Stats)
    requires series != []
  {
    var first, last := series[0], series[|series| - 1];
    && stats.firstObservedAt == Some(first.at) && stats.lastObservedAt == Some(last.at)
    && stats.firstPrice == first.price && stats.lastPrice == last.price
    && stats.absChange == last.price - first.price
    && stats.pctChange == Percent(last.price - first.price, first.price)
  }

  /** The fields that come from the loop. */
  ghost predicate HasScan(series: seq<PricePoint>, stats: Stats)
    requires series != []
  {
    && IsLeast(series, stats.minPrice) && IsGreatest(series, stats.maxPrice)
    && stats.numPriceChanges == |ChangePoints(series)|
    && IsDaysSinceChange(series, stats.daysSinceLastChange)
    && IsPeakDrawdown(series, stats.maxDrawdownPct)
  }

  lemma {:induction false} ScanIsStats(series: seq<PricePoint>, scan: Scan, stats: Stats)
    requires series != [] && IsScan(series, scan)
    ensures HasScan(series, stats.(minPrice := scan.minPrice, maxPrice := scan.maxPrice, numPriceChanges := scan.changes,
                                   maxDrawdownPct := scan.drawdown,
                                   daysSinceLastChange := DaysSince(series, scan)))
  {
    DaysSinceChange(series, scan);
  }

  function DaysSince(series: seq<PricePoint>, scan: Scan): int
    requires series != []
  {
    if scan.changes > 0 then WholeDays(series[|series| - 1].at - scan.lastChangeAt) else 0
  }

  lemma {:induction false} DaysSinceChange(series: seq<PricePoint>, scan: Scan)
    requires series != [] && IsScan(series, scan)
    ensures IsDaysSinceChange(series, DaysSince(series, scan))
  {
    assert ChangePoints(series) == {} <==> scan.changes == 0;
  }

  lemma {:induction false} ScanOfOne(series: seq<PricePoint>)
    requires |series| == 1
    ensures IsScan(series, Scan(series[0].price, series[0].price, series[0].price, 0, 0, 0.0))
  {
    assert ChangePoints(series) == {};
    forall j, peak | 0 <= j < |series| && IsGreatest(series[..j + 1], peak) && peak > 0.0
      ensures Drop(peak, series[j].price) <= 0.0
    {
      assert series[..j + 1] == series;
      DropSign(peak, peak);
    }
  }

  // One iteration of the loop.
  function NextScan(s: Scan, previous: PricePoint, point: PricePoint): Scan {
    var price, differs := point.price, previous.price != point.price;
    Scan(
      if price < s.minPrice then price else s.minPrice,
      if price > s.maxPrice then price else s.maxPrice,
      if price > s.peak then price else s.peak,
      if differs then s.changes + 1 else s.changes,
      if differs then point.at else s.lastChangeAt,
      DeepestWith(s.peak, price, s.drawdown))
  }

  /** The loop finds the least and the greatest price, the number and the last time of the changes,
      and the deepest fall from a running peak. */
  lemma {:induction false} ScanIsRight(series: seq<PricePoint>)
    requires series != []
    ensures IsScan(series, ScanOf(series))
  {
    var n := |series| - 1;
    if n == 0 {
      ScanOfOne(series);
    } else {
      ScanIsRight(series[..n]);
      ScanOfLast(series, ScanOf(series[..n]));
    }
  }

  lemma {:induction false} ScanOfLast(series: seq<PricePoint>, s: Scan)
    requires |series| > 1 && IsScan(series[..|series| - 1], s)
    ensures IsScan(series, NextScan(s, series[|series| - 2], series[|series| - 1]))
  {
    ChangePointsOfLast(series);
    LeastOfLast(series, s.minPrice);
    GreatestOfLast(series, s.maxPrice);
    GreatestOfLast(series, s.peak);
    DrawdownOfLast(series, s.peak, s.drawdown);
  }

  function DeepestWith(peak: real, price: real, d: real): real {
    if peak > 0.0 && price < peak && Drop(peak, price) > d then Drop(peak, price) else d
  }

  lemma {:induction false} ChangePointsOfLast(series: seq<PricePoint>)
    requires |series| > 1
    ensures var n := |series| - 1;
            && ChangePoints(series) == ChangePoints(series[..n]) + (if ChangesAt(series, n) then {n} else {})
            && n !in ChangePoints(series[..n])
  {
    var n := |series| - 1;
    assert forall i :: 0 < i < n ==> ChangesAt(series[..n], i) == ChangesAt(series, i);
  }

  lemma {:induction false} GreatestOfLast(series: seq<PricePoint>, p: real)
    requires |series| > 1 && IsGreatest(series[..|series| - 1], p)
    ensures var q := series[|series| - 1].price; IsGreatest(series, if q > p then q else p)
  {
    var n := |series| - 1;
    var i :| 0 <= i < n && series[..n][i].price == p;
    assert series[i].price == p;
    assert forall i :: 0 <= i < n ==> series[..n][i] == series[i];
  }

  lemma {:induction false} LeastOfLast(series: seq<PricePoint>, p: real)
    requires |series| > 1 && IsLeast(series[..|series| - 1], p)
    ensures var q := series[|series| - 1].price; IsLeast(series, if q < p then q else p)
  {
    var n := |series| - 1;
    var i :| 0 <= i < n && series[..n][i].price == p;
    assert series[i].price == p;
    assert forall i :: 0 <= i < n ==> series[..n][i] == series[i];
  }

  lemma {:induction false} GreatestIsUnique(series: seq<PricePoint>, p: real, q: real)
    requires IsGreatest(series, p) && IsGreatest(series, q)
    ensures p == q
  {
  }

  // What one more price does to the drawdown from running peaks.
  lemma {:induction false} DrawdownOfLast(series: seq<PricePoint>, peak: real, d: real)
    requires |series| > 1 && IsPeakDrawdown(series[..|series| - 1], d)
    requires IsGreatest(series[..|series| - 1], peak)
    ensures IsPeakDrawdown(series, DeepestWith(peak, series[|series| - 1].price, d))
  {
    var n := |series| - 1;
    var price := series[n].price;
    var newPeak := if price > peak then price else peak;
    GreatestOfLast(series, peak);
    var d' := DeepestWith(peak, price, d);
    assert series[..n + 1] == series;
    forall j, p | 0 <= j < |series| && IsGreatest(series[..j + 1], p) && p > 0.0
      ensures Drop(p, series[j].price) <= d'
    {
      if j < n {
        assert series[..n][..j + 1] == series[..j + 1];
      } else {
        GreatestIsUnique(series, p, newPeak);
        DropSign(p, price);
      }
    }
    if d' > 0.0 && d' == d {
      var j, p :| 0 <= j < n && IsGreatest(series[..n][..j + 1], p) && p > 0.0 && Drop(p, series[..n][j].price) == d;
      assert series[..n][..j + 1] == series[..j + 1];
    }
  }

  /* ---- Max drawdown ---- */

  lemma {:induction false} ScaledOrder(x: real, y: real, w: real)
    requires w > 0.0
    ensures x <= y <==> x * w <= y * w
  {
    if x <= y {
      assert (y - x) * w >= 0.0;
    } else {
      assert (x - y) * w > 0.0;
    }
  }

  lemma {:induction false} CrossMultiply(a: real, b: real, c: real, d: real)
    requires b > 0.0 && d > 0.0
    ensures a / b <= c / d <==> a * d <= c * b
  {
    var x, y := a / b, c / d;
    assert x * b == a && y * d == c;
    assert x * (b * d) == a * d && y * (b * d) == c * b;
    ScaledOrder(x, y, b * d);
  }

  lemma {:induction false} DropSign(p: real, q: real)
    requires p > 0.0
    ensures Drop(p, q) > 0.0 <==> q < p
    ensures Drop(p, p) == 0.0
    ensures Drop(p, q) <= 100.0 <==> q >= 0.0
  {
    var x := (p - q) / p;
    assert x * p == p - q;
    assert x <= 1.0 <==> x * p <= 1.0 * p;
  }

  // From a higher price, the fall to the same non-negative price is at least as deep.
  lemma {:induction false} DropGrows(p: real, q: real, to: real)
    requires 0.0 < p <= q && to >= 0.0
    ensures Drop(p, to) <= Drop(q, to)
  {
    assert (q - to) * p - (p - to) * q == to * (q - p);
    CrossMultiply(p - to, p, q - to, q);
  }

  lemma {:induction false} HasGreatest(series: seq<PricePoint>) returns (p: real)
    requires series != []
    ensures IsGreatest(series, p)
  {
    if |series| == 1 {
      p := series[0].price;
    } else {
      var n := |series| - 1;
      p := HasGreatest(series[..n]);
      GreatestOfLast(series, p);
      if series[n].price > p { p := series[n].price; }
    }
  }

  // To a price below zero it is less deep.
  lemma {:induction false} DropShrinks(p: real, q: real, to: real)
    requires 0.0 < p < q && to < 0.0
    ensures Drop(q, to) < Drop(p, to)
  {
    var below := -to;
    assert (p - to) * q == p * q + below * q && (q - to) * p == p * q + below * p;
    ScaledOrder(p, q, below);
    CrossMultiply(p - to, p, q - to, q);
  }

  /** All positive prices up to position j are p. */
  predicate SingleLevel(series: seq<PricePoint>, j: int, p: real)
    requires 0 <= j < |series|
  {
    forall k :: 0 <= k <= j && series[k].price > 0.0 ==> series[k].price == p
  }

  /** At one position: the fall from the running peak is the deepest one from any positive price
      if and only if it does not end below zero, or all positive prices so far are the peak. */
  lemma {:induction false} PeakFallIsDeepestExactly(series: seq<PricePoint>, j: int, peak: real)
    requires 0 <= j < |series| && IsGreatest(series[..j + 1], peak) && peak > 0.0
    ensures (forall i :: 0 <= i <= j && series[i].price > 0.0 ==>
               Drop(series[i].price, series[j].price) <= Drop(peak, series[j].price))
            <==> series[j].price >= 0.0 || SingleLevel(series, j, peak)
  {
    var to := series[j].price;
    forall i | 0 <= i <= j && series[i].price > 0.0
      ensures series[i].price <= peak
      ensures to >= 0.0 ==> Drop(series[i].price, to) <= Drop(peak, to)
      ensures to < 0.0 ==> (Drop(series[i].price, to) <= Drop(peak, to) <==> series[i].price == peak)
    {
      assert series[..j + 1][i] == series[i];
      if to >= 0.0 {
        DropGrows(series[i].price, peak, to);
      } else if series[i].price < peak {
        DropShrinks(series[i].price, peak, to);
      }
    }
  }

  lemma {:induction false} PairsAreCovered(series: seq<PricePoint>, d: real, i: nat, j: nat)
    requires IsPeakDrawdown(series, d)
    requires i <= j < |series| && series[i].price > 0.0
    requires series[j].price >= 0.0 || SingleLevel(series, j, series[i].price)
    ensures Drop(series[i].price, series[j].price) <= d
  {
    var peak := HasGreatest(series[..j + 1]);
    assert series[..j + 1][i] == series[i];
    var m :| 0 <= m <= j && series[..j + 1][m].price == peak;
    assert series[m].price == peak;
    PeakFallIsDeepestExactly(series, j, peak);
  }

  lemma {:induction false} DeepestPair(series: seq<PricePoint>, d: real) returns (i: nat, j: nat)
    requires IsPeakDrawdown(series, d) && d > 0.0
    ensures i <= j < |series| && series[i].price > 0.0 && Drop(series[i].price, series[j].price) == d
  {
    var n, peak :| 0 <= n < |series| && IsGreatest(series[..n + 1], peak) && peak > 0.0 && Drop(peak, series[n].price) == d;
    var m :| 0 <= m < |series[..n + 1]| && series[..n + 1][m].price == peak;
    i, j := m, n;
  }

  /** A fall from a positive price to one below zero. */
  predicate FallsBelowZero(series: seq<PricePoint>, i: int, j: int) {
    0 <= i <= j < |series| && series[i].price > 0.0 && series[j].price < 0.0
  }

  /** The deepest of these. */
  ghost predicate IsDeepestBelowZero(series: seq<PricePoint>, i: int, j: int) {
    && FallsBelowZero(series, i, j)
    && forall m, n :: FallsBelowZero(series, m, n) ==>
         Drop(series[m].price, series[n].price) <= Drop(series[i].price, series[j].price)
  }

  ghost predicate NeverBelowZero(series: seq<PricePoint>) {
    forall i, j :: !FallsBelowZero(series, i, j)
  }

  /** No price below zero stands behind a positive one, or a deepest fall below zero starts at the
      only positive price seen so far. */
  ghost predicate PeaksSuffice(series: seq<PricePoint>) {
    NeverBelowZero(series)
    || exists i, j :: IsDeepestBelowZero(series, i, j) && SingleLevel(series, j, series[i].price)
  }

  // A fall of more than 100 percent ends below zero.
  lemma {:induction false} PeakFallOver100(series: seq<PricePoint>, d: real)
    requires IsPeakDrawdown(series, d)
    ensures d <= 100.0 <==> NeverBelowZero(series)
  {
    if d > 100.0 {
      var i, j := DeepestPair(series, d);
      DropSign(series[i].price, series[j].price);
      assert FallsBelowZero(series, i, j);
    }
    if i, j :| FallsBelowZero(series, i, j) {
      var peak := HasGreatest(series[..j + 1]);
      assert series[..j + 1][i] == series[i];
      DropSign(peak, series[j].price);
    }
  }

  lemma {:induction false} PeaksAreNeeded(series: seq<PricePoint>, d: real)
    requires IsPeakDrawdown(series, d) && IsMaxDrawdown(series, d) && !NeverBelowZero(series)
    ensures PeaksSuffice(series)
  {
    PeakFallOver100(series, d);
    var j, peak :| 0 <= j < |series| && IsGreatest(series[..j + 1], peak) && peak > 0.0
                   && Drop(peak, series[j].price) == d;
    var i :| 0 <= i < |series[..j + 1]| && series[..j + 1][i].price == peak;
    assert series[i].price == peak;
    DropSign(peak, series[j].price);
    assert IsDeepestBelowZero(series, i, j);
    PeakFallIsDeepestExactly(series, j, peak);
    assert SingleLevel(series, j, series[i].price);
  }

  lemma {:induction false} PeaksAreEnough(series: seq<PricePoint>, d: real)
    requires IsPeakDrawdown(series, d) && PeaksSuffice(series)
    ensures IsMaxDrawdown(series, d)
  {
    if i, j :| IsDeepestBelowZero(series, i, j) && SingleLevel(series, j, series[i].price) {
      PairsAreCovered(series, d, i, j);
    }
    forall i, j | 0 <= i <= j < |series| && series[i].price > 0.0
      ensures Drop(series[i].price, series[j].price) <= d
      ensures Drop(series[i].price, series[i].price) == 0.0
    {
      DropSign(series[i].price, series[j].price);
      if series[j].price >= 0.0 {
        PairsAreCovered(series, d, i, j);
      } else {
        assert FallsBelowZero(series, i, j);
      }
    }
    if d > 0.0 {
      var i, j := DeepestPair(series, d);
    }
  }

  /** For every series the running-peak form is the largest fall over all pairs if and only if the
      running peaks suffice. It exceeds 100 percent exactly when a price below zero stands behind a
      positive one, and it is 0 exactly when no price falls from a positive one. */
  lemma {:induction false} DrawdownIsOverAllPairsExactly(series: seq<PricePoint>, d: real)
    requires IsPeakDrawdown(series, d)
    ensures IsMaxDrawdown(series, d) <==> PeaksSuffice(series)
    ensures d <= 100.0 <==> NeverBelowZero(series)
    ensures d == 0.0 <==> NeverFalls(series)
  {
    PeakFallOver100(series, d);
    PeakFallIsZero(series, d);
    if PeaksSuffice(series) {
      PeaksAreEnough(series, d);
    } else if IsMaxDrawdown(series, d) {
      PeaksAreNeeded(series, d);
    }
  }

  ghost predicate NeverFalls(series: seq<PricePoint>) {
    forall i, j :: 0 <= i <= j < |series| && series[i].price > 0.0 ==> series[i].price <= series[j].price
  }

  lemma {:induction false} PeakFallIsZero(series: seq<PricePoint>, d: real)
    requires IsPeakDrawdown(series, d)
    ensures d == 0.0 <==> NeverFalls(series)
  {
    if d > 0.0 {
      var i, j := DeepestPair(series, d);
      DropSign(series[i].price, series[j].price);
    } else {
      forall i, j | 0 <= i <= j < |series| && series[i].price > 0.0
        ensures series[i].price <= series[j].price
      {
        var peak := HasGreatest(series[..j + 1]);
        assert series[..j + 1][i] == series[i];
        DropSign(peak, series[j].price);
      }
    }
  }

  /** For prices that are never negative it is the largest fall over all pairs, a percentage, and
      0 exactly when the series never falls. */
  lemma {:induction false} DrawdownIsOverAllPairs(series: seq<PricePoint>, d: real)
    requires NonNegative(series) && IsPeakDrawdown(series, d)
    ensures IsMaxDrawdown(series, d)
    ensures 0.0 <= d <= 100.0
    ensures d == 0.0 <==> forall i, j :: 0 <= i <= j < |series| ==> series[i].price <= series[j].price
  {
    DrawdownIsOverAllPairsExactly(series, d);
    assert NeverBelowZero(series);
  }

  /** A negative price breaks the equality: after 100 and 200, the price -50 is a deeper fall from
      100, in percent, than from the peak. */
  lemma {:induction false} NegativePriceFallsDeeper(d: real)
    requires IsPeakDrawdown([PricePoint(0, 100.0), PricePoint(1, 200.0), PricePoint(2, -50.0)], d)
    ensures !IsMaxDrawdown([PricePoint(0, 100.0), PricePoint(1, 200.0), PricePoint(2, -50.0)], d)
  {
    var series := [PricePoint(0, 100.0), PricePoint(1, 200.0), PricePoint(2, -50.0)];
    assert Drop(series[0].price, series[2].price) == 150.0;
    forall j, peak | 0 <= j < |series| && IsGreatest(series[..j + 1], peak) && peak > 0.0
      ensures Drop(peak, series[j].price) <= 125.0
    {
      var pre := series[..j + 1];
      var i :| 0 <= i < |pre| && pre[i].price == peak;
      assert pre[0] == series[0] && (j > 0 ==> pre[1] == series[1]);
      assert peak == if j == 0 then 100.0 else 200.0;
    }
  }
}
