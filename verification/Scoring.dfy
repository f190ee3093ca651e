/** Price-per-square-foot scores (store.go, ListListings): percent_rank over a comps group, joined
    back to the listings. */
module Scoring {
  import opened Options
  import opened Sorting

  datatype Listing = Listing(
    propertyKey: string, propertyType: string, address: string, city: Option<string>, postalCode: string,
    beds: Option<int>, baths: Option<real>, sqft: Option<int>, currentPrice: Option<real>, lastSeenAt: int)

  function KeyOf(l: Listing): string { l.propertyKey }

  /** property_key is the primary key. */
  ghost predicate IsTable(rows: seq<Listing>) { Distinct(rows, KeyOf) }

  /* ---- The query ---- */

  datatype Bucket = UnknownBeds | UpToOne | Two | Three | FourUp

  function BedsBucket(beds: Option<int>): Bucket {
    match beds
    case None => UnknownBeds
    case Some(n) => if n <= 1 then UpToOne else if n == 2 then Two else if n == 3 then Three else FourUp
  }

  function Ppsf(l: Listing): Option<real> {
    if l.currentPrice.None? || l.sqft.None? || l.sqft.value == 0 then None
    else Some(l.currentPrice.value / l.sqft.value as real)
  }

  /** PARTITION BY property_type, beds_bucket. */
  function GroupOf(l: Listing): (string, Bucket) { (l.propertyType, BedsBucket(l.beds)) }

  /** The comps of a listing: the rows of its group that have a price per square foot. */
  function Comps(rows: seq<Listing>, group: (string, Bucket)): seq<Listing> {
    if rows == [] then []
    else (if Ppsf(rows[0]).Some? && GroupOf(rows[0]) == group then [rows[0]] else []) + Comps(rows[1..], group)
  }

  predicate IsCheaper(l: Listing, x: real) { Ppsf(l).Some? && Ppsf(l).value < x }

  function CountCheaper(comps: seq<Listing>, x: real): nat {
    if comps == [] then 0 else (if IsCheaper(comps[0], x) then 1 else 0) + CountCheaper(comps[1..], x)
  }

  /** The share of n rows that `count` of them are, and 0 of none. */
  function Share(count: nat, n: nat): real {
    if n == 0 then 0.0 else count as real / n as real
  }

  /** percent_rank(): the rows in front of x among the other rows. */
  function PercentRank(comps: seq<Listing>, x: real): real {
    if comps == [] then 0.0 else Share(CountCheaper(comps, x), |comps| - 1)
  }

  datatype RankedRow = RankedRow(propertyKey: string, percentRank: real)

  /** The rows of `ranked`, for those of `some` that have a price per square foot. */
  function Ranked(rows: seq<Listing>, some: seq<Listing>): seq<RankedRow> {
    if some == [] then []
    else
      var l := some[0];
      (if Ppsf(l).None? then [] else [RankedRow(l.propertyKey, PercentRank(Comps(rows, GroupOf(l)), Ppsf(l).value))])
      + Ranked(rows, some[1..])
  }

  function Matches(ranked: seq<RankedRow>, key: string): seq<Option<real>> {
    if ranked == [] then []
    else (if ranked[0].propertyKey == key then [Some(ranked[0].percentRank)] else []) + Matches(ranked[1..], key)
  }

  datatype Scored = Scored(listing: Listing, percentile: Option<real>, valueScore: Option<real>, compsCount: nat)

  /** round(x, 2): half away from zero. */
  function Round2(x: real): real {
    if x >= 0.0 then (x * 100.0 + 0.5).Floor as real / 100.0 else -((-x * 100.0 + 0.5).Floor as real / 100.0)
  }

  function ScoreRow(l: Listing, percentRank: Option<real>, compsCount: nat): Scored {
    match percentRank
    case None => Scored(l, None, None, compsCount)
    case Some(r) => Scored(l, Some(Round2(r * 100.0)), Some(Round2((1.0 - r) * 100.0)), compsCount)
  }

  /** A row once for every match, and once without a rank where there is none. */
  function JoinRow(l: Listing, matches: seq<Option<real>>, compsCount: nat): seq<Scored> {
    if matches == [] then [ScoreRow(l, None, compsCount)]
    else if |matches| == 1 then [ScoreRow(l, matches[0], compsCount)]
    else [ScoreRow(l, matches[0], compsCount)] + JoinRow(l, matches[1..], compsCount)
  }

  /** One listing of rows LEFT JOIN ranked. */
  function JoinListing(rows: seq<Listing>, ranked: seq<RankedRow>, l: Listing): seq<Scored> {
    JoinRow(l, Matches(ranked, l.propertyKey), |Comps(rows, GroupOf(l))|)
  }

  function FlatMap<T, U>(xs: seq<T>, f: T -> seq<U>): seq<U> {
    if xs == [] then [] else f(xs[0]) + FlatMap(xs[1..], f)
  }

  /** rows LEFT JOIN ranked. */
  function LeftJoin(rows: seq<Listing>, ranked: seq<RankedRow>): seq<Scored> {
    FlatMap(rows, l => JoinListing(rows, ranked, l))
  }

  function ScoreListings(rows: seq<Listing>): seq<Scored> {
    LeftJoin(rows, Ranked(rows, rows))
  }

  /* ---- The join ---- */

  function RankOf(rows: seq<Listing>, l: Listing): Option<real> {
    if Ppsf(l).None? then None else Some(PercentRank(Comps(rows, GroupOf(l)), Ppsf(l).value))
  }

  function OwnRow(rows: seq<Listing>, l: Listing): Scored {
    ScoreRow(l, RankOf(rows, l), |Comps(rows, GroupOf(l))|)
  }

  lemma {:induction false} NoMatches(rows: seq<Listing>, some: seq<Listing>, key: string)
    requires forall i :: 0 <= i < |some| ==> some[i].propertyKey != key
    ensures Matches(Ranked(rows, some), key) == []
  {
    if some != [] {
      NoMatches(rows, some[1..], key);
      FirstMatch(rows, some, key);
    }
  }

  lemma {:induction false} OneMatch(rows: seq<Listing>, some: seq<Listing>, i: nat)
    requires IsTable(some) && i < |some|
    ensures Matches(Ranked(rows, some), some[i].propertyKey)
            == if Ppsf(some[i]).None? then [] else [RankOf(rows, some[i])]
  {
    var l, rest := some[0], some[1..];
    assert IsTable(rest);
    assert forall j :: 0 <= j < |rest| ==> rest[j] == some[j + 1];
    if i == 0 {
      forall j | 0 <= j < |rest|
        ensures rest[j].propertyKey != l.propertyKey
      {
        assert KeyOf(some[0]) != KeyOf(some[j + 1]);
      }
      NoMatches(rows, rest, l.propertyKey);
    } else {
      OneMatch(rows, rest, i - 1);
      assert KeyOf(some[0]) != KeyOf(some[i]);
    }
    FirstMatch(rows, some, some[i].propertyKey);
    var behind := Matches(Ranked(rows, rest), some[i].propertyKey);
    assert [] + behind == behind && (i == 0 ==> behind == []);
  }

  lemma {:induction false} FirstMatch(rows: seq<Listing>, some: seq<Listing>, key: string)
    requires some != []
    ensures Matches(Ranked(rows, some), key)
            == (if Ppsf(some[0]).Some? && some[0].propertyKey == key then [RankOf(rows, some[0])] else [])
               + Matches(Ranked(rows, some[1..]), key)
  {
    var behind := Ranked(rows, some[1..]);
    assert Ranked(rows, some) == (if Ppsf(some[0]).None? then behind else Ranked(rows, some)[..1] + behind);
  }

  lemma {:induction false} JoinOne(rows: seq<Listing>, i: nat)
    requires IsTable(rows) && i < |rows|
    ensures JoinListing(rows, Ranked(rows, rows), rows[i]) == [OwnRow(rows, rows[i])]
  {
    OneMatch(rows, rows, i);
  }

  lemma {:induction false} FlatMapOfSingles<T, U>(xs: seq<T>, f: T -> seq<U>, own: T -> U)
    requires forall i :: 0 <= i < |xs| ==> f(xs[i]) == [own(xs[i])]
    ensures |FlatMap(xs, f)| == |xs| && forall i :: 0 <= i < |xs| ==> FlatMap(xs, f)[i] == own(xs[i])
  {
    if xs != [] {
      assert forall i :: 0 <= i < |xs[1..]| ==> xs[1..][i] == xs[i + 1];
      FlatMapOfSingles(xs[1..], f, own);
    }
  }

  /** The join neither drops nor repeats a listing, and each row carries its own rank. */
  lemma {:induction false} JoinKeepsListings(rows: seq<Listing>)
    requires IsTable(rows)
    ensures |ScoreListings(rows)| == |rows|
    ensures forall i :: 0 <= i < |rows| ==> ScoreListings(rows)[i] == OwnRow(rows, rows[i])
  {
    var ranked := Ranked(rows, rows);
    forall i | 0 <= i < |rows|
      ensures JoinListing(rows, ranked, rows[i]) == [OwnRow(rows, rows[i])]
    {
      JoinOne(rows, i);
    }
    FlatMapOfSingles(rows, l => JoinListing(rows, ranked, l), l => OwnRow(rows, l));
  }

  /* ---- Ranks ---- */

  lemma {:induction false} CompsMembers(rows: seq<Listing>, group: (string, Bucket), l: Listing)
    ensures l in Comps(rows, group) <==> l in rows && Ppsf(l).Some? && GroupOf(l) == group
  {
    if rows != [] {
      CompsMembers(rows[1..], group, l);
      assert rows == [rows[0]] + rows[1..];
    }
  }

  lemma {:induction false} CheaperCounts(comps: seq<Listing>, x: real, y: real)
    ensures x <= y ==> CountCheaper(comps, x) <= CountCheaper(comps, y)
    ensures CountCheaper(comps, x) <= |comps|
    ensures CountCheaper(comps, x) == 0 <==> forall i :: 0 <= i < |comps| ==> !IsCheaper(comps[i], x)
  {
    if comps != [] {
      CheaperCounts(comps[1..], x, y);
      assert forall i :: 0 <= i < |comps[1..]| ==> comps[1..][i] == comps[i + 1];
      if CountCheaper(comps, x) == 0 {
        forall i | 0 <= i < |comps|
          ensures !IsCheaper(comps[i], x)
        {
          assert i > 0 ==> comps[i] == comps[1..][i - 1];
        }
      }
    }
  }

  // A row at x leaves one row that is not cheaper.
  lemma {:induction false} CheaperAreOthers(comps: seq<Listing>, l: Listing)
    requires l in comps && Ppsf(l).Some?
    ensures CountCheaper(comps, Ppsf(l).value) <= |comps| - 1
  {
    if comps[0] == l {
      CheaperCounts(comps[1..], Ppsf(l).value, Ppsf(l).value);
    } else {
      CheaperAreOthers(comps[1..], l);
    }
  }

  // All other rows are cheaper than a single dearest one.
  lemma {:induction false} DearestCount(comps: seq<Listing>, l: Listing)
    requires l in comps && Ppsf(l).Some? && Distinct(comps, KeyOf)
    requires forall o :: o in comps && o != l ==> IsCheaper(o, Ppsf(l).value)
    ensures CountCheaper(comps, Ppsf(l).value) == |comps| - 1
  {
    var rest := comps[1..];
    assert comps == [comps[0]] + rest;
    assert Distinct(rest, KeyOf);
    if comps[0] == l {
      forall i | 0 <= i < |rest|
        ensures IsCheaper(rest[i], Ppsf(l).value)
      {
        assert KeyOf(comps[0]) != KeyOf(comps[i + 1]);
        assert rest[i] in comps;
      }
      AllCheaper(rest, Ppsf(l).value);
    } else {
      DearestCount(rest, l);
    }
  }

  lemma {:induction false} AllCheaper(comps: seq<Listing>, x: real)
    requires forall i :: 0 <= i < |comps| ==> IsCheaper(comps[i], x)
    ensures CountCheaper(comps, x) == |comps|
  {
    if comps != [] {
      AllCheaper(comps[1..], x);
    }
  }

  lemma {:induction false} CompsAreDistinct(rows: seq<Listing>, group: (string, Bucket))
    requires IsTable(rows)
    ensures Distinct(Comps(rows, group), KeyOf)
  {
    if rows != [] {
      var rest := Comps(rows[1..], group);
      assert IsTable(rows[1..]);
      CompsAreDistinct(rows[1..], group);
      forall i | 0 <= i < |rest|
        ensures KeyOf(rest[i]) != KeyOf(rows[0])
      {
        CompsMembers(rows[1..], group, rest[i]);
        var j :| 0 <= j < |rows[1..]| && rows[1..][j] == rest[i];
        assert rows[j + 1] == rest[i];
      }
    }
  }

  /* ---- Rounding ---- */

  lemma {:induction false} SharesAreMonotone(a: nat, b: nat, n: nat)
    requires a <= b <= n
    ensures 0.0 <= Share(a, n) <= Share(b, n) <= 1.0
  {
    if n > 0 {
      QuotientsAreMonotone(a as real, b as real, n as real);
      QuotientsAreMonotone(0.0, a as real, n as real);
      QuotientsAreMonotone(b as real, n as real, n as real);
    }
  }

  lemma {:induction false} QuotientsAreMonotone(x: real, y: real, n: real)
    requires x <= y && n > 0.0
    ensures x / n <= y / n
  {
  }

  lemma {:induction false} SharesAreEqualExactly(c: nat, n: nat, d: nat, m: nat)
    requires c <= n <= m && d <= m
    ensures Share(c, n) == Share(d, m) <==> if n == 0 then d == 0 else c * m == d * n
  {
    if n > 0 {
      QuotientsAreEqualExactly(c as real, n as real, d as real, m as real);
      assert c as real * m as real == (c * m) as real && d as real * n as real == (d * n) as real;
    } else if m > 0 {
      QuotientsAreEqualExactly(0.0, 1.0, d as real, m as real);
    }
  }

  lemma {:induction false} QuotientsAreEqualExactly(a: real, b: real, c: real, d: real)
    requires b > 0.0 && d > 0.0
    ensures a / b == c / d <==> a * d == c * b
  {
    var x, y := a / b, c / d;
    assert x * b == a && y * d == c;
    assert x * (b * d) == a * d && y * (b * d) == c * b;
    if x > y { PositiveProduct(x - y, b * d); }
    if x < y { PositiveProduct(y - x, b * d); }
  }

  lemma {:induction false} SharesEnd(n: nat)
    ensures Share(0, n) == 0.0 && (n > 0 ==> Share(n, n) == 1.0)
  {
  }

  lemma {:induction false} RoundMonotone(x: real, y: real)
    requires 0.0 <= x <= y
    ensures 0.0 <= Round2(x) <= Round2(y)
  {
    assert (x * 100.0 + 0.5).Floor <= (y * 100.0 + 0.5).Floor;
  }

  lemma {:induction false} RoundComplement(x: real)
    requires 0.0 <= x <= 100.0
    ensures 0.0 <= Round2(x) <= 100.0
    ensures Round2(x) + Round2(100.0 - x) in {100.0, 100.01}
  {
    var h := x * 100.0;
    assert (100.0 - x) * 100.0 == 10000.0 - h;
    var a, b := (h + 0.5).Floor, (10000.0 - h + 0.5).Floor;
    assert a + b == 10000 || a + b == 10001;
    assert Round2(x) == a as real / 100.0 && Round2(100.0 - x) == b as real / 100.0;
    assert a as real / 100.0 + b as real / 100.0 == (a + b) as real / 100.0;
  }

  /* ---- The scores ---- */

  // What the ranks of two comps say about each other.
  lemma {:induction false} RankFacts(comps: seq<Listing>, a: Listing, b: Listing)
    requires a in comps && b in comps && Ppsf(a).Some? && Ppsf(b).Some? && Ppsf(a).value <= Ppsf(b).value
    ensures 0.0 <= PercentRank(comps, Ppsf(a).value) <= PercentRank(comps, Ppsf(b).value) <= 1.0
  {
    var x, y := Ppsf(a).value, Ppsf(b).value;
    CheaperCounts(comps, x, y);
    CheaperAreOthers(comps, b);
    SharesAreMonotone(CountCheaper(comps, x), CountCheaper(comps, y), |comps| - 1);
  }

  predicate IsCheapest(comps: seq<Listing>, l: Listing) {
    forall i :: 0 <= i < |comps| ==> !(Ppsf(l).Some? && IsCheaper(comps[i], Ppsf(l).value))
  }

  predicate IsOnlyDearest(comps: seq<Listing>, l: Listing) {
    |comps| > 1 && Ppsf(l).Some? && forall o :: o in comps && o != l ==> IsCheaper(o, Ppsf(l).value)
  }

  /** A listing without a price per square foot has no score. Any other lies between 0 and 100,
      and its percentile and its score add up to 100, but for a half rounded up twice. */
  lemma {:induction false} ScoresAreInRange(rows: seq<Listing>, i: nat)
    requires IsTable(rows) && i < |rows|
    ensures |ScoreListings(rows)| == |rows|
    ensures var s := ScoreListings(rows)[i];
            && s.listing == rows[i]
            && s.compsCount == |Comps(rows, GroupOf(rows[i]))|
            && (s.valueScore.Some? <==> Ppsf(rows[i]).Some?)
            && (s.percentile.Some? <==> Ppsf(rows[i]).Some?)
            && (Ppsf(rows[i]).Some? ==>
                  && s.compsCount > 0
                  && 0.0 <= s.percentile.value <= 100.0 && 0.0 <= s.valueScore.value <= 100.0
                  && s.percentile.value + s.valueScore.value in {100.0, 100.01})
  {
    JoinKeepsListings(rows);
    var l := rows[i];
    CompsMembers(rows, GroupOf(l), l);
    if Ppsf(l).Some? {
      RanksInTable(rows, l, l);
      RankIsScored(l, RankOf(rows, l).value, |Comps(rows, GroupOf(l))|);
    }
  }

  lemma {:induction false} RankIsScored(l: Listing, r: real, n: nat)
    requires 0.0 <= r <= 1.0
    ensures var s := ScoreRow(l, Some(r), n);
            && 0.0 <= s.percentile.value <= 100.0 && 0.0 <= s.valueScore.value <= 100.0
            && s.percentile.value + s.valueScore.value in {100.0, 100.01}
  {
    RoundComplement(r * 100.0);
    RoundComplement(100.0 - r * 100.0);
    assert (1.0 - r) * 100.0 == 100.0 - r * 100.0;
  }

  // What ScoreRow makes of two ranks.
  lemma {:induction false} RanksAreScored(l: Listing, r: real, m: Listing, s: real, n: nat)
    requires 0.0 <= r <= s <= 1.0
    ensures var x, y := ScoreRow(l, Some(r), n), ScoreRow(m, Some(s), n);
            && x.percentile.value <= y.percentile.value && x.valueScore.value >= y.valueScore.value
            && (r == s ==> x.percentile == y.percentile && x.valueScore == y.valueScore)
  {
    RoundMonotone(r * 100.0, s * 100.0);
    RoundMonotone((1.0 - s) * 100.0, (1.0 - r) * 100.0);
  }

  lemma {:induction false} EndsAreScored(l: Listing, n: nat)
    ensures ScoreRow(l, Some(0.0), n) == Scored(l, Some(0.0), Some(100.0), n)
    ensures ScoreRow(l, Some(1.0), n) == Scored(l, Some(100.0), Some(0.0), n)
  {
    assert 0.5.Floor == 0 && 10000.5.Floor == 10000;
  }

  // The ranks of two comps in a table.
  lemma {:induction false} RanksInTable(rows: seq<Listing>, a: Listing, b: Listing)
    requires a in rows && b in rows && GroupOf(a) == GroupOf(b)
    requires Ppsf(a).Some? && Ppsf(b).Some? && Ppsf(a).value <= Ppsf(b).value
    ensures 0.0 <= RankOf(rows, a).value <= RankOf(rows, b).value <= 1.0
  {
    var comps := Comps(rows, GroupOf(a));
    CompsMembers(rows, GroupOf(a), a);
    CompsMembers(rows, GroupOf(a), b);
    RankFacts(comps, a, b);
  }

  lemma {:induction false} CheapestRank(comps: seq<Listing>, l: Listing)
    requires l in comps && Ppsf(l).Some? && IsCheapest(comps, l)
    ensures PercentRank(comps, Ppsf(l).value) == 0.0
  {
    CheaperCounts(comps, Ppsf(l).value, Ppsf(l).value);
    SharesEnd(|comps| - 1);
  }

  lemma {:induction false} DearestRank(comps: seq<Listing>, l: Listing)
    requires l in comps && Distinct(comps, KeyOf) && IsOnlyDearest(comps, l)
    ensures PercentRank(comps, Ppsf(l).value) == 1.0
  {
    DearestCount(comps, l);
    SharesEnd(|comps| - 1);
  }

  lemma {:induction false} EndsInTable(rows: seq<Listing>, l: Listing)
    requires IsTable(rows) && l in rows && Ppsf(l).Some?
    ensures IsCheapest(Comps(rows, GroupOf(l)), l) ==> RankOf(rows, l).value == 0.0
    ensures IsOnlyDearest(Comps(rows, GroupOf(l)), l) ==> RankOf(rows, l).value == 1.0
  {
    var comps := Comps(rows, GroupOf(l));
    CompsMembers(rows, GroupOf(l), l);
    CompsAreDistinct(rows, GroupOf(l));
    if IsCheapest(comps, l) { CheapestRank(comps, l); }
    if IsOnlyDearest(comps, l) { DearestRank(comps, l); }
  }

  /** Within a group the cheaper listing never scores lower, and equal prices per square foot score
      equal. */
  lemma {:induction false} ScoresAreFair(rows: seq<Listing>, i: nat, j: nat)
    requires IsTable(rows) && i < |rows| && j < |rows| && GroupOf(rows[i]) == GroupOf(rows[j])
    requires Ppsf(rows[i]).Some? && Ppsf(rows[j]).Some? && Ppsf(rows[i]).value <= Ppsf(rows[j]).value
    ensures |ScoreListings(rows)| == |rows|
    ensures var s, t := ScoreListings(rows)[i], ScoreListings(rows)[j];
            && s.valueScore.Some? && t.valueScore.Some? && s.percentile.Some? && t.percentile.Some?
            && s.compsCount == t.compsCount
            && s.valueScore.value >= t.valueScore.value && s.percentile.value <= t.percentile.value
            && (Ppsf(rows[i]) == Ppsf(rows[j]) ==> s.valueScore == t.valueScore && s.percentile == t.percentile)
  {
    JoinKeepsListings(rows);
    RanksInTable(rows, rows[i], rows[j]);
    RanksAreScored(rows[i], RankOf(rows, rows[i]).value, rows[j], RankOf(rows, rows[j]).value, |Comps(rows, GroupOf(rows[i]))|);
  }

  /** The cheapest of a group score 100, and a single dearest one scores 0. */
  lemma {:induction false} ScoresReachTheEnds(rows: seq<Listing>, i: nat)
    requires IsTable(rows) && i < |rows| && Ppsf(rows[i]).Some?
    ensures |ScoreListings(rows)| == |rows|
    ensures var s, comps := ScoreListings(rows)[i], Comps(rows, GroupOf(rows[i]));
            && (IsCheapest(comps, rows[i]) ==> s.valueScore == Some(100.0) && s.percentile == Some(0.0))
            && (IsOnlyDearest(comps, rows[i]) ==> s.valueScore == Some(0.0) && s.percentile == Some(100.0))
  {
    JoinKeepsListings(rows);
    var l := rows[i];
    EndsInTable(rows, l);
    EndsAreScored(l, |Comps(rows, GroupOf(l))|);
  }

  /** A listing scores the full 100 exactly when at most one in 20000 of the others is cheaper. */
  lemma {:induction false} FullScoreExactly(rows: seq<Listing>, i: nat)
    requires IsTable(rows) && i < |rows| && Ppsf(rows[i]).Some?
    ensures |ScoreListings(rows)| == |rows|
    ensures var comps := Comps(rows, GroupOf(rows[i]));
            ScoreListings(rows)[i].valueScore == Some(100.0)
            <==> 20000 * CountCheaper(comps, Ppsf(rows[i]).value) <= |comps| - 1
  {
    JoinKeepsListings(rows);
    RanksInTable(rows, rows[i], rows[i]);
    FullRow(rows[i], RankOf(rows, rows[i]).value, |Comps(rows, GroupOf(rows[i]))|);
    RankBound(rows, rows[i]);
  }

  lemma {:induction false} FullRow(l: Listing, r: real, n: nat)
    requires 0.0 <= r <= 1.0
    ensures ScoreRow(l, Some(r), n).valueScore == Some(100.0) <==> 20000.0 * r <= 1.0
  {
    FullRound(r);
  }

  lemma {:induction false} RankBound(rows: seq<Listing>, l: Listing)
    requires l in rows && Ppsf(l).Some?
    ensures var comps := Comps(rows, GroupOf(l));
            20000.0 * RankOf(rows, l).value <= 1.0 <==> 20000 * CountCheaper(comps, Ppsf(l).value) <= |comps| - 1
  {
    var comps := Comps(rows, GroupOf(l));
    CompsMembers(rows, GroupOf(l), l);
    CheaperAreOthers(comps, l);
    ShareBound(CountCheaper(comps, Ppsf(l).value), |comps| - 1);
  }

  lemma {:induction false} FullRound(r: real)
    requires 0.0 <= r <= 1.0
    ensures Round2((1.0 - r) * 100.0) == 100.0 <==> 20000.0 * r <= 1.0
  {
    var h := (1.0 - r) * 100.0 * 100.0;
    assert h == 10000.0 - 10000.0 * r;
    assert (h + 0.5).Floor == 10000 <==> 20000.0 * r <= 1.0;
    assert (h + 0.5).Floor as real / 100.0 == 100.0 <==> (h + 0.5).Floor == 10000;
  }

  lemma {:induction false} ShareBound(c: nat, n: nat)
    requires c <= n
    ensures 20000.0 * Share(c, n) <= 1.0 <==> 20000 * c <= n
  {
    if n > 0 {
      QuotientBound(c as real, n as real);
    }
  }

  lemma {:induction false} QuotientBound(c: real, n: real)
    requires n > 0.0
    ensures 20000.0 * (c / n) <= 1.0 <==> 20000.0 * c <= n
  {
    var q := c / n;
    assert q * n == c;
    if 20000.0 * q <= 1.0 {
      ProductsAreMonotone(20000.0 * q, 1.0, n);
    } else {
      PositiveProduct(q - 1.0 / 20000.0, n);
    }
  }

  lemma {:induction false} PositiveProduct(x: real, n: real)
    requires x > 0.0 && n > 0.0
    ensures x * n > 0.0
  {
  }

  lemma {:induction false} ProductsAreMonotone(x: real, y: real, n: real)
    requires x <= y && n > 0.0
    ensures x * n <= y * n
  {
  }

  /* ---- The scores in terms of the columns ---- */

  /** The listing has a price, and an area to divide it by. */
  predicate HasRatio(l: Listing) {
    l.currentPrice.Some? && l.sqft.Some? && l.sqft.value != 0
  }

  /** Both unknown, both at most 1, both 2, both 3, or both at least 4. */
  predicate SameBeds(a: Option<int>, b: Option<int>) {
    match (a, b)
    case (None, None) => true
    case (Some(m), Some(n)) => (m <= 1 && n <= 1) || (m == n == 2) || (m == n == 3) || (m >= 4 && n >= 4)
    case _ => false
  }

  predicate SameGroup(a: Listing, b: Listing) {
    a.propertyType == b.propertyType && SameBeds(a.beds, b.beds)
  }

  lemma {:induction false} GroupsExactly(a: Listing, b: Listing)
    ensures GroupOf(a) == GroupOf(b) <==> SameGroup(a, b)
  {
  }

  /** a costs no more for its area than b. */
  predicate IsNoDearer(a: Listing, b: Listing)
    requires HasRatio(a) && HasRatio(b)
  {
    a.currentPrice.value * b.sqft.value as real <= b.currentPrice.value * a.sqft.value as real
  }

  lemma {:induction false} NoDearerExactly(a: Listing, b: Listing)
    requires HasRatio(a) && HasRatio(b) && a.sqft.value > 0 && b.sqft.value > 0
    ensures Ppsf(a).Some? && Ppsf(b).Some?
    ensures Ppsf(a).value <= Ppsf(b).value <==> IsNoDearer(a, b)
  {
    QuotientsInOrder(a.currentPrice.value, a.sqft.value as real, b.currentPrice.value, b.sqft.value as real);
  }

  lemma {:induction false} QuotientsInOrder(a: real, b: real, c: real, d: real)
    requires b > 0.0 && d > 0.0
    ensures a / b <= c / d <==> a * d <= c * b
  {
    var x, y := a / b, c / d;
    assert x * b == a && y * d == c;
    assert x * (b * d) == a * d && y * (b * d) == c * b;
    if x <= y { ProductsAreMonotone(x, y, b * d); } else { PositiveProduct(x - y, b * d); }
  }

  /** The comps of l: where the listings of its type and beds stand that have a price and an area. */
  ghost function CompSet(rows: seq<Listing>, l: Listing): (comps: set<nat>)
    ensures forall j: nat :: j in comps <==> j < |rows| && HasRatio(rows[j]) && SameGroup(l, rows[j])
  {
    set j: nat | j < |rows| && HasRatio(rows[j]) && SameGroup(l, rows[j])
  }

  /** A listing has a score exactly when it has a price and an area, and its comps are the listings
      of its type and beds that have both. */
  lemma {:induction false} ScoredColumns(rows: seq<Listing>, i: nat)
    requires IsTable(rows) && i < |rows|
    ensures |ScoreListings(rows)| == |rows|
    ensures ScoreListings(rows)[i].valueScore.Some? <==> HasRatio(rows[i])
    ensures ScoreListings(rows)[i].percentile.Some? <==> HasRatio(rows[i])
    ensures ScoreListings(rows)[i].compsCount == |CompSet(rows, rows[i])|
  {
    ScoresAreInRange(rows, i);
    CompsAreCounted(rows, rows[i]);
  }

  lemma {:induction false} CompsAreCounted(rows: seq<Listing>, l: Listing)
    ensures |Comps(rows, GroupOf(l))| == |CompSet(rows, l)|
  {
    if rows == [] {
      assert CompSet(rows, l) == {};
    } else {
      CompsAreCounted(rows[1..], l);
      GroupsExactly(rows[0], l);
      GroupsExactly(l, rows[0]);
      ShiftedCount(CompSet(rows[1..], l), CompSet(rows, l));
    }
  }

  // The positions behind the first, and maybe the first.
  lemma {:induction false} ShiftedCount(tail: set<nat>, all: set<nat>)
    requires forall j: nat :: j in tail <==> j + 1 in all
    ensures |all| == |tail| + if 0 in all then 1 else 0
  {
    if tail == {} {
      forall k: nat | k in all
        ensures k == 0
      {
        var j := k - 1;
        assert k > 0 ==> j in tail;
      }
      assert all == if 0 in all then {0} else {};
    } else {
      var j :| j in tail;
      WithoutPair(tail, all, j);
      ShiftedCount(tail - {j}, all - {j + 1});
    }
  }

  lemma {:induction false} WithoutPair(tail: set<nat>, all: set<nat>, j: nat)
    requires j in tail && forall k: nat :: k in tail <==> k + 1 in all
    ensures forall k: nat :: k in tail - {j} <==> k + 1 in all - {j + 1}
    ensures |tail| == |tail - {j}| + 1 && |all| == |all - {j + 1}| + 1
    ensures 0 in all - {j + 1} <==> 0 in all
  {
  }

  /** a costs less for its area than b. */
  predicate CostsLess(a: Listing, b: Listing)
    requires HasRatio(a) && HasRatio(b)
  {
    a.currentPrice.value / a.sqft.value as real < b.currentPrice.value / b.sqft.value as real
  }

  /** The comps that cost less for their area than l. */
  ghost function CheaperSet(rows: seq<Listing>, l: Listing): (cheaper: set<nat>)
    requires HasRatio(l)
    ensures forall j: nat :: j in cheaper <==> j in CompSet(rows, l) && CostsLess(rows[j], l)
  {
    set j: nat | j in CompSet(rows, l) && CostsLess(rows[j], l)
  }

  lemma {:induction false} CheaperAreCounted(rows: seq<Listing>, l: Listing)
    requires HasRatio(l)
    ensures Ppsf(l).Some? && CountCheaper(Comps(rows, GroupOf(l)), Ppsf(l).value) == |CheaperSet(rows, l)|
  {
    if rows == [] {
      assert CheaperSet(rows, l) == {};
    } else {
      CheaperAreCounted(rows[1..], l);
      CheaperHead(rows, l);
      FirstIsCounted(rows, GroupOf(l), Ppsf(l).value);
      ShiftedCheaper(rows, l);
      ShiftedCount(CheaperSet(rows[1..], l), CheaperSet(rows, l));
    }
  }

  lemma {:induction false} CheaperHead(rows: seq<Listing>, l: Listing)
    requires HasRatio(l) && rows != []
    ensures 0 in CheaperSet(rows, l) <==> GroupOf(rows[0]) == GroupOf(l) && IsCheaper(rows[0], Ppsf(l).value)
  {
    GroupsExactly(rows[0], l);
    GroupsExactly(l, rows[0]);
  }

  lemma {:induction false} FirstIsCounted(rows: seq<Listing>, group: (string, Bucket), x: real)
    requires rows != []
    ensures CountCheaper(Comps(rows, group), x)
            == CountCheaper(Comps(rows[1..], group), x) + if GroupOf(rows[0]) == group && IsCheaper(rows[0], x) then 1 else 0
  {
    var first, rest := rows[0], Comps(rows[1..], group);
    assert ([first] + rest)[1..] == rest;
    assert [] + rest == rest;
  }

  lemma {:induction false} ShiftedCheaper(rows: seq<Listing>, l: Listing)
    requires HasRatio(l) && rows != []
    ensures forall j: nat :: j in CheaperSet(rows[1..], l) <==> j + 1 in CheaperSet(rows, l)
  {
    forall j: nat
      ensures j in CompSet(rows[1..], l) <==> j + 1 in CompSet(rows, l)
    {
      if j < |rows[1..]| { assert rows[1..][j] == rows[j + 1]; }
    }
  }

  /** r is x with two decimals, the nearest such number. */
  predicate IsRounded(x: real, r: real) {
    (r * 100.0).Floor as real == r * 100.0 && r - 0.005 <= x < r + 0.005
  }

  lemma {:induction false} RoundIsRounded(x: real)
    requires x >= 0.0
    ensures IsRounded(x, Round2(x))
  {
    assert Round2(x) == (x * 100.0 + 0.5).Floor as real / 100.0;
  }

  predicate IsScoredAt(s: Scored, percent: real) {
    && s.percentile.Some? && IsRounded(percent, s.percentile.value)
    && s.valueScore.Some? && IsRounded(100.0 - percent, s.valueScore.value)
  }

  /** The percentile is the share of the other comps that cost less for their area, in percent, and the
      score is what is left to 100, each with two decimals; a single comp has percentile 0. */
  lemma {:induction false} ScoresExactly(rows: seq<Listing>, i: nat)
    requires IsTable(rows) && i < |rows| && HasRatio(rows[i])
    ensures |ScoreListings(rows)| == |rows| && |CheaperSet(rows, rows[i])| < |CompSet(rows, rows[i])|
    ensures var n, cheaper := |CompSet(rows, rows[i])|, |CheaperSet(rows, rows[i])|;
            IsScoredAt(ScoreListings(rows)[i], if n == 1 then 0.0 else cheaper as real / (n - 1) as real * 100.0)
  {
    JoinKeepsListings(rows);
    var r := RankOnColumns(rows, i);
    RankIsRounded(rows[i], r, |Comps(rows, GroupOf(rows[i]))|);
  }

  lemma {:induction false} RankOnColumns(rows: seq<Listing>, i: nat) returns (r: real)
    requires i < |rows| && HasRatio(rows[i])
    ensures RankOf(rows, rows[i]) == Some(r) && |CheaperSet(rows, rows[i])| < |CompSet(rows, rows[i])|
    ensures r == Share(|CheaperSet(rows, rows[i])|, |CompSet(rows, rows[i])| - 1) && 0.0 <= r <= 1.0
  {
    var l := rows[i];
    CompsAreCounted(rows, l);
    CheaperAreCounted(rows, l);
    assert i in CompSet(rows, l) && i !in CheaperSet(rows, l);
    SubsetIsSmaller(CheaperSet(rows, l), CompSet(rows, l), i);
    ShareIsAtMostOne(|CheaperSet(rows, l)|, |CompSet(rows, l)| - 1);
    r := PercentRank(Comps(rows, GroupOf(l)), Ppsf(l).value);
  }

  lemma {:induction false} RankIsRounded(l: Listing, r: real, n: nat)
    requires 0.0 <= r <= 1.0
    ensures IsScoredAt(ScoreRow(l, Some(r), n), r * 100.0)
  {
    RoundIsRounded(r * 100.0);
    RoundIsRounded((1.0 - r) * 100.0);
  }

  lemma {:induction false} SubsetIsSmaller(a: set<nat>, b: set<nat>, x: nat)
    requires a <= b && x in b && x !in a
    ensures |a| < |b|
  {
    var rest := b - {x};
    NoMoreThan(a, rest);
  }

  lemma {:induction false} NoMoreThan(a: set<nat>, b: set<nat>)
    requires a <= b
    ensures |a| <= |b|
  {
    assert b == a + (b - a);
  }

  lemma {:induction false} ShareIsAtMostOne(count: nat, n: nat)
    requires count <= n
    ensures 0.0 <= Share(count, n) <= 1.0
  {
  }

  /** Of two comps the one that costs no more for its area scores no lower and stands no higher in
      percent, and where both cost the same they score the same. */
  lemma {:induction false} CheaperScoresHigher(rows: seq<Listing>, i: nat, j: nat)
    requires IsTable(rows) && i < |rows| && j < |rows|
    requires HasRatio(rows[i]) && HasRatio(rows[j]) && SameGroup(rows[i], rows[j])
    requires rows[i].sqft.value > 0 && rows[j].sqft.value > 0
    ensures |ScoreListings(rows)| == |rows|
    ensures var s, t := ScoreListings(rows)[i], ScoreListings(rows)[j];
            && s.valueScore.Some? && t.valueScore.Some? && s.percentile.Some? && t.percentile.Some?
            && (IsNoDearer(rows[i], rows[j]) ==>
                  s.valueScore.value >= t.valueScore.value && s.percentile.value <= t.percentile.value)
            && (IsNoDearer(rows[i], rows[j]) && IsNoDearer(rows[j], rows[i]) ==>
                  s.valueScore == t.valueScore && s.percentile == t.percentile)
  {
    GroupsExactly(rows[i], rows[j]);
    NoDearerExactly(rows[i], rows[j]);
    NoDearerExactly(rows[j], rows[i]);
    ScoresAreInRange(rows, i);
    ScoresAreInRange(rows, j);
    if IsNoDearer(rows[i], rows[j]) {
      ScoresAreFair(rows, i, j);
    }
  }

  // Comps are listings of the table, compared by what they cost for their area.
  lemma {:induction false} CompOnColumns(rows: seq<Listing>, l: Listing, o: Listing)
    requires HasRatio(l) && l.sqft.value > 0 && o in Comps(rows, GroupOf(l))
    requires forall j :: j in CompSet(rows, l) ==> rows[j].sqft.value > 0
    ensures exists j :: j in CompSet(rows, l) && rows[j] == o
    ensures HasRatio(o) && Ppsf(l).Some? && (IsCheaper(o, Ppsf(l).value) <==> !IsNoDearer(l, o))
  {
    CompsMembers(rows, GroupOf(l), o);
    GroupsExactly(o, l);
    GroupsExactly(l, o);
    var j :| 0 <= j < |rows| && rows[j] == o;
    assert j in CompSet(rows, l);
    NoDearerExactly(l, o);
  }

  /** Where no comp costs less for its area the score is 100. */
  lemma {:induction false} CheapestScores100(rows: seq<Listing>, i: nat)
    requires IsTable(rows) && i < |rows| && HasRatio(rows[i]) && rows[i].sqft.value > 0
    requires forall j :: j in CompSet(rows, rows[i]) ==> rows[j].sqft.value > 0 && IsNoDearer(rows[i], rows[j])
    ensures |ScoreListings(rows)| == |rows| && ScoreListings(rows)[i].valueScore == Some(100.0)
  {
    var l := rows[i];
    ScoresReachTheEnds(rows, i);
    forall k | 0 <= k < |Comps(rows, GroupOf(l))|
      ensures !(Ppsf(l).Some? && IsCheaper(Comps(rows, GroupOf(l))[k], Ppsf(l).value))
    {
      CompOnColumns(rows, l, Comps(rows, GroupOf(l))[k]);
    }
    assert IsCheapest(Comps(rows, GroupOf(l)), l);
  }

  /** Where there are other comps, and all of them cost less for their area, it is 0. */
  lemma {:induction false} DearestScores0(rows: seq<Listing>, i: nat)
    requires IsTable(rows) && i < |rows| && HasRatio(rows[i]) && rows[i].sqft.value > 0 && |CompSet(rows, rows[i])| > 1
    requires forall j :: j in CompSet(rows, rows[i]) ==> rows[j].sqft.value > 0 && (j == i || !IsNoDearer(rows[i], rows[j]))
    ensures |ScoreListings(rows)| == |rows| && ScoreListings(rows)[i].valueScore == Some(0.0)
  {
    var l := rows[i];
    ScoresReachTheEnds(rows, i);
    CompsAreCounted(rows, l);
    forall o | o in Comps(rows, GroupOf(l)) && o != l
      ensures IsCheaper(o, Ppsf(l).value)
    {
      CompOnColumns(rows, l, o);
    }
    assert IsOnlyDearest(Comps(rows, GroupOf(l)), l);
  }
}
