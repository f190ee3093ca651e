/** The listing page query (store.go, ListListings; query.go, parseListQuery). */
module ListingQuery {
  import opened Options
  import opened Sorting
  import opened Patterns
  import opened Scoring
  import opened Filters

  /* ---- ORDER BY ---- */

  datatype ListingSort = LastSeenDesc | PriceAsc | PriceDesc | PpsfAsc | PpsfDesc | ValueDesc

  function Ascending(a: real, b: real): int {
    if a < b then -1 else if a > b then 1 else 0
  }

  function Descending(a: real, b: real): int { Ascending(b, a) }

  /** ASC: NULL comes last. */
  function AscNullsLast(a: Option<real>, b: Option<real>): int {
    match (a, b)
    case (None, None) => 0
    case (None, Some(_)) => 1
    case (Some(_), None) => -1
    case (Some(x), Some(y)) => Ascending(x, y)
  }

  function DescNullsLast(a: Option<real>, b: Option<real>): int {
    match (a, b)
    case (None, None) => 0
    case (None, Some(_)) => 1
    case (Some(_), None) => -1
    case (Some(x), Some(y)) => Descending(x, y)
  }

  /** Plain DESC: NULL comes first. */
  function DescNullsFirst(a: Option<real>, b: Option<real>): int {
    match (a, b)
    case (None, None) => 0
    case (None, Some(_)) => -1
    case (Some(_), None) => 1
    case (Some(x), Some(y)) => Descending(x, y)
  }

  /** The CASE in front of the price per square foot. */
  function Unpriced(l: Listing): real {
    if l.currentPrice.None? || l.sqft.None? || l.sqft == Some(0) then 1.0 else 0.0
  }

  function Then(first: int, second: int): int { if first != 0 then first else second }

  function ByColumn(sort: ListingSort, x: Scored, y: Scored): int {
    var a, b := x.listing, y.listing;
    match sort
    case LastSeenDesc => 0
    case PriceAsc => AscNullsLast(a.currentPrice, b.currentPrice)
    case PriceDesc => DescNullsLast(a.currentPrice, b.currentPrice)
    case PpsfAsc => Then(Ascending(Unpriced(a), Unpriced(b)), AscNullsLast(Ppsf(a), Ppsf(b)))
    case PpsfDesc => Then(Ascending(Unpriced(a), Unpriced(b)), DescNullsFirst(Ppsf(a), Ppsf(b)))
    case ValueDesc => DescNullsLast(x.valueScore, y.valueScore)
  }

  function ByText(a: string, b: string): int {
    if a == b then 0 else if TextLeq(a, b) then -1 else 1
  }

  function ByLastSeen(x: Scored, y: Scored): int {
    if x.listing.lastSeenAt > y.listing.lastSeenAt then -1 else if x.listing.lastSeenAt < y.listing.lastSeenAt then 1 else 0
  }

  function ByKey(x: Scored, y: Scored): int {
    ByText(x.listing.propertyKey, y.listing.propertyKey)
  }

  function OrderRows(sort: ListingSort, x: Scored, y: Scored): int {
    Then(ByColumn(sort, x, y), Then(ByLastSeen(x, y), ByKey(x, y)))
  }

  function Before(sort: ListingSort): (Scored, Scored) -> bool {
    (x, y) => OrderRows(sort, x, y) <= 0
  }

  // How one comparison behaves on three rows.
  predicate Consistent(xy: int, yx: int, yz: int, zy: int, xz: int, zx: int) {
    && (xy < 0 <==> yx > 0) && (yz < 0 <==> zy > 0) && (xz < 0 <==> zx > 0)
    && (xy > 0 <==> yx < 0) && (yz > 0 <==> zy < 0) && (xz > 0 <==> zx < 0)
    && (xy <= 0 && yz <= 0 ==> xz <= 0) && (xy >= 0 && yz >= 0 ==> xz >= 0)
    && (xy == 0 && yz == 0 ==> xz == 0) && (xy <= 0 && yz <= 0 && xz == 0 ==> xy == 0 && yz == 0)
    && (xy >= 0 && yz >= 0 && xz == 0 ==> xy == 0 && yz == 0)
  }

  lemma {:induction false} AscIsConsistent(a: Option<real>, b: Option<real>, c: Option<real>)
    ensures Consistent(AscNullsLast(a, b), AscNullsLast(b, a), AscNullsLast(b, c), AscNullsLast(c, b),
                       AscNullsLast(a, c), AscNullsLast(c, a))
  {
  }

  lemma {:induction false} DescIsConsistent(a: Option<real>, b: Option<real>, c: Option<real>)
    ensures Consistent(DescNullsLast(a, b), DescNullsLast(b, a), DescNullsLast(b, c), DescNullsLast(c, b),
                       DescNullsLast(a, c), DescNullsLast(c, a))
  {
  }

  lemma {:induction false} DescFirstIsConsistent(a: Option<real>, b: Option<real>, c: Option<real>)
    ensures Consistent(DescNullsFirst(a, b), DescNullsFirst(b, a), DescNullsFirst(b, c), DescNullsFirst(c, b),
                       DescNullsFirst(a, c), DescNullsFirst(c, a))
  {
  }

  lemma {:induction false} AscendingIsConsistent(a: real, b: real, c: real)
    ensures Consistent(Ascending(a, b), Ascending(b, a), Ascending(b, c), Ascending(c, b), Ascending(a, c), Ascending(c, a))
  {
  }

  // The flag for a missing price per square foot in front of another comparison.
  lemma {:induction false} FlaggedIsConsistent(a: Listing, b: Listing, c: Listing, xy: int, yx: int, yz: int, zy: int, xz: int, zx: int)
    requires Consistent(xy, yx, yz, zy, xz, zx)
    ensures Consistent(Then(Ascending(Unpriced(a), Unpriced(b)), xy), Then(Ascending(Unpriced(b), Unpriced(a)), yx),
                       Then(Ascending(Unpriced(b), Unpriced(c)), yz), Then(Ascending(Unpriced(c), Unpriced(b)), zy),
                       Then(Ascending(Unpriced(a), Unpriced(c)), xz), Then(Ascending(Unpriced(c), Unpriced(a)), zx))
  {
    var u, v, w := Unpriced(a), Unpriced(b), Unpriced(c);
    AscendingIsConsistent(u, v, w);
    ThenIsConsistent(Ascending(u, v), Ascending(v, u), Ascending(v, w), Ascending(w, v), Ascending(u, w), Ascending(w, u),
                     xy, yx, yz, zy, xz, zx);
  }

  lemma {:induction false} PpsfColumnIsConsistent(sort: ListingSort, x: Scored, y: Scored, z: Scored)
    requires sort == PpsfAsc || sort == PpsfDesc
    ensures Consistent(ByColumn(sort, x, y), ByColumn(sort, y, x), ByColumn(sort, y, z), ByColumn(sort, z, y),
                       ByColumn(sort, x, z), ByColumn(sort, z, x))
  {
    var a, b, c := x.listing, y.listing, z.listing;
    var p, q, r := Ppsf(a), Ppsf(b), Ppsf(c);
    if sort == PpsfAsc {
      AscIsConsistent(p, q, r);
      FlaggedIsConsistent(a, b, c, AscNullsLast(p, q), AscNullsLast(q, p), AscNullsLast(q, r), AscNullsLast(r, q),
                          AscNullsLast(p, r), AscNullsLast(r, p));
    } else {
      DescFirstIsConsistent(p, q, r);
      FlaggedIsConsistent(a, b, c, DescNullsFirst(p, q), DescNullsFirst(q, p), DescNullsFirst(q, r), DescNullsFirst(r, q),
                          DescNullsFirst(p, r), DescNullsFirst(r, p));
    }
  }

  lemma {:induction false} ColumnIsConsistent(sort: ListingSort, x: Scored, y: Scored, z: Scored)
    ensures Consistent(ByColumn(sort, x, y), ByColumn(sort, y, x), ByColumn(sort, y, z), ByColumn(sort, z, y),
                       ByColumn(sort, x, z), ByColumn(sort, z, x))
  {
    match sort
    case LastSeenDesc =>
    case PriceAsc => AscIsConsistent(x.listing.currentPrice, y.listing.currentPrice, z.listing.currentPrice);
    case PriceDesc => DescIsConsistent(x.listing.currentPrice, y.listing.currentPrice, z.listing.currentPrice);
    case ValueDesc => DescIsConsistent(x.valueScore, y.valueScore, z.valueScore);
    case _ => PpsfColumnIsConsistent(sort, x, y, z);
  }

  lemma {:induction false} KeyIsConsistent(x: Scored, y: Scored, z: Scored)
    ensures Consistent(ByKey(x, y), ByKey(y, x), ByKey(y, z), ByKey(z, y), ByKey(x, z), ByKey(z, x))
  {
    var a, b, c := x.listing.propertyKey, y.listing.propertyKey, z.listing.propertyKey;
    TextLeqIsTotal(a, b);
    TextLeqIsTotal(b, c);
    TextLeqIsTotal(a, c);
    if TextLeq(a, b) && TextLeq(b, c) { TextLeqIsTransitive(a, b, c); }
    if TextLeq(c, b) && TextLeq(b, a) { TextLeqIsTransitive(c, b, a); }
  }

  lemma {:induction false} ThenIsConsistent(
      xy: int, yx: int, yz: int, zy: int, xz: int, zx: int, xy': int, yx': int, yz': int, zy': int, xz': int, zx': int)
    requires Consistent(xy, yx, yz, zy, xz, zx) && Consistent(xy', yx', yz', zy', xz', zx')
    ensures Consistent(Then(xy, xy'), Then(yx, yx'), Then(yz, yz'), Then(zy, zy'), Then(xz, xz'), Then(zx, zx'))
  {
  }

  /** Every sort is a total order of the rows of a table: no two of them are tied. */
  lemma {:induction false} SortsAreTotal(sort: ListingSort)
    ensures TotalPreorder(Before(sort))
    ensures forall x, y :: Before(sort)(x, y) && Before(sort)(y, x) ==> x.listing.propertyKey == y.listing.propertyKey
  {
    forall x: Scored, y: Scored, z: Scored
      ensures Before(sort)(x, y) || Before(sort)(y, x)
      ensures Before(sort)(x, y) && Before(sort)(y, z) ==> Before(sort)(x, z)
      ensures Before(sort)(x, y) && Before(sort)(y, x) ==> x.listing.propertyKey == y.listing.propertyKey
    {
      OrderIsConsistent(sort, x, y, z);
    }
  }

  lemma {:induction false} OrderIsConsistent(sort: ListingSort, x: Scored, y: Scored, z: Scored)
    ensures Consistent(OrderRows(sort, x, y), OrderRows(sort, y, x), OrderRows(sort, y, z), OrderRows(sort, z, y),
                       OrderRows(sort, x, z), OrderRows(sort, z, x))
    ensures OrderRows(sort, x, y) == 0 ==> x.listing.propertyKey == y.listing.propertyKey
  {
    ColumnIsConsistent(sort, x, y, z);
    KeyIsConsistent(x, y, z);
    ThenIsConsistent(ByLastSeen(x, y), ByLastSeen(y, x), ByLastSeen(y, z), ByLastSeen(z, y), ByLastSeen(x, z), ByLastSeen(z, x),
                     ByKey(x, y), ByKey(y, x), ByKey(y, z), ByKey(z, y), ByKey(x, z), ByKey(z, x));
    ThenIsConsistent(ByColumn(sort, x, y), ByColumn(sort, y, x), ByColumn(sort, y, z), ByColumn(sort, z, y),
                     ByColumn(sort, x, z), ByColumn(sort, z, x),
                     Then(ByLastSeen(x, y), ByKey(x, y)), Then(ByLastSeen(y, x), ByKey(y, x)),
                     Then(ByLastSeen(y, z), ByKey(y, z)), Then(ByLastSeen(z, y), ByKey(z, y)),
                     Then(ByLastSeen(x, z), ByKey(x, z)), Then(ByLastSeen(z, x), ByKey(z, x)));
  }

  /* ---- The rows behind the pages ---- */

  /** The rows that pass, in table order. */
  function Matching(table: seq<Listing>, f: Filter, fold: Folding): seq<Listing> {
    if table == [] then []
    else (if Passes(f, table[0], fold) then [table[0]] else []) + Matching(table[1..], f, fold)
  }

  /** Everything a reader can page through: the matching rows, scored among themselves, in order. */
  function Browse(table: seq<Listing>, f: Filter, sort: ListingSort, fold: Folding): seq<Scored> {
    Sort(ScoreListings(Matching(table, f, fold)), Before(sort))
  }

  function Slice<T>(rows: seq<T>, limit: nat, offset: nat): seq<T> {
    if offset >= |rows| then []
    else if limit >= |rows| - offset then rows[offset..]
    else rows[offset..offset + limit]
  }

  lemma {:induction false} MatchingMembers(table: seq<Listing>, f: Filter, fold: Folding, l: Listing)
    ensures l in Matching(table, f, fold) <==> l in table && Passes(f, l, fold)
  {
    if table != [] {
      MatchingMembers(table[1..], f, fold, l);
      assert table == [table[0]] + table[1..];
    }
  }

  lemma {:induction false} MatchingIsTable(table: seq<Listing>, f: Filter, fold: Folding)
    requires IsTable(table)
    ensures IsTable(Matching(table, f, fold))
  {
    if table != [] {
      var rest := Matching(table[1..], f, fold);
      assert IsTable(table[1..]);
      MatchingIsTable(table[1..], f, fold);
      forall i | 0 <= i < |rest|
        ensures KeyOf(rest[i]) != KeyOf(table[0])
      {
        MatchingMembers(table[1..], f, fold, rest[i]);
        var j :| 0 <= j < |table[1..]| && table[1..][j] == rest[i];
        assert table[j + 1] == rest[i];
      }
    }
  }

  function ScoredKey(s: Scored): string { s.listing.propertyKey }

  lemma {:induction false} ScoredAreDistinct(rows: seq<Listing>)
    requires IsTable(rows)
    ensures Distinct(ScoreListings(rows), ScoredKey)
  {
    JoinKeepsListings(rows);
    forall i, j | 0 <= i < j < |rows|
      ensures ScoredKey(ScoreListings(rows)[i]) != ScoredKey(ScoreListings(rows)[j])
    {
      assert KeyOf(rows[i]) != KeyOf(rows[j]);
    }
  }

  /** ORDER BY leaves the database no choice: any sorted arrangement of the scored rows is the one
      that the pages are cut from. */
  lemma {:induction false} OrderIsDetermined(
      table: seq<Listing>, f: Filter, sort: ListingSort, fold: Folding, other: seq<Scored>)
    requires IsTable(table)
    requires Sorted(other, Before(sort)) && multiset(other) == multiset(ScoreListings(Matching(table, f, fold)))
    ensures other == Browse(table, f, sort, fold)
  {
    MatchingIsTable(table, f, fold);
    ScoredAreDistinct(Matching(table, f, fold));
    SortsAreTotal(sort);
    DistinctIsSortedOnce(ScoreListings(Matching(table, f, fold)), other, Before(sort), ScoredKey);
  }

  /** A reader who sees all pages sees every matching listing, once, and nothing else. */
  lemma {:induction false} BrowseShowsMatches(table: seq<Listing>, f: Filter, sort: ListingSort, fold: Folding)
    requires IsTable(table)
    ensures |Browse(table, f, sort, fold)| == |Matching(table, f, fold)|
    ensures Distinct(Browse(table, f, sort, fold), ScoredKey)
    ensures Sorted(Browse(table, f, sort, fold), Before(sort))
    ensures forall l :: (l in table && Passes(f, l, fold)) <==> exists s :: s in Browse(table, f, sort, fold) && s.listing == l
  {
    var rows := Matching(table, f, fold);
    MatchingIsTable(table, f, fold);
    ScoredAreDistinct(rows);
    JoinKeepsListings(rows);
    SortsAreTotal(sort);
    SortSorts(ScoreListings(rows), Before(sort));
    DistinctIsPermuted(ScoreListings(rows), Browse(table, f, sort, fold), ScoredKey);
    forall l
      ensures (l in table && Passes(f, l, fold)) <==> exists s :: s in Browse(table, f, sort, fold) && s.listing == l
    {
      MatchingMembers(table, f, fold, l);
      ScoredListings(rows, l);
    }
  }

  lemma {:induction false} ScoredListings(rows: seq<Listing>, l: Listing)
    requires IsTable(rows)
    ensures l in rows <==> exists s :: s in ScoreListings(rows) && s.listing == l
  {
    JoinKeepsListings(rows);
    if l in rows {
      var i :| 0 <= i < |rows| && rows[i] == l;
      assert ScoreListings(rows)[i] in ScoreListings(rows);
    }
  }

  /* ---- What the sorts mean ---- */

  /** None comes last. */
  predicate Ascends(a: Option<real>, b: Option<real>) {
    if a.None? then b.None? else b.None? || a.value <= b.value
  }

  predicate Descends(a: Option<real>, b: Option<real>) {
    if a.None? then b.None? else b.None? || a.value >= b.value
  }

  /** Price divided by area. */
  function Ratio(l: Listing): Option<real> {
    match (l.currentPrice, l.sqft)
    case (Some(price), Some(sqft)) => if sqft == 0 then None else Some(price / sqft as real)
    case _ => None
  }

  /** The order of two rows in the column of a sort. */
  predicate InColumnOrder(sort: ListingSort, x: Scored, y: Scored) {
    match sort
    case LastSeenDesc => true
    case PriceAsc => Ascends(x.listing.currentPrice, y.listing.currentPrice)
    case PriceDesc => Descends(x.listing.currentPrice, y.listing.currentPrice)
    case PpsfAsc => Ascends(Ratio(x.listing), Ratio(y.listing))
    case PpsfDesc => Descends(Ratio(x.listing), Ratio(y.listing))
    case ValueDesc => Descends(x.valueScore, y.valueScore)
  }

  /** The column says the same of both. */
  predicate IsTied(sort: ListingSort, x: Scored, y: Scored) {
    match sort
    case LastSeenDesc => true
    case PriceAsc => x.listing.currentPrice == y.listing.currentPrice
    case PriceDesc => x.listing.currentPrice == y.listing.currentPrice
    case PpsfAsc => Ratio(x.listing) == Ratio(y.listing)
    case PpsfDesc => Ratio(x.listing) == Ratio(y.listing)
    case ValueDesc => x.valueScore == y.valueScore
  }

  /** By the column, then the last seen first, then by key. */
  predicate StandsBefore(sort: ListingSort, x: Scored, y: Scored) {
    && InColumnOrder(sort, x, y)
    && (IsTied(sort, x, y) ==> x.listing.lastSeenAt >= y.listing.lastSeenAt)
    && (IsTied(sort, x, y) && x.listing.lastSeenAt == y.listing.lastSeenAt ==>
          TextLeq(x.listing.propertyKey, y.listing.propertyKey))
  }

  ghost predicate IsSortedBy(sort: ListingSort, rows: seq<Scored>) {
    forall i, j :: 0 <= i < j < |rows| ==> StandsBefore(sort, rows[i], rows[j])
  }

  lemma {:induction false} RatioIsPpsf(l: Listing)
    ensures Ratio(l) == Ppsf(l)
    ensures Unpriced(l) == if Ratio(l).None? then 1.0 else 0.0
  {
  }

  lemma {:induction false} ColumnMeans(sort: ListingSort, x: Scored, y: Scored)
    ensures ByColumn(sort, x, y) <= 0 <==> InColumnOrder(sort, x, y)
    ensures ByColumn(sort, x, y) == 0 <==> IsTied(sort, x, y)
  {
    RatioIsPpsf(x.listing);
    RatioIsPpsf(y.listing);
  }

  /** Each sort is what its name says. */
  lemma {:induction false} SortMeans(sort: ListingSort, x: Scored, y: Scored)
    ensures Before(sort)(x, y) ==> StandsBefore(sort, x, y)
  {
    ColumnMeans(sort, x, y);
    TextLeqIsTotal(x.listing.propertyKey, y.listing.propertyKey);
  }

  /** The rows behind the pages stand in the order of their sort. */
  lemma {:induction false} BrowseIsSorted(table: seq<Listing>, f: Filter, sort: ListingSort, fold: Folding)
    requires IsTable(table)
    ensures IsSortedBy(sort, Browse(table, f, sort, fold))
  {
    BrowseShowsMatches(table, f, sort, fold);
    var rows := Browse(table, f, sort, fold);
    forall i, j | 0 <= i < j < |rows|
      ensures StandsBefore(sort, rows[i], rows[j])
    {
      SortMeans(sort, rows[i], rows[j]);
    }
  }

  lemma {:induction false} SliceIsSorted(sort: ListingSort, rows: seq<Scored>, limit: nat, offset: nat)
    requires IsSortedBy(sort, rows)
    ensures IsSortedBy(sort, Slice(rows, limit, offset))
  {
  }

  /* ---- Lists and details ---- */

  function FindKey(rows: seq<Scored>, key: string): Option<Scored> {
    if rows == [] then None else if rows[0].listing.propertyKey == key then Some(rows[0]) else FindKey(rows[1..], key)
  }

  /** GetListing scores among all listings; None is ErrNotFound. */
  function GetListing(table: seq<Listing>, key: string): Option<Scored> {
    FindKey(ScoreListings(table), key)
  }

  lemma {:induction false} FindsRow(rows: seq<Scored>, i: nat)
    requires i < |rows| && Distinct(rows, ScoredKey)
    ensures FindKey(rows, rows[i].listing.propertyKey) == Some(rows[i])
  {
    if i > 0 {
      assert ScoredKey(rows[0]) != ScoredKey(rows[i]);
      assert Distinct(rows[1..], ScoredKey);
      FindsRow(rows[1..], i - 1);
    }
  }

  lemma {:induction false} FindsNothing(rows: seq<Scored>, key: string)
    requires forall i :: 0 <= i < |rows| ==> rows[i].listing.propertyKey != key
    ensures FindKey(rows, key) == None
  {
    if rows != [] {
      FindsNothing(rows[1..], key);
    }
  }

  /** A listing is found under its key, with its own score, and nothing under any other. */
  lemma {:induction false} GetListingFinds(table: seq<Listing>, key: string)
    requires IsTable(table)
    ensures forall l :: l in table && l.propertyKey == key ==> GetListing(table, key) == Some(OwnRow(table, l))
    ensures GetListing(table, key).None? <==> forall l :: l in table ==> l.propertyKey != key
  {
    if i :| 0 <= i < |table| && table[i].propertyKey == key {
      GetListingAt(table, i);
      assert table[i] in table;
    } else {
      JoinKeepsListings(table);
      assert forall l :: l in table ==> l.propertyKey != key;
      FindsNothing(ScoreListings(table), key);
    }
  }

  lemma {:induction false} GetListingAt(table: seq<Listing>, i: nat)
    requires IsTable(table) && i < |table|
    ensures GetListing(table, table[i].propertyKey) == Some(OwnRow(table, table[i]))
    ensures forall l :: l in table && l.propertyKey == table[i].propertyKey ==> l == table[i]
  {
    JoinKeepsListings(table);
    ScoredAreDistinct(table);
    FindsRow(ScoreListings(table), i);
    forall l | l in table && l.propertyKey == table[i].propertyKey
      ensures l == table[i]
    {
      var j :| 0 <= j < |table| && table[j] == l;
      assert KeyOf(table[j]) == KeyOf(table[i]);
      assert !(i < j) && !(j < i);
    }
  }

  ghost predicate KeepsGroup(table: seq<Listing>, f: Filter, fold: Folding, group: (string, Bucket)) {
    forall o :: o in table && GroupOf(o) == group && Ppsf(o).Some? ==> Passes(f, o, fold)
  }

  lemma {:induction false} KeptComps(table: seq<Listing>, f: Filter, fold: Folding, group: (string, Bucket))
    ensures KeepsGroup(table, f, fold, group) ==> Comps(Matching(table, f, fold), group) == Comps(table, group)
    ensures |Comps(Matching(table, f, fold), group)| <= |Comps(table, group)|
    ensures |Comps(Matching(table, f, fold), group)| == |Comps(table, group)| ==> KeepsGroup(table, f, fold, group)
  {
    if table != [] {
      var l, rest := table[0], table[1..];
      KeptComps(rest, f, fold, group);
      assert table == [l] + rest;
      assert KeepsGroup(table, f, fold, group) <==>
             KeepsGroup(rest, f, fold, group) && (GroupOf(l) == group && Ppsf(l).Some? ==> Passes(f, l, fold));
      FirstKept(table, f, fold, group);
    }
  }

  lemma {:induction false} FirstKept(table: seq<Listing>, f: Filter, fold: Folding, group: (string, Bucket))
    requires table != []
    ensures Comps(Matching(table, f, fold), group)
            == (if Passes(f, table[0], fold) && Ppsf(table[0]).Some? && GroupOf(table[0]) == group then [table[0]] else [])
               + Comps(Matching(table[1..], f, fold), group)
  {
    var rest := Matching(table[1..], f, fold);
    assert [] + rest == rest;
    assert ([table[0]] + rest)[1..] == rest;
  }

  /** The list shows a listing with the score and the comps of its detail view if and only if the
      filter keeps all comps of its group. */
  lemma {:induction false} RowIsKeptExactly(table: seq<Listing>, f: Filter, fold: Folding, l: Listing)
    ensures OwnRow(Matching(table, f, fold), l) == OwnRow(table, l) <==> KeepsGroup(table, f, fold, GroupOf(l))
  {
    KeptComps(table, f, fold, GroupOf(l));
    assert OwnRow(table, l).compsCount == |Comps(table, GroupOf(l))|;
  }

  /** The rank alone stays, before rounding, if and only if the cheaper ones have the same share
      among the other comps that are kept as among all other comps. */
  lemma {:induction false} RankIsKeptExactly(table: seq<Listing>, f: Filter, fold: Folding, l: Listing)
    requires l in table && Passes(f, l, fold) && Ppsf(l).Some?
    ensures var kept, all := Comps(Matching(table, f, fold), GroupOf(l)), Comps(table, GroupOf(l));
            var cheaperKept, cheaper := CountCheaper(kept, Ppsf(l).value), CountCheaper(all, Ppsf(l).value);
            RankOf(Matching(table, f, fold), l) == RankOf(table, l)
            <==> if |kept| == 1 then cheaper == 0 else cheaperKept * (|all| - 1) == cheaper * (|kept| - 1)
  {
    var kept, all := Comps(Matching(table, f, fold), GroupOf(l)), Comps(table, GroupOf(l));
    KeptCounts(table, f, fold, l);
    SharesAreEqualExactly(CountCheaper(kept, Ppsf(l).value), |kept| - 1, CountCheaper(all, Ppsf(l).value), |all| - 1);
  }

  lemma {:induction false} KeptCounts(table: seq<Listing>, f: Filter, fold: Folding, l: Listing)
    requires l in table && Passes(f, l, fold) && Ppsf(l).Some?
    ensures var kept, all := Comps(Matching(table, f, fold), GroupOf(l)), Comps(table, GroupOf(l));
            && 0 < |kept| <= |all|
            && CountCheaper(kept, Ppsf(l).value) <= |kept| - 1 && CountCheaper(all, Ppsf(l).value) <= |all| - 1
  {
    MatchingMembers(table, f, fold, l);
    CompsMembers(Matching(table, f, fold), GroupOf(l), l);
    CompsMembers(table, GroupOf(l), l);
    KeptComps(table, f, fold, GroupOf(l));
    CheaperAreOthers(Comps(Matching(table, f, fold), GroupOf(l)), l);
    CheaperAreOthers(Comps(table, GroupOf(l)), l);
  }

  function House(key: string, price: real): Listing {
    Listing(key, "HOUSE", "", None, "", None, None, Some(1), Some(price), 0)
  }

  /** A filter that splits a group does change scores: of two houses the dearer scores 0 in its
      detail view, and 100 in the list of what costs as much. */
  lemma {:induction false} SplitGroupsChangeScores(fold: Folding) returns (table: seq<Listing>, f: Filter, l: Listing)
    ensures IsTable(table) && l in table && Passes(f, l, fold)
    ensures OwnRow(table, l).valueScore == Some(0.0)
    ensures OwnRow(Matching(table, f, fold), l).valueScore == Some(100.0)
  {
    var o := House("a", 1.0);
    l := House("b", 2.0);
    assert o.propertyKey[0] != l.propertyKey[0];
    table := [o, l];
    f := Filter(Some(2.0), None, None, None, None, None, None, None, None, None);
    TwoListings(o, l, f, fold);
    JoinKeepsListings(table);
    JoinKeepsListings([l]);
    ScoresReachTheEnds(table, 1);
    ScoresReachTheEnds([l], 0);
  }

  lemma {:induction false} TwoListings(o: Listing, l: Listing, f: Filter, fold: Folding)
    requires KeyOf(o) != KeyOf(l) && GroupOf(o) == GroupOf(l) && Ppsf(o).Some? && Ppsf(l).Some?
    requires Ppsf(o).value < Ppsf(l).value && !Passes(f, o, fold) && Passes(f, l, fold)
    ensures IsTable([o, l]) && IsTable([l]) && Matching([o, l], f, fold) == [l]
    ensures IsOnlyDearest(Comps([o, l], GroupOf(l)), l) && IsCheapest(Comps([l], GroupOf(l)), l)
  {
    var g := GroupOf(l);
    assert Comps([l], g) == [l] by { assert [l][1..] == []; }
    assert Comps([o, l], g) == [o, l] by { assert [o, l][1..] == [l]; }
    assert Matching([l], f, fold) == [l] by { assert [l][1..] == []; }
    assert [o, l][1..] == [l];
  }

  /* ---- The query ---- */

  /** SELECT .. FROM listings WHERE .. */
  function SelectWhere(table: seq<Listing>, where: seq<Clause>, args: seq<Arg>, fold: Folding): seq<Listing> {
    if table == [] then []
    else
      (if EvaluateAll(where, args, table[0], fold) == True then [table[0]] else [])
      + SelectWhere(table[1..], where, args, fold)
  }

  lemma {:induction false} SelectIsMatching(
      table: seq<Listing>, where: seq<Clause>, args: seq<Arg>, f: Filter, more: seq<Arg>, fold: Folding)
    requires Compiled(where, args, BoundsOf(f))
    ensures SelectWhere(table, where, args + more, fold) == Matching(table, f, fold)
  {
    if table != [] {
      SelectIsMatching(table[1..], where, args, f, more, fold);
      ClauseMeansFilter(where, args, f, more, table[0], fold);
    }
  }

  /** LIMIT and OFFSET: the argument at a placeholder, which must not be negative. */
  function CountAt(args: seq<Arg>, position: int): Option<nat> {
    if 1 <= position <= |args| && args[position - 1].Integer? && args[position - 1].n >= 0
    then Some(args[position - 1].n) else None
  }

  /** The list query with its placeholders. */
  function RunQuery(table: seq<Listing>, where: seq<Clause>, sort: ListingSort, limitPos: int, offsetPos: int,
                    args: seq<Arg>, fold: Folding): Option<seq<Scored>> {
    var limit, offset := CountAt(args, limitPos), CountAt(args, offsetPos);
    if limit.None? || offset.None? then None
    else Some(Slice(Sort(ScoreListings(SelectWhere(table, where, args, fold)), Before(sort)), limit.value, offset.value))
  }

  /** The page and the total, or None where the database refuses a negative limit or offset. */
  method ListListings(table: seq<Listing>, f: Filter, sort: ListingSort, limit: int, offset: int, fold: Folding)
    returns (page: Option<(seq<Scored>, nat)>)
    requires IsTable(table)
    ensures page == if limit < 0 || offset < 0 then None
                    else Some((Slice(Browse(table, f, sort, fold), limit, offset), |Browse(table, f, sort, fold)|))
    ensures page.Some? ==> IsSortedBy(sort, page.value.0)
  {
    var builder := NewListingFilterBuilder(f);
    var total := |SelectWhere(table, builder.where, builder.args, fold)|;
    var listArgs := builder.args;
    var limitPos := |listArgs| + 1;
    listArgs := listArgs + [Integer(limit)];
    var offsetPos := |listArgs| + 1;
    listArgs := listArgs + [Integer(offset)];
    SelectIsMatching(table, builder.where, builder.args, f, [], fold);
    SelectIsMatching(table, builder.where, builder.args, f, [Integer(limit), Integer(offset)], fold);
    assert builder.args + [] == builder.args;
    assert builder.args + [Integer(limit), Integer(offset)] == listArgs;
    BrowseShowsMatches(table, f, sort, fold);
    var items := RunQuery(table, builder.where, sort, limitPos, offsetPos, listArgs, fold);
    if items.None? { return None; }
    BrowseIsSorted(table, f, sort, fold);
    SliceIsSorted(sort, Browse(table, f, sort, fold), limit, offset);
    return Some((items.value, total));
  }

  /* ---- The request ---- */

  const WORD := 0x1_0000_0000_0000_0000

  predicate InWord(n: int) { -(WORD / 2) <= n < WORD / 2 }

  /** 64-bit arithmetic wraps around. */
  function Wrap(n: int): (w: int)
    ensures InWord(w) && (w == n <==> InWord(n))
  {
    var m := n % WORD;
    if m >= WORD / 2 then m - WORD else m
  }

  type Word = n: int | InWord(n)

  /** A query parameter after Atoi. */
  datatype Param = Absent | Malformed | Given(n: Word)

  predicate Outside(p: Param, low: int, high: int) {
    p.Malformed? || (p.Given? && !(low <= p.n <= high))
  }

  function ValueOr(p: Param, default: int): int { if p.Given? then p.n else default }

  datatype Paging = Paging(page: int, pageSize: nat, offset: int)

  datatype Parsed = Ok(paging: Paging) | Invalid(code: string)

  const DEFAULT_PAGE_SIZE := 50
  const MAX_PAGE_SIZE := 200
  const MAX_WORD := WORD / 2 - 1

  /** Which paging a request stands for. */
  function PagingOf(page: Param, pageSize: Param, limit: Param, offset: Param): Parsed {
    if !page.Absent? || !pageSize.Absent? then
      if Outside(page, 1, MAX_WORD) then Invalid("invalid_page")
      else if Outside(pageSize, 1, MAX_PAGE_SIZE) then Invalid("invalid_page_size")
      else
        var p, s := ValueOr(page, 1), ValueOr(pageSize, DEFAULT_PAGE_SIZE);
        Ok(Paging(p, s, Wrap((p - 1) * s)))
    else if Outside(limit, 1, MAX_PAGE_SIZE) then Invalid("invalid_limit")
    else if Outside(offset, 0, MAX_WORD) then Invalid("invalid_offset")
    else
      var s, o := ValueOr(limit, DEFAULT_PAGE_SIZE), ValueOr(offset, 0);
      Ok(Paging(Wrap(o / s + 1), s, o))
  }

  /** parseListQuery, as far as it concerns paging. */
  method ParsePaging(page: Param, pageSize: Param, limit: Param, offset: Param) returns (parsed: Parsed)
    ensures parsed == PagingOf(page, pageSize, limit, offset)
  {
    var result := Paging(1, DEFAULT_PAGE_SIZE, 0);
    var pageProvided := !page.Absent? || !pageSize.Absent?;
    if pageProvided {
      if !page.Absent? {
        if page.Malformed? || page.n < 1 { return Invalid("invalid_page"); }
        result := result.(page := page.n);
      }
      if !pageSize.Absent? {
        if pageSize.Malformed? || pageSize.n < 1 || pageSize.n > MAX_PAGE_SIZE { return Invalid("invalid_page_size"); }
        result := result.(pageSize := pageSize.n);
      }
      result := result.(offset := Wrap((result.page - 1) * result.pageSize));
    } else {
      if !limit.Absent? {
        if limit.Malformed? || limit.n < 1 || limit.n > MAX_PAGE_SIZE { return Invalid("invalid_limit"); }
        result := result.(pageSize := limit.n);
      }
      if !offset.Absent? {
        if offset.Malformed? || offset.n < 0 { return Invalid("invalid_offset"); }
        result := result.(offset := offset.n);
      }
      result := result.(page := Wrap(result.offset / result.pageSize + 1));
    }
    return Ok(result);
  }

  predicate IsGivenIn(param: Param, low: int, high: int) {
    param.Given? && low <= param.n <= high
  }

  /** A request is refused for the first parameter of its form that is given and not a number in range;
      the form is that of limit and offset exactly when neither of the other two is given. */
  lemma {:induction false} RefusedExactly(page: Param, pageSize: Param, limit: Param, offset: Param)
    ensures var parsed := PagingOf(page, pageSize, limit, offset);
            var paged := !(page.Absent? && pageSize.Absent?);
            var pageFits := page.Absent? || IsGivenIn(page, 1, MAX_WORD);
            var pageSizeFits := pageSize.Absent? || IsGivenIn(pageSize, 1, 200);
            var limitFits := limit.Absent? || IsGivenIn(limit, 1, 200);
            var offsetFits := offset.Absent? || IsGivenIn(offset, 0, MAX_WORD);
            && (parsed == Invalid("invalid_page") <==> paged && !pageFits)
            && (parsed == Invalid("invalid_page_size") <==> paged && pageFits && !pageSizeFits)
            && (parsed == Invalid("invalid_limit") <==> !paged && !limitFits)
            && (parsed == Invalid("invalid_offset") <==> !paged && limitFits && !offsetFits)
            && (parsed.Ok? <==> if paged then pageFits && pageSizeFits else limitFits && offsetFits)
  {
  }

  /** The page and its size, or the offset and the limit, are those given, or the defaults. The
      offset is where the page begins exactly when it fits a machine word, and the page of an offset
      holds it unless its number does not fit. */
  lemma {:induction false} PagingIsExact(page: Param, pageSize: Param, limit: Param, offset: Param)
    ensures var parsed := PagingOf(page, pageSize, limit, offset);
            parsed.Ok? ==>
              var q := parsed.paging;
              && 1 <= q.pageSize <= 200
              && (if !page.Absent? || !pageSize.Absent?
                  then && q.page == (if page.Given? then page.n else 1)
                       && q.pageSize == (if pageSize.Given? then pageSize.n else 50)
                       && (q.offset == (q.page - 1) * q.pageSize <==> (q.page - 1) * q.pageSize <= MAX_WORD)
                  else && q.offset == (if offset.Given? then offset.n else 0)
                       && q.pageSize == (if limit.Given? then limit.n else 50)
                       && ((q.page - 1) * q.pageSize <= q.offset < q.page * q.pageSize
                           <==> !(q.pageSize == 1 && q.offset == MAX_WORD)))
  {
    var parsed := PagingOf(page, pageSize, limit, offset);
    if parsed.Ok? {
      var q := parsed.paging;
      if page.Absent? && pageSize.Absent? {
        PageOfOffset(q.offset, q.pageSize);
      } else {
        ProductIsNatural(q.page - 1, q.pageSize);
      }
    }
  }

  lemma {:induction false} ProductIsNatural(a: int, b: int)
    requires a >= 0 && b >= 0
    ensures a * b >= 0
  {
  }

  lemma {:induction false} PageOfOffset(offset: int, size: int)
    requires 0 <= offset <= MAX_WORD && 1 <= size
    ensures var page := Wrap(offset / size + 1);
            (page - 1) * size <= offset < page * size <==> !(size == 1 && offset == MAX_WORD)
  {
    var n := offset / size;
    var page := Wrap(n + 1);
    QuotientIsUnique(offset, size, page - 1);
    if size > 1 {
      HalfAtMost(offset, size);
    }
  }

  lemma {:induction false} AtMostQuotient(p: int, n: int, size: int)
    requires size > 0
    ensures p <= n / size <==> p * size <= n
  {
    var q := n / size;
    assert q * size <= n < q * size + size;
    if p <= q {
      ProductIsNatural(q - p, size);
      assert (q - p) * size == q * size - p * size;
    } else {
      ProductIsNatural(p - q - 1, size);
      assert (p - q - 1) * size == p * size - q * size - size;
    }
  }

  lemma {:induction false} QuotientIsUnique(offset: int, size: int, q: int)
    requires size >= 1
    ensures q * size <= offset < (q + 1) * size <==> q == offset / size
  {
    AtMostQuotient(q, offset, size);
    AtMostQuotient(q + 1, offset, size);
  }

  lemma {:induction false} HalfAtMost(offset: int, size: int)
    requires offset >= 0 && size >= 2
    ensures 0 <= offset / size <= offset / 2
  {
    var n := offset / size;
    AtMostQuotient(0, offset, size);
    AtMostQuotient(n, offset, size);
    ProductIsNatural(n, size - 2);
    assert n * size == n * (size - 2) + n * 2;
  }

  /** The page number 2^62 + 1 with four rows a page is answered with the first page. */
  lemma {:induction false} FarPageShowsFirst()
    ensures PagingOf(Given(WORD / 4 + 1), Given(4), Absent, Absent) == Ok(Paging(WORD / 4 + 1, 4, 0))
  {
  }

  datatype ListingsPage = ListingsPage(items: seq<Scored>, page: int, pageSize: int, total: nat)

  /** The answer of GET /v1/listings; None for an error status. */
  function Answer(table: seq<Listing>, f: Filter, sort: ListingSort, parsed: Parsed, fold: Folding): Option<ListingsPage> {
    match parsed
    case Invalid(_) => None
    case Ok(q) =>
      var rows := Browse(table, f, sort, fold);
      if q.offset < 0 then None
      else Some(ListingsPage(Slice(rows, q.pageSize, q.offset), q.page, q.pageSize, |rows|))
  }

  method ListingsBrowse(table: seq<Listing>, f: Filter, sort: ListingSort, page: Param, pageSize: Param, limit: Param,
                        offset: Param, fold: Folding) returns (response: Option<ListingsPage>)
    requires IsTable(table)
    ensures response == Answer(table, f, sort, PagingOf(page, pageSize, limit, offset), fold)
  {
    var query := ParsePaging(page, pageSize, limit, offset);
    if query.Invalid? { return None; }
    var found := ListListings(table, f, sort, query.paging.pageSize, query.paging.offset, fold);
    if found.None? { return None; }
    return Some(ListingsPage(found.value.0, query.paging.page, query.paging.pageSize, found.value.1));
  }
}
