/** From the lines of a raw object to records (parseJSONL, normalizeLine), and what a listing
    has to do with the history of its property. */
module Lines {
  import opened Normalize
  import opened Options
  import opened Tables
  import opened TableFacts
  import opened AnyOrderStreams
  import opened InOrderStreams

  // A number as strconv renders it, or "" when the field is missing.
  type Numeral = s: string | '|' !in s witness ""
  type PropertyType = s: string | s in PROPERTY_TYPES witness "OTHER"

  /** The fields of a decoded line, as the get... and parseTime helpers return them. */
  datatype Payload = Payload(
    address: string, postalCode: string, unit: string, sourceListingId: string, listingId: string,
    url: string, lat: string, lon: string,
    scrapedAt: Option<int>, price: Option<Numeral>, beds: Numeral, baths: Numeral, sqft: Numeral,
    kind: PropertyType)

  // None is a line that is not a JSON object.
  type Line = Option<Payload>

  datatype Reason = InvalidJson | MissingIdentityFields | InvalidScrapedAt | MissingPrice

  datatype Result = Accepted(record: Record) | Rejected(reason: Reason)

  datatype ErrorRecord = ErrorRecord(lineNumber: int, reason: Reason)

  function SkipWhite(s: string): string {
    if s != "" && IsWhite(s[0]) then SkipWhite(s[1..]) else s
  }

  function SkipDigits(s: string): (rest: string)
    ensures |rest| <= |s|
  {
    if s != "" && IsDigit(s[0]) then SkipDigits(s[1..]) else s
  }

  /** unitPrefixRegex: digits, a hyphen and an address on one line; None if there is no match. */
  function SplitUnit(input: string): Option<(string, string)> {
    var s := SkipWhite(input);
    var afterDigits := SkipDigits(s);
    var digits := s[..|s| - |afterDigits|];
    var hyphen := SkipWhite(afterDigits);
    if digits == "" || hyphen == "" || hyphen[0] != '-' then None
    else
      var rest := SkipWhite(hyphen[1..]);
      if '\n' in rest || TrimSpace(rest) == "" then None else Some((digits, TrimSpace(rest)))
  }

  function PropertyKey(digest: string -> Hash, address: string, postal: string, unit: string): string {
    digest(CanonicalIdentity(address, postal, unit))
  }

  function PayloadOf(s: Snapshot): string {
    SnapshotPayload(s.price, s.beds, s.baths, s.sqft, s.sourceListingId, s.propertyType)
  }

  /** The listing id, or the fallback field when it is blank. */
  function ListingId(p: Payload): string {
    if TrimSpace(p.sourceListingId) == "" then p.listingId else p.sourceListingId
  }

  /** An address with a unit in front is identified as it stands, without the unit field. */
  function IdentityUnit(p: Payload): string {
    if SplitUnit(p.address).Some? then "" else p.unit
  }

  function NormalizeLine(digest: string -> Hash, line: Line): Result {
    if line.None? then Rejected(InvalidJson)
    else
      var p := line.value;
      if TrimSpace(p.address) == "" then Rejected(MissingIdentityFields)
      else if p.scrapedAt.None? then Rejected(InvalidScrapedAt)
      else if p.price.None? then Rejected(MissingPrice)
      else
        var split := SplitUnit(p.address);
        var address := if split.Some? then split.value.1 else p.address;
        var unit := if split.Some? && TrimSpace(p.unit) == "" then split.value.0 else p.unit;
        var snapshot := Snapshot(p.price.value, p.beds, p.baths, p.sqft, ListingId(p), p.kind);
        Accepted(Record(
          PropertyKey(digest, p.address, p.postalCode, IdentityUnit(p)),
          p.scrapedAt.value,
          digest(PayloadOf(snapshot)),
          snapshot,
          Details(address, TrimSpace(unit), p.postalCode, p.lat, p.lon, TrimSpace(p.url))))
  }

  /** What becomes of each line of a raw object. */
  function Results(normalize: Line -> Result, lines: seq<Line>): (results: seq<Result>)
    ensures |results| == |lines| && forall i :: 0 <= i < |lines| ==> results[i] == normalize(lines[i])
  {
    seq(|lines|, i requires 0 <= i < |lines| => normalize(lines[i]))
  }

  /** The records and the rejects, each in line order. */
  function Records(results: seq<Result>): seq<Record> {
    if results == [] then []
    else
      var n := |results| - 1;
      if results[n].Accepted? then Records(results[..n]) + [results[n].record] else Records(results[..n])
  }

  function Rejects(results: seq<Result>): seq<ErrorRecord> {
    if results == [] then []
    else
      var n := |results| - 1;
      if results[n].Rejected? then Rejects(results[..n]) + [ErrorRecord(n + 1, results[n].reason)] else Rejects(results[..n])
  }

  /** The lines in front of the first one of n whose output cannot be written. */
  function Writable(n: nat, fails: nat -> bool): (k: nat)
    ensures k <= n && (forall i :: 0 <= i < k ==> !fails(i)) && (k < n ==> fails(k))
  {
    if n == 0 then 0
    else
      var k := Writable(n - 1, fails);
      if k == n - 1 && !fails(k) then n else k
  }

  /** parseJSONL, with what it has written to its two writers; `normalize` is NormalizeLine under the
      digest. `fails(n)` says whether line n, counted from 0, cannot be marshalled or written, and
      `scanFails` whether the scanner reports an error behind the last line. An error (None) discards
      the records, and leaves what was written. */
  method ParseJsonl(normalize: Line -> Result, lines: seq<Line>, fails: nat -> bool, scanFails: bool)
    returns (parsed: Option<seq<Record>>, normalized: seq<Record>, errors: seq<ErrorRecord>)
    ensures var written := Results(normalize, lines)[..Writable(|lines|, fails)];
            normalized == Records(written) && errors == Rejects(written)
    ensures parsed == if Writable(|lines|, fails) == |lines| && !scanFails then Some(Records(Results(normalize, lines))) else None
  {
    ghost var results := Results(normalize, lines);
    var records: seq<Record> := [];
    normalized, errors := [], [];
    var lineNumber := 0;
    while lineNumber < |lines|
      invariant 0 <= lineNumber <= Writable(|lines|, fails)
      invariant records == normalized == Records(results[..lineNumber])
      invariant errors == Rejects(results[..lineNumber])
    {
      assert results[..lineNumber + 1][..lineNumber] == results[..lineNumber];
      var n, result := lineNumber, normalize(lines[lineNumber]);
      lineNumber := lineNumber + 1;
      if fails(n) { return None, normalized, errors; }
      match result
      case Rejected(reason) =>
        errors := errors + [ErrorRecord(lineNumber, reason)];
      case Accepted(record) =>
        normalized := normalized + [record];
        records := records + [record];
    }
    assert results[..lineNumber] == results;
    if scanFails { return None, normalized, errors; }
    return Some(records), normalized, errors;
  }

  // The line an error record names was rejected for its reason.
  predicate NamesLine(results: seq<Result>, e: ErrorRecord) {
    1 <= e.lineNumber <= |results| && results[e.lineNumber - 1] == Rejected(e.reason)
  }

  predicate Increasing(es: seq<ErrorRecord>) {
    forall i, j :: 0 <= i < j < |es| ==> es[i].lineNumber < es[j].lineNumber
  }

  /** The rejects name rejected lines, by 1-based numbers and in order. */
  lemma {:induction false} RejectsNameTheirLines(results: seq<Result>)
    ensures forall e :: e in Rejects(results) ==> NamesLine(results, e)
    ensures Increasing(Rejects(results))
  {
    RejectsAreNamed(results);
    if results != [] {
      var n := |results| - 1;
      RejectsNameTheirLines(results[..n]);
      OneMoreReject(results[..n], n + 1);
    }
  }

  // The rejects of earlier lines have smaller numbers.
  lemma {:induction false} OneMoreReject(results: seq<Result>, number: int)
    requires |results| < number && Increasing(Rejects(results))
    requires forall e :: e in Rejects(results) ==> NamesLine(results, e)
    ensures forall reason :: Increasing(Rejects(results) + [ErrorRecord(number, reason)])
  {
    var es := Rejects(results);
    forall i | 0 <= i < |es|
      ensures es[i].lineNumber < number
    {
      assert NamesLine(results, es[i]);
    }
  }

  lemma {:induction false} RejectsAreNamed(results: seq<Result>)
    ensures forall e :: e in Rejects(results) ==> NamesLine(results, e)
  {
    if results != [] {
      var n := |results| - 1;
      RejectsAreNamed(results[..n]);
      forall e | e in Rejects(results)
        ensures NamesLine(results, e)
      {
        assert e in Rejects(results[..n]) ==> NamesLine(results[..n], e);
        assert e !in Rejects(results[..n]) ==> e.lineNumber == n + 1 && results[n] == Rejected(e.reason);
      }
    }
  }

  // An accepted line has its record behind those of the accepted lines in front of it, and a
  // rejected line has its error record.
  predicate IsPlaced(results: seq<Result>, i: int)
    requires 0 <= i < |results|
  {
    match results[i]
    case Accepted(record) =>
      var k := |Records(results[..i])|; k < |Records(results)| && Records(results)[k] == record
    case Rejected(reason) => ErrorRecord(i + 1, reason) in Rejects(results)
  }

  lemma {:induction false} StaysPlaced(results: seq<Result>, i: int)
    requires 0 <= i < |results| - 1 && IsPlaced(results[..|results| - 1], i)
    ensures IsPlaced(results, i)
  {
    var pre := results[..|results| - 1];
    assert pre[i] == results[i] && pre[..i] == results[..i];
  }

  /** Every line ends up in exactly one output, at its place. */
  lemma {:induction false} LinesAreConserved(results: seq<Result>)
    ensures |Records(results)| + |Rejects(results)| == |results|
    ensures forall i :: 0 <= i < |results| ==> IsPlaced(results, i)
  {
    if results != [] {
      var n := |results| - 1;
      LinesAreConserved(results[..n]);
      forall i | 0 <= i < n
        ensures IsPlaced(results, i)
      {
        StaysPlaced(results, i);
      }
      assert IsPlaced(results, n);
    }
  }

  ghost predicate Injective(digest: string -> Hash) {
    forall x, y :: digest(x) == digest(y) ==> x == y
  }

  /** Two lines have the same hash exactly when their tracked columns, all six, agree. */
  lemma {:induction false} SameHashExactly(digest: string -> Hash, p: Payload, q: Payload)
    requires Injective(digest)
    requires NormalizeLine(digest, Some(p)).Accepted? && NormalizeLine(digest, Some(q)).Accepted?
    ensures NormalizeLine(digest, Some(p)).record.hash == NormalizeLine(digest, Some(q)).record.hash
            <==> NormalizeLine(digest, Some(p)).record.snapshot == NormalizeLine(digest, Some(q)).record.snapshot
  {
    if NormalizeLine(digest, Some(p)).record.hash == NormalizeLine(digest, Some(q)).record.hash {
      SnapshotDecodes(p.price.value, p.beds, p.baths, p.sqft, ListingId(p), p.kind,
                      q.price.value, q.beds, q.baths, q.sqft, ListingId(q), q.kind);
    }
  }

  ghost predicate Parsed(digest: string -> Hash, r: Record) {
    exists p: Payload :: NormalizeLine(digest, Some(p)) == Accepted(r)
  }

  /** After an in-order stream of parsed files, however cut, the newest history row of a property
      carries the hash and the tracked columns that its listing shows. */
  lemma {:induction false} ListingShowsNewestRow(
      plan: Planner, digest: string -> Hash, files: seq<seq<Record>>, key: string)
    requires Injective(digest) && InOrder(Flatten(files))
    requires forall r :: r in Flatten(files) ==> Parsed(digest, r)
    requires Observations(Flatten(files), key) != []
    ensures var db := WriteFiles(plan, EmptyDb, files);
            var rows := KeyRows(db.history, key);
            && key in db.listings && rows != []
            && var row, shown := rows[plan(rows)], db.listings[key].snapshot;
            && row.hash == digest(PayloadOf(shown))
            && row.price == shown.price && row.beds == shown.beds && row.baths == shown.baths
            && row.sqft == shown.sqft && row.sourceListingId == shown.sourceListingId
  {
    var all := Flatten(files);
    BatchingIsIrrelevant(plan, EmptyDb, files);
    NewestRowIsLast(plan, all, key);
    var os := Observations(all, key);
    ListingAfterFile(plan, EmptyDb, all, key);
    ObservationsMembers(all, key);
    assert os[|os| - 1] in os;
    var rows := KeyRows(WriteFile(plan, EmptyDb, all).history, key);
    var i := RowOrigin(plan, all, key, plan(rows));
    assert all[i] in all;
    SameSnapshot(digest, all[i], os[|os| - 1]);
  }

  // The newest row carries the hash of the last observation.
  lemma {:induction false} NewestRowIsLast(plan: Planner, all: seq<Record>, key: string)
    requires InOrder(all) && Observations(all, key) != []
    ensures var os := Observations(all, key);
            var rows := KeyRows(WriteFile(plan, EmptyDb, all).history, key);
            rows != [] && rows[plan(rows)].hash == os[|os| - 1].hash
  {
    var tx := WriteRecords(plan, EmptyDb, all);
    PropertiesAreIndependent(plan, EmptyDb, all, key);
    assert key in tx.cache;
    assert InOrderAfter(EmptyDb.history, all);
    CacheAgreesWithQuery(plan, EmptyDb, all);
    assert tx.cache[key] == Latest(plan, tx.db.history, key);
  }

  // A row of the table comes from a record.
  lemma {:induction false} RowOrigin(plan: Planner, all: seq<Record>, key: string, n: nat) returns (i: nat)
    requires n < |KeyRows(WriteFile(plan, EmptyDb, all).history, key)|
    ensures i < |all| && KeyRows(WriteFile(plan, EmptyDb, all).history, key)[n] == RowOf(all[i])
  {
    var history := WriteFile(plan, EmptyDb, all).history;
    var row := KeyRows(history, key)[n];
    KeyRowsMembers(history, key);
    RowsAreObservations(plan, EmptyDb, all);
    assert row in KeyRows(history, key) && From([], all, row);
    i :| 0 <= i < |all| && row == RowOf(all[i]);
  }

  lemma {:induction false} SameSnapshot(digest: string -> Hash, r: Record, r': Record)
    requires Injective(digest) && Parsed(digest, r) && Parsed(digest, r') && r.hash == r'.hash
    ensures r.snapshot == r'.snapshot && r.hash == digest(PayloadOf(r.snapshot))
  {
    var p: Payload :| NormalizeLine(digest, Some(p)) == Accepted(r);
    var q: Payload :| NormalizeLine(digest, Some(q)) == Accepted(r');
    SameHashExactly(digest, p, q);
  }
}
