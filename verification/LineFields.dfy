/** What each field of a line becomes (normalizeLine), said on the characters of the fields. */
module LineFields {
  import opened Sequences
  import opened Normalize
  import opened CanonicalTexts
  import opened Options
  import opened Tables
  import opened Lines

  /* ---- A unit in front of the address ---- */

  predicate AllWhite(s: string) {
    forall i :: 0 <= i < |s| ==> IsWhite(s[i])
  }

  predicate AllDigits(s: string) {
    forall i :: 0 <= i < |s| ==> '0' <= s[i] <= '9'
  }

  /** The address is digits, a hyphen and a text that is not blank and has no line break, with white
      space around the digits and behind the hyphen. */
  predicate IsPrefixed(address: string, w: string, digits: string, x: string, y: string, text: string) {
    && address == w + (digits + (x + ("-" + (y + text))))
    && AllWhite(w) && AllWhite(x) && AllWhite(y)
    && digits != "" && AllDigits(digits)
    && text != "" && !IsWhite(text[0]) && '\n' !in text && !AllSpace(text)
  }

  ghost predicate IsUnitPrefixed(address: string, digits: string, text: string) {
    exists w, x, y :: IsPrefixed(address, w, digits, x, y, text)
  }

  ghost predicate HasUnitPrefix(address: string) {
    exists digits, text :: IsUnitPrefixed(address, digits, text)
  }

  lemma {:induction false} WhiteIsSkipped(w: string, s: string)
    requires AllWhite(w) && (s != "" ==> !IsWhite(s[0]))
    ensures SkipWhite(w + s) == s
  {
    if w == "" {
      assert w + s == s;
    } else {
      WhiteIsSkipped(w[1..], s);
      assert (w + s)[1..] == w[1..] + s;
    }
  }

  lemma {:induction false} SkippedIsWhite(s: string) returns (w: string)
    ensures s == w + SkipWhite(s) && AllWhite(w)
    ensures SkipWhite(s) != "" ==> !IsWhite(SkipWhite(s)[0])
  {
    if s != "" && IsWhite(s[0]) {
      var rest := SkippedIsWhite(s[1..]);
      w := [s[0]] + rest;
      SplitFirst(s);
      Regroup([s[0]], rest, SkipWhite(s));
    } else {
      w := "";
    }
  }

  lemma {:induction false} DigitsAreSkipped(d: string, s: string)
    requires AllDigits(d) && (s != "" ==> !('0' <= s[0] <= '9'))
    ensures SkipDigits(d + s) == s
  {
    if d == "" {
      assert d + s == s;
    } else {
      DigitsAreSkipped(d[1..], s);
      assert (d + s)[1..] == d[1..] + s;
    }
  }

  lemma {:induction false} SkippedAreDigits(s: string) returns (d: string)
    ensures s == d + SkipDigits(s) && AllDigits(d)
    ensures SkipDigits(s) != "" ==> !('0' <= SkipDigits(s)[0] <= '9')
  {
    if s != "" && IsDigit(s[0]) {
      var rest := SkippedAreDigits(s[1..]);
      d := [s[0]] + rest;
      SplitFirst(s);
      Regroup([s[0]], rest, SkipDigits(s));
    } else {
      d := "";
    }
  }

  // A prefixed address is split into its digits and its text.
  lemma {:induction false} PrefixIsSplit(address: string, w: string, digits: string, x: string, y: string, text: string)
    requires IsPrefixed(address, w, digits, x, y, text)
    ensures SplitUnit(address) == Some((digits, TrimSpace(text)))
  {
    var behind := "-" + (y + text);
    var afterDigits := x + behind;
    WhiteIsSkipped(w, digits + afterDigits);
    DigitsAreSkipped(digits, afterDigits);
    assert (digits + afterDigits)[..|digits + afterDigits| - |afterDigits|] == digits;
    WhiteIsSkipped(x, behind);
    assert behind[1..] == y + text;
    WhiteIsSkipped(y, text);
    BlankExactly(text);
  }

  // What is split was prefixed.
  lemma {:induction false} SplitWasPrefixed(address: string) returns (digits: string, text: string)
    requires SplitUnit(address).Some?
    ensures IsUnitPrefixed(address, digits, text)
  {
    var w := SkippedIsWhite(address);
    var s := SkipWhite(address);
    digits := SkippedAreDigits(s);
    var afterDigits := SkipDigits(s);
    var x := SkippedIsWhite(afterDigits);
    var hyphen := SkipWhite(afterDigits);
    DigitsInFront(digits, afterDigits);
    var y := SkippedIsWhite(hyphen[1..]);
    text := SkipWhite(hyphen[1..]);
    BlankExactly(text);
    Assemble(address, w, s, digits, afterDigits, x, hyphen, y, text);
    assert IsPrefixed(address, w, digits, x, y, text);
  }

  lemma {:induction false} DigitsInFront(digits: string, rest: string)
    ensures (digits + rest)[..|digits + rest| - |rest|] == digits
  {
  }

  lemma {:induction false} Assemble(address: string, w: string, s: string, digits: string, afterDigits: string, x: string,
                                    hyphen: string, y: string, text: string)
    requires address == w + s && s == digits + afterDigits && afterDigits == x + hyphen
    requires hyphen != "" && hyphen[0] == '-' && hyphen[1..] == y + text
    ensures address == w + (digits + (x + ("-" + (y + text))))
  {
    assert hyphen == "-" + hyphen[1..];
  }

  /** An address is split exactly when it has a unit prefix, into the digits and the trimmed text. */
  lemma {:induction false} SplitUnitExactly(address: string)
    ensures SplitUnit(address).Some? <==> HasUnitPrefix(address)
    ensures forall digits, text :: IsUnitPrefixed(address, digits, text) ==>
              SplitUnit(address) == Some((digits, TrimSpace(text)))
  {
    forall digits, text | IsUnitPrefixed(address, digits, text)
      ensures SplitUnit(address) == Some((digits, TrimSpace(text)))
    {
      var w, x, y :| IsPrefixed(address, w, digits, x, y, text);
      PrefixIsSplit(address, w, digits, x, y, text);
    }
    if SplitUnit(address).Some? {
      var digits, text := SplitWasPrefixed(address);
    }
  }

  /* ---- What a line becomes ---- */

  /** A line is rejected for the first of these reasons that applies, and accepted where none does. */
  lemma {:induction false} RejectedExactly(digest: string -> Hash, line: Line)
    ensures NormalizeLine(digest, line) == Rejected(InvalidJson) <==> line.None?
    ensures NormalizeLine(digest, line) == Rejected(MissingIdentityFields) <==> line.Some? && AllSpace(line.value.address)
    ensures NormalizeLine(digest, line) == Rejected(InvalidScrapedAt)
            <==> line.Some? && !AllSpace(line.value.address) && line.value.scrapedAt.None?
    ensures NormalizeLine(digest, line) == Rejected(MissingPrice)
            <==> line.Some? && !AllSpace(line.value.address) && line.value.scrapedAt.Some? && line.value.price.None?
    ensures NormalizeLine(digest, line).Accepted?
            <==> line.Some? && !AllSpace(line.value.address) && line.value.scrapedAt.Some? && line.value.price.Some?
  {
    if line.Some? {
      BlankExactly(line.value.address);
    }
  }

  /** Which field of the line each tracked column, the time and the hash come from. */
  lemma {:induction false} TrackedColumns(digest: string -> Hash, p: Payload)
    requires NormalizeLine(digest, Some(p)).Accepted?
    ensures var r := NormalizeLine(digest, Some(p)).record;
            && Some(r.at) == p.scrapedAt && Some(r.snapshot.price) == p.price
            && r.snapshot.beds == p.beds && r.snapshot.baths == p.baths && r.snapshot.sqft == p.sqft
            && r.snapshot.propertyType == p.kind
            && r.snapshot.sourceListingId == (if AllSpace(p.sourceListingId) then p.listingId else p.sourceListingId)
            && r.hash == digest(SnapshotPayload(r.snapshot.price, r.snapshot.beds, r.snapshot.baths, r.snapshot.sqft,
                                                r.snapshot.sourceListingId, r.snapshot.propertyType))
  {
    BlankExactly(p.sourceListingId);
  }

  /** The other columns. A unit in front of the address is taken off it, and fills a blank unit. */
  lemma {:induction false} OtherColumns(digest: string -> Hash, p: Payload)
    requires NormalizeLine(digest, Some(p)).Accepted?
    ensures var d := NormalizeLine(digest, Some(p)).record.details;
            && d.postalCode == p.postalCode && d.lat == p.lat && d.lon == p.lon && d.url == TrimSpace(p.url)
            && (!HasUnitPrefix(p.address) ==> d.address == p.address && d.unit == TrimSpace(p.unit))
            && (forall digits, text :: IsUnitPrefixed(p.address, digits, text) ==>
                  d.address == TrimSpace(text) && d.unit == if AllSpace(p.unit) then digits else TrimSpace(p.unit))
  {
    DetailsFromSplit(digest, p);
    SplitUnitExactly(p.address);
    BlankExactly(p.unit);
    forall digits, text | IsUnitPrefixed(p.address, digits, text)
      ensures TrimSpace(digits) == digits
    {
      DigitsStay(p.address, digits, text);
    }
  }

  lemma {:induction false} DigitsStay(address: string, digits: string, text: string)
    requires IsUnitPrefixed(address, digits, text)
    ensures TrimSpace(digits) == digits
  {
    var w, x, y :| IsPrefixed(address, w, digits, x, y, text);
    TrimmedStays(digits);
  }

  lemma {:induction false} DetailsFromSplit(digest: string -> Hash, p: Payload)
    requires NormalizeLine(digest, Some(p)).Accepted?
    ensures var split := SplitUnit(p.address);
            NormalizeLine(digest, Some(p)).record.details
            == Details(if split.Some? then split.value.1 else p.address,
                       TrimSpace(if split.Some? && TrimSpace(p.unit) == "" then split.value.0 else p.unit),
                       p.postalCode, p.lat, p.lon, TrimSpace(p.url))
  {
  }

  /** The key is the digest of the identity, without the unit field where a unit stands in front of
      the address. */
  lemma {:induction false} RecordKey(digest: string -> Hash, p: Payload)
    requires NormalizeLine(digest, Some(p)).Accepted?
    ensures NormalizeLine(digest, Some(p)).record.key
            == digest(CanonicalIdentity(p.address, p.postalCode, if HasUnitPrefix(p.address) then "" else p.unit))
  {
    SplitUnitExactly(p.address);
  }

  /** Two lines name the same property exactly when address, postal code and unit agree after
      normalization, where a line with a unit in front of its address counts as one without a unit. */
  lemma {:induction false} SamePropertyExactly(digest: string -> Hash, p: Payload, q: Payload)
    requires Injective(digest)
    requires NormalizeLine(digest, Some(p)).Accepted? && NormalizeLine(digest, Some(q)).Accepted?
    ensures NormalizeLine(digest, Some(p)).record.key == NormalizeLine(digest, Some(q)).record.key
            <==> && NormalizeText(p.address) == NormalizeText(q.address)
                 && NormalizePostal(p.postalCode) == NormalizePostal(q.postalCode)
                 && NormalizeText(if HasUnitPrefix(p.address) then "" else p.unit)
                    == NormalizeText(if HasUnitPrefix(q.address) then "" else q.unit)
  {
    RecordKey(digest, p);
    RecordKey(digest, q);
    IdentityDecodes(p.address, p.postalCode, if HasUnitPrefix(p.address) then "" else p.unit,
                    q.address, q.postalCode, if HasUnitPrefix(q.address) then "" else q.unit);
  }

  /** So without such a unit the unit field tells properties apart, and with one it does not matter. */
  lemma {:induction false} UnitFieldMattersExactly(digest: string -> Hash, p: Payload, unit: string)
    requires Injective(digest) && NormalizeLine(digest, Some(p)).Accepted?
    ensures NormalizeLine(digest, Some(p.(unit := unit))).Accepted?
    ensures NormalizeLine(digest, Some(p.(unit := unit))).record.key == NormalizeLine(digest, Some(p)).record.key
            <==> HasUnitPrefix(p.address) || NormalizeText(unit) == NormalizeText(p.unit)
  {
    SamePropertyExactly(digest, p.(unit := unit), p);
  }
}
