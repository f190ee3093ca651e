/** The filter-to-SQL builder (store.go, filterBuilder) and what its clause keeps. */
module Filters {
  import opened Options
  import opened Normalize
  import opened Patterns
  import opened Scoring

  datatype Filter = Filter(
    minPrice: Option<real>, maxPrice: Option<real>, minBeds: Option<int>, minBaths: Option<real>,
    minSqft: Option<int>, maxSqft: Option<int>, propertyType: Option<string>, postalPrefix: Option<string>,
    city: Option<string>, query: Option<string>)

  /* ---- SQL ---- */

  datatype Arg = Number(x: real) | Integer(n: int) | Text(s: string)

  /** The clause texts; each has one placeholder. */
  datatype Template =
    | PriceAtLeast | PriceAtMost | BedsAtLeast | BathsAtLeast | SqftAtLeast | SqftAtMost
    | TypeEquals | PostalCodeLike | CityILike | AddressILike

  /** A template with its placeholder filled in: $position. */
  datatype Clause = Clause(template: Template, position: int)

  datatype Truth = True | False | Unknown

  function Known(b: bool): Truth { if b then True else False }

  function And(a: Truth, b: Truth): Truth {
    if a == False || b == False then False else if a == Unknown || b == Unknown then Unknown else True
  }

  function AtLeast(value: Option<real>, bound: real): Truth {
    if value.None? then Unknown else Known(value.value >= bound)
  }

  function AtMost(value: Option<real>, bound: real): Truth {
    if value.None? then Unknown else Known(value.value <= bound)
  }

  function Whole(n: Option<int>): Option<real> {
    if n.None? then None else Some(n.value as real)
  }

  /** A comparison with NULL is unknown. */
  function Compare(t: Template, arg: Arg, row: Listing, fold: Folding): Truth {
    match (t, arg)
    case (PriceAtLeast, Number(x)) => AtLeast(row.currentPrice, x)
    case (PriceAtMost, Number(x)) => AtMost(row.currentPrice, x)
    case (BedsAtLeast, Integer(n)) => AtLeast(Whole(row.beds), n as real)
    case (BathsAtLeast, Number(x)) => AtLeast(row.baths, x)
    case (SqftAtLeast, Integer(n)) => AtLeast(Whole(row.sqft), n as real)
    case (SqftAtMost, Integer(n)) => AtMost(Whole(row.sqft), n as real)
    case (TypeEquals, Text(s)) => Known(row.propertyType == s)
    case (PostalCodeLike, Text(s)) => Known(Like(row.postalCode, s))
    case (CityILike, Text(s)) => if row.city.None? then Unknown else Known(ILike(row.city.value, s, fold))
    case (AddressILike, Text(s)) => Known(ILike(row.address, s, fold))
    case _ => Unknown
  }

  /** $1 is the first argument; one that is not there compares as NULL. */
  function Evaluate(clause: Clause, args: seq<Arg>, row: Listing, fold: Folding): Truth {
    if 1 <= clause.position <= |args| then Compare(clause.template, args[clause.position - 1], row, fold) else Unknown
  }

  /** The clauses joined by AND; no clause at all keeps every row. */
  function EvaluateAll(where: seq<Clause>, args: seq<Arg>, row: Listing, fold: Folding): Truth {
    if where == [] then True
    else And(EvaluateAll(where[..|where| - 1], args, row, fold), Evaluate(where[|where| - 1], args, row, fold))
  }

  /* ---- What a filter asks for ---- */

  predicate Passes(f: Filter, row: Listing, fold: Folding) {
    PassesNumbers(f, row) && PassesTexts(f, row, fold)
  }

  predicate PassesNumbers(f: Filter, row: Listing) {
    && (f.minPrice.Some? ==> row.currentPrice.Some? && row.currentPrice.value >= f.minPrice.value)
    && (f.maxPrice.Some? ==> row.currentPrice.Some? && row.currentPrice.value <= f.maxPrice.value)
    && (f.minBeds.Some? ==> row.beds.Some? && row.beds.value >= f.minBeds.value)
    && (f.minBaths.Some? ==> row.baths.Some? && row.baths.value >= f.minBaths.value)
    && (f.minSqft.Some? ==> row.sqft.Some? && row.sqft.value >= f.minSqft.value)
    && (f.maxSqft.Some? ==> row.sqft.Some? && row.sqft.value <= f.maxSqft.value)
  }

  predicate PassesTexts(f: Filter, row: Listing, fold: Folding) {
    && (f.propertyType.Some? ==> row.propertyType == f.propertyType.value)
    && (f.postalPrefix.Some? ==> Like(row.postalCode, f.postalPrefix.value + "%"))
    && (f.city.Some? ==> row.city.Some? && ILike(row.city.value, f.city.value, fold))
    && (f.query.Some? ==> ILike(row.address, "%" + f.query.value + "%", fold))
  }

  /** A missing value is within no bounds that are set. */
  predicate IsWithin(value: Option<real>, low: Option<real>, high: Option<real>) {
    || (low.None? && high.None?)
    || (value.Some? && (low.None? || low.value <= value.value) && (high.None? || value.value <= high.value))
  }

  predicate IsWithinWhole(value: Option<int>, low: Option<int>, high: Option<int>) {
    || (low.None? && high.None?)
    || (value.Some? && (low.None? || low.value <= value.value) && (high.None? || value.value <= high.value))
  }

  predicate PlainTexts(f: Filter) {
    && (f.postalPrefix.Some? ==> Plain(f.postalPrefix.value))
    && (f.city.Some? ==> Plain(f.city.value)) && (f.query.Some? ==> Plain(f.query.value))
  }

  /** A filter without pattern characters keeps the rows whose numbers are within its bounds, whose type
      is the one asked for, whose postal code begins with the prefix, and whose city is, and whose
      address contains, up to case, the text asked for. */
  lemma {:induction false} PlainFilterExactly(f: Filter, row: Listing, fold: Folding)
    requires PlainTexts(f)
    ensures Passes(f, row, fold)
            <==>
            && IsWithin(row.currentPrice, f.minPrice, f.maxPrice) && IsWithin(row.baths, f.minBaths, None)
            && IsWithinWhole(row.beds, f.minBeds, None) && IsWithinWhole(row.sqft, f.minSqft, f.maxSqft)
            && (f.propertyType.Some? ==> f.propertyType == Some(row.propertyType))
            && (f.postalPrefix.Some? ==> f.postalPrefix.value <= row.postalCode)
            && (f.city.Some? ==> row.city.Some? && Fold(row.city.value, fold) == Fold(f.city.value, fold))
            && (f.query.Some? ==> Contains(Fold(row.address, fold), Fold(f.query.value, fold)))
  {
    if f.postalPrefix.Some? { PrefixPattern(row.postalCode, f.postalPrefix.value); }
    if f.city.Some? { CityPatternExactly(f.city.value, fold); }
    if f.query.Some? { QueryPatternExactly(f.query.value, fold); }
  }

  /* ---- The builder ---- */

  datatype Bound = Bound(template: Template, arg: Arg)

  function BoundIf(value: Option<Arg>, template: Template): seq<Bound> {
    match value
    case None => []
    case Some(arg) => [Bound(template, arg)]
  }

  function NumberArg(value: Option<real>): Option<Arg> {
    if value.None? then None else Some(Number(value.value))
  }

  function IntegerArg(value: Option<int>): Option<Arg> {
    if value.None? then None else Some(Integer(value.value))
  }

  /** A text between the two ends of its pattern. */
  function TextArg(front: string, value: Option<string>, back: string): Option<Arg> {
    if value.None? then None else Some(Text(front + value.value + back))
  }

  /** One bound for each part of the filter that is set. */
  function BoundsOf(f: Filter): seq<Bound> {
    WithTextBounds(NumberBounds(f), f)
  }

  function NumberBounds(f: Filter): seq<Bound> {
    BoundIf(NumberArg(f.minPrice), PriceAtLeast)
    + BoundIf(NumberArg(f.maxPrice), PriceAtMost)
    + BoundIf(IntegerArg(f.minBeds), BedsAtLeast)
    + BoundIf(NumberArg(f.minBaths), BathsAtLeast)
    + BoundIf(IntegerArg(f.minSqft), SqftAtLeast)
    + BoundIf(IntegerArg(f.maxSqft), SqftAtMost)
  }

  function WithTextBounds(front: seq<Bound>, f: Filter): seq<Bound> {
    front
    + BoundIf(TextArg("", f.propertyType, ""), TypeEquals)
    + BoundIf(TextArg("", f.postalPrefix, "%"), PostalCodeLike)
    + BoundIf(TextArg("", f.city, ""), CityILike)
    + BoundIf(TextArg("%", f.query, "%"), AddressILike)
  }

  /** Clause i names argument i. */
  predicate Compiled(where: seq<Clause>, args: seq<Arg>, bounds: seq<Bound>) {
    && |where| == |args| == |bounds|
    && forall i :: 0 <= i < |bounds| ==> where[i] == Clause(bounds[i].template, i + 1) && args[i] == bounds[i].arg
  }

  class FilterBuilder {
    var where: seq<Clause>
    var args: seq<Arg>
    ghost var bounds: seq<Bound>

    ghost predicate Valid()
      reads this
    {
      Compiled(where, args, bounds)
    }

    constructor ()
      ensures Valid() && bounds == []
    {
      where, args, bounds := [], [], [];
    }

    method Add(template: Template, arg: Arg)
      requires Valid()
      modifies this
      ensures Valid() && bounds == old(bounds) + [Bound(template, arg)]
    {
      args := args + [arg];
      where := where + [Clause(template, |args|)];
      bounds := bounds + [Bound(template, arg)];
    }

    method AddIf(value: Option<Arg>, template: Template)
      requires Valid()
      modifies this
      ensures Valid() && bounds == old(bounds) + BoundIf(value, template)
    {
      if value.Some? {
        Add(template, value.value);
      } else {
        assert bounds + [] == bounds;
      }
    }
  }

  method NewListingFilterBuilder(f: Filter) returns (builder: FilterBuilder)
    ensures fresh(builder) && builder.Valid() && builder.bounds == BoundsOf(f)
  {
    builder := new FilterBuilder();
    builder.AddIf(NumberArg(f.minPrice), PriceAtLeast);
    assert builder.bounds == BoundIf(NumberArg(f.minPrice), PriceAtLeast);
    builder.AddIf(NumberArg(f.maxPrice), PriceAtMost);
    builder.AddIf(IntegerArg(f.minBeds), BedsAtLeast);
    builder.AddIf(NumberArg(f.minBaths), BathsAtLeast);
    builder.AddIf(IntegerArg(f.minSqft), SqftAtLeast);
    builder.AddIf(IntegerArg(f.maxSqft), SqftAtMost);
    assert builder.bounds == NumberBounds(f);
    builder.AddIf(TextArg("", f.propertyType, ""), TypeEquals);
    builder.AddIf(TextArg("", f.postalPrefix, "%"), PostalCodeLike);
    builder.AddIf(TextArg("", f.city, ""), CityILike);
    builder.AddIf(TextArg("%", f.query, "%"), AddressILike);
  }

  /* ---- What the clause keeps ---- */

  predicate Met(b: Bound, row: Listing, fold: Folding) {
    Compare(b.template, b.arg, row, fold) == True
  }

  predicate AllMet(bounds: seq<Bound>, row: Listing, fold: Folding) {
    forall i :: 0 <= i < |bounds| ==> Met(bounds[i], row, fold)
  }

  /** Arguments behind those of the clause do not change what it says, and are not named by it. */
  lemma {:induction false} ClauseMeansBounds(
      where: seq<Clause>, args: seq<Arg>, bounds: seq<Bound>, more: seq<Arg>, row: Listing, fold: Folding)
    requires Compiled(where, args, bounds)
    ensures EvaluateAll(where, args + more, row, fold) == True <==> AllMet(bounds, row, fold)
    ensures forall i :: 0 <= i < |where| ==> 1 <= where[i].position <= |args|
  {
    FirstClausesMean(where, args, bounds, more, row, fold, |where|);
    assert where[..|where|] == where;
  }

  lemma {:induction false} FirstClausesMean(
      where: seq<Clause>, args: seq<Arg>, bounds: seq<Bound>, more: seq<Arg>, row: Listing, fold: Folding, n: nat)
    requires Compiled(where, args, bounds) && n <= |where|
    ensures EvaluateAll(where[..n], args + more, row, fold) == True <==> forall i :: 0 <= i < n ==> Met(bounds[i], row, fold)
  {
    if n > 0 {
      FirstClausesMean(where, args, bounds, more, row, fold, n - 1);
      assert where[..n][..n - 1] == where[..n - 1];
      assert Evaluate(where[n - 1], args + more, row, fold) == True <==> Met(bounds[n - 1], row, fold);
    }
  }

  lemma {:induction false} AllMetAppends(a: seq<Bound>, b: seq<Bound>, row: Listing, fold: Folding)
    ensures AllMet(a + b, row, fold) <==> AllMet(a, row, fold) && AllMet(b, row, fold)
  {
    if AllMet(a + b, row, fold) {
      assert forall i :: 0 <= i < |a| ==> (a + b)[i] == a[i];
      assert forall i :: 0 <= i < |b| ==> (a + b)[|a| + i] == b[i];
    }
  }

  lemma {:induction false} BoundMeans(value: Option<Arg>, template: Template, row: Listing, fold: Folding)
    ensures AllMet(BoundIf(value, template), row, fold)
            <==> (value.Some? ==> Compare(template, value.value, row, fold) == True)
  {
    if value.Some? {
      var b := Bound(template, value.value);
      assert BoundIf(value, template) == [b];
      assert AllMet([b], row, fold) <==> Met(b, row, fold) by {
        assert AllMet([b], row, fold) ==> Met([b][0], row, fold);
      }
    }
  }

  // One more bound, and what it asks for.
  lemma {:induction false} OneMoreBound(
      bounds: seq<Bound>, value: Option<Arg>, template: Template, row: Listing, fold: Folding)
    ensures AllMet(bounds + BoundIf(value, template), row, fold)
            <==> AllMet(bounds, row, fold) && (value.Some? ==> Compare(template, value.value, row, fold) == True)
  {
    AllMetAppends(bounds, BoundIf(value, template), row, fold);
    BoundMeans(value, template, row, fold);
  }

  lemma {:induction false} NothingAround(value: Option<string>)
    ensures value.Some? ==> TextArg("", value, "") == Some(Text(value.value))
  {
    assert value.Some? ==> "" + value.value + "" == value.value;
  }

  lemma {:induction false} NumberBoundsMeanFilter(f: Filter, row: Listing, fold: Folding)
    ensures AllMet(NumberBounds(f), row, fold) <==> PassesNumbers(f, row)
  {
    var b1 := BoundIf(NumberArg(f.minPrice), PriceAtLeast);
    var b2 := b1 + BoundIf(NumberArg(f.maxPrice), PriceAtMost);
    var b3 := b2 + BoundIf(IntegerArg(f.minBeds), BedsAtLeast);
    var b4 := b3 + BoundIf(NumberArg(f.minBaths), BathsAtLeast);
    var b5 := b4 + BoundIf(IntegerArg(f.minSqft), SqftAtLeast);
    BoundMeans(NumberArg(f.minPrice), PriceAtLeast, row, fold);
    OneMoreBound(b1, NumberArg(f.maxPrice), PriceAtMost, row, fold);
    OneMoreBound(b2, IntegerArg(f.minBeds), BedsAtLeast, row, fold);
    OneMoreBound(b3, NumberArg(f.minBaths), BathsAtLeast, row, fold);
    OneMoreBound(b4, IntegerArg(f.minSqft), SqftAtLeast, row, fold);
    OneMoreBound(b5, IntegerArg(f.maxSqft), SqftAtMost, row, fold);
  }

  lemma {:induction false} TextBoundsMeanFilter(front: seq<Bound>, f: Filter, row: Listing, fold: Folding)
    ensures AllMet(WithTextBounds(front, f), row, fold) <==> AllMet(front, row, fold) && PassesTexts(f, row, fold)
  {
    var b1 := front + BoundIf(TextArg("", f.propertyType, ""), TypeEquals);
    var b2 := b1 + BoundIf(TextArg("", f.postalPrefix, "%"), PostalCodeLike);
    var b3 := b2 + BoundIf(TextArg("", f.city, ""), CityILike);
    NothingAround(f.propertyType);
    NothingAround(f.city);
    assert f.postalPrefix.Some? ==> "" + f.postalPrefix.value + "%" == f.postalPrefix.value + "%";
    OneMoreBound(front, TextArg("", f.propertyType, ""), TypeEquals, row, fold);
    OneMoreBound(b1, TextArg("", f.postalPrefix, "%"), PostalCodeLike, row, fold);
    OneMoreBound(b2, TextArg("", f.city, ""), CityILike, row, fold);
    OneMoreBound(b3, TextArg("%", f.query, "%"), AddressILike, row, fold);
  }

  /** The generated clause, with the generated arguments and any others behind them, is true of
      exactly the rows that pass the filter. */
  lemma {:induction false} ClauseMeansFilter(
      where: seq<Clause>, args: seq<Arg>, f: Filter, more: seq<Arg>, row: Listing, fold: Folding)
    requires Compiled(where, args, BoundsOf(f))
    ensures EvaluateAll(where, args + more, row, fold) == True <==> Passes(f, row, fold)
  {
    ClauseMeansBounds(where, args, BoundsOf(f), more, row, fold);
    NumberBoundsMeanFilter(f, row, fold);
    TextBoundsMeanFilter(NumberBounds(f), f, row, fold);
  }

  /* ---- Postal codes ---- */

  /** normalizePostalPrefix. */
  method NormalizePostalPrefix(value: string) returns (prefix: string)
    ensures prefix == NormalizePostal(value)
  {
    var upper := ToUpper(TrimSpace(value));
    var compact := Keep(upper, c => c != ' ');
    prefix := "";
    for i := 0 to |compact|
      invariant prefix == Keep(compact[..i], IsUpperText)
    {
      KeepOfNext(compact, i);
      if IsUpperText(compact[i]) {
        prefix := prefix + [compact[i]];
      }
    }
    assert compact[..|compact|] == compact;
  }

  lemma {:induction false} KeepOfNext(s: string, i: nat)
    requires i < |s|
    ensures Keep(s[..i + 1], IsUpperText) == Keep(s[..i], IsUpperText) + if IsUpperText(s[i]) then [s[i]] else ""
  {
    if i > 0 {
      KeepOfNext(s[1..], i - 1);
      assert s[..i + 1][1..] == s[1..][..i] && s[..i][1..] == s[1..][..i - 1];
    }
  }

  lemma {:induction false} UpperTextIsPlain(p: string)
    requires forall i :: 0 <= i < |p| ==> IsUpperText(p[i])
    ensures Plain(p)
  {
  }

  /** The postal filter keeps a row exactly when the normalized prefix begins the stored code; the
      normalized form of the code then begins with it as well. */
  lemma {:induction false} PostalFilterIsSound(raw: string, code: string)
    ensures Like(code, NormalizePostal(raw) + "%") <==> NormalizePostal(raw) <= code
    ensures NormalizePostal(raw) <= code ==> NormalizePostal(raw) <= NormalizePostal(code)
  {
    var p := NormalizePostal(raw);
    NormalizePostalIsCore(raw);
    UpperTextIsPlain(p);
    PrefixPattern(code, p);
    if p <= code {
      PostalIsCore(code);
      UpperTextStays(p);
      PostalCoreAppends(p, code[|p|..]);
      assert code == p + code[|p|..];
    }
  }

  /** The other way it misses a code exactly when something that normalization removes or changes,
      such as the inner space, stands among its first characters. */
  lemma {:induction false} PostalFilterMissesExactly(raw: string, code: string)
    requires NormalizePostal(raw) <= NormalizePostal(code)
    ensures var n := |NormalizePostal(raw)|;
            Like(code, NormalizePostal(raw) + "%")
            <==> n <= |code| && forall i :: 0 <= i < n ==> IsUpperText(code[i])
  {
    var p := NormalizePostal(raw);
    PostalFilterIsSound(raw, code);
    NormalizePostalIsCore(raw);
    if |p| <= |code| && forall i :: 0 <= i < |p| ==> IsUpperText(code[i]) {
      UpperTextIsKept(code, |p|);
      assert p == NormalizePostal(code)[..|p|] == code[..|p|];
    }
  }

  lemma {:induction false} UpperTextIsKept(code: string, n: nat)
    requires n <= |code| && forall i :: 0 <= i < n ==> IsUpperText(code[i])
    ensures code[..n] <= NormalizePostal(code)
  {
    PostalIsCore(code);
    UpperTextStays(code[..n]);
    PostalCoreAppends(code[..n], code[n..]);
    assert code == code[..n] + code[n..];
  }
}
