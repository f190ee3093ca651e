/** Choosing among captured JSON bodies (json_capture.go). */
module JsonCapture {
  import opened Normalize
  import opened CanonicalTexts
  import opened Options

  datatype Json =
    | Null
    | Boolean(truth: bool)
    | Number(number: real)
    | Text(text: string)
    | Arr(items: seq<Json>)
    | Obj(fields: map<string, Json>)

  /** One step down into a value; a path of them addresses one of its parts. */
  datatype Hop = Index(index: nat) | Name(name: string)

  function At(v: Json, path: seq<Hop>): Option<Json> {
    if path == [] then Some(v)
    else
      match path[0]
      case Index(i) => if v.Arr? && i < |v.items| then At(v.items[i], path[1..]) else None
      case Name(k) => if v.Obj? && k in v.fields then At(v.fields[k], path[1..]) else None
  }

  predicate IsListingArrayKey(key: string) {
    ToLower(TrimSpace(key)) in {"results", "listings", "properties"}
  }

  function One(present: bool): nat { if present then 1 else 0 }

  predicate LooksLikeListingCandidate(data: map<string, Json>) {
    One("Property" in data)
    + One("Price" in data || "PriceUnformattedValue" in data)
    + One("MlsNumber" in data || "ListingId" in data || "Id" in data)
    + One("Latitude" in data || "Longitude" in data)
    + One("Address" in data || "AddressText" in data)
    + One("RelativeDetailsURL" in data || "URL" in data || "Url" in data)
    >= 2
  }

  /* ---- Keys ---- */

  /** A fact that a listing states, by the keys it may stand under. */
  datatype Fact = Property | Price | Identifier | Place | Street | Link
  {
    function Keys(): set<string> {
      match this
      case Property => {"Property"}
      case Price => {"Price", "PriceUnformattedValue"}
      case Identifier => {"MlsNumber", "ListingId", "Id"}
      case Place => {"Latitude", "Longitude"}
      case Street => {"Address", "AddressText"}
      case Link => {"RelativeDetailsURL", "URL", "Url"}
    }
  }

  predicate States(data: map<string, Json>, fact: Fact) {
    data.Keys * fact.Keys() != {}
  }

  lemma {:induction false} StatedByOne(data: map<string, Json>, fact: Fact, k: string, l: string, m: string)
    requires fact.Keys() == {k, l, m}
    ensures States(data, fact) <==> k in data || l in data || m in data
  {
    if k in data { assert k in data.Keys * fact.Keys(); }
    if l in data { assert l in data.Keys * fact.Keys(); }
    if m in data { assert m in data.Keys * fact.Keys(); }
  }

  /** An object looks like a listing exactly when it states two different facts. */
  lemma {:induction false} ListingsStateTwoFacts(data: map<string, Json>)
    ensures LooksLikeListingCandidate(data) <==> exists a, b :: a != b && States(data, a) && States(data, b)
  {
    StatedByOne(data, Property, "Property", "Property", "Property");
    StatedByOne(data, Price, "Price", "Price", "PriceUnformattedValue");
    StatedByOne(data, Identifier, "MlsNumber", "ListingId", "Id");
    StatedByOne(data, Place, "Latitude", "Latitude", "Longitude");
    StatedByOne(data, Street, "Address", "Address", "AddressText");
    StatedByOne(data, Link, "RelativeDetailsURL", "URL", "Url");
  }

  lemma {:induction false} LoweredAt(s: string)
    ensures |ToLower(s)| == |s| && forall i :: 0 <= i < |s| ==> ToLower(s)[i] == Lower(s[i])
  {
    if s != "" {
      LoweredAt(s[1..]);
      assert forall i :: 0 < i < |s| ==> ToLower(s)[i] == ToLower(s[1..])[i - 1];
    }
  }

  /** c is the letter in lower or upper case; the dotted capital I is an i too. */
  predicate IsLetter(c: char, letter: char) {
    c == letter || ('A' <= c <= 'Z' && c - 'A' + 'a' == letter) || (c == '\U{130}' && letter == 'i')
  }

  predicate Spells(text: string, word: string) {
    |text| == |word| && forall i :: 0 <= i < |word| ==> IsLetter(text[i], word[i])
  }

  predicate IsListingWord(text: string) {
    Spells(text, "results") || Spells(text, "listings") || Spells(text, "properties")
  }

  ghost predicate IsSpaced(key: string, front: string, text: string, back: string) {
    key == front + text + back && AllSpace(front) && AllSpace(back)
  }

  predicate IsWord(word: string) {
    word != "" && forall i :: 0 <= i < |word| ==> 'a' <= word[i] <= 'z' && word[i] != 'k'
  }

  lemma {:induction false} SpelledExactly(text: string, word: string)
    requires IsWord(word)
    ensures ToLower(text) == word <==> Spells(text, word)
    ensures Spells(text, word) ==> text != "" && !IsSpace(text[0]) && !IsSpace(text[|text| - 1])
  {
    LoweredAt(text);
    assert Spells(text, word) ==> IsLetter(text[0], word[0]) && IsLetter(text[|text| - 1], word[|text| - 1]);
  }

  lemma {:induction false} LoweredWord(text: string)
    ensures ToLower(text) in {"results", "listings", "properties"} <==> IsListingWord(text)
    ensures IsListingWord(text) ==> text != "" && !IsSpace(text[0]) && !IsSpace(text[|text| - 1])
  {
    SpelledExactly(text, "results");
    SpelledExactly(text, "listings");
    SpelledExactly(text, "properties");
  }

  /** The listing keys are the three words in any case, with any spaces around them. */
  lemma {:induction false} ListingKeysExactly(key: string)
    ensures IsListingArrayKey(key) <==> exists front, text, back :: IsSpaced(key, front, text, back) && IsListingWord(text)
  {
    forall front, text, back | IsSpaced(key, front, text, back) && IsListingWord(text)
      ensures IsListingArrayKey(key)
    {
      LoweredWord(text);
      SpacesAreTrimmed(front, text, back);
    }
    var front, back := TrimSpaceExactly(key);
    LoweredWord(TrimSpace(key));
    assert IsSpaced(key, front, TrimSpace(key), back);
  }

  /* ---- What a score means ---- */

  datatype Score = Score(maxResults: nat, listingCount: nat)

  /** A part that looks like a listing. */
  predicate IsListing(v: Json, path: seq<Hop>) {
    var part := At(v, path);
    part.Some? && part.value.Obj? && LooksLikeListingCandidate(part.value.fields)
  }

  /** A part that is an array standing directly under a listing key. */
  predicate IsResults(v: Json, path: seq<Hop>) {
    var part := At(v, path);
    && part.Some? && part.value.Arr?
    && path != [] && path[|path| - 1].Name? && IsListingArrayKey(path[|path| - 1].name)
  }

  ghost predicate IsScore(v: Json, s: Score) {
    && Counts(v, s.listingCount)
    && Longest(v, s.maxResults)
  }

  /** n is the number of parts that look like listings. */
  ghost predicate Counts(v: Json, n: nat) {
    exists paths: set<seq<Hop>> :: |paths| == n && AreListings(v, paths)
  }

  ghost predicate AreListings(v: Json, paths: set<seq<Hop>>) {
    forall p :: p in paths <==> IsListing(v, p)
  }

  /** n is the length of the longest array under a listing key, 0 where there is none. */
  ghost predicate Longest(v: Json, n: nat) {
    && (forall p :: IsResults(v, p) ==> |At(v, p).value.items| <= n)
    && (n > 0 ==> exists p :: IsResults(v, p) && |At(v, p).value.items| == n)
  }

  /** A value has one score, whatever order its objects are walked in. */
  lemma {:induction false} ScoreIsUnique(v: Json, a: Score, b: Score)
    requires IsScore(v, a) && IsScore(v, b)
    ensures a == b
  {
    var paths: set<seq<Hop>> :| |paths| == a.listingCount && AreListings(v, paths);
    var others: set<seq<Hop>> :| |others| == b.listingCount && AreListings(v, others);
    assert paths == others;
  }

  /* ---- Scores of parts make the score of the whole ---- */

  // The parts of v below the hops in `done`.
  ghost predicate Below(done: set<Hop>, path: seq<Hop>) {
    path != [] && path[0] in done
  }

  // s scores the part of v that the loop has seen: v itself when `self`, and what is below `done`.
  ghost predicate IsPartScore(v: Json, done: set<Hop>, s: Score) {
    && PartCounts(v, done, s.listingCount)
    && LongestBelow(v, done, s.maxResults)
  }

  ghost predicate PartCounts(v: Json, done: set<Hop>, n: nat) {
    exists paths: set<seq<Hop>> :: |paths| == n && PartPaths(v, done, paths)
  }

  ghost predicate PartPaths(v: Json, done: set<Hop>, paths: set<seq<Hop>>) {
    forall p :: p in paths <==> (p == [] || Below(done, p)) && IsListing(v, p)
  }

  lemma {:induction false} NothingSeen(v: Json)
    ensures IsPartScore(v, {}, Score(0, One(IsListing(v, []))))
  {
    var paths := if IsListing(v, []) then {[]} else {};
    assert PartPaths(v, {}, paths);
  }

  // Paths through one hop are the paths of the part it leads to.
  lemma {:induction false} ThroughHop(v: Json, hop: Hop, part: Json)
    requires At(v, [hop]) == Some(part)
    ensures forall q :: At(v, [hop] + q) == At(part, q)
  {
    forall q
      ensures At(v, [hop] + q) == At(part, q)
    {
      assert ([hop] + q)[1..] == q;
      assert [hop][1..] == [];
    }
  }

  // How long the array under the hop is, if the hop is a listing key and leads to an array.
  function Direct(hop: Hop, part: Json): nat {
    if hop.Name? && IsListingArrayKey(hop.name) && part.Arr? then |part.items| else 0
  }

  function Max(a: nat, b: nat): nat { if a > b then a else b }

  lemma {:induction false} ResultsThroughHop(v: Json, hop: Hop, part: Json, q: seq<Hop>)
    requires At(v, [hop]) == Some(part)
    ensures IsResults(v, [hop] + q) <==>
            if q == [] then hop.Name? && IsListingArrayKey(hop.name) && part.Arr? else IsResults(part, q)
  {
    ThroughHop(v, hop, part);
    assert q == [] ==> [hop] + q == [hop];
    assert q != [] ==> ([hop] + q)[|q|] == q[|q| - 1];
  }

  lemma {:induction false} SplitPath(p: seq<Hop>)
    requires p != []
    ensures p == [p[0]] + p[1..]
  {
  }

  lemma {:induction false} CountOneMore(v: Json, done: set<Hop>, hop: Hop, part: Json, n: nat, m: nat)
    requires At(v, [hop]) == Some(part) && hop !in done
    requires PartCounts(v, done, n) && Counts(part, m)
    ensures PartCounts(v, done + {hop}, n + m)
  {
    var paths: set<seq<Hop>> :| |paths| == n && PartPaths(v, done, paths);
    var inner: set<seq<Hop>> :| |inner| == m && AreListings(part, inner);
    AddPaths(v, done, hop, part, paths, inner);
  }

  lemma {:induction false} AddPaths(v: Json, done: set<Hop>, hop: Hop, part: Json, paths: set<seq<Hop>>, inner: set<seq<Hop>>)
    requires At(v, [hop]) == Some(part) && hop !in done
    requires PartPaths(v, done, paths) && AreListings(part, inner)
    ensures PartCounts(v, done + {hop}, |paths| + |inner|)
  {
    var moved := Prefixed(inner, hop);
    MovedAreListings(v, hop, part, inner, moved);
    PathsTogether(p => IsListing(v, p), done, hop, paths, moved);
    PathsCount(v, done + {hop}, paths + moved);
  }

  lemma {:induction false} PathsCount(v: Json, done: set<Hop>, paths: set<seq<Hop>>)
    requires PartPaths(v, done, paths)
    ensures PartCounts(v, done, |paths|)
  {
  }

  // The listings below `done` and those below the hop.
  lemma {:induction false} PathsTogether(
      listing: seq<Hop> -> bool, done: set<Hop>, hop: Hop, paths: set<seq<Hop>>, moved: set<seq<Hop>>)
    requires hop !in done
    requires forall p :: p in paths <==> (p == [] || Below(done, p)) && listing(p)
    requires forall p :: p in moved <==> p != [] && p[0] == hop && listing(p)
    ensures |paths + moved| == |paths| + |moved|
    ensures forall p :: p in paths + moved <==> (p == [] || Below(done + {hop}, p)) && listing(p)
  {
    assert paths !! moved;
  }

  lemma {:induction false} MovedAreListings(v: Json, hop: Hop, part: Json, inner: set<seq<Hop>>, moved: set<seq<Hop>>)
    requires At(v, [hop]) == Some(part) && AreListings(part, inner)
    requires forall p :: p in moved <==> p != [] && p[0] == hop && p[1..] in inner
    ensures forall p :: p in moved <==> p != [] && p[0] == hop && IsListing(v, p)
  {
    forall p
      ensures p in moved <==> p != [] && p[0] == hop && IsListing(v, p)
    {
      if p != [] && p[0] == hop {
        ListingThroughHop(v, hop, part, p[1..]);
        SplitPath(p);
      }
    }
  }

  lemma {:induction false} ListingThroughHop(v: Json, hop: Hop, part: Json, q: seq<Hop>)
    requires At(v, [hop]) == Some(part)
    ensures IsListing(v, [hop] + q) <==> IsListing(part, q)
  {
    ThroughHop(v, hop, part);
  }

  // The paths with one more hop in front.
  lemma {:induction false} Prefixed(inner: set<seq<Hop>>, hop: Hop) returns (moved: set<seq<Hop>>)
    ensures |moved| == |inner|
    ensures forall p :: p in moved <==> p != [] && p[0] == hop && p[1..] in inner
  {
    if inner == {} {
      moved := {};
    } else {
      var q :| q in inner;
      var others := Prefixed(inner - {q}, hop);
      moved := others + {[hop] + q};
      assert ([hop] + q)[1..] == q;
      forall p
        ensures p in moved <==> p != [] && p[0] == hop && p[1..] in inner
      {
        if p != [] { SplitPath(p); }
      }
    }
  }

  // The longest results below `done` have n items.
  ghost predicate LongestBelow(v: Json, done: set<Hop>, n: nat) {
    && (forall p :: Below(done, p) && IsResults(v, p) ==> |At(v, p).value.items| <= n)
    && (n > 0 ==> exists p :: HasLength(v, done, p, n))
  }

  ghost predicate HasLength(v: Json, done: set<Hop>, p: seq<Hop>, n: nat) {
    Below(done, p) && IsResults(v, p) && |At(v, p).value.items| == n
  }

  lemma {:induction false} NoneLonger(v: Json, done: set<Hop>, hop: Hop, part: Json, s: nat, t: nat, p: seq<Hop>)
    requires At(v, [hop]) == Some(part) && LongestBelow(v, done, s) && Longest(part, t)
    requires Below(done + {hop}, p) && IsResults(v, p)
    ensures |At(v, p).value.items| <= Max(Max(s, Direct(hop, part)), t)
  {
    if p[0] == hop {
      ThroughHop(v, hop, part);
      SplitPath(p);
      ResultsThroughHop(v, hop, part, p[1..]);
    } else {
      assert Below(done, p);
    }
  }

  lemma {:induction false} OneAsLong(v: Json, done: set<Hop>, hop: Hop, part: Json, s: nat, t: nat) returns (p: seq<Hop>)
    requires At(v, [hop]) == Some(part) && LongestBelow(v, done, s) && Longest(part, t)
    requires Max(Max(s, Direct(hop, part)), t) > 0
    ensures HasLength(v, done + {hop}, p, Max(Max(s, Direct(hop, part)), t))
  {
    var n := Max(Max(s, Direct(hop, part)), t);
    ThroughHop(v, hop, part);
    if n == s {
      p :| HasLength(v, done, p, n);
    } else if n == Direct(hop, part) {
      ResultsThroughHop(v, hop, part, []);
      p := [hop] + [];
    } else {
      var q :| IsResults(part, q) && |At(part, q).value.items| == n;
      ResultsThroughHop(v, hop, part, q);
      p := [hop] + q;
    }
  }

  lemma {:induction false} LongestOneMore(v: Json, done: set<Hop>, hop: Hop, part: Json, s: nat, t: nat)
    requires At(v, [hop]) == Some(part) && LongestBelow(v, done, s) && Longest(part, t)
    ensures LongestBelow(v, done + {hop}, Max(Max(s, Direct(hop, part)), t))
  {
    var n := Max(Max(s, Direct(hop, part)), t);
    forall p | Below(done + {hop}, p) && IsResults(v, p)
      ensures |At(v, p).value.items| <= n
    {
      NoneLonger(v, done, hop, part, s, t, p);
    }
    if n > 0 {
      var p := OneAsLong(v, done, hop, part, s, t);
    }
  }

  // Merging the score of one more part.
  lemma {:induction false} OneMorePart(v: Json, done: set<Hop>, hop: Hop, part: Json, s: Score, t: Score)
    requires At(v, [hop]) == Some(part) && hop !in done
    requires IsPartScore(v, done, s) && IsScore(part, t)
    ensures IsPartScore(v, done + {hop},
                        Score(Max(Max(s.maxResults, Direct(hop, part)), t.maxResults), s.listingCount + t.listingCount))
  {
    CountOneMore(v, done, hop, part, s.listingCount, t.listingCount);
    LongestOneMore(v, done, hop, part, s.maxResults, t.maxResults);
  }

  lemma {:induction false} AllSeen(v: Json, done: set<Hop>, s: Score)
    requires IsPartScore(v, done, s)
    requires forall hop :: At(v, [hop]).Some? ==> hop in done
    ensures IsScore(v, s)
  {
    forall p | p != [] && At(v, p).Some?
      ensures Below(done, p)
    {
      SplitPath(p);
      assert [p[0]][1..] == [];
      assert At(v, [p[0]]).Some?;
    }
    var paths: set<seq<Hop>> :| |paths| == s.listingCount && PartPaths(v, done, paths);
    assert AreListings(v, paths);
  }

  /* ---- The program ---- */

  method Merge(s: Score, other: Score) returns (merged: Score)
    ensures merged == Score(Max(s.maxResults, other.maxResults), s.listingCount + other.listingCount)
  {
    var maxResults := s.maxResults;
    if other.maxResults > maxResults {
      maxResults := other.maxResults;
    }
    merged := Score(maxResults, s.listingCount + other.listingCount);
  }

  method WithArrayAt(s: Score, key: string, nested: Json) returns (raised: Score)
    ensures raised == Score(Max(s.maxResults, Direct(Name(key), nested)), s.listingCount)
  {
    raised := s;
    if IsListingArrayKey(key) {
      if nested.Arr? && |nested.items| > s.maxResults {
        raised := s.(maxResults := |nested.items|);
      }
    }
  }

  ghost function Indices(n: nat): (hops: set<Hop>)
    ensures forall hop :: hop in hops <==> hop.Index? && hop.index < n
  {
    set i: nat | i < n :: Index(i)
  }

  ghost function NamedHops(keys: set<string>): (hops: set<Hop>)
    ensures forall hop :: hop in hops <==> hop.Name? && hop.name in keys
  {
    set k | k in keys :: Name(k)
  }

  // Item i is the next part of an array.
  lemma {:induction false} NextItem(v: Json, i: nat, s: Score, t: Score)
    requires v.Arr? && i < |v.items|
    requires IsPartScore(v, Indices(i), s) && IsScore(v.items[i], t)
    ensures IsPartScore(v, Indices(i + 1), Score(Max(s.maxResults, t.maxResults), s.listingCount + t.listingCount))
  {
    assert [Index(i)][1..] == [];
    OneMorePart(v, Indices(i), Index(i), v.items[i], s, t);
    assert Indices(i) + {Index(i)} == Indices(i + 1);
  }

  // A field is the next part of an object.
  lemma {:induction false} NextField(v: Json, seen: set<string>, key: string, s: Score, t: Score)
    requires v.Obj? && key in v.fields && key !in seen
    requires IsPartScore(v, NamedHops(seen), s) && IsScore(v.fields[key], t)
    ensures IsPartScore(v, NamedHops(seen + {key}),
                        Score(Max(Max(s.maxResults, Direct(Name(key), v.fields[key])), t.maxResults),
                              s.listingCount + t.listingCount))
  {
    assert [Name(key)][1..] == [];
    OneMorePart(v, NamedHops(seen), Name(key), v.fields[key], s, t);
    assert NamedHops(seen) + {Name(key)} == NamedHops(seen + {key});
  }

  ghost predicate Divided<T>(all: set<T>, rest: set<T>, seen: set<T>) {
    rest !! seen && rest + seen == all
  }

  lemma {:induction false} OneTaken<T>(all: set<T>, rest: set<T>, seen: set<T>, x: T)
    requires Divided(all, rest, seen) && x in rest
    ensures Divided(all, rest - {x}, seen + {x})
  {
  }

  lemma {:induction false} AllFieldsSeen(v: Json, s: Score)
    requires v.Obj? && IsPartScore(v, NamedHops(v.fields.Keys), s)
    ensures IsScore(v, s)
  {
    AllSeen(v, NamedHops(v.fields.Keys), s);
  }

  lemma {:induction false} AllItemsSeen(v: Json, s: Score)
    requires v.Arr? && IsPartScore(v, Indices(|v.items|), s)
    ensures IsScore(v, s)
  {
    AllSeen(v, Indices(|v.items|), s);
  }

  /** scoreJSONValue. */
  method ScoreJsonValue(value: Json) returns (score: Score)
    ensures IsScore(value, score)
    decreases value, 1
  {
    match value
    case Arr(_) => score := ScoreItems(value);
    case Obj(_) => score := ScoreFields(value);
    case _ =>
      score := Score(0, 0);
      NothingSeen(value);
      AllSeen(value, {}, score);
  }

  /** Its branch for an array. */
  method ScoreItems(value: Json) returns (score: Score)
    requires value.Arr?
    ensures IsScore(value, score)
    decreases value, 0
  {
    score := Score(0, 0);
    NothingSeen(value);
    assert Indices(0) == {};
    for i := 0 to |value.items|
      invariant IsPartScore(value, Indices(i), score)
    {
      var inner := ScoreJsonValue(value.items[i]);
      NextItem(value, i, score, inner);
      score := Merge(score, inner);
    }
    AllItemsSeen(value, score);
  }

  /** Its branch for an object, whose keys come in any order: each round takes an arbitrary one. */
  method ScoreFields(value: Json) returns (score: Score)
    requires value.Obj?
    ensures IsScore(value, score)
    decreases value, 0
  {
    score := Score(0, 0);
    if LooksLikeListingCandidate(value.fields) {
      score := score.(listingCount := score.listingCount + 1);
    }
    NothingSeen(value);
    var keys := value.fields.Keys;
    ghost var seen: set<string> := {};
    assert NamedHops({}) == {};
    while keys != {}
      invariant Divided(value.fields.Keys, keys, seen)
      invariant IsPartScore(value, NamedHops(seen), score)
      decreases |keys|
    {
      var key :| key in keys;
      var nested := value.fields[key];
      var raised := WithArrayAt(score, key, nested);
      var inner := ScoreJsonValue(nested);
      NextField(value, seen, key, score, inner);
      score := Merge(raised, inner);
      OneTaken(value.fields.Keys, keys, seen, key);
      seen := seen + {key};
      keys := keys - {key};
    }
    assert seen == value.fields.Keys;
    AllFieldsSeen(value, score);
  }

  /** A body scores when it decodes to a value with something in it. */
  ghost predicate Scores(decode: string -> Option<Json>, body: string, s: Score) {
    body != "" && decode(body).Some? && IsScore(decode(body).value, s) && s != Score(0, 0)
  }

  /** None where the body does not score. */
  method ScoreJsonCandidate(payload: string, decode: string -> Option<Json>) returns (score: Option<Score>)
    ensures score.Some? ==> Scores(decode, payload, score.value)
    ensures forall s :: Scores(decode, payload, s) ==> score == Some(s)
  {
    if payload == "" { return None; }
    var decoded := decode(payload);
    if decoded.None? { return None; }
    var s := ScoreJsonValue(decoded.value);
    forall t | IsScore(decoded.value, t)
      ensures t == s
    {
      ScoreIsUnique(decoded.value, s, t);
    }
    if s.maxResults == 0 && s.listingCount == 0 { return None; }
    return Some(s);
  }

  /** Longer results first, then more listings. */
  predicate Beats(a: Score, b: Score) {
    a.maxResults > b.maxResults || (a.maxResults == b.maxResults && a.listingCount > b.listingCount)
  }

  ghost function Scoring(decode: string -> Option<Json>): (string, Score) -> bool {
    (body, s) => Scores(decode, body, s)
  }

  // An empty body does not score, and no score is zero.
  ghost predicate NothingForNothing(scores: (string, Score) -> bool) {
    forall body, s :: scores(body, s) ==> body != "" && Beats(s, Score(0, 0))
  }

  /** Its results are shorter, or as long with no more listings. */
  predicate IsNoBetter(a: Score, b: Score) {
    a.maxResults < b.maxResults || (a.maxResults == b.maxResults && a.listingCount <= b.listingCount)
  }

  /** Candidate i scores s, no candidate scores more, and none in front as much. */
  ghost predicate IsFirstBest(candidates: seq<string>, scores: (string, Score) -> bool, i: int, s: Score) {
    && 0 <= i < |candidates| && scores(candidates[i], s)
    && (forall j, t :: 0 <= j < |candidates| && scores(candidates[j], t) ==> IsNoBetter(t, s))
    && (forall j, t :: 0 <= j < i && scores(candidates[j], t) ==> t != s)
  }

  ghost predicate NoneScores(candidates: seq<string>, scores: (string, Score) -> bool) {
    forall j, t :: 0 <= j < |candidates| ==> !scores(candidates[j], t)
  }

  // What the loop keeps: the first best of the candidates so far, if any scores.
  ghost predicate IsBestSoFar(candidates: seq<string>, scores: (string, Score) -> bool, found: string, s: Score) {
    if found == "" then s == Score(0, 0) && NoneScores(candidates, scores)
    else exists i :: IsFirstBest(candidates, scores, i, s) && candidates[i] == found
  }

  lemma {:induction false} BestOfNext(candidates: seq<string>, scores: (string, Score) -> bool, n: nat, found: string,
                                      s: Score, next: Option<Score>)
    requires n < |candidates| && NothingForNothing(scores) && IsBestSoFar(candidates[..n], scores, found, s)
    requires forall t :: scores(candidates[n], t) <==> next == Some(t)
    ensures if next.Some? && Beats(next.value, s)
            then IsBestSoFar(candidates[..n + 1], scores, candidates[n], next.value)
            else IsBestSoFar(candidates[..n + 1], scores, found, s)
  {
    assert candidates[..n + 1] == candidates[..n] + [candidates[n]];
    if next.Some? && Beats(next.value, s) {
      BetterThanAll(candidates[..n], scores, candidates[n], found, s, next.value);
    } else {
      StaysBest(candidates[..n], scores, candidates[n], found, s);
    }
  }

  lemma {:induction false} BetterThanAll(pre: seq<string>, scores: (string, Score) -> bool, body: string, found: string,
                                         s: Score, t: Score)
    requires NothingForNothing(scores) && IsBestSoFar(pre, scores, found, s)
    requires (forall u :: scores(body, u) ==> u == t) && scores(body, t) && Beats(t, s)
    ensures IsBestSoFar(pre + [body], scores, body, t)
  {
    if found != "" {
      var i :| IsFirstBest(pre, scores, i, s) && pre[i] == found;
    }
    forall j, u | 0 <= j < |pre| && scores(pre[j], u)
      ensures Beats(t, u)
    {
      assert found != "" ==> IsNoBetter(u, s);
    }
    forall j, u | 0 <= j <= |pre| && scores((pre + [body])[j], u)
      ensures IsNoBetter(u, t)
    {
      if j < |pre| {
        assert Beats(t, u);
      } else {
        assert scores(body, u);
      }
    }
    forall j, u | 0 <= j < |pre| && scores((pre + [body])[j], u)
      ensures u != t
    {
      assert scores(pre[j], u);
      assert Beats(t, u);
    }
    assert IsFirstBest(pre + [body], scores, |pre|, t);
  }

  lemma {:induction false} StaysBest(pre: seq<string>, scores: (string, Score) -> bool, body: string, found: string, s: Score)
    requires NothingForNothing(scores) && IsBestSoFar(pre, scores, found, s)
    requires forall t :: scores(body, t) ==> !Beats(t, s)
    ensures IsBestSoFar(pre + [body], scores, found, s)
  {
    if found != "" {
      var i :| IsFirstBest(pre, scores, i, s) && pre[i] == found;
      assert IsFirstBest(pre + [body], scores, i, s);
    }
  }

  /** selectBestJSONCandidate. */
  method SelectBestJsonCandidate(candidates: seq<string>, decode: string -> Option<Json>) returns (best: Option<string>)
    ensures best.None? ==> NoneScores(candidates, Scoring(decode))
    ensures best.Some? ==> exists i, s :: IsFirstBest(candidates, Scoring(decode), i, s) && candidates[i] == best.value
  {
    var found, bestScore := "", Score(0, 0);
    for n := 0 to |candidates|
      invariant IsBestSoFar(candidates[..n], Scoring(decode), found, bestScore)
    {
      var score := ScoreJsonCandidate(candidates[n], decode);
      BestOfNext(candidates, Scoring(decode), n, found, bestScore, score);
      if score.Some? && Beats(score.value, bestScore) {
        bestScore := score.value;
        found := candidates[n];
      }
    }
    assert candidates[..|candidates|] == candidates;
    if found == "" { return None; }
    return Some(found);
  }

  /** The bodies a browser session has captured. */
  class Capture {
    var candidates: seq<string>

    constructor ()
      ensures candidates == []
    {
      candidates := [];
    }

    method Reset()
      modifies this
      ensures candidates == []
    {
      candidates := [];
    }

    /** An empty body is not kept. */
    method Add(body: string)
      modifies this
      ensures candidates == old(candidates) + if body == "" then [] else [body]
    {
      if body == "" { return; }
      candidates := candidates + [body];
    }

    /** The first of the best bodies captured since the last reset. */
    method Best(decode: string -> Option<Json>) returns (best: Option<string>)
      ensures best.None? ==> NoneScores(candidates, Scoring(decode))
      ensures best.Some? ==> exists i, s :: IsFirstBest(candidates, Scoring(decode), i, s) && candidates[i] == best.value
    {
      best := SelectBestJsonCandidate(candidates, decode);
    }
  }
}
