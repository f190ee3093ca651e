/** Canonical encodings (normalize.go): what counts as the same property, and as a change. */
module Normalize {
  import opened Sequences

  /* ---- Characters ---- */

  predicate IsDigit(c: char) { '0' <= c <= '9' }
  predicate IsLowerText(c: char) { IsDigit(c) || 'a' <= c <= 'z' }
  predicate IsUpperText(c: char) { IsDigit(c) || 'A' <= c <= 'Z' }

  /** What `\s` matches in Go: five ASCII characters, and neither vertical tab nor any
      non-ASCII space. */
  predicate IsWhite(c: char) {
    c == ' ' || c == '\t' || c == '\n' || c == '\r' || c == '\U{C}'
  }

  /** What strings.TrimSpace removes. */
  predicate IsSpace(c: char) {
    || IsWhite(c) || c == '\U{B}' || c == '\U{85}' || c == '\U{A0}' || c == '\U{1680}'
    || '\U{2000}' <= c <= '\U{200A}' || c == '\U{2028}' || c == '\U{2029}'
    || c == '\U{202F}' || c == '\U{205F}' || c == '\U{3000}'
  }

  /** strings.ToLower, one character at a time. Besides A-Z, two characters have an ASCII lower
      case: the Kelvin sign and the dotted capital I. The lower case of any other non-ASCII
      character is not ASCII, so it may stand for itself here. */
  function Lower(c: char): char {
    if 'A' <= c <= 'Z' then c - 'A' + 'a'
    else if c == '\U{212A}' then 'k'
    else if c == '\U{130}' then 'i'
    else c
  }

  /** strings.ToUpper: the dotless i and the long s have an ASCII upper case. */
  function Upper(c: char): char {
    if 'a' <= c <= 'z' then c - 'a' + 'A'
    else if c == '\U{131}' then 'I'
    else if c == '\U{17F}' then 'S'
    else c
  }

  /* ---- String functions ---- */

  function ToLower(s: string): string {
    if s == "" then "" else [Lower(s[0])] + ToLower(s[1..])
  }

  function ToUpper(s: string): string {
    if s == "" then "" else [Upper(s[0])] + ToUpper(s[1..])
  }

  function ReplaceChar(s: string, from: char, to: char): string {
    if s == "" then "" else [if s[0] == from then to else s[0]] + ReplaceChar(s[1..], from, to)
  }

  function Keep(s: string, p: char -> bool): string {
    if s == "" then "" else (if p(s[0]) then [s[0]] else "") + Keep(s[1..], p)
  }

  function TrimLeft(s: string): string {
    if s != "" && IsSpace(s[0]) then TrimLeft(s[1..]) else s
  }

  function TrimRight(s: string): string {
    if s != "" && IsSpace(s[|s| - 1]) then TrimRight(s[..|s| - 1]) else s
  }

  function TrimSpace(s: string): string {
    TrimRight(TrimLeft(s))
  }

  /** multiSpaceRegex.ReplaceAllString(s, " "). */
  function CollapseSpaces(s: string): string {
    if s == "" then ""
    else if !IsWhite(s[0]) then [s[0]] + CollapseSpaces(s[1..])
    else if |s| > 1 && IsWhite(s[1]) then CollapseSpaces(s[1..])
    else " " + CollapseSpaces(s[1..])
  }

  function NormalizeText(input: string): string {
    var value := ToLower(TrimSpace(input));
    var value := ReplaceChar(value, '\t', ' ');
    var value := ReplaceChar(value, '\n', ' ');
    var value := CollapseSpaces(value);
    var value := Keep(value, c => IsLowerText(c) || c == ' ');
    var value := CollapseSpaces(value);
    TrimSpace(value)
  }

  function NormalizePostal(input: string): string {
    var value := ToUpper(TrimSpace(input));
    var value := Keep(value, c => c != ' ');
    Keep(value, IsUpperText)
  }

  function CanonicalIdentity(address: string, postalCode: string, unit: string): string {
    NormalizeText(address) + "|" + NormalizePostal(postalCode) + "|" + NormalizeText(unit)
  }

  /** A tagged field and what follows its separator. */
  function Field(tag: string, value: string, rest: string): string {
    tag + value + "|" + rest
  }

  /** price=..|beds=..|baths=..|sqft=..|source_listing_id=..|property_type=.. */
  function SnapshotPayload(price: string, beds: string, baths: string, sqft: string,
                           sourceListingId: string, propertyType: string): string {
    Field("price=", price, Field("beds=", beds, Field("baths=", baths, Field("sqft=", sqft,
      "source_listing_id=" + (sourceListingId + "|property_type=" + propertyType)))))
  }

  /* ---- The normal form of a text ---- */

  /** The reference: split at white space, clean every word, drop the empty ones, join. */
  function Split(s: string): (words: seq<string>)
    ensures words != []
  {
    if s == "" then [""]
    else
      var words := Split(s[1..]);
      if IsWhite(s[0]) then [""] + words else [[s[0]] + words[0]] + words[1..]
  }

  function Clean(word: string): string {
    Keep(ToLower(word), IsLowerText)
  }

  function CleanWords(words: seq<string>): (cleaned: seq<string>)
    ensures |cleaned| == |words|
  {
    if words == [] then [] else [Clean(words[0])] + CleanWords(words[1..])
  }

  function NonEmpty(words: seq<string>): seq<string> {
    if words == [] then []
    else (if words[0] == "" then [] else [words[0]]) + NonEmpty(words[1..])
  }

  function Join(words: seq<string>): string {
    if words == [] then "" else if |words| == 1 then words[0] else words[0] + " " + Join(words[1..])
  }

  function Words(s: string): seq<string> {
    NonEmpty(CleanWords(Split(s)))
  }

  // The cleaned words of s, one character at a time.
  function Tokens(s: string): (words: seq<string>)
    ensures words != []
  {
    if s == "" then [""]
    else
      var words := Tokens(s[1..]);
      if IsWhite(s[0]) then [""] + words else [Symbol(s[0]) + words[0]] + words[1..]
  }

  function Symbol(c: char): string {
    if IsLowerText(Lower(c)) then [Lower(c)] else ""
  }

  lemma {:induction false} TokensAreCleanWords(s: string)
    ensures Tokens(s) == CleanWords(Split(s))
  {
    if s == "" {
      assert CleanWords([""]) == [Clean("")];
    } else {
      TokensAreCleanWords(s[1..]);
      var words := Split(s[1..]);
      if IsWhite(s[0]) {
        assert ([""] + words)[1..] == words;
      } else {
        var word := [s[0]] + words[0];
        assert ToLower(word) == [Lower(s[0])] + ToLower(words[0]) by {
          assert word[1..] == words[0];
        }
        assert Clean(word) == Symbol(s[0]) + Clean(words[0]) by {
          assert ToLower(word)[1..] == ToLower(words[0]);
        }
        assert ([word] + words[1..])[1..] == words[1..];
      }
    }
  }

  // Words of s, through Tokens.
  function Cores(s: string): seq<string> {
    NonEmpty(Tokens(s))
  }

  lemma {:induction false} LowerKeepsTokens(s: string)
    ensures Tokens(ToLower(s)) == Tokens(s)
  {
    if s != "" {
      LowerKeepsTokens(s[1..]);
      assert ToLower(s)[1..] == ToLower(s[1..]);
    }
  }

  lemma {:induction false} ReplaceKeepsTokens(s: string, from: char)
    requires IsWhite(from)
    ensures Tokens(ReplaceChar(s, from, ' ')) == Tokens(s)
  {
    if s != "" {
      ReplaceKeepsTokens(s[1..], from);
      assert ReplaceChar(s, from, ' ')[1..] == ReplaceChar(s[1..], from, ' ');
    }
  }

  predicate OnlyBlanks(s: string) {
    forall i :: 0 <= i < |s| && IsWhite(s[i]) ==> s[i] == ' '
  }

  predicate IsLowered(s: string) {
    forall i :: 0 <= i < |s| ==> Lower(s[i]) == s[i]
  }

  predicate Textual(c: char) { IsLowerText(c) || c == ' ' }

  lemma {:induction false} KeepKeepsTokens(s: string, p: char -> bool)
    requires OnlyBlanks(s) && IsLowered(s) && forall c :: p(c) == Textual(c)
    ensures Tokens(Keep(s, p)) == Tokens(s)
  {
    if s != "" {
      KeepKeepsTokens(s[1..], p);
      assert Lower(s[0]) == s[0];
      if p(s[0]) {
        assert Keep(s, p)[1..] == Keep(s[1..], p);
      } else {
        assert Keep(s, p) == Keep(s[1..], p);
        var words := Tokens(s[1..]);
        assert "" + words[0] == words[0];
        assert [words[0]] + words[1..] == words;
      }
    }
  }

  // Collapsing keeps the first token and the words behind it.
  lemma {:induction false} CollapseKeepsCores(s: string)
    ensures Tokens(CollapseSpaces(s))[0] == Tokens(s)[0]
    ensures NonEmpty(Tokens(CollapseSpaces(s))[1..]) == NonEmpty(Tokens(s)[1..])
    ensures Cores(CollapseSpaces(s)) == Cores(s)
  {
    if s != "" {
      CollapseKeepsCores(s[1..]);
      var t := CollapseSpaces(s);
      if !IsWhite(s[0]) {
        assert t[1..] == CollapseSpaces(s[1..]);
      } else if |s| > 1 && IsWhite(s[1]) {
        assert Tokens(s)[1..] == Tokens(s[1..]);
        assert Tokens(s[1..])[0] == "";
      } else {
        assert t[1..] == CollapseSpaces(s[1..]);
        assert Tokens(s)[1..] == Tokens(s[1..]) && Tokens(t)[1..] == Tokens(t[1..]);
      }
    }
  }

  lemma {:induction false} TrimLeftKeepsCores(s: string)
    ensures Cores(TrimLeft(s)) == Cores(s)
  {
    if s != "" && IsSpace(s[0]) {
      TrimLeftKeepsCores(s[1..]);
      var words := Tokens(s[1..]);
      if IsWhite(s[0]) {
        assert ([""] + words)[1..] == words;
      } else {
        assert Symbol(s[0]) == "";
        assert "" + words[0] == words[0];
        assert [words[0]] + words[1..] == words;
      }
    }
  }

  // Tokens with one more character behind.
  function Extend(words: seq<string>, c: char): seq<string>
    requires words != []
  {
    if IsWhite(c) then words + [""] else words[|words| - 1 := words[|words| - 1] + Symbol(c)]
  }

  // Tokens with one more character in front.
  function Prefix(c: char, words: seq<string>): seq<string>
    requires words != []
  {
    if IsWhite(c) then [""] + words else words[0 := Symbol(c) + words[0]]
  }

  lemma {:induction false} PrefixExtend(words: seq<string>, c: char, d: char)
    requires words != []
    ensures Prefix(c, Extend(words, d)) == Extend(Prefix(c, words), d)
  {
    if |words| == 1 && !IsWhite(c) && !IsWhite(d) {
      assert Symbol(c) + (words[0] + Symbol(d)) == (Symbol(c) + words[0]) + Symbol(d);
    }
  }

  lemma {:induction false} TokensOfFirst(s: string)
    requires s != ""
    ensures Tokens(s) == Prefix(s[0], Tokens(s[1..]))
  {
  }

  lemma {:induction false} TokensOfLast(s: string, c: char)
    ensures Tokens(s + [c]) == Extend(Tokens(s), c)
  {
    TokensOfFirst(s + [c]);
    if s == "" {
      assert (s + [c])[1..] == "";
      assert Symbol(c) + "" == "" + Symbol(c);
    } else {
      TokensOfLast(s[1..], c);
      TokensOfFirst(s);
      assert (s + [c])[1..] == s[1..] + [c];
      PrefixExtend(Tokens(s[1..]), s[0], c);
    }
  }

  lemma {:induction false} NonEmptyOfLast(words: seq<string>, word: string)
    ensures NonEmpty(words + [word]) == NonEmpty(words) + if word == "" then [] else [word]
  {
    if words == [] {
      assert words + [word] == [word] && [word][1..] == [];
    } else {
      NonEmptyOfLast(words[1..], word);
      assert (words + [word])[1..] == words[1..] + [word];
    }
  }

  lemma {:induction false} TrimRightKeepsCores(s: string)
    ensures Cores(TrimRight(s)) == Cores(s)
  {
    if s != "" && IsSpace(s[|s| - 1]) {
      var pre, c := s[..|s| - 1], s[|s| - 1];
      TrimRightKeepsCores(pre);
      TokensOfLast(pre, c);
      SplitLast(s);
      SpaceExtendsNothing(Tokens(pre), c);
    }
  }

  lemma {:induction false} SpaceExtendsNothing(words: seq<string>, c: char)
    requires words != [] && IsSpace(c)
    ensures NonEmpty(Extend(words, c)) == NonEmpty(words)
  {
    if IsWhite(c) {
      NonEmptyOfLast(words, "");
    } else {
      assert Symbol(c) == "";
      assert words[|words| - 1] + "" == words[|words| - 1];
      assert Extend(words, c) == words;
    }
  }

  predicate AllTextual(s: string) {
    forall i :: 0 <= i < |s| ==> Textual(s[i])
  }

  predicate NoDoubles(s: string) {
    forall i :: 0 <= i < |s| - 1 ==> s[i] != ' ' || s[i + 1] != ' '
  }

  /** A text in normal form: lower-case letters, digits, and single inner spaces. */
  predicate Normal(s: string) {
    AllTextual(s) && NoDoubles(s) && (s != "" ==> s[0] != ' ' && s[|s| - 1] != ' ')
  }

  // Without the condition on its first character.
  predicate NormalTail(s: string) {
    AllTextual(s) && NoDoubles(s) && (s != "" ==> s[|s| - 1] != ' ')
  }

  lemma {:induction false} SlicesStayPlain(s: string, n: nat, m: nat)
    requires n <= m <= |s| && NoDoubles(s) && AllTextual(s)
    ensures NoDoubles(s[n..m]) && AllTextual(s[n..m])
  {
  }

  lemma {:induction false} JoinOfPrefix(c: char, words: seq<string>)
    requires words != [] && Textual(c)
    ensures Join(Prefix(c, words)) == [c] + Join(words)
  {
    if c == ' ' {
      assert ([""] + words)[1..] == words;
      assert Join([""] + words) == "" + " " + Join(words);
    } else {
      var word := [c] + words[0];
      assert Symbol(c) == [c];
      assert words[0 := word][1..] == words[1..];
      if |words| > 1 {
        assert Join(words) == words[0] + " " + Join(words[1..]);
      }
    }
  }

  lemma {:induction false} NormalIsItsTokens(s: string)
    requires NormalTail(s)
    ensures Join(Tokens(s)) == s
    ensures forall i :: 1 <= i < |Tokens(s)| ==> Tokens(s)[i] != ""
    ensures Tokens(s)[0] == "" <==> s == "" || s[0] == ' '
  {
    if s != "" {
      SlicesStayPlain(s, 1, |s|);
      NormalIsItsTokens(s[1..]);
      TokensOfFirst(s);
      JoinOfPrefix(s[0], Tokens(s[1..]));
      assert s == [s[0]] + s[1..];
    }
  }

  lemma {:induction false} NonEmptyKeepsAll(words: seq<string>)
    requires forall i :: 0 <= i < |words| ==> words[i] != ""
    ensures NonEmpty(words) == words
  {
    if words != [] {
      NonEmptyKeepsAll(words[1..]);
    }
  }

  lemma {:induction false} NormalIsItsWords(s: string)
    requires Normal(s)
    ensures s == Join(Cores(s))
  {
    NormalIsItsTokens(s);
    if s != "" {
      NonEmptyKeepsAll(Tokens(s));
    }
  }

  /* What the passes leave behind. */

  lemma {:induction false} CollapseLeavesSingles(s: string)
    ensures NoDoubles(CollapseSpaces(s)) && OnlyBlanks(CollapseSpaces(s))
    ensures s != "" ==>
              CollapseSpaces(s) != "" && (CollapseSpaces(s)[0] == if IsWhite(s[0]) then ' ' else s[0])
    ensures forall i :: 0 <= i < |CollapseSpaces(s)| ==> CollapseSpaces(s)[i] == ' ' || CollapseSpaces(s)[i] in s
  {
    if s != "" {
      CollapseLeavesSingles(s[1..]);
    }
  }

  lemma {:induction false} LowerLeavesLowered(s: string)
    ensures IsLowered(ToLower(s))
  {
    if s != "" {
      LowerLeavesLowered(s[1..]);
    }
  }

  lemma {:induction false} ReplaceKeepsLowered(s: string, from: char)
    requires IsLowered(s)
    ensures IsLowered(ReplaceChar(s, from, ' '))
  {
    if s != "" {
      assert forall i :: 0 <= i < |s[1..]| ==> s[1..][i] == s[i + 1];
      ReplaceKeepsLowered(s[1..], from);
    }
  }

  lemma {:induction false} KeepLeavesTextual(s: string, p: char -> bool)
    ensures forall i :: 0 <= i < |Keep(s, p)| ==> p(Keep(s, p)[i]) && Keep(s, p)[i] in s
  {
    if s != "" {
      KeepLeavesTextual(s[1..], p);
    }
  }

  lemma {:induction false} TrimLeftIsSuffix(s: string)
    ensures exists n :: 0 <= n <= |s| && TrimLeft(s) == s[n..]
    ensures TrimLeft(s) != "" ==> !IsSpace(TrimLeft(s)[0])
  {
    if s != "" && IsSpace(s[0]) {
      TrimLeftIsSuffix(s[1..]);
      var n :| 0 <= n <= |s[1..]| && TrimLeft(s[1..]) == s[1..][n..];
      assert TrimLeft(s) == s[n + 1..];
    } else {
      assert TrimLeft(s) == s[0..];
    }
  }

  lemma {:induction false} TrimRightIsPrefix(s: string)
    ensures exists n :: 0 <= n <= |s| && TrimRight(s) == s[..n]
    ensures TrimRight(s) != "" ==> !IsSpace(TrimRight(s)[|TrimRight(s)| - 1])
  {
    if s != "" && IsSpace(s[|s| - 1]) {
      var pre := s[..|s| - 1];
      TrimRightIsPrefix(pre);
      var n :| 0 <= n <= |pre| && TrimRight(pre) == pre[..n];
      assert TrimRight(s) == s[..n];
    } else {
      assert TrimRight(s) == s[..|s|];
    }
  }

  lemma {:induction false} TrimEnds(s: string)
    ensures var t := TrimSpace(s); t != "" ==> !IsSpace(t[0]) && !IsSpace(t[|t| - 1])
  {
    TrimLeftIsSuffix(s);
    TrimRightIsPrefix(TrimLeft(s));
  }

  lemma {:induction false} TrimLeavesNormal(s: string)
    requires NoDoubles(s) && AllTextual(s)
    ensures Normal(TrimSpace(s))
  {
    TrimEnds(s);
    TrimLeftIsSuffix(s);
    var left := TrimLeft(s);
    var n :| 0 <= n <= |s| && left == s[n..];
    SlicesStayPlain(s, n, |s|);
    TrimRightIsPrefix(left);
    var m :| 0 <= m <= |left| && TrimRight(left) == left[..m];
    SlicesStayPlain(left, 0, m);
  }

  lemma {:induction false} TextPipeline(input: string)
    ensures Normal(NormalizeText(input)) && Cores(NormalizeText(input)) == Cores(input)
  {
    var v1 := TrimSpace(input);
    TrimLeftKeepsCores(input);
    TrimRightKeepsCores(TrimLeft(input));
    var v2 := ToLower(v1);
    LowerKeepsTokens(v1);
    LowerLeavesLowered(v1);
    var v3 := ReplaceChar(v2, '\t', ' ');
    ReplaceKeepsTokens(v2, '\t');
    ReplaceKeepsLowered(v2, '\t');
    var v4 := ReplaceChar(v3, '\n', ' ');
    ReplaceKeepsTokens(v3, '\n');
    ReplaceKeepsLowered(v3, '\n');
    var v5 := CollapseSpaces(v4);
    CollapseKeepsCores(v4);
    CollapseLeavesSingles(v4);
    var p := c => IsLowerText(c) || c == ' ';
    var v6 := Keep(v5, p);
    KeepKeepsTokens(v5, p);
    KeepLeavesTextual(v5, p);
    var v7 := CollapseSpaces(v6);
    CollapseKeepsCores(v6);
    CollapseLeavesSingles(v6);
    TrimLeftKeepsCores(v7);
    TrimRightKeepsCores(TrimLeft(v7));
    TrimLeavesNormal(v7);
    assert NormalizeText(input) == TrimSpace(v7);
  }

  /** The seven passes compute the reference, and their results are exactly the texts that they
      leave alone; so normalizing twice is normalizing once. */
  lemma {:induction false} NormalizeTextIsWords(input: string)
    ensures NormalizeText(input) == Join(Words(input))
    ensures NormalizeText(input) == input <==> Normal(input)
    ensures NormalizeText(NormalizeText(input)) == NormalizeText(input)
  {
    TextPipeline(input);
    NormalIsItsWords(NormalizeText(input));
    TokensAreCleanWords(input);
    if Normal(input) {
      NormalIsItsWords(input);
    }
    var once := NormalizeText(input);
    TextPipeline(once);
    NormalIsItsWords(NormalizeText(once));
  }

  /* ---- Postal codes ---- */

  lemma {:induction false} KeepTwice(s: string, p: char -> bool, q: char -> bool)
    requires forall c :: q(c) ==> p(c)
    ensures Keep(Keep(s, p), q) == Keep(s, q)
  {
    if s != "" {
      KeepTwice(s[1..], p, q);
      if p(s[0]) {
        assert Keep(s, p)[1..] == Keep(s[1..], p);
      } else {
        assert Keep(s, p) == Keep(s[1..], p) && Keep(s, q) == Keep(s[1..], q);
      }
    }
  }

  function PostalCore(s: string): string {
    Keep(ToUpper(s), IsUpperText)
  }

  lemma {:induction false} ToUpperAppends(a: string, b: string)
    ensures ToUpper(a + b) == ToUpper(a) + ToUpper(b)
  {
    if a == "" {
      assert a + b == b;
    } else {
      ToUpperAppends(a[1..], b);
      assert (a + b)[0] == a[0] && (a + b)[1..] == a[1..] + b;
      Regroup([Upper(a[0])], ToUpper(a[1..]), ToUpper(b));
    }
  }

  lemma {:induction false} KeepAppends(a: string, b: string, p: char -> bool)
    ensures Keep(a + b, p) == Keep(a, p) + Keep(b, p)
  {
    if a == "" {
      assert a + b == b;
    } else {
      KeepAppends(a[1..], b, p);
      assert (a + b)[0] == a[0] && (a + b)[1..] == a[1..] + b;
      Regroup(if p(a[0]) then [a[0]] else "", Keep(a[1..], p), Keep(b, p));
    }
  }

  lemma {:induction false} PostalCoreAppends(a: string, b: string)
    ensures PostalCore(a + b) == PostalCore(a) + PostalCore(b)
  {
    ToUpperAppends(a, b);
    KeepAppends(ToUpper(a), ToUpper(b), IsUpperText);
  }

  lemma {:induction false} SpaceHasNoPostalCore(c: char)
    requires IsSpace(c)
    ensures PostalCore([c]) == ""
  {
    assert [c][1..] == "" && ToUpper([c]) == [c];
    assert [c][1..] == "" && Keep([c], IsUpperText) == Keep("", IsUpperText);
  }

  lemma {:induction false} TrimLeftKeepsPostalCore(s: string)
    ensures PostalCore(TrimLeft(s)) == PostalCore(s)
  {
    if s != "" && IsSpace(s[0]) {
      TrimLeftKeepsPostalCore(s[1..]);
      SpaceHasNoPostalCore(s[0]);
      PostalCoreAppends([s[0]], s[1..]);
      assert s == [s[0]] + s[1..];
    }
  }

  lemma {:induction false} TrimRightKeepsPostalCore(s: string)
    ensures PostalCore(TrimRight(s)) == PostalCore(s)
  {
    if s != "" && IsSpace(s[|s| - 1]) {
      var pre, last := s[..|s| - 1], s[|s| - 1];
      TrimRightKeepsPostalCore(pre);
      SpaceHasNoPostalCore(last);
      PostalCoreAppends(pre, [last]);
      SplitLast(s);
    }
  }

  /** A normalized postal code is the upper-case letters and digits of the code, in order. */
  lemma {:induction false} NormalizePostalIsCore(input: string)
    ensures NormalizePostal(input) == PostalCore(input)
    ensures forall i :: 0 <= i < |NormalizePostal(input)| ==> IsUpperText(NormalizePostal(input)[i])
    ensures NormalizePostal(NormalizePostal(input)) == NormalizePostal(input)
  {
    PostalIsCore(input);
    KeepLeavesTextual(ToUpper(input), IsUpperText);
    var once := NormalizePostal(input);
    PostalIsCore(once);
    UpperTextStays(once);
  }

  lemma {:induction false} PostalIsCore(input: string)
    ensures NormalizePostal(input) == PostalCore(input)
  {
    TrimLeftKeepsPostalCore(input);
    TrimRightKeepsPostalCore(TrimLeft(input));
    KeepTwice(ToUpper(TrimSpace(input)), c => c != ' ', IsUpperText);
  }

  lemma {:induction false} UpperTextStays(s: string)
    requires forall i :: 0 <= i < |s| ==> IsUpperText(s[i])
    ensures PostalCore(s) == s
  {
    if s != "" {
      UpperTextStays(s[1..]);
      assert ToUpper(s)[1..] == ToUpper(s[1..]);
    }
  }

  /* ---- Unique decoding ---- */

  // Fields without the separator are determined by where the first separator stands.
  lemma {:induction false} FirstFieldDecodes(a: string, x: string, b: string, y: string, sep: char)
    requires sep !in a && sep !in b
    requires a + [sep] + x == b + [sep] + y
    ensures a == b && x == y
  {
    var s := a + [sep] + x;
    assert s == b + [sep] + y;
    assert s[|a|] == sep && s[|b|] == sep;
    assert forall i :: 0 <= i < |a| ==> s[i] == a[i] && a[i] in a;
    assert forall i :: 0 <= i < |b| ==> s[i] == b[i] && b[i] in b;
    assert |a| == |b|;
    assert a == s[..|a|] == b;
    assert x == s[|a| + 1..] == y;
  }

  lemma {:induction false} PartsDecode(n: string, q: string, m: string, n': string, q': string, m': string)
    requires '|' !in n && '|' !in n' && '|' !in q && '|' !in q'
    requires n + "|" + q + "|" + m == n' + "|" + q' + "|" + m'
    ensures n == n' && q == q' && m == m'
  {
    var x, x' := q + "|" + m, q' + "|" + m';
    assert n + "|" + q + "|" + m == n + "|" + x && n' + "|" + q' + "|" + m' == n' + "|" + x';
    FirstFieldDecodes(n, x, n', x', '|');
    FirstFieldDecodes(q, m, q', m', '|');
  }

  lemma {:induction false} NormalizedHasNoBar(input: string)
    ensures '|' !in NormalizeText(input) && '|' !in NormalizePostal(input)
  {
    TextPipeline(input);
    NormalizePostalIsCore(input);
  }

  /** Two identities are equal exactly when the three normalized parts are. */
  lemma {:induction false} IdentityDecodes(a: string, p: string, u: string, a': string, p': string, u': string)
    ensures CanonicalIdentity(a, p, u) == CanonicalIdentity(a', p', u')
            <==> && NormalizeText(a) == NormalizeText(a') && NormalizePostal(p) == NormalizePostal(p')
                 && NormalizeText(u) == NormalizeText(u')
  {
    NormalizedHasNoBar(a);
    NormalizedHasNoBar(a');
    NormalizedHasNoBar(p);
    NormalizedHasNoBar(p');
    var n, q, m := NormalizeText(a), NormalizePostal(p), NormalizeText(u);
    var n', q', m' := NormalizeText(a'), NormalizePostal(p'), NormalizeText(u');
    if CanonicalIdentity(a, p, u) == CanonicalIdentity(a', p', u') {
      PartsDecode(n, q, m, n', q', m');
    }
  }

  // A last field without '=' is determined by the last "=" before it, the end of its tag.
  lemma {:induction false} LastFieldDecodes(tag: string, x: string, t: string, y: string, u: string)
    requires tag != "" && tag[|tag| - 1] == '=' && '=' !in t && '=' !in u
    requires x + tag + t == y + tag + u
    ensures x == y && t == u
  {
    SameTail(x + tag, t, y + tag, u, '=');
    assert x == (x + tag)[..|x|] && y == (y + tag)[..|y|];
  }

  lemma {:induction false} SameTail(a: string, t: string, b: string, u: string, end: char)
    requires a != "" && b != "" && a[|a| - 1] == end && b[|b| - 1] == end && end !in t && end !in u
    requires a + t == b + u
    ensures a == b && t == u
  {
    var s := a + t;
    assert s == b + u && s[|a| - 1] == end && s[|b| - 1] == end;
    assert forall i :: |a| <= i < |s| ==> s[i] == t[i - |a|] && t[i - |a|] in t;
    assert forall i :: |b| <= i < |s| ==> s[i] == u[i - |b|] && u[i - |b|] in u;
    assert |a| == |b|;
    assert a == s[..|a|] && b == s[..|b|] && t == s[|a|..] && u == s[|b|..];
  }

  const PROPERTY_TYPES := {"HOUSE", "CONDO", "TOWNHOUSE", "DUPLEX", "LAND", "OTHER"}

  lemma {:induction false} FieldDecodes(tag: string, a: string, x: string, b: string, y: string)
    requires '|' !in a && '|' !in b
    requires Field(tag, a, x) == Field(tag, b, y)
    ensures a == b && x == y
  {
    assert Field(tag, a, x)[|tag|..] == a + "|" + x;
    assert Field(tag, b, y)[|tag|..] == b + "|" + y;
    FirstFieldDecodes(a, x, b, y, '|');
  }

  /** The snapshot payload has one reading: numbers without '|' in front, one of the six types at
      the end, and any text at all, separators included, as the listing id between them. */
  lemma {:induction false} SnapshotDecodes(
      price: string, beds: string, baths: string, sqft: string, id: string, kind: string,
      price': string, beds': string, baths': string, sqft': string, id': string, kind': string)
    requires '|' !in price && '|' !in beds && '|' !in baths && '|' !in sqft && kind in PROPERTY_TYPES
    requires '|' !in price' && '|' !in beds' && '|' !in baths' && '|' !in sqft' && kind' in PROPERTY_TYPES
    requires SnapshotPayload(price, beds, baths, sqft, id, kind)
             == SnapshotPayload(price', beds', baths', sqft', id', kind')
    ensures price == price' && beds == beds' && baths == baths' && sqft == sqft' && id == id' && kind == kind'
  {
    var r5, r5' := id + "|property_type=" + kind, id' + "|property_type=" + kind';
    var r4, r4' := "source_listing_id=" + r5, "source_listing_id=" + r5';
    var r3, r3' := Field("sqft=", sqft, r4), Field("sqft=", sqft', r4');
    var r2, r2' := Field("baths=", baths, r3), Field("baths=", baths', r3');
    var r1, r1' := Field("beds=", beds, r2), Field("beds=", beds', r2');
    FieldDecodes("price=", price, r1, price', r1');
    FieldDecodes("beds=", beds, r2, beds', r2');
    FieldDecodes("baths=", baths, r3, baths', r3');
    FieldDecodes("sqft=", sqft, r4, sqft', r4');
    assert r5 == r4[18..] && r5' == r4'[18..];
    var tag := "|property_type=";
    assert tag[|tag| - 1] == '=';
    assert r5 == id + tag + kind && r5' == id' + tag + kind';
    LastFieldDecodes(tag, id, kind, id', kind');
  }
}
