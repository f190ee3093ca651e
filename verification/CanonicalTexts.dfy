/** The canonical encodings said on characters (normalize.go): which characters count, and how the
    encodings are read back. */
module CanonicalTexts {
  import opened Sequences
  import opened Normalize

  /* ---- Blank texts and trimming ---- */

  predicate AllSpace(s: string) {
    forall i :: 0 <= i < |s| ==> IsSpace(s[i])
  }

  /** Among the ASCII characters, blank, tab, line feed, vertical tab, form feed and carriage return
      are spaces; `\s` leaves the vertical tab out. */
  lemma {:induction false} AsciiSpaces(c: char)
    requires c < '\U{80}'
    ensures IsSpace(c) <==> c == ' ' || '\U{9}' <= c <= '\U{D}'
    ensures IsWhite(c) <==> c == ' ' || ('\U{9}' <= c <= '\U{D}' && c != '\U{B}')
  {
  }

  lemma {:induction false} TrimLeftParts(s: string) returns (n: nat)
    ensures n <= |s| && AllSpace(s[..n]) && TrimLeft(s) == s[n..]
  {
    if s != "" && IsSpace(s[0]) {
      var k := TrimLeftParts(s[1..]);
      n := k + 1;
      assert s[n..] == s[1..][k..];
      assert forall i :: 0 < i < n ==> s[i] == s[1..][..k][i - 1];
    } else {
      n := 0;
    }
  }

  lemma {:induction false} TrimRightParts(s: string) returns (n: nat)
    ensures n <= |s| && AllSpace(s[n..]) && TrimRight(s) == s[..n]
  {
    if s != "" && IsSpace(s[|s| - 1]) {
      var pre := s[..|s| - 1];
      n := TrimRightParts(pre);
      assert s[..n] == pre[..n];
      assert forall i :: n <= i < |pre| ==> s[i] == pre[n..][i - n];
    } else {
      n := |s|;
    }
  }

  /** Trimming takes the spaces at both ends, and nothing else. */
  lemma {:induction false} TrimSpaceExactly(s: string) returns (front: string, back: string)
    ensures s == front + TrimSpace(s) + back && AllSpace(front) && AllSpace(back)
    ensures TrimSpace(s) != "" ==> !IsSpace(TrimSpace(s)[0]) && !IsSpace(TrimSpace(s)[|TrimSpace(s)| - 1])
    ensures TrimSpace(s) == "" <==> AllSpace(s)
  {
    var n := TrimLeftParts(s);
    var left := TrimLeft(s);
    var m := TrimRightParts(left);
    front, back := s[..n], left[m..];
    assert s == s[..n] + (left[..m] + left[m..]);
    TrimLeftIsSuffix(s);
    TrimRightIsPrefix(left);
  }

  lemma {:induction false} BlankExactly(s: string)
    ensures TrimSpace(s) == "" <==> AllSpace(s)
  {
    var _, _ := TrimSpaceExactly(s);
  }

  lemma {:induction false} LeftIsTrimmed(front: string, s: string)
    requires AllSpace(front) && s != "" && !IsSpace(s[0])
    ensures TrimLeft(front + s) == s
  {
    if front == "" {
      assert front + s == s;
    } else {
      LeftIsTrimmed(front[1..], s);
      assert (front + s)[1..] == front[1..] + s;
    }
  }

  lemma {:induction false} RightIsTrimmed(s: string, back: string)
    requires AllSpace(back) && s != "" && !IsSpace(s[|s| - 1])
    ensures TrimRight(s + back) == s
  {
    if back == "" {
      assert s + back == s;
    } else {
      AppendLast(s, back);
      RightIsTrimmed(s, back[..|back| - 1]);
    }
  }

  /** Whatever spaces stand around a text that has none at its ends. */
  lemma {:induction false} SpacesAreTrimmed(front: string, s: string, back: string)
    requires AllSpace(front) && AllSpace(back) && s != "" && !IsSpace(s[0]) && !IsSpace(s[|s| - 1])
    ensures TrimSpace(front + s + back) == s
  {
    Regroup(front, s, back);
    LeftIsTrimmed(front, s + back);
    RightIsTrimmed(s, back);
  }

  lemma {:induction false} TrimmedStays(s: string)
    requires s != "" && !IsSpace(s[0]) && !IsSpace(s[|s| - 1])
    ensures TrimSpace(s) == s
  {
  }

  /* ---- Texts ---- */

  /** A lower-case letter or a digit. */
  predicate IsPlain(c: char) { 'a' <= c <= 'z' || '0' <= c <= '9' }

  /** Blank, tab, line feed, form feed or carriage return. */
  predicate IsBreak(c: char) { c == ' ' || ('\U{9}' <= c <= '\U{D}' && c != '\U{B}') }

  /** The same letter in the other case, or two kinds of white space. */
  predicate Alike(a: char, b: char) {
    || a == b
    || ('A' <= a <= 'Z' && b == a - 'A' + 'a') || ('A' <= b <= 'Z' && a == b - 'A' + 'a')
    || (IsBreak(a) && IsBreak(b))
  }

  lemma {:induction false} CoresDecide(s: string, t: string)
    requires Cores(s) == Cores(t)
    ensures NormalizeText(s) == NormalizeText(t)
  {
    NormalizeTextIsWords(s);
    NormalizeTextIsWords(t);
    TokensAreCleanWords(s);
    TokensAreCleanWords(t);
  }

  /** A lower-case letter or a digit, or a blank between two of them. */
  predicate IsPlainAt(s: string, i: int)
    requires 0 <= i < |s|
  {
    IsPlain(s[i]) || (s[i] == ' ' && 0 < i < |s| - 1 && IsPlain(s[i - 1]) && IsPlain(s[i + 1]))
  }

  predicate IsPlainText(s: string) {
    forall i :: 0 <= i < |s| ==> IsPlainAt(s, i)
  }

  lemma {:induction false} NormalIsPlain(s: string, i: int)
    requires Normal(s) && 0 <= i < |s|
    ensures IsPlainAt(s, i)
  {
    var before, behind := i - 1, i + 1;
    assert 0 <= before ==> s[before] != ' ' || s[before + 1] != ' ';
    assert behind < |s| ==> s[i] != ' ' || s[i + 1] != ' ';
  }

  lemma {:induction false} PlainIsNormal(s: string)
    requires IsPlainText(s)
    ensures Normal(s)
  {
    forall i | 0 <= i < |s|
      ensures Textual(s[i])
    {
      assert IsPlainAt(s, i);
    }
    forall i | 0 <= i < |s| - 1
      ensures s[i] != ' ' || s[i + 1] != ' '
    {
      assert IsPlainAt(s, i);
    }
    if s != "" {
      assert IsPlainAt(s, 0) && IsPlainAt(s, |s| - 1);
    }
  }

  /** Normalization leaves exactly such texts alone. */
  lemma {:induction false} NormalTextsExactly(s: string)
    ensures NormalizeText(s) == s <==> IsPlainText(s)
  {
    NormalizeTextIsWords(s);
    if Normal(s) {
      forall i | 0 <= i < |s|
        ensures IsPlainAt(s, i)
      {
        NormalIsPlain(s, i);
      }
    }
    if IsPlainText(s) {
      PlainIsNormal(s);
    }
  }

  /** Case and the kind of white space do not matter. */
  lemma {:induction false} AlikeTextsAreEqual(s: string, t: string)
    requires |s| == |t| && forall i :: 0 <= i < |s| ==> Alike(s[i], t[i])
    ensures NormalizeText(s) == NormalizeText(t)
  {
    AlikeTokens(s, t);
    CoresDecide(s, t);
  }

  lemma {:induction false} AlikeTokens(s: string, t: string)
    requires |s| == |t| && forall i :: 0 <= i < |s| ==> Alike(s[i], t[i])
    ensures Tokens(s) == Tokens(t)
  {
    if s != "" {
      AlikeTokens(s[1..], t[1..]);
      assert Alike(s[0], t[0]);
      assert IsWhite(s[0]) <==> IsWhite(t[0]);
      assert Symbol(s[0]) == Symbol(t[0]) || IsWhite(s[0]);
    }
  }

  /** The two non-ASCII characters whose lower case is an ASCII letter. */
  predicate LowersToAscii(c: char) { c == '\U{212A}' || c == '\U{130}' }

  /** A character that is no letter, no digit and no white space is dropped. */
  lemma {:induction false} OthersAreDropped(a: string, c: char, b: string)
    requires !IsPlain(c) && !('A' <= c <= 'Z') && !IsBreak(c) && !LowersToAscii(c)
    ensures NormalizeText(a + [c] + b) == NormalizeText(a + b)
  {
    DroppedFromTokens(a, c, b);
    CoresDecide(a + [c] + b, a + b);
  }

  lemma {:induction false} DroppedFromTokens(a: string, c: char, b: string)
    requires !IsPlain(c) && !('A' <= c <= 'Z') && !IsBreak(c) && !LowersToAscii(c)
    ensures Tokens(a + [c] + b) == Tokens(a + b)
  {
    if a == "" {
      assert a + [c] + b == [c] + b && a + b == b && ([c] + b)[1..] == b;
      assert Symbol(c) == "";
      var words := Tokens(b);
      assert "" + words[0] == words[0];
      assert [words[0]] + words[1..] == words;
    } else {
      DroppedFromTokens(a[1..], c, b);
      assert (a + [c] + b)[1..] == a[1..] + [c] + b && (a + b)[1..] == a[1..] + b;
    }
  }

  /** A blank beside a blank, in front or behind does not matter. */
  lemma {:induction false} SpareBlanksAreDropped(a: string, b: string)
    ensures NormalizeText(a + "  " + b) == NormalizeText(a + " " + b)
    ensures NormalizeText(" " + b) == NormalizeText(b) && NormalizeText(a + " ") == NormalizeText(a)
  {
    BlankInFront(b);
    DoubleBlank(a, b);
    TokensOfLast(a, ' ');
    SpaceExtendsNothing(Tokens(a), ' ');
    assert a + " " == a + [' '];
    CoresDecide(a + "  " + b, a + " " + b);
    CoresDecide(" " + b, b);
    CoresDecide(a + " ", a);
  }

  lemma {:induction false} BlankInFront(b: string)
    ensures Tokens(" " + b) == [""] + Tokens(b) && Cores(" " + b) == Cores(b)
  {
    assert (" " + b)[1..] == b;
    assert ([""] + Tokens(b))[1..] == Tokens(b);
  }

  lemma {:induction false} DoubleBlank(a: string, b: string)
    ensures Cores(a + "  " + b) == Cores(a + " " + b)
    ensures Tokens(a + "  " + b)[0] == Tokens(a + " " + b)[0]
    ensures NonEmpty(Tokens(a + "  " + b)[1..]) == NonEmpty(Tokens(a + " " + b)[1..])
  {
    if a == "" {
      assert a + "  " + b == " " + (" " + b) && a + " " + b == " " + b;
      BlankInFront(b);
      BlankInFront(" " + b);
    } else {
      DoubleBlank(a[1..], b);
      assert (a + "  " + b)[1..] == a[1..] + "  " + b && (a + " " + b)[1..] == a[1..] + " " + b;
      FirstOfTokens(a + "  " + b);
      FirstOfTokens(a + " " + b);
    }
  }

  // How the words of s come from those of its tail.
  lemma {:induction false} FirstOfTokens(s: string)
    requires s != ""
    ensures var tail := Tokens(s[1..]);
            if IsWhite(s[0]) then Tokens(s)[0] == "" && Tokens(s)[1..] == tail && NonEmpty(tail) == Cores(s)
            else Tokens(s)[0] == Symbol(s[0]) + tail[0] && Tokens(s)[1..] == tail[1..]
    ensures Cores(s) == (if Tokens(s)[0] == "" then [] else [Tokens(s)[0]]) + NonEmpty(Tokens(s)[1..])
  {
  }

  /* ---- Postal codes ---- */

  /** A postal code is normalized character by character. */
  lemma {:induction false} PostalCodesAppend(a: string, b: string)
    ensures NormalizePostal(a + b) == NormalizePostal(a) + NormalizePostal(b)
  {
    PostalIsCore(a);
    PostalIsCore(b);
    PostalIsCore(a + b);
    PostalCoreAppends(a, b);
  }

  /** The two non-ASCII characters whose upper case is an ASCII letter. */
  predicate UppersToAscii(c: char) { c == '\U{131}' || c == '\U{17F}' }

  /** Letters are raised, digits kept, and everything else is dropped. */
  lemma {:induction false} PostalCharacters(c: char)
    ensures 'A' <= c <= 'Z' || '0' <= c <= '9' ==> NormalizePostal([c]) == [c]
    ensures 'a' <= c <= 'z' ==> NormalizePostal([c]) == [c - 'a' + 'A']
    ensures !('A' <= c <= 'Z') && !('0' <= c <= '9') && !('a' <= c <= 'z') && !UppersToAscii(c) ==> NormalizePostal([c]) == ""
  {
    PostalIsCore([c]);
    assert [c][1..] == "";
    assert ToUpper([c]) == [Upper(c)];
    assert [Upper(c)][1..] == "";
    assert Keep("", IsUpperText) == "";
  }

  /* ---- Reading the encodings back ---- */

  /** The text in front of the first bar, and the text behind it. */
  function ReadField(s: string): (string, string) {
    if s == "" then ("", "")
    else if s[0] == '|' then ("", s[1..])
    else
      var (field, rest) := ReadField(s[1..]);
      ([s[0]] + field, rest)
  }

  lemma {:induction false} FieldIsRead(field: string, rest: string)
    requires '|' !in field
    ensures ReadField(field + ("|" + rest)) == (field, rest)
  {
    var s := field + ("|" + rest);
    if field == "" {
      assert s == "|" + rest && s[1..] == rest;
    } else {
      FieldIsRead(field[1..], rest);
      assert s[1..] == field[1..] + ("|" + rest);
      SplitFirst(field);
    }
  }

  function ReadIdentity(s: string): (string, string, string) {
    var (address, behind) := ReadField(s);
    var (postal, unit) := ReadField(behind);
    (address, postal, unit)
  }

  /** An identity is read back as the normalized address, postal code and unit. */
  lemma {:induction false} IdentityReadsBack(address: string, postalCode: string, unit: string)
    ensures ReadIdentity(CanonicalIdentity(address, postalCode, unit))
            == (NormalizeText(address), NormalizePostal(postalCode), NormalizeText(unit))
  {
    NormalizedHasNoBar(address);
    NormalizedHasNoBar(postalCode);
    PartsAreRead(NormalizeText(address), NormalizePostal(postalCode), NormalizeText(unit));
  }

  lemma {:induction false} PartsAreRead(a: string, p: string, u: string)
    requires '|' !in a && '|' !in p
    ensures ReadIdentity(a + "|" + p + "|" + u) == (a, p, u)
  {
    assert a + "|" + p + "|" + u == a + ("|" + (p + ("|" + u)));
    FieldIsRead(a, p + ("|" + u));
    FieldIsRead(p, u);
  }

  /** What is behind the tag. */
  function Behind(tag: string, s: string): string {
    if tag <= s then s[|tag|..] else ""
  }

  /** The text behind the last "=". */
  function LastValue(s: string): string {
    if s == "" || s[|s| - 1] == '=' then "" else LastValue(s[..|s| - 1]) + [s[|s| - 1]]
  }

  /** price, beds, baths, sqft, listing id and property type of a payload. */
  function ReadSnapshot(s: string): (string, string, string, string, string, string) {
    var (price, s1) := ReadField(Behind("price=", s));
    var (beds, s2) := ReadField(Behind("beds=", s1));
    var (baths, s3) := ReadField(Behind("baths=", s2));
    var (sqft, s4) := ReadField(Behind("sqft=", s3));
    var s5 := Behind("source_listing_id=", s4);
    var kind := LastValue(s5);
    (price, beds, baths, sqft, s5[..Max(0, |s5| - |"|property_type="| - |kind|)], kind)
  }

  function Max(a: int, b: int): int { if a > b then a else b }

  lemma {:induction false} LastValueIsRead(front: string, value: string)
    requires front != "" && front[|front| - 1] == '=' && '=' !in value
    ensures LastValue(front + value) == value
  {
    if value == "" {
      assert front + value == front;
    } else {
      var n := |value| - 1;
      LastValueIsRead(front, value[..n]);
      AppendLast(front, value);
      SplitLast(value);
    }
  }

  lemma {:induction false} TagIsDropped(tag: string, s: string)
    ensures Behind(tag, tag + s) == s
  {
  }

  lemma {:induction false} TaggedFieldIsRead(tag: string, value: string, rest: string)
    requires '|' !in value
    ensures ReadField(Behind(tag, Field(tag, value, rest))) == (value, rest)
  {
    assert Field(tag, value, rest) == tag + (value + ("|" + rest));
    TagIsDropped(tag, value + ("|" + rest));
    FieldIsRead(value, rest);
  }

  lemma {:induction false} LastFieldsAreRead(id: string, tag: string, kind: string)
    requires tag != "" && tag[|tag| - 1] == '=' && '=' !in kind
    ensures LastValue(id + (tag + kind)) == kind && (id + (tag + kind))[..Max(0, |id + (tag + kind)| - |tag| - |kind|)] == id
  {
    assert id + (tag + kind) == (id + tag) + kind;
    LastValueIsRead(id + tag, kind);
  }

  /** A payload is read back as its six fields, whatever text the listing id is. */
  lemma {:induction false} SnapshotReadsBack(price: string, beds: string, baths: string, sqft: string, id: string, kind: string)
    requires '|' !in price && '|' !in beds && '|' !in baths && '|' !in sqft && '=' !in kind
    ensures ReadSnapshot(SnapshotPayload(price, beds, baths, sqft, id, kind)) == (price, beds, baths, sqft, id, kind)
  {
    var tag := "|property_type=";
    var s5 := id + (tag + kind);
    assert s5 == id + "|property_type=" + kind;
    var s4 := "source_listing_id=" + s5;
    var s3 := Field("sqft=", sqft, s4);
    var s2 := Field("baths=", baths, s3);
    var s1 := Field("beds=", beds, s2);
    TaggedFieldIsRead("price=", price, s1);
    TaggedFieldIsRead("beds=", beds, s2);
    TaggedFieldIsRead("baths=", baths, s3);
    TaggedFieldIsRead("sqft=", sqft, s4);
    TagIsDropped("source_listing_id=", s5);
    assert tag[|tag| - 1] == '=';
    LastFieldsAreRead(id, tag, kind);
  }
}
