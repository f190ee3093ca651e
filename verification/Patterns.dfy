/** LIKE and ILIKE, and what the patterns of the listing filter match. */
module Patterns {

  /** The characters with a meaning of their own in a pattern. */
  predicate IsSpecial(c: char) { c == '%' || c == '_' || c == '\\' }

  predicate Plain(pattern: string) {
    forall i :: 0 <= i < |pattern| ==> !IsSpecial(pattern[i])
  }

  function Like(text: string, pattern: string): bool
    decreases |pattern|, |text|
  {
    if pattern == "" then text == ""
    else if pattern[0] == '%' then Like(text, pattern[1..]) || (text != "" && Like(text[1..], pattern))
    else if text == "" then false
    else if pattern[0] == '_' then Like(text[1..], pattern[1..])
    else if pattern[0] == '\\' then |pattern| > 1 && text[0] == pattern[1] && Like(text[1..], pattern[2..])
    else text[0] == pattern[0] && Like(text[1..], pattern[1..])
  }

  /** How the database's locale folds case; the special characters have none. */
  type Folding = f: char -> char | forall c :: IsSpecial(c) || IsSpecial(f(c)) ==> f(c) == c
    witness c => c

  function Fold(s: string, fold: Folding): (t: string)
    ensures |t| == |s| && forall i :: 0 <= i < |s| ==> t[i] == fold(s[i])
  {
    if s == "" then "" else [fold(s[0])] + Fold(s[1..], fold)
  }

  predicate ILike(text: string, pattern: string, fold: Folding) {
    Like(Fold(text, fold), Fold(pattern, fold))
  }

  ghost predicate ContainsAt(text: string, part: string, i: int) {
    0 <= i <= |text| - |part| && text[i..i + |part|] == part
  }

  ghost predicate Contains(text: string, part: string) {
    exists i :: ContainsAt(text, part, i)
  }

  /* ---- Plain patterns ---- */

  lemma {:induction false} AnythingMatchesPercent(text: string)
    ensures Like(text, "%")
    decreases |text|
  {
    if text == "" {
      assert Like(text, "%"[1..]);
    } else {
      AnythingMatchesPercent(text[1..]);
    }
  }

  lemma {:induction false} PlainIsEquality(text: string, p: string)
    requires Plain(p)
    ensures Like(text, p) <==> text == p
  {
    if p != "" && text != "" {
      PlainIsEquality(text[1..], p[1..]);
      assert text == [text[0]] + text[1..] && p == [p[0]] + p[1..];
    }
  }

  /** An underscore stands for any one character. */
  lemma {:induction false} UnderscoreIsAnyCharacter(text: string, p: string)
    requires forall i :: 0 <= i < |p| ==> p[i] == '_' || !IsSpecial(p[i])
    ensures Like(text, p) <==> |text| == |p| && forall i :: 0 <= i < |p| ==> p[i] == '_' || p[i] == text[i]
  {
    if p != "" && text != "" {
      UnderscoreIsAnyCharacter(text[1..], p[1..]);
      var tail, rest := text[1..], p[1..];
      assert forall i :: 0 <= i < |rest| ==> rest[i] == p[i + 1];
      assert forall i :: 0 <= i < |tail| ==> tail[i] == text[i + 1];
      assert forall i :: 0 < i < |p| ==> p[i] == rest[i - 1];
      assert forall i :: 0 < i < |text| ==> text[i] == tail[i - 1];
    }
  }

  function Escaped(s: string): string {
    if s == "" then "" else "\\" + [s[0]] + Escaped(s[1..])
  }

  /** Behind a backslash every character stands for itself. */
  lemma {:induction false} EscapedIsEquality(text: string, s: string)
    ensures Like(text, Escaped(s)) <==> text == s
  {
    if s != "" {
      assert Escaped(s)[2..] == Escaped(s[1..]);
      if text != "" {
        EscapedIsEquality(text[1..], s[1..]);
        assert text == [text[0]] + text[1..] && s == [s[0]] + s[1..];
      }
    }
  }

  /** p% matches the texts that begin with p. */
  lemma {:induction false} PrefixPattern(text: string, p: string)
    requires Plain(p)
    ensures Like(text, p + "%") <==> p <= text
  {
    if p == "" {
      AnythingMatchesPercent(text);
      assert p + "%" == "%";
    } else if text != "" {
      PrefixPattern(text[1..], p[1..]);
      assert (p + "%")[1..] == p[1..] + "%";
      assert p[0] == text[0] && p[1..] <= text[1..] ==> p <= text by {
        assert text == [text[0]] + text[1..] && p == [p[0]] + p[1..];
      }
      assert p <= text ==> p[1..] <= text[1..];
    }
  }

  lemma {:induction false} PercentInFront(text: string, rest: string)
    ensures Like(text, "%" + rest) <==> exists i :: 0 <= i <= |text| && Like(text[i..], rest)
    decreases |text|
  {
    assert ("%" + rest)[1..] == rest;
    assert text[0..] == text;
    if text != "" {
      PercentInFront(text[1..], rest);
      forall i | 0 <= i <= |text[1..]|
        ensures text[1..][i..] == text[i + 1..]
      {
      }
      if exists i :: 0 <= i <= |text| && Like(text[i..], rest) {
        var i :| 0 <= i <= |text| && Like(text[i..], rest);
        if i > 0 {
          assert Like(text[1..][i - 1..], rest);
        }
      }
      if exists i :: 0 <= i <= |text[1..]| && Like(text[1..][i..], rest) {
        var i :| 0 <= i <= |text[1..]| && Like(text[1..][i..], rest);
        assert Like(text[i + 1..], rest);
      }
    }
  }

  /** %q% matches the texts that contain q. */
  lemma {:induction false} InfixPattern(text: string, q: string)
    requires Plain(q)
    ensures Like(text, "%" + q + "%") <==> Contains(text, q)
  {
    assert "%" + q + "%" == "%" + (q + "%");
    PercentInFront(text, q + "%");
    forall i | 0 <= i <= |text|
      ensures Like(text[i..], q + "%") <==> ContainsAt(text, q, i)
    {
      PrefixPattern(text[i..], q);
      if i + |q| <= |text| {
        assert text[i..][..|q|] == text[i..i + |q|];
      }
    }
    if Contains(text, q) {
      var i :| ContainsAt(text, q, i);
      assert Like(text[i..], q + "%");
    }
  }

  lemma {:induction false} FoldKeepsPlain(p: string, fold: Folding)
    ensures Plain(Fold(p, fold)) <==> Plain(p)
  {
    if !Plain(p) {
      var i :| 0 <= i < |p| && IsSpecial(p[i]);
      assert IsSpecial(Fold(p, fold)[i]);
    }
  }

  lemma {:induction false} FoldAppends(a: string, b: string, fold: Folding)
    ensures Fold(a + b, fold) == Fold(a, fold) + Fold(b, fold)
  {
  }

  /* ---- Other patterns ---- */

  /** A text that a pattern matches: no character for %, an a for _, the escaped one for an
      escape. */
  function Sample(pattern: string): string {
    if pattern == "" then ""
    else if pattern[0] == '%' then Sample(pattern[1..])
    else if pattern[0] == '_' then "a" + Sample(pattern[1..])
    else if pattern[0] == '\\' then (if |pattern| > 1 then [pattern[1]] + Sample(pattern[2..]) else "")
    else [pattern[0]] + Sample(pattern[1..])
  }

  predicate EndsInEscape(pattern: string) {
    if pattern == "" then false
    else if pattern[0] == '\\' then |pattern| == 1 || EndsInEscape(pattern[2..])
    else EndsInEscape(pattern[1..])
  }

  lemma {:induction false} SampleMatches(pattern: string, fold: Folding)
    requires !EndsInEscape(pattern)
    ensures Like(Fold(Sample(pattern), fold), Fold(pattern, fold))
    decreases |pattern|
  {
    if pattern != "" {
      var t, p := Fold(Sample(pattern), fold), Fold(pattern, fold);
      if pattern[0] == '%' {
        SampleMatches(pattern[1..], fold);
        assert p[1..] == Fold(pattern[1..], fold);
      } else if pattern[0] == '\\' {
        SampleMatches(pattern[2..], fold);
        assert p[2..] == Fold(pattern[2..], fold) && t[1..] == Fold(Sample(pattern[2..]), fold);
      } else {
        SampleMatches(pattern[1..], fold);
        assert p[1..] == Fold(pattern[1..], fold) && t[1..] == Fold(Sample(pattern[1..]), fold);
      }
    }
  }

  lemma {:induction false} NoMatchForEndingEscape(text: string, pattern: string)
    requires EndsInEscape(pattern)
    ensures !Like(text, pattern)
    decreases |pattern|, |text|
  {
    if pattern[0] == '%' {
      NoMatchForEndingEscape(text, pattern[1..]);
      if text != "" { NoMatchForEndingEscape(text[1..], pattern); }
    } else if text != "" && pattern[0] == '\\' {
      if |pattern| > 1 { NoMatchForEndingEscape(text[1..], pattern[2..]); }
    } else if text != "" {
      NoMatchForEndingEscape(text[1..], pattern[1..]);
    }
  }

  lemma {:induction false} FoldKeepsEscape(pattern: string, fold: Folding)
    ensures EndsInEscape(Fold(pattern, fold)) <==> EndsInEscape(pattern)
    decreases |pattern|
  {
    if pattern != "" {
      assert Fold(pattern, fold)[1..] == Fold(pattern[1..], fold);
      if |pattern| > 1 {
        assert Fold(pattern, fold)[2..] == Fold(pattern[2..], fold);
        FoldKeepsEscape(pattern[2..], fold);
      }
      FoldKeepsEscape(pattern[1..], fold);
    }
  }

  // The sample of a pattern that is not plain is shorter than the pattern, or differs from it
  // even in another case.
  lemma {:induction false} SampleDiffers(pattern: string, fold: Folding)
    requires !Plain(pattern)
    ensures |Sample(pattern)| <= |pattern|
    ensures Fold(Sample(pattern), fold) != Fold(pattern, fold)
    decreases |pattern|
  {
    SampleIsShort(pattern);
    var t, p := Fold(Sample(pattern), fold), Fold(pattern, fold);
    if pattern[0] == '%' {
      SampleIsShort(pattern[1..]);
    } else if pattern[0] == '\\' {
      if |pattern| > 1 { SampleIsShort(pattern[2..]); }
    } else if pattern[0] == '_' {
      assert t[0] == fold('a') && p[0] == '_';
    } else {
      assert !Plain(pattern[1..]) by {
        var i :| 0 <= i < |pattern| && IsSpecial(pattern[i]);
        assert IsSpecial(pattern[1..][i - 1]);
      }
      SampleDiffers(pattern[1..], fold);
      assert p[1..] == Fold(pattern[1..], fold) && t[1..] == Fold(Sample(pattern[1..]), fold);
    }
  }

  lemma {:induction false} SampleIsShort(pattern: string)
    ensures |Sample(pattern)| <= |pattern|
    decreases |pattern|
  {
    if |pattern| > 1 {
      SampleIsShort(pattern[2..]);
    }
    if pattern != "" {
      SampleIsShort(pattern[1..]);
    }
  }

  /** `city ILIKE c` is equality up to case exactly when c has no special character. */
  lemma {:induction false} CityPatternExactly(c: string, fold: Folding)
    ensures (forall text :: ILike(text, c, fold) <==> Fold(text, fold) == Fold(c, fold)) <==> Plain(c)
  {
    FoldKeepsPlain(c, fold);
    if Plain(c) {
      forall text
        ensures ILike(text, c, fold) <==> Fold(text, fold) == Fold(c, fold)
      {
        PlainIsEquality(Fold(text, fold), Fold(c, fold));
      }
    } else if EndsInEscape(c) {
      FoldKeepsEscape(c, fold);
      NoMatchForEndingEscape(Fold(c, fold), Fold(c, fold));
      assert !ILike(c, c, fold);
    } else {
      SampleMatches(c, fold);
      SampleDiffers(c, fold);
      assert ILike(Sample(c), c, fold);
    }
  }

  // The sample of q% is no longer than q, and not q.
  lemma {:induction false} SampleOfInfix(q: string, fold: Folding)
    requires !Plain(q)
    ensures !EndsInEscape(q + "%") && |Sample(q + "%")| <= |q|
    ensures Fold(Sample(q + "%"), fold) != Fold(q, fold)
    decreases |q|
  {
    ShortSampleOfInfix(q);
    if IsSpecial(q[0]) {
      SpecialSampleDiffers(q, fold);
    } else {
      var p := q + "%";
      assert p[1..] == q[1..] + "%";
      assert !Plain(q[1..]) by {
        var i :| 0 <= i < |q| && IsSpecial(q[i]);
        assert IsSpecial(q[1..][i - 1]);
      }
      SampleOfInfix(q[1..], fold);
      assert Fold(q, fold)[1..] == Fold(q[1..], fold);
      assert Fold(Sample(p), fold)[1..] == Fold(Sample(p[1..]), fold);
    }
  }

  lemma {:induction false} SpecialSampleDiffers(q: string, fold: Folding)
    requires q != "" && IsSpecial(q[0])
    ensures Fold(Sample(q + "%"), fold) != Fold(q, fold)
  {
    var p := q + "%";
    if q[0] == '%' {
      ShortSampleOfInfix(q[1..]);
      assert p[1..] == q[1..] + "%";
    } else if q[0] == '_' {
      assert Fold(Sample(p), fold)[0] == fold('a') && Fold(q, fold)[0] == '_';
    } else if |q| == 1 {
      assert p[1] == '%' && Sample(p)[0] == '%';
      assert Fold(Sample(p), fold)[0] == '%' && Fold(q, fold)[0] == '\\';
    } else {
      ShortSampleOfInfix(q[2..]);
      assert p[2..] == q[2..] + "%";
    }
  }

  lemma {:induction false} ShortSampleOfInfix(q: string)
    ensures !EndsInEscape(q + "%") && |Sample(q + "%")| <= |q|
    decreases |q|
  {
    var p := q + "%";
    if q == "" {
      assert p[1..] == "";
    } else if q[0] == '\\' {
      if |q| == 1 {
        assert p[2..] == "";
      } else {
        ShortSampleOfInfix(q[2..]);
        assert p[2..] == q[2..] + "%";
      }
    } else {
      ShortSampleOfInfix(q[1..]);
      assert p[1..] == q[1..] + "%";
    }
  }

  lemma {:induction false} FoldOfInfix(q: string, fold: Folding)
    ensures Fold("%" + q + "%", fold) == "%" + Fold(q + "%", fold) == "%" + Fold(q, fold) + "%"
  {
    assert fold('%') == '%';
    assert Fold("%", fold) == "%";
    FoldAppends(q, "%", fold);
    FoldAppends("%", q + "%", fold);
    assert "%" + q + "%" == "%" + (q + "%");
  }

  /** `address ILIKE %q%` is containment up to case exactly when q has no special character. */
  lemma {:induction false} QueryPatternExactly(q: string, fold: Folding)
    ensures (forall text :: ILike(text, "%" + q + "%", fold) <==> Contains(Fold(text, fold), Fold(q, fold))) <==> Plain(q)
  {
    FoldKeepsPlain(q, fold);
    FoldOfInfix(q, fold);
    if Plain(q) {
      forall text
        ensures ILike(text, "%" + q + "%", fold) <==> Contains(Fold(text, fold), Fold(q, fold))
      {
        InfixPattern(Fold(text, fold), Fold(q, fold));
      }
    } else {
      var text := Sample(q + "%");
      SampleOfInfix(q, fold);
      SampleMatches(q + "%", fold);
      PercentInFront(Fold(text, fold), Fold(q + "%", fold));
      assert Fold(text, fold)[0..] == Fold(text, fold);
      assert ILike(text, "%" + q + "%", fold);
      assert !Contains(Fold(text, fold), Fold(q, fold));
    }
  }
}
