/** The JavaScript string operations the application chains together:
    `includes`, `indexOf`, `replace` with a literal global pattern,
    `replace(/\s+/g, ' ')`, `trim` and `toLowerCase`. Strings are sequences of
    Unicode scalar values. */
module Text {
  import opened Wrappers

  /** The characters matched by the regular-expression class `\s` and removed
      by `trim`: ECMAScript's WhiteSpace and LineTerminator characters. */
  predicate IsWhitespace(c: char) {
    || c == ' ' || c == '\t' || c == '\n' || c == '\r'
    || c == '\U{B}' || c == '\U{C}' || c == '\U{A0}' || c == '\U{1680}'
    || ('\U{2000}' <= c <= '\U{200A}')
    || c == '\U{2028}' || c == '\U{2029}' || c == '\U{202F}' || c == '\U{205F}'
    || c == '\U{3000}' || c == '\U{FEFF}'
  }

  predicate StartsWith(s: string, p: string) {
    |p| <= |s| && s[..|p|] == p
  }

  /** `s.includes(p)` */
  predicate Contains(s: string, p: string)
    decreases |s|
  {
    StartsWith(s, p) || (|s| > 0 && Contains(s[1..], p))
  }

  /** `s.indexOf(p, from)`: the first position at or after `from` where `p`
      starts. */
  function IndexOf(s: string, p: string, from: nat): (r: Option<nat>)
    decreases |s| - from
    ensures r.Some? ==> from <= r.value && r.value + |p| <= |s| && StartsWith(s[r.value..], p)
    ensures r.Some? ==> forall k :: from <= k < r.value ==> !StartsWith(s[k..], p)
    ensures r.None? ==> forall k :: from <= k <= |s| ==> !StartsWith(s[k..], p)
  {
    if from > |s| then None
    else if StartsWith(s[from..], p) then Some(from)
    else IndexOf(s, p, from + 1)
  }

  /** `s.replace(/pat/g, rep)` for a pattern free of regular-expression
      metacharacters: every leftmost occurrence, scanning left to right,
      without overlaps. */
  function ReplaceAll(s: string, pat: string, rep: string): string
    requires pat != []
    decreases |s|
  {
    if |s| < |pat| then s
    else if s[..|pat|] == pat then rep + ReplaceAll(s[|pat|..], pat, rep)
    else [s[0]] + ReplaceAll(s[1..], pat, rep)
  }

  /** A replacement introduces no character that was in neither the input
      nor the replacement text. */
  lemma {:induction false} ReplaceAllIntroducesNothing(s: string, pat: string, rep: string, c: char)
    requires pat != []
    requires c !in s && c !in rep
    ensures c !in ReplaceAll(s, pat, rep)
    decreases |s|
  {
    if |s| < |pat| {
    } else if s[..|pat|] == pat {
      ReplaceAllIntroducesNothing(s[|pat|..], pat, rep, c);
    } else {
      ReplaceAllIntroducesNothing(s[1..], pat, rep, c);
    }
  }

  /** Replacing every occurrence of a single character by a text without that
      character removes it completely. */
  lemma {:induction false} ReplaceAllRemovesChar(s: string, c: char, rep: string)
    requires c !in rep
    ensures c !in ReplaceAll(s, [c], rep)
    decreases |s|
  {
    if |s| < 1 {
    } else if s[..1] == [c] {
      ReplaceAllRemovesChar(s[1..], c, rep);
    } else {
      assert s[0] != c by { assert s[..1] == [s[0]]; }
      ReplaceAllRemovesChar(s[1..], c, rep);
    }
  }

  /** A prefix that cannot start the pattern passes through unchanged. */
  lemma {:induction false} ReplaceAllSkipsPrefix(p: string, s: string, pat: string, rep: string)
    requires pat != [] && pat[0] !in p
    ensures ReplaceAll(p + s, pat, rep) == p + ReplaceAll(s, pat, rep)
    decreases |p|
  {
    if p != [] {
      var ps := p + s;
      assert ps[1..] == p[1..] + s;
      if |ps| >= |pat| {
        assert ps[..|pat|][0] == p[0];
      } else {
        assert |s| < |pat|;
      }
      ReplaceAllSkipsPrefix(p[1..], s, pat, rep);
      assert [p[0]] + (p[1..] + ReplaceAll(s, pat, rep)) == p + ReplaceAll(s, pat, rep);
    } else {
      assert p + s == s;
    }
  }

  /** `s.replace(/\s+/g, '')`: the input with its whitespace deleted and
      every other character kept, in order. */
  function RemoveWhitespace(s: string): (r: string)
    ensures forall k :: 0 <= k < |r| ==> !IsWhitespace(r[k])
    ensures |r| <= |s|
  {
    if s == [] then []
    else if IsWhitespace(s[0]) then RemoveWhitespace(s[1..])
    else [s[0]] + RemoveWhitespace(s[1..])
  }

  lemma {:induction false} RemoveWhitespaceAppend(a: string, b: string)
    ensures RemoveWhitespace(a + b) == RemoveWhitespace(a) + RemoveWhitespace(b)
  {
    if a != [] {
      assert (a + b)[1..] == a[1..] + b;
      RemoveWhitespaceAppend(a[1..], b);
    } else {
      assert a + b == b;
    }
  }

  /** Leading whitespace removed: a suffix of `s` whose dropped prefix is all
      whitespace. */
  function DropLeadingWhitespace(s: string): (r: string)
    ensures |r| <= |s| && r == s[|s| - |r|..]
    ensures r == [] || !IsWhitespace(r[0])
    ensures forall k :: 0 <= k < |s| - |r| ==> IsWhitespace(s[k])
  {
    if s != [] && IsWhitespace(s[0]) then DropLeadingWhitespace(s[1..]) else s
  }

  /** Trailing whitespace removed: a prefix of `s` whose dropped suffix is all
      whitespace. */
  function DropTrailingWhitespace(s: string): (r: string)
    ensures |r| <= |s| && r == s[..|r|]
    ensures r == [] || !IsWhitespace(r[|r| - 1])
    ensures forall k :: |r| <= k < |s| ==> IsWhitespace(s[k])
  {
    if s != [] && IsWhitespace(s[|s| - 1]) then DropTrailingWhitespace(s[..|s| - 1]) else s
  }

  /** `s.trim()` */
  function Trim(s: string): string {
    DropTrailingWhitespace(DropLeadingWhitespace(s))
  }

  /** `s.replace(/\s+/g, ' ')`: every maximal run of whitespace becomes one
      space. */
  function CollapseWhitespace(s: string): string
    decreases |s|
  {
    if s == [] then []
    else if IsWhitespace(s[0]) then [' '] + CollapseWhitespace(DropLeadingWhitespace(s[1..]))
    else [s[0]] + CollapseWhitespace(s[1..])
  }

  /** Every whitespace character is a plain space followed by a non-space. */
  predicate SingleSpaced(s: string) {
    forall k :: 0 <= k < |s| && IsWhitespace(s[k]) ==>
      s[k] == ' ' && (k + 1 == |s| || !IsWhitespace(s[k + 1]))
  }

  /** The normal form `replace(/\s+/g, ' ').trim()` produces: no whitespace at
      either end and no two whitespace characters in a row. */
  predicate Tidy(s: string) {
    && (s == [] || (!IsWhitespace(s[0]) && !IsWhitespace(s[|s| - 1])))
    && SingleSpaced(s)
  }

  lemma CollapseHead(s: string)
    requires s != []
    ensures CollapseWhitespace(s) != []
    ensures CollapseWhitespace(s)[0] == if IsWhitespace(s[0]) then ' ' else s[0]
  {
  }

  lemma {:induction false} CollapseIsSingleSpaced(s: string)
    ensures SingleSpaced(CollapseWhitespace(s))
    decreases |s|
  {
    if s != [] {
      var c := CollapseWhitespace(s);
      if IsWhitespace(s[0]) {
        var t := DropLeadingWhitespace(s[1..]);
        CollapseIsSingleSpaced(t);
        var ct := CollapseWhitespace(t);
        assert c == [' '] + ct;
        if t != [] {
          CollapseHead(t);
        }
        forall k | 0 <= k < |c| && IsWhitespace(c[k])
          ensures c[k] == ' ' && (k + 1 == |c| || !IsWhitespace(c[k + 1]))
        {
          if k > 0 {
            assert c[k] == ct[k - 1];
          }
        }
      } else {
        CollapseIsSingleSpaced(s[1..]);
        var ct := CollapseWhitespace(s[1..]);
        assert c == [s[0]] + ct;
        forall k | 0 <= k < |c| && IsWhitespace(c[k])
          ensures c[k] == ' ' && (k + 1 == |c| || !IsWhitespace(c[k + 1]))
        {
          assert k > 0;
          assert c[k] == ct[k - 1];
        }
      }
    }
  }

  lemma SingleSpacedSlice(s: string, a: nat, b: nat)
    requires a <= b <= |s| && SingleSpaced(s)
    ensures SingleSpaced(s[a..b])
  {
    var t := s[a..b];
    forall k | 0 <= k < |t| && IsWhitespace(t[k])
      ensures t[k] == ' ' && (k + 1 == |t| || !IsWhitespace(t[k + 1]))
    {
      assert t[k] == s[a + k];
      if k + 1 < |t| {
        assert t[k + 1] == s[a + k + 1];
      }
    }
  }

  /** Trimming a single-spaced text gives the tidy normal form. */
  lemma TrimSingleSpacedIsTidy(s: string)
    requires SingleSpaced(s)
    ensures Tidy(Trim(s))
  {
    TrimEnds(s);
    TrimKeepsSingleSpaced(s);
  }

  /** A trimmed text neither starts nor ends with whitespace. */
  lemma TrimEnds(s: string)
    ensures var r := Trim(s); r == [] || (!IsWhitespace(r[0]) && !IsWhitespace(r[|r| - 1]))
  {
    var u := DropLeadingWhitespace(s);
    var r := DropTrailingWhitespace(u);
    if r != [] {
      assert r[0] == u[0];
    }
  }

  /** Trimming keeps a text single-spaced. */
  lemma TrimKeepsSingleSpaced(s: string)
    requires SingleSpaced(s)
    ensures SingleSpaced(Trim(s))
  {
    var u := DropLeadingWhitespace(s);
    var r := DropTrailingWhitespace(u);
    SingleSpacedSlice(s, |s| - |u|, |s|);
    SingleSpacedSlice(u, 0, |r|);
    assert u[0..|r|] == r;
  }

  /** The whitespace normalisation `replace(/\s+/g, ' ').trim()` always ends in
      the tidy normal form. */
  lemma CollapseTrimIsTidy(s: string)
    ensures Tidy(Trim(CollapseWhitespace(s)))
  {
    CollapseIsSingleSpaced(s);
    TrimSingleSpacedIsTidy(CollapseWhitespace(s));
  }

  lemma {:induction false} RemoveWhitespaceDropLeading(s: string)
    ensures RemoveWhitespace(DropLeadingWhitespace(s)) == RemoveWhitespace(s)
    decreases |s|
  {
    if s != [] && IsWhitespace(s[0]) {
      RemoveWhitespaceDropLeading(s[1..]);
    }
  }

  lemma {:induction false} RemoveWhitespaceDropTrailing(s: string)
    ensures RemoveWhitespace(DropTrailingWhitespace(s)) == RemoveWhitespace(s)
    decreases |s|
  {
    if s != [] && IsWhitespace(s[|s| - 1]) {
      var init := s[..|s| - 1];
      RemoveWhitespaceDropTrailing(init);
      assert s == init + [s[|s| - 1]];
      RemoveWhitespaceAppend(init, [s[|s| - 1]]);
      assert RemoveWhitespace([s[|s| - 1]]) == [];
    }
  }

  /** Collapsing whitespace changes whitespace only. */
  lemma {:induction false} RemoveWhitespaceCollapse(s: string)
    ensures RemoveWhitespace(CollapseWhitespace(s)) == RemoveWhitespace(s)
    decreases |s|
  {
    if s != [] {
      if IsWhitespace(s[0]) {
        var t := DropLeadingWhitespace(s[1..]);
        RemoveWhitespaceCollapse(t);
        RemoveWhitespaceDropLeading(s[1..]);
      } else {
        RemoveWhitespaceCollapse(s[1..]);
      }
    }
  }

  /** Trimming removes whitespace only. */
  lemma RemoveWhitespaceTrim(s: string)
    ensures RemoveWhitespace(Trim(s)) == RemoveWhitespace(s)
  {
    RemoveWhitespaceDropLeading(s);
    RemoveWhitespaceDropTrailing(DropLeadingWhitespace(s));
  }

  /** A single-spaced text is left alone by the collapse. */
  lemma {:induction false} CollapseSingleSpacedIdentity(s: string)
    requires SingleSpaced(s)
    ensures CollapseWhitespace(s) == s
    decreases |s|
  {
    if s != [] {
      SingleSpacedSlice(s, 1, |s|);
      CollapseSingleSpacedIdentity(s[1..]);
      if IsWhitespace(s[0]) {
        assert |s| == 1 || !IsWhitespace(s[1]);
        assert DropLeadingWhitespace(s[1..]) == s[1..];
      }
    }
  }

  /** A tidy text is its own normal form. */
  lemma TidyIsFixedPoint(s: string)
    requires Tidy(s)
    ensures Trim(CollapseWhitespace(s)) == s
  {
    CollapseSingleSpacedIdentity(s);
    assert DropLeadingWhitespace(s) == s;
    assert DropTrailingWhitespace(s) == s;
  }

  /** `toLowerCase` on the Basic Latin and Latin-1 letters: A-Z and
      U+00C0..U+00DE except the multiplication sign U+00D7 move down by 32. */
  function LowerChar(c: char): char {
    if 'A' <= c <= 'Z' || ('\U{C0}' <= c <= '\U{DE}' && c != '\U{D7}') then (c as int + 32) as char else c
  }

  /** `s.toLowerCase()` (Basic Latin and Latin-1). */
  function ToLower(s: string): (r: string)
    ensures |r| == |s|
  {
    if s == [] then [] else [LowerChar(s[0])] + ToLower(s[1..])
  }

  lemma {:induction false} ToLowerIdempotent(s: string)
    ensures ToLower(ToLower(s)) == ToLower(s)
  {
    if s != [] {
      ToLowerIdempotent(s[1..]);
      assert ToLower(s)[1..] == ToLower(s[1..]);
    }
  }

  lemma {:induction false} ToLowerRemoveWhitespaceCommute(s: string)
    ensures ToLower(RemoveWhitespace(s)) == RemoveWhitespace(ToLower(s))
  {
    if s != [] {
      ToLowerRemoveWhitespaceCommute(s[1..]);
      assert ToLower(s)[1..] == ToLower(s[1..]);
      assert IsWhitespace(LowerChar(s[0])) == IsWhitespace(s[0]);
      if !IsWhitespace(s[0]) {
        assert ([s[0]] + RemoveWhitespace(s[1..]))[1..] == RemoveWhitespace(s[1..]);
      }
    }
  }

  lemma {:induction false} RemoveWhitespaceIdempotent(s: string)
    ensures RemoveWhitespace(RemoveWhitespace(s)) == RemoveWhitespace(s)
  {
    if s != [] {
      RemoveWhitespaceIdempotent(s[1..]);
      if !IsWhitespace(s[0]) {
        assert ([s[0]] + RemoveWhitespace(s[1..]))[1..] == RemoveWhitespace(s[1..]);
      }
    }
  }

  /** A pattern found at some position occurs in the text. */
  lemma {:induction false} ContainsAt(s: string, p: string, k: nat)
    requires k <= |s| && StartsWith(s[k..], p)
    ensures Contains(s, p)
    decreases k
  {
    if k > 0 {
      assert s[1..][k - 1..] == s[k..];
      ContainsAt(s[1..], p, k - 1);
    }
  }

  /** A pattern holding a character the text lacks does not occur in it. */
  lemma {:induction false} LacksChar(s: string, p: string, c: char)
    requires c in p && c !in s
    ensures !Contains(s, p)
    decreases |s|
  {
    if s != [] {
      assert forall d :: d in s[1..] ==> d in s;
      LacksChar(s[1..], p, c);
    }
  }

  /** A pattern holding two neighbouring characters that never stand side
      by side in the text does not occur in it. */
  lemma {:induction false} LacksPair(s: string, p: string, a: char, b: char)
    requires |p| >= 2 && p[0] == a && p[1] == b
    requires forall k :: 0 <= k < |s| - 1 ==> !(s[k] == a && s[k + 1] == b)
    ensures !Contains(s, p)
    decreases |s|
  {
    if s != [] {
      LacksPair(s[1..], p, a, b);
    }
  }

  lemma LacksPairAt(s: string, p: string, i: nat, a: char, b: char)
    requires i + 1 < |p| && p[i] == a && p[i + 1] == b
    requires forall k :: 0 <= k < |s| - 1 ==> !(s[k] == a && s[k + 1] == b)
    ensures !Contains(s, p)
  {
    if Contains(s, p) {
      ContainsTail(s, p, i);
      LacksPair(s, p[i..], a, b);
    }
  }

  /** A text that holds a pattern holds every tail of the pattern. */
  lemma {:induction false} ContainsTail(s: string, p: string, i: nat)
    requires Contains(s, p) && i <= |p|
    ensures Contains(s, p[i..])
    decreases |s|
  {
    if StartsWith(s, p) {
      assert s[i..][..|p| - i] == p[i..];
      ContainsAt(s, p[i..], i);
    } else {
      ContainsTail(s[1..], p, i);
    }
  }

  lemma ContainsCharAt(s: string, c: char, k: nat)
    requires k < |s| && s[k] == c
    ensures Contains(s, [c])
  {
    assert s[k..][..1] == [c];
    ContainsAt(s, [c], k);
  }
}
