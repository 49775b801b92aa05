/** The text handling of the classification function
    (classify-quadric-surface/index.ts): the JSON answer is taken out of a
    Markdown code fence when the model wrapped it in one, and the surface's
    description is re-spaced. The request, the gateway call and `JSON.parse`
    are not modelled; the parsed record is a parameter. */
module ClassifyQuadricSurface {
  import opened Wrappers
  import opened Text

  // ---------------------------------------------------------------------
  // Code-fence extraction
  // ---------------------------------------------------------------------

  const JsonOpen: string := "```json\n"
  const PlainOpen: string := "```\n"
  const Close: string := "\n```"

  /** `text.match(/<open>([\s\S]*?)\n```/)`, the captured group: the text
      between the first opening fence and the first closing fence after it.
      When the first opening fence has no closing fence after it, no later
      one has either, so there is no match at all. */
  function FencedBlock(text: string, open: string): (r: Option<string>)
    requires open != []
    ensures r.Some? ==> |open| + |r.value| + |Close| <= |text|
  {
    match IndexOf(text, open, 0)
    case None => None
    case Some(o) =>
      match IndexOf(text, Close, o + |open|)
      case None => None
      case Some(c) => Some(text[o + |open|..c])
  }

  /** The answer the function parses: the body of the first `json` fence,
      else of the first plain fence, else the whole answer. */
  function Unfence(answer: string): string {
    match FencedBlock(answer, JsonOpen)
    case Some(body) => body
    case None =>
      match FencedBlock(answer, PlainOpen)
      case Some(body) => body
      case None => answer
  }

  /** `IndexOf` finds a position when the pattern starts there and nowhere
      before it. */
  lemma {:induction false} IndexOfAt(s: string, p: string, from: nat, o: nat)
    requires from <= o <= |s| && StartsWith(s[o..], p)
    requires forall k :: from <= k < o ==> !StartsWith(s[k..], p)
    ensures IndexOf(s, p, from) == Some(o)
    decreases o - from
  {
    if from < o {
      IndexOfAt(s, p, from + 1, o);
    }
  }

  /** `IndexOf` finds nothing when the pattern starts nowhere. */
  lemma {:induction false} IndexOfNone(s: string, p: string, from: nat)
    requires forall k :: from <= k <= |s| ==> !StartsWith(s[k..], p)
    ensures IndexOf(s, p, from) == None
    decreases |s| - from
  {
    if from <= |s| {
      IndexOfNone(s, p, from + 1);
    }
  }

  /** The first four characters of a fence found at `k`. */
  lemma FenceChars(s: string, k: nat, fence: string)
    requires |fence| >= 4
    ensures k <= |s| && StartsWith(s[k..], fence) ==>
      && k + |fence| <= |s|
      && s[k] == fence[0] && s[k + 1] == fence[1] && s[k + 2] == fence[2] && s[k + 3] == fence[3]
  {
    if k <= |s| && StartsWith(s[k..], fence) {
      var w := s[k..][..|fence|];
      assert s[k] == w[0] && s[k + 1] == w[1] && s[k + 2] == w[2] && s[k + 3] == w[3];
    }
  }

  /** No closing fence starts inside a backtick-free stretch, nor on its
      last character. */
  lemma NoCloseIn(s: string, lo: nat, hi: nat)
    requires lo <= hi <= |s|
    requires forall k :: lo <= k < hi ==> s[k] != '`'
    requires hi < |s| ==> s[hi] != '`'
    ensures forall k :: lo <= k < hi ==> !StartsWith(s[k..], Close)
  {
    forall k | lo <= k < hi
      ensures !StartsWith(s[k..], Close)
    {
      FenceChars(s, k, Close);
    }
  }

  /** An answer with a `json` fence yields exactly the fenced text, whatever
      follows the fence, as long as neither the prose before it nor the
      fenced text holds a backtick. */
  lemma JsonFenceUnfenced(p: string, body: string, rest: string)
    requires '`' !in p && '`' !in body
    ensures Unfence(p + JsonOpen + body + Close + rest) == body
  {
    FenceBlock(p, JsonOpen, body, rest);
  }

  /** The first fence of `p + open + body + Close + rest` holds `body` when
      neither `p` nor `body` holds a backtick. */
  lemma FenceBlock(p: string, open: string, body: string, rest: string)
    requires open == JsonOpen || open == PlainOpen
    requires '`' !in p && '`' !in body
    ensures FencedBlock(p + open + body + Close + rest, open) == Some(body)
  {
    var s := p + open + body + Close + rest;
    var b := |p| + |open|;
    var c := b + |body|;
    OpenAt(p, open, body, rest);
    CloseAt(p, open, body, rest);
    assert s[b..c] == body;
  }

  /** The opening fence is found right after `p`. */
  lemma OpenAt(p: string, open: string, body: string, rest: string)
    requires open == JsonOpen || open == PlainOpen
    requires '`' !in p
    ensures var o := IndexOf(p + open + body + Close + rest, open, 0); o.Some? && o.value == |p|
  {
    var s := p + open + body + Close + rest;
    assert s[|p|..][..|open|] == open;
    forall k | 0 <= k < |p|
      ensures !StartsWith(s[k..], open)
    {
      assert s[k] == p[k] && p[k] in p;
      FenceChars(s, k, open);
    }
    IndexOfAt(s, open, 0, |p|);
  }

  /** The closing fence is found right after `body`. */
  lemma CloseAt(p: string, open: string, body: string, rest: string)
    requires '`' !in body
    ensures var c := IndexOf(p + open + body + Close + rest, Close, |p| + |open|); c.Some? && c.value == |p| + |open| + |body|
  {
    var s := p + open + body + Close + rest;
    var b := |p| + |open|;
    var c := b + |body|;
    forall k | b <= k < c
      ensures s[k] != '`'
    {
      assert s[k] == body[k - b] && body[k - b] in body;
    }
    assert s[c] == '\n';
    NoCloseIn(s, b, c);
    assert s[c..][..|Close|] == Close;
    IndexOfAt(s, Close, b, c);
  }

  /** Without a `json` fence, the body of a plain fence is taken. */
  lemma PlainFenceUnfenced(p: string, body: string, rest: string)
    requires '`' !in p && '`' !in body && '`' !in rest
    ensures Unfence(p + PlainOpen + body + Close + rest) == body
  {
    var s := p + PlainOpen + body + Close + rest;
    PlainFenceBackticks(p, body, rest);
    NoJsonFence(s, |p|, |p| + |PlainOpen| + |body|);
    FenceBlock(p, PlainOpen, body, rest);
  }

  /** Where the backticks of a plain-fenced answer are. */
  lemma PlainFenceBackticks(p: string, body: string, rest: string)
    requires '`' !in p && '`' !in body && '`' !in rest
    ensures var s := p + PlainOpen + body + Close + rest; var c := |p| + |PlainOpen| + |body|;
      && |s| == c + |Close| + |rest|
      && s[|p| + 3] == '\n' && s[c] == '\n'
      && forall k :: 0 <= k < |s| && s[k] == '`' ==> |p| <= k < |p| + 3 || c < k <= c + 3
  {
    var s := p + PlainOpen + body + Close + rest;
    var b := |p| + |PlainOpen|;
    var c := b + |body|;
    forall k | 0 <= k < |s|
      ensures s[k] == '`' ==> |p| <= k < |p| + 3 || c < k <= c + 3
    {
      if k < |p| {
        assert s[k] == p[k] && p[k] in p;
      } else if b <= k < c {
        assert s[k] == body[k - b] && body[k - b] in body;
      } else if c + 4 <= k {
        assert s[k] == rest[k - c - 4] && rest[k - c - 4] in rest;
      }
    }
  }

  /** A text whose backticks are only those of one plain opening fence at
      `o` and one closing fence at `c` has no `json` fence with a closing
      fence after it. */
  lemma NoJsonFence(s: string, o: nat, c: nat)
    requires o + 3 < |s| && s[o + 3] == '\n' && o + 3 < c < |s|
    requires forall k :: 0 <= k < |s| && s[k] == '`' ==> o <= k < o + 3 || c < k <= c + 3
    ensures FencedBlock(s, JsonOpen).None?
  {
    JsonOnlyAfterClose(s, o, c);
    if StartsWith(s[c + 1..], JsonOpen) {
      IndexOfAt(s, JsonOpen, 0, c + 1);
      NoCloseAfter(s, c);
    } else {
      IndexOfNone(s, JsonOpen, 0);
    }
  }

  /** With the backticks placed as in a plain fence, a `json` fence could
      only start on the closing fence. */
  lemma JsonOnlyAfterClose(s: string, o: nat, c: nat)
    requires o + 3 < |s| && s[o + 3] == '\n' && o + 3 < c < |s|
    requires forall k :: 0 <= k < |s| && s[k] == '`' ==> o <= k < o + 3 || c < k <= c + 3
    ensures forall k :: 0 <= k <= |s| && k != c + 1 ==> !StartsWith(s[k..], JsonOpen)
  {
    forall k | 0 <= k <= |s| && k != c + 1
      ensures !StartsWith(s[k..], JsonOpen)
    {
      FenceChars(s, k, JsonOpen);
    }
  }

  /** No closing fence follows a `json` fence opened on the closing fence. */
  lemma NoCloseAfter(s: string, c: nat)
    requires forall k :: 0 <= k < |s| && s[k] == '`' ==> k <= c + 3
    ensures IndexOf(s, Close, c + 1 + |JsonOpen|) == None
  {
    forall k | c + 1 + |JsonOpen| <= k <= |s|
      ensures !StartsWith(s[k..], Close)
    {
      FenceChars(s, k, Close);
    }
    IndexOfNone(s, Close, c + 1 + |JsonOpen|);
  }


  /** An answer without a backtick is parsed as it is. */
  lemma UnfencedAnswerKept(answer: string)
    requires '`' !in answer
    ensures Unfence(answer) == answer
  {
    forall k | 0 <= k <= |answer|
      ensures !StartsWith(answer[k..], JsonOpen) && !StartsWith(answer[k..], PlainOpen)
    {
      if k < |answer| {
        assert answer[k] in answer;
      }
      FenceChars(answer, k, JsonOpen);
      FenceChars(answer, k, PlainOpen);
    }
    IndexOfNone(answer, JsonOpen, 0);
    IndexOfNone(answer, PlainOpen, 0);
  }

  // ---------------------------------------------------------------------
  // Description cleanup
  // ---------------------------------------------------------------------

  /** `[a-z]`, and with `accented` also `[áéíóúñ]`. */
  predicate Lower(c: char, accented: bool) {
    ('a' <= c <= 'z') || (accented && (c == '\U{E1}' || c == '\U{E9}' || c == '\U{ED}' || c == '\U{F3}' || c == '\U{FA}' || c == '\U{F1}'))
  }

  /** `[A-Z]`, and with `accented` also `[ÁÉÍÓÚÑ]`. */
  predicate Upper(c: char, accented: bool) {
    ('A' <= c <= 'Z') || (accented && (c == '\U{C1}' || c == '\U{C9}' || c == '\U{CD}' || c == '\U{D3}' || c == '\U{DA}' || c == '\U{D1}'))
  }

  /** `replace(/([<lower>])([<upper>])/g, '$1 $2')`: a space between a
      lower-case letter and the upper-case letter right after it. */
  function SplitWords(s: string, accented: bool): string
    decreases |s|
  {
    if s == [] then []
    else if |s| >= 2 && Lower(s[0], accented) && Upper(s[1], accented) then
      [s[0], ' ', s[1]] + SplitWords(s[2..], accented)
    else [s[0]] + SplitWords(s[1..], accented)
  }

  /** No lower-case letter is directly followed by an upper-case one. */
  predicate NoCaseBoundary(s: string, accented: bool) {
    forall k :: 0 <= k < |s| - 1 ==> !(Lower(s[k], accented) && Upper(s[k + 1], accented))
  }

  /** The cleanup chain applied to a truthy description. */
  function CleanDescription(d: string): string {
    Trim(CollapseWhitespace(SplitWords(SplitWords(d, true), false)))
  }

  /** The record the model's answer parses to; `None` stands for a field
      that is missing or null. */
  datatype Classification = Classification(
    kind: string,
    canonicalForm: string,
    characteristics: seq<string>,
    parameters: seq<Option<string>>,
    description: Option<string>,
    center: Option<string>,
    axes: Option<string>)

  /** JavaScript truthiness of the description: present and non-empty. */
  predicate Truthy(d: Option<string>) {
    d.Some? && d.value != []
  }

  /** The cleanup step of the handler: only a truthy description is
      rewritten, and no other field changes. */
  function Cleaned(c: Classification): (r: Classification)
    ensures r.(description := c.description) == c
    ensures Truthy(c.description) ==> r.description == Some(CleanDescription(c.description.value))
    ensures !Truthy(c.description) ==> r == c
  {
    if Truthy(c.description) then c.(description := Some(CleanDescription(c.description.value)))
    else c
  }

  /** The split keeps the first character and leaves no boundary behind. */
  lemma {:induction false} SplitWordsNoBoundary(s: string, accented: bool)
    ensures var r := SplitWords(s, accented); NoCaseBoundary(r, accented) && (s != [] ==> r != [] && r[0] == s[0])
    decreases |s|
  {
    if |s| >= 2 && Lower(s[0], accented) && Upper(s[1], accented) {
      SplitWordsNoBoundary(s[2..], accented);
      var t := SplitWords(s[2..], accented);
      var r := [s[0], ' ', s[1]] + t;
      forall k | 0 <= k < |r| - 1
        ensures !(Lower(r[k], accented) && Upper(r[k + 1], accented))
      {
        if k >= 3 {
          assert r[k] == t[k - 3] && r[k + 1] == t[k - 2];
        }
      }
    } else if s != [] {
      SplitWordsNoBoundary(s[1..], accented);
      var t := SplitWords(s[1..], accented);
      var r := [s[0]] + t;
      forall k | 0 <= k < |r| - 1
        ensures !(Lower(r[k], accented) && Upper(r[k + 1], accented))
      {
        if k >= 1 {
          assert r[k] == t[k - 1] && r[k + 1] == t[k];
        }
      }
    }
  }

  /** Text without a boundary passes the split unchanged. */
  lemma {:induction false} SplitWordsKeeps(s: string, accented: bool)
    requires NoCaseBoundary(s, accented)
    ensures SplitWords(s, accented) == s
    decreases |s|
  {
    if s != [] {
      assert NoCaseBoundary(s[1..], accented) by {
        forall k | 0 <= k < |s| - 2
          ensures !(Lower(s[1..][k], accented) && Upper(s[1..][k + 1], accented))
        {
          assert s[1..][k] == s[k + 1] && s[1..][k + 1] == s[k + 2];
        }
      }
      if |s| >= 2 {
        assert !(Lower(s[0], accented) && Upper(s[1], accented));
      }
      SplitWordsKeeps(s[1..], accented);
    }
  }

  /** The accented classes contain the ASCII ones, so text without an
      accented boundary has no ASCII boundary either. */
  lemma AsciiBoundaryIsBoundary(s: string)
    requires NoCaseBoundary(s, true)
    ensures NoCaseBoundary(s, false)
  {
    forall k | 0 <= k < |s| - 1
      ensures !(Lower(s[k], false) && Upper(s[k + 1], false))
    {
      assert !(Lower(s[k], true) && Upper(s[k + 1], true));
    }
  }

  /** The second, ASCII-only replacement never finds anything: the first
      one already separated every such pair. */
  lemma AsciiSplitIsRedundant(d: string)
    ensures SplitWords(SplitWords(d, true), false) == SplitWords(d, true)
  {
    SplitWordsNoBoundary(d, true);
    AsciiBoundaryIsBoundary(SplitWords(d, true));
    SplitWordsKeeps(SplitWords(d, true), false);
  }

  lemma BoundarySlice(s: string, a: nat, b: nat, accented: bool)
    requires a <= b <= |s| && NoCaseBoundary(s, accented)
    ensures NoCaseBoundary(s[a..b], accented)
  {
    var t := s[a..b];
    forall k | 0 <= k < |t| - 1
      ensures !(Lower(t[k], accented) && Upper(t[k + 1], accented))
    {
      assert t[k] == s[a + k] && t[k + 1] == s[a + k + 1];
    }
  }

  /** Collapsing whitespace creates no boundary: it only turns whitespace
      into spaces and drops whitespace next to a space. */
  lemma {:induction false} CollapseKeepsNoBoundary(s: string, accented: bool)
    requires NoCaseBoundary(s, accented)
    ensures NoCaseBoundary(CollapseWhitespace(s), accented)
    decreases |s|, 1
  {
    if s != [] {
      if IsWhitespace(s[0]) {
        CollapseSpaceStep(s, accented);
      } else {
        CollapseCharStep(s, accented);
      }
    }
  }

  /** A leading run of whitespace becomes a space, which is no letter. */
  lemma {:induction false} CollapseSpaceStep(s: string, accented: bool)
    requires s != [] && IsWhitespace(s[0]) && NoCaseBoundary(s, accented)
    ensures NoCaseBoundary(CollapseWhitespace(s), accented)
    decreases |s|, 0
  {
    var t := s[1..];
    var u := DropLeadingWhitespace(t);
    BoundarySlice(s, 1, |s|, accented);
    BoundarySlice(t, |t| - |u|, |t|, accented);
    CollapseKeepsNoBoundary(u, accented);
    ConsNoBoundary(' ', CollapseWhitespace(u), accented);
  }

  /** A leading letter keeps its right neighbour, or gains a space there. */
  lemma {:induction false} CollapseCharStep(s: string, accented: bool)
    requires s != [] && !IsWhitespace(s[0]) && NoCaseBoundary(s, accented)
    ensures NoCaseBoundary(CollapseWhitespace(s), accented)
    decreases |s|, 0
  {
    BoundarySlice(s, 1, |s|, accented);
    CollapseKeepsNoBoundary(s[1..], accented);
    if s[1..] != [] {
      CollapseHead(s[1..]);
    }
    ConsNoBoundary(s[0], CollapseWhitespace(s[1..]), accented);
  }

  /** A character put in front of boundary-free text makes a boundary only
      with the text's first character. */
  lemma ConsNoBoundary(c: char, t: string, accented: bool)
    requires NoCaseBoundary(t, accented)
    requires t != [] ==> !(Lower(c, accented) && Upper(t[0], accented))
    ensures NoCaseBoundary([c] + t, accented)
  {
    var r := [c] + t;
    forall k | 0 <= k < |r| - 1
      ensures !(Lower(r[k], accented) && Upper(r[k + 1], accented))
    {
      if k >= 1 {
        assert r[k] == t[k - 1] && r[k + 1] == t[k];
      } else {
        assert r[1] == t[0];
      }
    }
  }


  lemma TrimKeepsNoBoundary(s: string, accented: bool)
    requires NoCaseBoundary(s, accented)
    ensures NoCaseBoundary(Trim(s), accented)
  {
    var u := DropLeadingWhitespace(s);
    BoundarySlice(s, |s| - |u|, |s|, accented);
    BoundarySlice(u, 0, |DropTrailingWhitespace(u)|, accented);
  }

  /** A cleaned description is tidy (no whitespace at either end, single
      spaces only) and has no lower-case letter directly before an
      upper-case one, accented letters included. */
  lemma CleanDescriptionShape(d: string)
    ensures Tidy(CleanDescription(d))
    ensures NoCaseBoundary(CleanDescription(d), true)
  {
    var s := SplitWords(d, true);
    AsciiSplitIsRedundant(d);
    SplitWordsNoBoundary(d, true);
    CollapseKeepsNoBoundary(s, true);
    TrimKeepsNoBoundary(CollapseWhitespace(s), true);
    CollapseTrimIsTidy(s);
  }

  /** The split only inserts spaces. */
  lemma {:induction false} SplitWordsOnlySpaces(s: string, accented: bool)
    ensures RemoveWhitespace(SplitWords(s, accented)) == RemoveWhitespace(s)
    decreases |s|
  {
    if |s| >= 2 && Lower(s[0], accented) && Upper(s[1], accented) {
      SplitWordsOnlySpaces(s[2..], accented);
      SplitPairStep(s, accented);
    } else if s != [] {
      SplitWordsOnlySpaces(s[1..], accented);
      SplitCharStep(s, accented);
    }
  }

  /** The step of `SplitWordsOnlySpaces` at a boundary. */
  lemma SplitPairStep(s: string, accented: bool)
    requires |s| >= 2 && Lower(s[0], accented) && Upper(s[1], accented)
    requires RemoveWhitespace(SplitWords(s[2..], accented)) == RemoveWhitespace(s[2..])
    ensures RemoveWhitespace(SplitWords(s, accented)) == RemoveWhitespace(s)
  {
    RemoveWhitespaceAppend([s[0], ' ', s[1]], SplitWords(s[2..], accented));
    RemoveWhitespaceAppend([s[0], s[1]], s[2..]);
    assert [s[0], s[1]] + s[2..] == s;
    assert !IsWhitespace(s[0]) && !IsWhitespace(s[1]);
    RemoveWhitespacePair(s[0], s[1]);
  }

  /** The step of `SplitWordsOnlySpaces` elsewhere. */
  lemma SplitCharStep(s: string, accented: bool)
    requires s != [] && !(|s| >= 2 && Lower(s[0], accented) && Upper(s[1], accented))
    requires RemoveWhitespace(SplitWords(s[1..], accented)) == RemoveWhitespace(s[1..])
    ensures RemoveWhitespace(SplitWords(s, accented)) == RemoveWhitespace(s)
  {
    RemoveWhitespaceAppend([s[0]], SplitWords(s[1..], accented));
    RemoveWhitespaceAppend([s[0]], s[1..]);
    assert [s[0]] + s[1..] == s;
  }

  /** Deleting whitespace from `a b` and from `ab` gives `ab`. */
  lemma RemoveWhitespacePair(a: char, b: char)
    requires !IsWhitespace(a) && !IsWhitespace(b)
    ensures RemoveWhitespace([a, ' ', b]) == [a, b]
    ensures RemoveWhitespace([a, b]) == [a, b]
  {
    var one, spaced, two, three := [b], [' ', b], [a, b], [a, ' ', b];
    assert one[1..] == [];
    assert RemoveWhitespace(one) == [b];
    assert spaced[1..] == one && IsWhitespace(spaced[0]);
    assert RemoveWhitespace(spaced) == [b];
    assert two[1..] == one && !IsWhitespace(two[0]);
    assert three[1..] == spaced && !IsWhitespace(three[0]);
  }

  /** Deleting all whitespace from the description before and after the
      cleanup gives the same text: the cleanup changes nothing but
      whitespace. */
  lemma CleanDescriptionOnlyRespaces(d: string)
    ensures RemoveWhitespace(CleanDescription(d)) == RemoveWhitespace(d)
  {
    var s1 := SplitWords(d, true);
    var s2 := SplitWords(s1, false);
    SplitWordsOnlySpaces(d, true);
    SplitWordsOnlySpaces(s1, false);
    RemoveWhitespaceCollapse(s2);
    RemoveWhitespaceTrim(CollapseWhitespace(s2));
  }

  /** Cleaning a cleaned description changes nothing. */
  lemma CleanDescriptionIdempotent(d: string)
    ensures CleanDescription(CleanDescription(d)) == CleanDescription(d)
  {
    var t := CleanDescription(d);
    CleanDescriptionShape(d);
    SplitWordsKeeps(t, true);
    AsciiBoundaryIsBoundary(t);
    SplitWordsKeeps(t, false);
    TidyIsFixedPoint(t);
  }

  /** Running the handler's cleanup step twice gives the record it gives
      once. */
  lemma CleanedIdempotent(c: Classification)
    ensures Cleaned(Cleaned(c)) == Cleaned(c)
  {
    if Truthy(c.description) {
      CleanDescriptionIdempotent(c.description.value);
    }
  }
}
