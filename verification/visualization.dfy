/** The formula page (Visualization3D.tsx): the rewrite of the LaTeX the
    user typed into the text handed to the plotter, and the guess of which
    kind of plot the formula asks for. */
module Visualization3D {
  import opened Wrappers
  import opened Text

  // ---------------------------------------------------------------------
  // Brace groups of the regular expressions
  // ---------------------------------------------------------------------

  /** The first `}` at or after `from`. */
  function CloseBrace(s: string, from: nat): (r: Option<nat>)
    decreases |s| - from
    ensures r.Some? ==> from <= r.value < |s| && s[r.value] == '}'
    ensures r.Some? ==> forall k :: from <= k < r.value ==> s[k] != '}'
    ensures r.None? ==> forall k :: from <= k < |s| ==> s[k] != '}'
  {
    if from >= |s| then None
    else if s[from] == '}' then Some(from)
    else CloseBrace(s, from + 1)
  }

  /** The pattern `([^}]+)\}` read from position `from`: one or more
      characters other than `}` and the `}` that ends them. The result is the
      position of that closing brace. */
  function Group(s: string, from: nat): (r: Option<nat>)
    ensures r.Some? ==> from < r.value < |s| && s[r.value] == '}'
    ensures r.Some? ==> '}' !in s[from..r.value]
    ensures r.None? ==> forall q :: from < q < |s| && s[q] == '}' ==> '}' in s[from..q]
  {
    match CloseBrace(s, from)
    case Some(q) =>
      if q > from then Some(q)
      else
        assert forall q' :: from < q' < |s| ==> s[from..q'][0] == '}';
        None
    case None => None
  }

  // ---------------------------------------------------------------------
  // The regular-expression rewrites of latexToPlotly
  // ---------------------------------------------------------------------

  /** `replace(/\\sqrt\{([^}]+)\}/g, 'sqrt($1)')` */
  function RewriteSqrt(s: string): string
    decreases |s|
  {
    if s == [] then []
    else if StartsWith(s, "\\sqrt{") then
      match Group(s, 6)
      case Some(q) => "sqrt(" + s[6..q] + ")" + RewriteSqrt(s[q + 1..])
      case None => [s[0]] + RewriteSqrt(s[1..])
    else [s[0]] + RewriteSqrt(s[1..])
  }

  /** The closing braces of `\frac{a}{b}` at the start of `s`, for
      non-empty brace-free `a` and `b`. */
  function FracMatch(s: string): (r: Option<(nat, nat)>)
    ensures r.Some? ==> 6 < r.value.0 && r.value.0 + 2 < r.value.1 < |s|
  {
    if !StartsWith(s, "\\frac{") then None
    else match Group(s, 6)
      case None => None
      case Some(q1) =>
        if q1 + 1 < |s| && s[q1 + 1] == '{' then
          match Group(s, q1 + 2)
          case None => None
          case Some(q2) => Some((q1, q2))
        else None
  }

  /** `replace(/\\frac\{([^}]+)\}\{([^}]+)\}/g, '(($1)/($2))')` */
  function RewriteFrac(s: string): string
    decreases |s|
  {
    if s == [] then []
    else
      var m := FracMatch(s);
      if m.Some? then
        "((" + s[6..m.value.0] + ")/(" + s[m.value.0 + 2..m.value.1] + "))" + RewriteFrac(s[m.value.1 + 1..])
      else [s[0]] + RewriteFrac(s[1..])
  }

  /** The class `\d`: the ASCII digits. */
  predicate IsDigit(c: char) {
    '0' <= c <= '9'
  }

  /** `replace(/\^(\d)/g, '**$1')` */
  function RewritePowerDigit(s: string): string
    decreases |s|
  {
    if s == [] then []
    else if |s| >= 2 && s[0] == '^' && IsDigit(s[1]) then "**" + [s[1]] + RewritePowerDigit(s[2..])
    else [s[0]] + RewritePowerDigit(s[1..])
  }

  /** `replace(/\^\{([^}]+)\}/g, '**($1)')` */
  function RewritePowerGroup(s: string): string
    decreases |s|
  {
    if s == [] then []
    else if StartsWith(s, "^{") then
      match Group(s, 2)
      case Some(q) => "**(" + s[2..q] + ")" + RewritePowerGroup(s[q + 1..])
      case None => [s[0]] + RewritePowerGroup(s[1..])
    else [s[0]] + RewritePowerGroup(s[1..])
  }

  /** The two logarithm rewrites, in the page's order. */
  function Logarithms(s: string): string {
    ReplaceAll(ReplaceAll(s, "\\ln", "log"), "\\log", "log10")
  }

  /** `latexToPlotly`: the chain of rewrites, in the page's order, then
      whitespace runs collapsed to one space and the ends trimmed. */
  function LatexToPlotly(latex: string): string {
    var s1 := ReplaceAll(latex, "\\cdot", "*");
    var s2 := ReplaceAll(s1, "\\left(", "(");
    var s3 := ReplaceAll(s2, "\\right)", ")");
    var s4 := ReplaceAll(s3, "\\left|", "abs(");
    var s5 := ReplaceAll(s4, "\\right|", ")");
    var s6 := ReplaceAll(s5, "\\sin", "sin");
    var s7 := ReplaceAll(s6, "\\cos", "cos");
    var s8 := ReplaceAll(s7, "\\tan", "tan");
    var s9 := Logarithms(s8);
    var s10 := ReplaceAll(s9, "\\exp", "exp");
    var s11 := RewriteSqrt(s10);
    var s12 := ReplaceAll(s11, "\\pi", "Math.PI");
    var s13 := RewriteFrac(s12);
    var s14 := RewritePowerDigit(s13);
    var s15 := RewritePowerGroup(s14);
    Trim(CollapseWhitespace(s15))
  }

  /** The plotter's text never starts or ends with whitespace and never holds
      two whitespace characters in a row or any whitespace but a space. */
  lemma LatexToPlotlyTidy(latex: string)
    ensures Tidy(LatexToPlotly(latex))
  {
    var s1 := ReplaceAll(latex, "\\cdot", "*");
    var s2 := ReplaceAll(s1, "\\left(", "(");
    var s3 := ReplaceAll(s2, "\\right)", ")");
    var s4 := ReplaceAll(s3, "\\left|", "abs(");
    var s5 := ReplaceAll(s4, "\\right|", ")");
    var s6 := ReplaceAll(s5, "\\sin", "sin");
    var s7 := ReplaceAll(s6, "\\cos", "cos");
    var s8 := ReplaceAll(s7, "\\tan", "tan");
    var s10 := ReplaceAll(Logarithms(s8), "\\exp", "exp");
    var s12 := ReplaceAll(RewriteSqrt(s10), "\\pi", "Math.PI");
    CollapseTrimIsTidy(RewritePowerGroup(RewritePowerDigit(RewriteFrac(s12))));
  }

  /** `\sqrt{a}` with a brace-free, non-empty `a` becomes `sqrt(a)`, and the
      scan goes on after the closing brace. */
  lemma SqrtRewrite(a: string, rest: string)
    requires a != [] && '}' !in a
    ensures RewriteSqrt("\\sqrt{" + a + "}" + rest) == "sqrt(" + a + ")" + RewriteSqrt(rest)
  {
    var s := "\\sqrt{" + a + "}" + rest;
    assert s == "\\sqrt{" + (a + "}" + rest);
    GroupShift("\\sqrt{", a, rest);
    assert s[6..6 + |a|] == a;
    assert s[6 + |a| + 1..] == rest;
  }

  /** `\frac{a}{b}` with brace-free, non-empty `a` and `b` becomes
      `((a)/(b))`. */
  lemma FracRewrite(a: string, b: string, rest: string)
    requires a != [] && '}' !in a && b != [] && '}' !in b
    ensures RewriteFrac("\\frac{" + a + "}{" + b + "}" + rest) == "((" + a + ")/(" + b + "))" + RewriteFrac(rest)
  {
    var s := "\\frac{" + a + "}{" + b + "}" + rest;
    FracMatchOf(a, b, rest);
    FracUnfold(s);
    FracSlices(a, b, rest);
  }

  /** One step of `RewriteFrac` where a match is found. */
  lemma FracUnfold(s: string)
    requires FracMatch(s).Some?
    ensures RewriteFrac(s) == "((" + s[6..FracMatch(s).value.0] + ")/(" + s[FracMatch(s).value.0 + 2..FracMatch(s).value.1] + "))"
      + RewriteFrac(s[FracMatch(s).value.1 + 1..])
  {
  }

  /** The pieces of `\frac{a}{b}rest`. */
  lemma FracSlices(a: string, b: string, rest: string)
    ensures var s := "\\frac{" + a + "}{" + b + "}" + rest;
      s[6..6 + |a|] == a && s[8 + |a|..8 + |a| + |b|] == b && s[9 + |a| + |b|..] == rest
  {
  }

  /** Where the match of `\frac{a}{b}` ends. */
  lemma FracMatchOf(a: string, b: string, rest: string)
    requires a != [] && '}' !in a && b != [] && '}' !in b
    ensures var m := FracMatch("\\frac{" + a + "}{" + b + "}" + rest);
      m.Some? && m.value.0 == 6 + |a| && m.value.1 == 8 + |a| + |b|
  {
    var p := "\\frac{" + a + "}{";
    var s := p + (b + "}" + rest);
    var q1 := 6 + |a|;
    assert s == "\\frac{" + a + "}{" + b + "}" + rest;
    assert s == "\\frac{" + (a + "}" + ("{" + b + "}" + rest));
    assert StartsWith(s, "\\frac{") by { assert s[..6] == "\\frac{"; }
    GroupShift("\\frac{", a, "{" + b + "}" + rest);
    assert s[q1 + 1] == '{';
    GroupShift(p, b, rest);
  }

  /** A group found after a fixed prefix. */
  lemma GroupShift(p: string, a: string, rest: string)
    requires a != [] && '}' !in a
    ensures Group(p + (a + "}" + rest), |p|) == Some(|p| + |a|)
  {
    var s := p + (a + "}" + rest);
    assert s[|p| + |a|] == '}';
    assert forall k :: |p| <= k < |p| + |a| ==> s[k] == a[k - |p|];
    assert forall i :: 0 <= i < |a| ==> s[|p| + i] == a[i] && a[i] in a;
  }

  /** `^` and a digit become `**` and the digit. */
  lemma PowerDigitRewrite(d: char, rest: string)
    requires IsDigit(d)
    ensures RewritePowerDigit("^" + [d] + rest) == "**" + [d] + RewritePowerDigit(rest)
  {
    assert ("^" + [d] + rest)[2..] == rest;
  }

  /** `^{a}` with a brace-free, non-empty `a` becomes `**(a)`. */
  lemma PowerGroupRewrite(a: string, rest: string)
    requires a != [] && '}' !in a
    ensures RewritePowerGroup("^{" + a + "}" + rest) == "**(" + a + ")" + RewritePowerGroup(rest)
  {
    var s := "^{" + a + "}" + rest;
    assert s == "^{" + (a + "}" + rest);
    GroupShift("^{", a, rest);
    assert s[2..2 + |a|] == a;
    assert s[2 + |a| + 1..] == rest;
  }

  /** Text without a `^` passes both power rewrites unchanged. */
  lemma {:induction false} PowerRewritesKeepPlainText(s: string)
    requires '^' !in s
    ensures RewritePowerDigit(s) == s && RewritePowerGroup(s) == s
  {
    PowerDigitKeeps(s);
    PowerGroupKeeps(s);
  }

  lemma {:induction false} PowerDigitKeeps(s: string)
    requires '^' !in s
    ensures RewritePowerDigit(s) == s
    decreases |s|
  {
    if s != [] {
      assert s[0] in s;
      assert forall c :: c in s[1..] ==> c in s;
      PowerDigitKeeps(s[1..]);
      assert s == [s[0]] + s[1..];
    }
  }

  lemma {:induction false} PowerGroupKeeps(s: string)
    requires '^' !in s
    ensures RewritePowerGroup(s) == s
    decreases |s|
  {
    if s != [] {
      assert s[0] in s;
      assert !StartsWith(s, "^{") by {
        assert s[0] != '^';
      }
      assert forall c :: c in s[1..] ==> c in s;
      PowerGroupKeeps(s[1..]);
      assert s == [s[0]] + s[1..];
    }
  }

  /** Text without a backslash passes the square-root and fraction rewrites
      unchanged. */
  lemma {:induction false} CommandRewritesKeepPlainText(s: string)
    requires '\\' !in s
    ensures RewriteSqrt(s) == s && RewriteFrac(s) == s
    decreases |s|
  {
    if s != [] {
      assert s[0] in s;
      assert !StartsWith(s, "\\sqrt{") && !StartsWith(s, "\\frac{") by {
        assert s[0] != '\\';
      }
      assert forall c :: c in s[1..] ==> c in s;
      CommandRewritesKeepPlainText(s[1..]);
      assert s == [s[0]] + s[1..];
    }
  }

  /** `\ln` becomes `log` and stays `log`: the `log` it leaves has no
      backslash, so the later `\log` rewrite does not reach it. The prefix
      before it is any backslash-free text. */
  lemma LnBecomesLog(p: string, rest: string)
    requires '\\' !in p
    ensures Logarithms(p + "\\ln" + rest) == p + "log" + Logarithms(rest)
  {
    var r1 := ReplaceAll(rest, "\\ln", "log");
    assert p + "\\ln" + rest == p + ("\\ln" + rest);
    ReplaceAllSkipsPrefix(p, "\\ln" + rest, "\\ln", "log");
    assert ("\\ln" + rest)[..3] == "\\ln" && ("\\ln" + rest)[3..] == rest;
    assert ReplaceAll(p + "\\ln" + rest, "\\ln", "log") == (p + "log") + r1;
    ReplaceAllSkipsPrefix(p + "log", r1, "\\log", "log10");
  }

  /** `\log` becomes `log10`. */
  lemma LogBecomesLog10(p: string, rest: string)
    requires '\\' !in p
    ensures Logarithms(p + "\\log" + rest) == p + "log10" + Logarithms(rest)
  {
    var s := "\\log" + rest;
    var r1 := ReplaceAll(rest, "\\ln", "log");
    assert p + "\\log" + rest == p + s;
    ReplaceAllSkipsPrefix(p, s, "\\ln", "log");
    assert s[..3] != "\\ln" by { assert s[2] == 'o'; }
    assert s[1..] == "log" + rest;
    ReplaceAllSkipsPrefix("log", rest, "\\ln", "log");
    assert ReplaceAll(s, "\\ln", "log") == "\\log" + r1;
    assert ReplaceAll(p + "\\log" + rest, "\\ln", "log") == p + ("\\log" + r1);
    ReplaceAllSkipsPrefix(p, "\\log" + r1, "\\log", "log10");
    assert ("\\log" + r1)[..4] == "\\log" && ("\\log" + r1)[4..] == r1;
  }

  /** The order protects only an `\ln` that the scan reaches on its own: a
      backslash just before it combines with the `log` it leaves, and the
      pair becomes `log10`. */
  lemma BackslashLnBecomesLog10()
    ensures Logarithms("\\\\ln") == "log10"
  {
    var s := "\\\\ln";
    assert s[..3] != "\\ln" by { assert s[1] != 'l'; }
    assert s[1..] == "\\ln";
    assert ReplaceAll(s[1..], "\\ln", "log") == "log" by {
      assert s[1..][3..] == [];
    }
    assert ReplaceAll(s, "\\ln", "log") == "\\log";
    assert ReplaceAll("\\log", "\\log", "log10") == "log10" by {
      assert "\\log"[4..] == [];
    }
  }

  // ---------------------------------------------------------------------
  // detectVisualizationType
  // ---------------------------------------------------------------------

  /** The kinds of plot the page offers. */
  datatype PageType = Surface | Parametric | Contour | VectorField | Implicit

  /** The detector's view of the formula: lower case, every whitespace
      character removed. */
  function Normalize(latex: string): string {
    RemoveWhitespace(ToLower(latex))
  }

  predicate LooksParametric(n: string) {
    Contains(n, "(t)") || (Contains(n, "cos") && Contains(n, "sin") && Contains(n, "t"))
  }

  predicate LooksImplicit(n: string) {
    Contains(n, "x") && Contains(n, "y") && Contains(n, "z") && (Contains(n, "=0") || Contains(n, "=1"))
  }

  predicate IsXY(c: char) {
    c == 'x' || c == 'y'
  }

  /** `-?[xy]` at the start of `s`; the result is what follows it. */
  function SignedVariable(s: string): (r: Option<string>)
    ensures r.Some? ==> |r.value| < |s|
  {
    if s != [] && IsXY(s[0]) then Some(s[1..])
    else if |s| >= 2 && s[0] == '-' && IsXY(s[1]) then Some(s[2..])
    else None
  }

  /** `\(-?[xy],\s*-?[xy]\)` at the start of `s`. */
  predicate VectorPairAt(s: string) {
    s != [] && s[0] == '(' &&
    match SignedVariable(s[1..])
    case None => false
    case Some(t) =>
      t != [] && t[0] == ',' &&
      match SignedVariable(DropLeadingWhitespace(t[1..]))
      case None => false
      case Some(u) => u != [] && u[0] == ')'
  }

  /** `s.match(/\(-?[xy],\s*-?[xy]\)/)` succeeds. */
  predicate HasVectorPair(s: string)
    decreases |s|
  {
    VectorPairAt(s) || (s != [] && HasVectorPair(s[1..]))
  }

  /** `detectVisualizationType`: the first test that holds decides. The page
      never proposes a contour plot. */
  function DetectVisualizationType(latex: string): (r: PageType)
    ensures r != Contour
    ensures r == Parametric <==> LooksParametric(Normalize(latex))
    ensures r == Implicit <==> !LooksParametric(Normalize(latex)) && LooksImplicit(Normalize(latex))
    ensures r == VectorField <==>
      !LooksParametric(Normalize(latex)) && !LooksImplicit(Normalize(latex)) && HasVectorPair(Normalize(latex))
  {
    var n := Normalize(latex);
    if LooksParametric(n) then Parametric
    else if LooksImplicit(n) then Implicit
    else if HasVectorPair(n) then VectorField
    else Surface
  }

  /** The detector depends neither on letter case nor on spacing. */
  lemma DetectIgnoresCaseAndSpacing(latex: string)
    ensures DetectVisualizationType(ToLower(latex)) == DetectVisualizationType(latex)
    ensures DetectVisualizationType(RemoveWhitespace(latex)) == DetectVisualizationType(latex)
  {
    ToLowerIdempotent(latex);
    ToLowerRemoveWhitespaceCommute(latex);
    RemoveWhitespaceIdempotent(ToLower(latex));
  }

  /** Text already in lower case and free of whitespace is its own
      normal form. */
  lemma {:induction false} NormalizeKeeps(s: string)
    requires forall k :: 0 <= k < |s| ==> !IsWhitespace(s[k]) && LowerChar(s[k]) == s[k]
    ensures Normalize(s) == s
    decreases |s|
  {
    if s != [] {
      NormalizeKeeps(s[1..]);
      assert ToLower(s) == [s[0]] + ToLower(s[1..]);
    }
  }

  /** Text without a `t` is never taken for a parametric curve. */
  lemma NoTNotParametric(n: string)
    requires 't' !in n
    ensures !LooksParametric(n)
  {
    LacksChar(n, "(t)", 't');
    LacksChar(n, "t", 't');
  }

  /** The `t` of the parametric test may come from any word: the product
      `\cos(x)\cdot\sin(y)`, a surface, holds `cos`, `sin` and the `t` of
      `\cdot`, and is taken for a parametric curve. */
  lemma CdotProductLooksParametric()
    ensures DetectVisualizationType(CdotProduct) == Parametric
  {
    CdotProductNormal();
    CdotProductWords();
  }

  const CdotProduct: string := "\\cos(x)\\cdot\\sin(y)"

  lemma CdotProductNormal()
    ensures Normalize(CdotProduct) == CdotProduct
  {
    NormalizeKeeps(CdotProduct);
  }

  lemma CdotProductWords()
    ensures Contains(CdotProduct, "cos") && Contains(CdotProduct, "sin") && Contains(CdotProduct, "t")
  {
    var n := CdotProduct;
    assert n[1..][..3] == "cos";
    ContainsAt(n, "cos", 1);
    ContainsCharAt(n, 't', 11);
    assert n[13..][..3] == "sin";
    ContainsAt(n, "sin", 13);
  }

  /** A sphere written as an equation is recognised as implicit. */
  lemma SphereLooksImplicit()
    ensures DetectVisualizationType(Sphere) == Implicit
  {
    SphereNormal();
    SphereLacksT();
    SphereWords();
  }

  lemma SphereNormal()
    ensures Normalize(Sphere) == Sphere
  {
    NormalizeKeeps(Sphere);
  }

  lemma SphereLacksT()
    ensures !LooksParametric(Sphere)
  {
    NoTNotParametric(Sphere);
  }

  const Sphere: string := "x^2+y^2+z^2-1=0"

  lemma SphereWords()
    ensures Contains(Sphere, "x") && Contains(Sphere, "y") && Contains(Sphere, "z") && Contains(Sphere, "=0")
  {
    var n := Sphere;
    ContainsCharAt(n, 'x', 0);
    ContainsCharAt(n, 'y', 4);
    ContainsCharAt(n, 'z', 8);
    assert n[13..][..2] == "=0";
    ContainsAt(n, "=0", 13);
  }

  /** The rotation field `(-y,x)` is recognised as a vector field. */
  lemma RotationLooksVectorField()
    ensures DetectVisualizationType(Rotation) == VectorField
  {
    RotationNormal();
    NoTNotParametric(Rotation);
    RotationLacksZ();
    RotationPair();
  }

  lemma RotationLacksZ()
    ensures !Contains(Rotation, "z")
  {
    LacksChar(Rotation, "z", 'z');
  }

  lemma RotationNormal()
    ensures Normalize(Rotation) == Rotation
  {
    NormalizeKeeps(Rotation);
  }

  const Rotation: string := "(-y,x)"

  lemma RotationPair()
    ensures HasVectorPair(Rotation)
  {
    var n := Rotation;
    var t := n[1..];
    assert t == "-y,x)";
    assert SignedVariable(t) == Some(t[2..]);
    assert t[2..] == ",x)";
    var u := t[2..][1..];
    assert u == "x)";
    assert !IsWhitespace(u[0]);
    assert DropLeadingWhitespace(u) == u;
    assert SignedVariable(u) == Some(u[1..]);
    assert VectorPairAt(n);
  }

}
