/** The textual substitution every evaluator performs before handing the
    formula to `eval`: the variables are replaced by the parenthesised text of
    the sample's coordinates, and power and function names are rewritten into
    JavaScript. `eval` itself is not modelled; the builders receive its result
    as a parameter. */
module Substitution {
  import opened Text

  /** The text JavaScript prints for a finite number: digits, a sign, a
      decimal point and an exponent marker. */
  predicate NumberText(s: string) {
    forall c :: c in s ==> c in "0123456789.-+e"
  }

  /** The plain surface's rewrite (Plot3DCanvas.tsx `evaluateZ`): `^` becomes
      `**`, then every `x`, then every `y` is replaced by `(<number>)`. */
  function SurfaceFormula(formula: string, xText: string, yText: string): string {
    var powers := ReplaceAll(formula, "^", "**");
    var withX := ReplaceAll(powers, "x", "(" + xText + ")");
    ReplaceAll(withX, "y", "(" + yText + ")")
  }

  /** The quadric's rewrite (QuadricSurface3D.tsx `evaluateZ`): `**` becomes
      `^`, the variables are replaced, and `^` becomes `**` again. */
  function QuadricFormula(formula: string, xText: string, yText: string): string {
    var carets := ReplaceAll(formula, "**", "^");
    var withX := ReplaceAll(carets, "x", "(" + xText + ")");
    var withY := ReplaceAll(withX, "y", "(" + yText + ")");
    ReplaceAll(withY, "^", "**")
  }

  /** The tracers' rewrite (ContourLines.tsx and PlaneIntersections.tsx
      `evaluateZ`): powers, a `Math.` prefix for `sqrt`, `sin` and `cos`, the
      variables, and a doubled `Math.Math.` folded back to `Math.`. */
  function TracerFormula(formula: string, xText: string, yText: string): string {
    var powers := ReplaceAll(formula, "^", "**");
    var roots := ReplaceAll(powers, "sqrt", "Math.sqrt");
    var sines := ReplaceAll(roots, "sin", "Math.sin");
    var cosines := ReplaceAll(sines, "cos", "Math.cos");
    var withX := ReplaceAll(cosines, "x", "(" + xText + ")");
    var withY := ReplaceAll(withX, "y", "(" + yText + ")");
    ReplaceAll(withY, "Math.Math.", "Math.")
  }

  /** The parametric curve's rewrite (Plot3DCanvas.tsx `evaluateParam`): every
      `t` is replaced by `(<number>)`, then `^` becomes `**`. */
  function CurveFormula(component: string, tText: string): string {
    ReplaceAll(ReplaceAll(component, "t", "(" + tText + ")"), "^", "**")
  }

  lemma NumberTextLacks(s: string, c: char)
    requires NumberText(s) && c !in "0123456789.-+e()"
    ensures c !in "(" + s + ")"
  {
    var t := "(" + s + ")";
    forall k | 0 <= k < |t| ensures t[k] != c {
      if 0 < k < |t| - 1 {
        assert t[k] == s[k - 1] && s[k - 1] in s;
      }
    }
  }

  /** After the plain surface's rewrite no variable and no `^` is left: every
      `x` and `y`, including those inside names such as `exp` or `max`, has
      become a number. */
  lemma SurfaceFormulaClosed(formula: string, xText: string, yText: string)
    requires NumberText(xText) && NumberText(yText)
    ensures var r := SurfaceFormula(formula, xText, yText); 'x' !in r && 'y' !in r && '^' !in r
  {
    var powers := ReplaceAll(formula, "^", "**");
    var withX := ReplaceAll(powers, "x", "(" + xText + ")");
    NumberTextLacks(xText, 'x');
    NumberTextLacks(xText, '^');
    NumberTextLacks(yText, 'x');
    NumberTextLacks(yText, 'y');
    NumberTextLacks(yText, '^');
    ReplaceAllRemovesChar(formula, '^', "**");
    ReplaceAllIntroducesNothing(powers, "x", "(" + xText + ")", '^');
    ReplaceAllRemovesChar(powers, 'x', "(" + xText + ")");
    ReplaceAllIntroducesNothing(withX, "y", "(" + yText + ")", '^');
    ReplaceAllIntroducesNothing(withX, "y", "(" + yText + ")", 'x');
    ReplaceAllRemovesChar(withX, 'y', "(" + yText + ")");
  }

  /** After the tracers' rewrite no variable and no `^` is left. */
  lemma TracerFormulaClosed(formula: string, xText: string, yText: string)
    requires NumberText(xText) && NumberText(yText)
    ensures var r := TracerFormula(formula, xText, yText); 'x' !in r && 'y' !in r && '^' !in r
  {
    var powers := ReplaceAll(formula, "^", "**");
    var roots := ReplaceAll(powers, "sqrt", "Math.sqrt");
    var sines := ReplaceAll(roots, "sin", "Math.sin");
    var cosines := ReplaceAll(sines, "cos", "Math.cos");
    var withX := ReplaceAll(cosines, "x", "(" + xText + ")");
    var withY := ReplaceAll(withX, "y", "(" + yText + ")");
    NumberTextLacks(xText, 'x');
    NumberTextLacks(xText, '^');
    NumberTextLacks(yText, 'x');
    NumberTextLacks(yText, 'y');
    NumberTextLacks(yText, '^');
    ReplaceAllRemovesChar(formula, '^', "**");
    ReplaceAllIntroducesNothing(powers, "sqrt", "Math.sqrt", '^');
    ReplaceAllIntroducesNothing(roots, "sin", "Math.sin", '^');
    ReplaceAllIntroducesNothing(sines, "cos", "Math.cos", '^');
    ReplaceAllIntroducesNothing(cosines, "x", "(" + xText + ")", '^');
    ReplaceAllRemovesChar(cosines, 'x', "(" + xText + ")");
    ReplaceAllIntroducesNothing(withX, "y", "(" + yText + ")", '^');
    ReplaceAllIntroducesNothing(withX, "y", "(" + yText + ")", 'x');
    ReplaceAllRemovesChar(withX, 'y', "(" + yText + ")");
    ReplaceAllIntroducesNothing(withY, "Math.Math.", "Math.", '^');
    ReplaceAllIntroducesNothing(withY, "Math.Math.", "Math.", 'x');
    ReplaceAllIntroducesNothing(withY, "Math.Math.", "Math.", 'y');
  }

  /** After the curve's rewrite no `t` is left, not even inside `sqrt` or
      `tan`, and no `^`. */
  lemma CurveFormulaClosed(component: string, tText: string)
    requires NumberText(tText)
    ensures var r := CurveFormula(component, tText); 't' !in r && '^' !in r
  {
    var withT := ReplaceAll(component, "t", "(" + tText + ")");
    NumberTextLacks(tText, 't');
    NumberTextLacks(tText, '^');
    ReplaceAllRemovesChar(component, 't', "(" + tText + ")");
    ReplaceAllRemovesChar(withT, '^', "**");
    ReplaceAllIntroducesNothing(withT, "^", "**", 't');
  }

  /** Replacing a single character works character by character. */
  lemma ReplaceCharCons(s: string, c: char, rep: string)
    requires s != []
    ensures ReplaceAll(s, [c], rep) == (if s[0] == c then rep else [s[0]]) + ReplaceAll(s[1..], [c], rep)
  {
    assert s[..1] == [s[0]];
  }

  lemma {:induction false} ReplaceCharAppend(p: string, t: string, c: char, rep: string)
    ensures ReplaceAll(p + t, [c], rep) == ReplaceAll(p, [c], rep) + ReplaceAll(t, [c], rep)
    decreases |p|
  {
    if p == [] {
      assert p + t == t;
    } else {
      assert (p + t)[1..] == p[1..] + t;
      ReplaceCharCons(p + t, c, rep);
      ReplaceCharCons(p, c, rep);
      ReplaceCharAppend(p[1..], t, c, rep);
    }
  }

  lemma {:induction false} ReplaceCharAbsent(s: string, c: char, rep: string)
    requires c !in s
    ensures ReplaceAll(s, [c], rep) == s
    decreases |s|
  {
    if s != [] {
      ReplaceCharCons(s, c, rep);
      ReplaceCharAbsent(s[1..], c, rep);
    }
  }

  /** Two single-character replacements commute when neither replacement
      text contains the other character. */
  lemma {:induction false} ReplaceCharsCommute(s: string, a: char, ra: string, b: char, rb: string)
    requires a != b && a !in rb && b !in ra
    ensures ReplaceAll(ReplaceAll(s, [a], ra), [b], rb) == ReplaceAll(ReplaceAll(s, [b], rb), [a], ra)
    decreases |s|
  {
    if s != [] {
      var headA := if s[0] == a then ra else [s[0]];
      var headB := if s[0] == b then rb else [s[0]];
      ReplaceCharCons(s, a, ra);
      ReplaceCharCons(s, b, rb);
      ReplaceCharAppend(headA, ReplaceAll(s[1..], [a], ra), b, rb);
      ReplaceCharAppend(headB, ReplaceAll(s[1..], [b], rb), a, ra);
      ReplaceCharsCommute(s[1..], a, ra, b, rb);
      if s[0] == a {
        ReplaceCharAbsent(ra, b, rb);
        ReplaceCharCons(headB, a, ra);
        assert ReplaceAll(headB[1..], [a], ra) == [];
      } else if s[0] == b {
        ReplaceCharAbsent(rb, a, ra);
        ReplaceCharCons(headA, b, rb);
        assert ReplaceAll(headA[1..], [b], rb) == [];
      } else {
        ReplaceCharCons(headA, b, rb);
        ReplaceCharCons(headB, a, ra);
        assert ReplaceAll(headA[1..], [b], rb) == [];
        assert ReplaceAll(headB[1..], [a], ra) == [];
      }
    }
  }

  /** Folding `**` into `^` and expanding `^` again gives the same text as
      expanding `^` alone: every power ends up written `**`. */
  lemma {:induction false} CaretDetour(s: string)
    ensures ReplaceAll(ReplaceAll(s, "**", "^"), "^", "**") == ReplaceAll(s, "^", "**")
    decreases |s|
  {
    var folded := ReplaceAll(s, "**", "^");
    if |s| >= 2 && s[..2] == "**" {
      CaretDetour(s[2..]);
      assert folded == "^" + ReplaceAll(s[2..], "**", "^");
      ReplaceCharCons(folded, '^', "**");
      assert folded[1..] == ReplaceAll(s[2..], "**", "^");
      assert s == "*" + ("*" + s[2..]);
      ReplaceAllSkipsPrefix("*", "*" + s[2..], "^", "**");
      ReplaceAllSkipsPrefix("*", s[2..], "^", "**");
    } else if s != [] {
      CaretDetour(s[1..]);
      assert folded == [s[0]] + ReplaceAll(s[1..], "**", "^");
      ReplaceCharCons(folded, '^', "**");
      ReplaceCharCons(s, '^', "**");
      assert folded[1..] == ReplaceAll(s[1..], "**", "^");
    }
  }

  /** The quadric's detour through `^` is harmless: for number texts it
      evaluates exactly the text the plain surface evaluates. */
  lemma QuadricFormulaIsSurfaceFormula(formula: string, xText: string, yText: string)
    requires NumberText(xText) && NumberText(yText)
    ensures QuadricFormula(formula, xText, yText) == SurfaceFormula(formula, xText, yText)
  {
    var xr, yr := "(" + xText + ")", "(" + yText + ")";
    NumberTextLacks(xText, '^');
    NumberTextLacks(yText, '^');
    NumberTextLacks(yText, 'x');
    var carets := ReplaceAll(formula, "**", "^");
    var withX := ReplaceAll(carets, "x", xr);
    ReplaceCharsCommute(withX, 'y', yr, '^', "**");
    ReplaceCharsCommute(carets, 'x', xr, '^', "**");
    CaretDetour(formula);
  }
}
