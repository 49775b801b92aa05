/** The quadric-surface page (QuadricSurfaces.tsx): the table that turns the
    classifier's surface name into a formula the quadric plot can draw. */
module QuadricSurfaces {
  import opened Wrappers
  import opened Text

  const Ellipsoid: string := "(x**2 + y**2 + (z**2)*0.5)**0.5"
  const OneSheetHyperboloid: string := "(x**2 + y**2 - z**2 + 1)**0.5"
  const EllipticParaboloid: string := "x**2 + y**2"
  const Saddle: string := "x**2 - y**2"
  const Cone: string := "(x**2 + y**2)**0.5"

  /** The five formulas the page can hand to the plot. */
  const Formulas: set<string> := {Ellipsoid, OneSheetHyperboloid, EllipticParaboloid, Saddle, Cone}

  const ParaboloidKey: string := "paraboloide el\U{ED}ptico"
  const HyperbolicKey: string := "paraboloide hiperb\U{F3}lico"

  /** `getVisualizationFormula`: `None` when there is no classification yet;
      otherwise the first key the lower-cased surface name contains decides,
      and an unknown name falls back to the elliptic paraboloid. */
  function VisualizationFormula(kind: Option<string>): (r: string)
    ensures r in Formulas
    ensures kind.None? ==> r == EllipticParaboloid
    ensures kind.Some? && Contains(ToLower(kind.value), "elipsoide") ==> r == Ellipsoid
    ensures kind.Some? ==> var t := ToLower(kind.value);
      !Contains(t, "elipsoide") && Contains(t, "hiperboloide de una hoja") ==> r == OneSheetHyperboloid
    ensures kind.Some? ==> var t := ToLower(kind.value);
      !Contains(t, "elipsoide") && !Contains(t, "hiperboloide de una hoja") && Contains(t, ParaboloidKey) ==>
        r == EllipticParaboloid
    ensures kind.Some? ==> var t := ToLower(kind.value);
      NoEarlierKey(t) && (Contains(t, HyperbolicKey) || Contains(t, "silla")) ==> r == Saddle
    ensures kind.Some? ==> var t := ToLower(kind.value);
      NoEarlierKey(t) && !Contains(t, HyperbolicKey) && !Contains(t, "silla") && Contains(t, "cono") ==> r == Cone
  {
    match kind
    case None => EllipticParaboloid
    case Some(name) =>
      var t := ToLower(name);
      if Contains(t, "elipsoide") then Ellipsoid
      else if Contains(t, "hiperboloide de una hoja") then OneSheetHyperboloid
      else if Contains(t, ParaboloidKey) then EllipticParaboloid
      else if Contains(t, HyperbolicKey) || Contains(t, "silla") then Saddle
      else if Contains(t, "cono") then Cone
      else EllipticParaboloid
  }

  /** No earlier key in a name. */
  predicate NoEarlierKey(t: string) {
    !Contains(t, "elipsoide") && !Contains(t, "hiperboloide de una hoja") && !Contains(t, ParaboloidKey)
  }

  /** A name that holds none of the keys falls back to the elliptic
      paraboloid, just as a missing classification does. */
  lemma UnknownFallsBack(name: string)
    requires NoEarlierKey(ToLower(name)) && !Contains(ToLower(name), HyperbolicKey)
    requires !Contains(ToLower(name), "silla") && !Contains(ToLower(name), "cono")
    ensures VisualizationFormula(Some(name)) == VisualizationFormula(None)
  {
  }

  /** The table ignores letter case. */
  lemma FormulaIgnoresCase(name: string)
    ensures VisualizationFormula(Some(ToLower(name))) == VisualizationFormula(Some(name))
  {
    ToLowerIdempotent(name);
  }

  const TwoSheets: string := "hiperboloide de dos hojas"

  /** The two-sheet hyperboloid has no entry of its own: however its name
      is capitalised, it is drawn as the elliptic paraboloid. Each key's
      absence from the name is its own lemma, so that the literal names are
      searched one at a time. */
  lemma TwoSheetsFallsBack(name: string)
    requires ToLower(name) == TwoSheets
    ensures VisualizationFormula(Some(name)) == EllipticParaboloid
  {
    TwoSheetsLacksEllipsoid();
    TwoSheetsLacksOneSheet();
    TwoSheetsLacksParaboloid();
    TwoSheetsLacksHyperbolic();
    TwoSheetsLacksSaddle();
    TwoSheetsLacksCone();
    UnknownFallsBack(name);
  }

  lemma TwoSheetsLacksEllipsoid()
    ensures !Contains(TwoSheets, "elipsoide")
  {
    LacksPair(TwoSheets, "elipsoide", 'e', 'l');
  }

  lemma TwoSheetsLacksOneSheet()
    ensures !Contains(TwoSheets, "hiperboloide de una hoja")
  {
    LacksChar(TwoSheets, "hiperboloide de una hoja", 'u');
  }

  lemma TwoSheetsLacksParaboloid()
    ensures !Contains(TwoSheets, ParaboloidKey)
  {
    LacksChar(TwoSheets, ParaboloidKey, '\U{ED}');
  }

  lemma TwoSheetsLacksHyperbolic()
    ensures !Contains(TwoSheets, HyperbolicKey)
  {
    LacksChar(TwoSheets, HyperbolicKey, '\U{F3}');
  }

  lemma TwoSheetsLacksSaddle()
    ensures !Contains(TwoSheets, "silla")
  {
    LacksPairAt(TwoSheets, "silla", 2, 'l', 'l');
  }

  lemma TwoSheetsLacksCone()
    ensures !Contains(TwoSheets, "cono")
  {
    LacksChar(TwoSheets, "cono", 'c');
  }
}
