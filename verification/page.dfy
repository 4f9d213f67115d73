/**
 * The results page wired to its filter panel. The panel is shown the displayed rows, so
 * its bounds are re-derived whenever the displayed set changes and is non-empty; the panel
 * is mounted only while it is visible and starts from its defaults when mounted.
 */
module Page {
  import opened Wrappers
  import opened JsValue
  import opened Attributes
  import opened RangeDerive
  import opened Evaluate
  import FS = FilterState
  import S = Session

  datatype Page = Page(session: S.Session, sidebar: Option<FS.FilterState>)

  /** The panel derives its bounds with NaN values skipped. */
  const PanelValues: ValueFilter := SkipMissingAndNaN

  /** The page invariant: the displayed rows are derivable, and a mounted panel has every entry. */
  ghost predicate Good(p: Page) {
    && S.Consistent(p.session)
    && (p.sidebar.Some? ==> FS.Wellformed(p.sidebar.value))
  }

  /**
   * The panel's effect after the displayed rows changed: an attribute with usable values
   * among the displayed rows gets their padded bound, selected as a whole; every other
   * attribute keeps its bound and selection; the switches and the session do not change.
   */
  function Follow(p: Page): (q: Page)
    ensures q.session == p.session && (q.sidebar.Some? <==> p.sidebar.Some?)
    ensures p.session.displayed == [] ==> q == p
    ensures p.sidebar.Some? ==> q.sidebar.value.enabled == p.sidebar.value.enabled
    ensures p.sidebar.Some? ==> forall a | HasUsable(p.session.displayed, a, PanelValues) ::
      && |Values(p.session.displayed, a, PanelValues)| > 0
      && a in q.sidebar.value.bounds && q.sidebar.value.bounds[a] == PaddedBound(Values(p.session.displayed, a, PanelValues))
      && a in q.sidebar.value.selected && q.sidebar.value.selected[a] == q.sidebar.value.bounds[a]
    ensures p.sidebar.Some? ==> forall a | !HasUsable(p.session.displayed, a, PanelValues) && a in p.sidebar.value.bounds && a in p.sidebar.value.selected ::
      && a in q.sidebar.value.bounds && q.sidebar.value.bounds[a] == p.sidebar.value.bounds[a]
      && a in q.sidebar.value.selected && q.sidebar.value.selected[a] == p.sidebar.value.selected[a]
  {
    match p.sidebar
    case None => p
    case Some(f) => p.(sidebar := Some(FS.Refresh(f, p.session.displayed, PanelValues)))
  }

  function Initial(): (p: Page)
    ensures Good(p)
    ensures p.sidebar.None? && p.session == S.Initial()
    ensures p.session.original == [] && p.session.displayed == [] && !p.session.filtersActive
    ensures p.session.activeFilters == map[] && p.session.enabled == {Similarity} && !p.session.showResults
  {
    Page(S.Initial(), None)
  }

  /** "Show Filters" / "Hide Filters": hiding discards the panel, showing mounts a fresh one. */
  function ToggleSidebar(p: Page): (q: Page)
    ensures p.sidebar.Some? ==> q.sidebar.None?
    ensures p.sidebar.None? ==> q.sidebar == Some(FS.Refresh(FS.Initial(), p.session.displayed, PanelValues))
    ensures q.session == p.session
  {
    match p.sidebar
    case Some(_) => p.(sidebar := None)
    case None => Follow(p.(sidebar := Some(FS.Initial())))
  }

  /** Choosing a menu action hides the panel; any action other than similarity search also hides the table. */
  function SelectAction(p: Page, similaritySearch: bool): (q: Page)
    ensures q.sidebar.None?
    ensures q.session.showResults == (similaritySearch && p.session.showResults)
    ensures q.session.(showResults := p.session.showResults) == p.session
  {
    if similaritySearch then p.(sidebar := None)
    else Page(p.session.(showResults := false), None)
  }

  /** New search results: the session resets, and a mounted panel follows the new rows. */
  function OnResults(p: Page, rows: seq<Row>, metric: string): (q: Page)
    ensures q.session.original == rows && q.session.displayed == rows && !q.session.filtersActive
    ensures q.session.enabled == p.session.enabled && q.session.searchMethod == metric
    ensures q.sidebar.Some? <==> p.sidebar.Some?
    ensures p.sidebar.Some? ==> q.sidebar.value.enabled == p.sidebar.value.enabled
    ensures p.sidebar.Some? ==> forall a | HasUsable(rows, a, PanelValues) ::
      && |Values(rows, a, PanelValues)| > 0
      && a in q.sidebar.value.bounds && q.sidebar.value.bounds[a] == PaddedBound(Values(rows, a, PanelValues))
      && a in q.sidebar.value.selected && q.sidebar.value.selected[a] == q.sidebar.value.bounds[a]
  {
    Follow(p.(session := S.NewResults(p.session, rows, metric)))
  }

  /** A switch in the panel: only that attribute's enabled flag flips; the rows stay as shown. */
  function OnToggle(p: Page, a: Attr): (q: Page)
    requires p.sidebar.Some?
    ensures q.session == p.session && q.sidebar.Some?
    ensures a in q.sidebar.value.enabled <==> a !in p.sidebar.value.enabled
    ensures forall b | b != a :: b in q.sidebar.value.enabled <==> b in p.sidebar.value.enabled
    ensures q.sidebar.value.bounds == p.sidebar.value.bounds && q.sidebar.value.selected == p.sidebar.value.selected
  {
    p.(sidebar := Some(FS.Toggle(p.sidebar.value, a)))
  }

  /** A slider or number box in the panel: only that attribute's selection changes. */
  function OnEdit(p: Page, a: Attr, r: Range): (q: Page)
    requires p.sidebar.Some?
    ensures q.session == p.session && q.sidebar.Some?
    ensures a in q.sidebar.value.selected && q.sidebar.value.selected[a] == r
    ensures forall b | b != a :: (b in q.sidebar.value.selected <==> b in p.sidebar.value.selected)
    ensures forall b | b != a && b in p.sidebar.value.selected :: q.sidebar.value.selected[b] == p.sidebar.value.selected[b]
    ensures q.sidebar.value.bounds == p.sidebar.value.bounds && q.sidebar.value.enabled == p.sidebar.value.enabled
  {
    p.(sidebar := Some(FS.Edit(p.sidebar.value, a, r)))
  }

  /** "Apply Filters": the panel's snapshot is applied to the original rows, and the panel follows. */
  function OnApply(p: Page): (q: Page)
    requires p.sidebar.Some? && FS.Wellformed(p.sidebar.value)
    ensures q.session.original == p.session.original
    ensures q.session.displayed == Apply(p.session.original, FS.Snapshot(p.sidebar.value))
    ensures forall x :: x in q.session.displayed <==> x in p.session.original && Passes(x, FS.Snapshot(p.sidebar.value))
    ensures q.session.filtersActive && q.session.enabled == p.sidebar.value.enabled
    ensures q.sidebar.Some? && q.sidebar.value.enabled == p.sidebar.value.enabled
  {
    var filters := FS.Snapshot(p.sidebar.value);
    Follow(p.(session := S.ApplyFilters(p.session, filters)))
  }

  /** "Clear All": the panel resets, the page shows the original rows, and the panel follows. */
  function OnClear(p: Page): (q: Page)
    requires p.sidebar.Some?
    ensures q.session.original == p.session.original && q.session.displayed == p.session.original
    ensures !q.session.filtersActive && q.session.activeFilters == map[] && q.session.enabled == {Similarity}
    ensures q.sidebar == Some(FS.Refresh(FS.Clear(p.sidebar.value), p.session.original, PanelValues))
    ensures q.sidebar.value.enabled == {Similarity}
  {
    Follow(Page(S.ClearFilters(p.session), Some(FS.Clear(p.sidebar.value))))
  }

  /** Every transition keeps the page invariant. */
  lemma GoodPreserved(p: Page, rows: seq<Row>, metric: string, a: Attr, r: Range, similaritySearch: bool)
    requires Good(p)
    ensures Good(ToggleSidebar(p))
    ensures Good(SelectAction(p, similaritySearch))
    ensures Good(OnResults(p, rows, metric))
    ensures p.sidebar.Some? ==> Good(OnToggle(p, a)) && Good(OnEdit(p, a, r)) && Good(OnApply(p)) && Good(OnClear(p))
  {
    FS.WellformedPreserved(FS.Initial(), p.session.displayed, PanelValues, a, r);
    if p.sidebar.Some? {
      var f := p.sidebar.value;
      FS.WellformedPreserved(f, rows, PanelValues, a, r);
      FS.WellformedPreserved(f, S.ApplyFilters(p.session, FS.Snapshot(f)).displayed, PanelValues, a, r);
      FS.WellformedPreserved(FS.Clear(f), p.session.original, PanelValues, a, r);
    }
  }

  /**
   * After an apply the panel's bounds follow the filtered rows: an attribute with usable
   * values among them gets their padded bound, every other attribute keeps its bound.
   * An apply that keeps no rows leaves the panel's bounds as they were.
   */
  lemma BoundsFollowDisplayed(p: Page, a: Attr)
    requires p.sidebar.Some? && FS.Wellformed(p.sidebar.value)
    ensures var q := OnApply(p);
      var shown := q.session.displayed;
      && q.sidebar.Some?
      && (HasUsable(shown, a, PanelValues) ==> |Values(shown, a, PanelValues)| > 0 && q.sidebar.value.bounds[a] == PaddedBound(Values(shown, a, PanelValues)))
      && (!HasUsable(shown, a, PanelValues) ==> q.sidebar.value.bounds[a] == p.sidebar.value.bounds[a])
      && (shown == [] ==> q.sidebar.value == p.sidebar.value)
  {
  }

  /** After an apply, the page's enabled flags are the panel's, and the header counts them. */
  lemma EnabledAgreeAfterApply(p: Page)
    requires p.sidebar.Some? && FS.Wellformed(p.sidebar.value)
    ensures var q := OnApply(p);
      && q.sidebar.Some?
      && q.session.enabled == q.sidebar.value.enabled
      && S.FiltersAppliedCount(q.session) == Some(|q.sidebar.value.enabled|)
      && q.session.original == p.session.original
  {
    var filters := FS.Snapshot(p.sidebar.value);
    S.AppliedCountAfterApply(p.session, filters);
  }

  /** Every usable value of a NaN-free list lies inside the list's padded bound. */
  lemma UsableValueInPaddedBound(rows: seq<Row>, a: Attr, r: Row)
    requires r in rows && Usable(SkipMissingAndNaN, Field(r, a))
    ensures |Values(rows, a, SkipMissingAndNaN)| > 0
    ensures InRange(Field(r, a), PaddedBound(Values(rows, a, SkipMissingAndNaN)))
  {
    ValueBetweenExtremes(rows, a, r);
    ValueInPaddedBound(Field(r, a), Values(rows, a, SkipMissingAndNaN));
  }

  lemma ValueInPaddedBound(v: Val, vs: seq<Val>)
    requires |vs| > 0 && MathMin(vs).Num? && MathMax(vs).Num?
    requires ToNumber(v).Num? && MathMin(vs).r <= ToNumber(v).r <= MathMax(vs).r
    ensures InRange(v, PaddedBound(vs))
  {
    PaddedBoundNumeric(vs, MathMin(vs).r, MathMax(vs).r);
    InPaddedRange(v, MathMin(vs).r, MathMax(vs).r);
  }

  lemma ValueBetweenExtremes(rows: seq<Row>, a: Attr, r: Row)
    requires r in rows && Usable(SkipMissingAndNaN, Field(r, a))
    ensures var vs := Values(rows, a, SkipMissingAndNaN);
      && |vs| > 0 && MathMin(vs).Num? && MathMax(vs).Num?
      && ToNumber(Field(r, a)).Num? && MathMin(vs).r <= ToNumber(Field(r, a)).r <= MathMax(vs).r
  {
    var f := SkipMissingAndNaN;
    ValuesMembers(rows, a, f);
    SkipNaNValuesNumeric(rows, a);
    MinIsLeastValue(rows, a, f);
    MaxIsGreatestValue(rows, a, f);
  }

  lemma InPaddedRange(v: Val, mn: real, mx: real)
    requires ToNumber(v).Num? && mn <= ToNumber(v).r <= mx
    ensures InRange(v, Range(Num(mn), Num(mx + (mx - mn) * 0.05)))
  {
    CompareWithNumber(v, mn);
    CompareWithNumber(v, mx + (mx - mn) * 0.05);
  }

  /**
   * After a clear, the panel's snapshot holds only `similarity`, with the bound the panel
   * re-derived from the original rows.
   */
  lemma ClearedSnapshot(p: Page)
    requires p.sidebar.Some? && FS.Wellformed(p.sidebar.value)
    requires HasUsable(p.session.original, Similarity, PanelValues)
    ensures |Values(p.session.original, Similarity, PanelValues)| > 0
    ensures OnClear(p).sidebar.Some? && FS.Wellformed(OnClear(p).sidebar.value)
    ensures FS.Snapshot(OnClear(p).sidebar.value) == map[Similarity := PaddedBound(Values(p.session.original, Similarity, PanelValues))]
  {
    FS.ClearedRefreshSnapshot(p.sidebar.value, p.session.original, PanelValues);
    assert OnClear(p).sidebar.value == FS.Refresh(FS.Clear(p.sidebar.value), p.session.original, PanelValues);
  }

  /**
   * Clear followed by apply shows the original rows again, provided every original row has
   * a usable `similarity`: the cleared panel sends only `similarity`, with the bound it
   * re-derived from those very rows.
   */
  lemma ClearThenApplyRestores(p: Page)
    requires p.sidebar.Some? && FS.Wellformed(p.sidebar.value)
    requires forall r | r in p.session.original :: Usable(PanelValues, Field(r, Similarity))
    ensures OnClear(p).sidebar.Some? && FS.Wellformed(OnClear(p).sidebar.value)
    ensures OnApply(OnClear(p)).session.displayed == p.session.original
  {
    var rows := p.session.original;
    var a := Similarity;
    FS.WellformedPreserved(FS.Clear(p.sidebar.value), rows, PanelValues, a, Range(Null, Null));
    if rows == [] {
      ApplyNoFilters(rows);
      assert Apply(rows, FS.Snapshot(OnClear(p).sidebar.value)) == [];
    } else {
      assert HasUsable(rows, a, PanelValues) by {
        assert rows[0] in rows;
      }
      ClearedSnapshot(p);
      var b := PaddedBound(Values(rows, a, PanelValues));
      forall r | r in rows ensures Passes(r, map[a := b]) {
        UsableValueInPaddedBound(rows, a, r);
      }
      ApplyAllPass(rows, map[a := b]);
    }
  }

  /**
   * The other side of `ClearThenApplyRestores`: clear followed by apply always sends the
   * `similarity` range, so a row whose `similarity` is missing or NaN is lost.
   */
  lemma ClearThenApplyDropsMissing(p: Page, r: Row)
    requires p.sidebar.Some? && FS.Wellformed(p.sidebar.value)
    requires r in p.session.original && (Field(r, Similarity).Absent? || Field(r, Similarity).NaN?)
    ensures OnClear(p).sidebar.Some? && FS.Wellformed(OnClear(p).sidebar.value)
    ensures r !in OnApply(OnClear(p)).session.displayed
  {
    var rows := p.session.original;
    FS.WellformedPreserved(FS.Clear(p.sidebar.value), rows, PanelValues, Similarity, Range(Null, Null));
    var f := OnClear(p).sidebar.value;
    assert Similarity in FS.Snapshot(f);
    MissingFails(r, FS.Snapshot(f), Similarity);
  }

  /**
   * A `null` similarity compares as 0, so it is lost too when the rows hold a usable
   * similarity and every usable similarity is positive: the re-derived lower bound is then
   * above 0.
   */
  lemma ClearThenApplyDropsNull(p: Page, r: Row)
    requires p.sidebar.Some? && FS.Wellformed(p.sidebar.value)
    requires r in p.session.original && Field(r, Similarity) == Null
    requires HasUsable(p.session.original, Similarity, PanelValues)
    requires forall x | x in p.session.original && Usable(PanelValues, Field(x, Similarity)) ::
      ToNumber(Field(x, Similarity)).Num? && ToNumber(Field(x, Similarity)).r > 0.0
    ensures OnClear(p).sidebar.Some? && FS.Wellformed(OnClear(p).sidebar.value)
    ensures r !in OnApply(OnClear(p)).session.displayed
  {
    var rows := p.session.original;
    var a := Similarity;
    ClearedSnapshot(p);
    var vs := Values(rows, a, PanelValues);
    SkipNaNValuesNumeric(rows, a);
    MinIsLeastValue(rows, a, PanelValues);
    var b := PaddedBound(vs);
    assert b.lo == MathMin(vs) && MathMin(vs).r > 0.0;
    NullAsZero(b);
    assert !Passes(r, map[a := b]);
  }

  /** The smallest case: the rows 0.5 and `null` come back from clear-then-apply without the `null` row. */
  lemma ClearThenApplyDropsNullExample()
    ensures var p := Page(S.NewResults(S.Initial(), [map["similarity" := Num(0.5)], map["similarity" := Null]], "Tanimoto"), Some(FS.Initial()));
      OnApply(OnClear(p)).session.displayed != p.session.original
  {
    var half: Row := map["similarity" := Num(0.5)];
    var none: Row := map["similarity" := Null];
    var rows := [half, none];
    var p := Page(S.NewResults(S.Initial(), rows, "Tanimoto"), Some(FS.Initial()));
    assert Field(half, Similarity) == Num(0.5) && Field(none, Similarity) == Null;
    assert HasUsable(rows, Similarity, PanelValues) by {
      assert half in rows;
    }
    ClearThenApplyDropsNull(p, none);
    assert none in p.session.original;
  }
}
