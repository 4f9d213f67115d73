/**
 * The results page's session: the retained original results, the displayed (possibly
 * filtered) results, the applied filter map and the page's own enabled flags, with the
 * new-results, apply and clear handlers.
 */
module Session {
  import opened Wrappers
  import opened Attributes
  import opened Evaluate

  datatype Session = Session(
    original: seq<Row>,
    displayed: seq<Row>,
    filtersActive: bool,
    activeFilters: map<Attr, Range>,
    enabled: set<Attr>,
    showResults: bool,
    searchMethod: string)

  /** The page's state before any search. */
  function Initial(): Session {
    Session([], [], false, map[], {Similarity}, false, "")
  }

  /** The displayed rows are the original rows filtered by the applied map. */
  predicate Consistent(s: Session) {
    s.displayed == Apply(s.original, s.activeFilters)
  }

  /**
   * `handleSimilarityResults`: the incoming rows become both the original and the displayed
   * set, and no filter is active. The ranges the handler computes are never used, and its
   * enabled flags are left as they were.
   */
  function NewResults(s: Session, rows: seq<Row>, metric: string): (t: Session)
    ensures t.original == rows && t.displayed == rows
    ensures !t.filtersActive && t.activeFilters == map[]
    ensures t.showResults && t.searchMethod == metric
    ensures t.enabled == s.enabled
    ensures Consistent(t)
  {
    ApplyNoFilters(rows);
    Session(rows, rows, false, map[], s.enabled, true, metric)
  }

  /**
   * `handleApplyFilters`: the displayed rows become the original rows that satisfy every
   * range of `filters`, in their original order; the page's enabled flags follow the keys.
   */
  function ApplyFilters(s: Session, filters: map<Attr, Range>): (t: Session)
    ensures t.original == s.original
    ensures IsSubseq(t.displayed, s.original)
    ensures forall x :: multiset(t.displayed)[x] == if Passes(x, filters) then multiset(s.original)[x] else 0
    ensures filters == map[] ==> t.displayed == s.original
    ensures t.filtersActive && t.activeFilters == filters
    ensures forall a: Attr :: a in t.enabled <==> a in filters
    ensures t.showResults == s.showResults && t.searchMethod == s.searchMethod
    ensures Consistent(t)
  {
    ApplyIsSubseq(s.original, filters);
    forall x ensures multiset(Apply(s.original, filters))[x] == if Passes(x, filters) then multiset(s.original)[x] else 0 {
      ApplyCounts(s.original, filters, x);
    }
    ApplyNoFilters(s.original);
    s.(displayed := Apply(s.original, filters), filtersActive := true, activeFilters := filters, enabled := filters.Keys)
  }

  /** `handleClearFilters`: the original rows are shown again and only `similarity` is enabled. */
  function ClearFilters(s: Session): (t: Session)
    ensures t.original == s.original && t.displayed == s.original
    ensures !t.filtersActive && t.activeFilters == map[]
    ensures t.enabled == {Similarity}
    ensures t.showResults == s.showResults && t.searchMethod == s.searchMethod
    ensures Consistent(t)
  {
    ApplyNoFilters(s.original);
    s.(displayed := s.original, filtersActive := false, activeFilters := map[], enabled := {Similarity})
  }

  /** The header's "Filters Applied: n" count, shown only while filters are active. */
  function FiltersAppliedCount(s: Session): Option<nat> {
    if s.filtersActive then Some(|set a | a in s.activeFilters && a in s.enabled|) else None
  }

  /**
   * After an apply the count is the number of ranges applied, even when it is zero, while
   * the displayed count is separate: an empty map shows every row under "0 filters".
   */
  lemma AppliedCountAfterApply(s: Session, filters: map<Attr, Range>)
    ensures FiltersAppliedCount(ApplyFilters(s, filters)) == Some(|filters|)
    ensures filters == map[] ==> |ApplyFilters(s, filters).displayed| == |s.original|
  {
    var t := ApplyFilters(s, filters);
    assert (set a | a in t.activeFilters && a in t.enabled) == filters.Keys;
  }

  /** No count is shown after new results or a clear. */
  lemma NoCountWhenInactive(s: Session, rows: seq<Row>, metric: string)
    ensures FiltersAppliedCount(NewResults(s, rows, metric)) == None
    ensures FiltersAppliedCount(ClearFilters(s)) == None
  {
  }

  /** The original results survive any number of applies, and a clear restores them for display. */
  lemma ClearAfterApplies(s: Session, f1: map<Attr, Range>, f2: map<Attr, Range>)
    ensures ClearFilters(ApplyFilters(ApplyFilters(s, f1), f2)).displayed == s.original
  {
  }

  /** Applying a map replaces, not narrows, the previous filter: it always starts from the original rows. */
  lemma ApplyForgetsPrevious(s: Session, f1: map<Attr, Range>, f2: map<Attr, Range>)
    ensures ApplyFilters(ApplyFilters(s, f1), f2) == ApplyFilters(s, f2)
  {
  }
}
