/**
 * The editor page and its search dialog together: a successful search hands its rows to
 * the page, which shows them unfiltered and lets a mounted filter panel follow them.
 */
module App {
  import opened Wrappers
  import opened JsValue
  import opened Attributes
  import opened RangeDerive
  import opened Normalise
  import FS = FilterState
  import S = Session
  import P = Page
  import SS = SimilaritySearch

  /** `onResultsFound(formattedResults, similarityMethod)` is wired to the page's results handler. */
  function Deliver(p: P.Page, o: SS.Outcome): (q: P.Page)
    ensures o.delivered.None? ==> q == p
  {
    match o.delivered
    case None => p
    case Some(d) => P.OnResults(p, d.rows, d.metric)
  }

  /**
   * After a successful search the page shows exactly the normalised results under the
   * chosen metric, no filter is active, and a mounted panel's bounds come from those rows.
   */
  lemma SuccessfulSearchShowsResults(p: P.Page, st: SS.SearchState, smiles: string, queryId: Val, filename: Val,
                                     withFilters: bool, data: SS.Data, parse: Parser)
    requires P.Good(p) && FS.Wellformed(st.filter) && smiles != "" && data.success
    ensures var o := SS.RunSearch(st, smiles, queryId, filename, withFilters, SS.Received(data), parse);
      var q := Deliver(p, o);
      && P.Good(q)
      && q.session.original == NormaliseResults(parse, data.results)
      && q.session.displayed == NormaliseResults(parse, data.results)
      && !q.session.filtersActive && q.session.showResults
      && q.session.searchMethod == st.metric
      && q.sidebar.Some? == p.sidebar.Some?
      && (q.sidebar.Some? ==> forall a | HasUsable(q.session.displayed, a, P.PanelValues) ::
            a in q.sidebar.value.bounds && q.sidebar.value.bounds[a] == PaddedBound(Values(q.session.displayed, a, P.PanelValues)))
  {
    var o := SS.RunSearch(st, smiles, queryId, filename, withFilters, SS.Received(data), parse);
    var rows := NormaliseResults(parse, data.results);
    assert o.delivered == Some(SS.Delivery(rows, st.metric));
    P.GoodPreserved(p, rows, st.metric, Similarity, Range(Null, Null), true);
  }

  /** A failed search leaves the page as it was. */
  lemma FailedSearchKeepsPage(p: P.Page, st: SS.SearchState, smiles: string, queryId: Val, filename: Val,
                              withFilters: bool, response: SS.Response, parse: Parser)
    requires FS.Wellformed(st.filter)
    requires smiles == "" || !response.Received? || !response.data.success
    ensures Deliver(p, SS.RunSearch(st, smiles, queryId, filename, withFilters, response, parse)) == p
  {
  }
}
