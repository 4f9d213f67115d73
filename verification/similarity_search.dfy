/**
 * The similarity-search dialog: its own filter panel (bounds derived from the previous
 * search's rows, without a NaN check), the request it builds, and what it does with the
 * response. The network call itself is a parameter: the response is given.
 */
module SimilaritySearch {
  import opened Wrappers
  import opened JsValue
  import opened Text
  import opened Attributes
  import opened RangeDerive
  import opened Normalise
  import FS = FilterState

  /** The metrics the dialog's selector offers; "Tanimoto" is the initial choice. */
  const Metrics: seq<string> := ["Tanimoto", "Russel", "Sokal", "Cosine", "Dice", "Kulczynski", "McConnaughey"]

  const EmptyQueryMessage: string := "No molecule structure available for search"
  const NoMatchMessage: string := "No matching compounds found"

  datatype SearchState = SearchState(metric: string, filter: FS.FilterState, previous: seq<Row>, error: string)

  /** The dialog invariant: a metric from the selector and a filter panel with every entry. */
  ghost predicate Good(st: SearchState) {
    st.metric in Metrics && FS.Wellformed(st.filter)
  }

  function Initial(): (st: SearchState)
    ensures Good(st) && st.metric == "Tanimoto" && st.previous == [] && st.error == ""
    ensures st.filter == FS.Initial()
  {
    SearchState("Tanimoto", FS.Initial(), [], "")
  }

  /** The dialog's panel derives its bounds with only `undefined` and `null` skipped. */
  const DialogValues: ValueFilter := SkipMissing

  /** The body sent to the search service. `filters` is present only for a filtered search. */
  datatype Request = Request(querySmiles: string, queryId: Val, metric: string, filename: Val, filters: Option<map<Attr, Range>>)

  /** The decoded body of an ok response; an empty `error` stands for a missing or falsy one. */
  datatype Data = Data(success: bool, results: seq<Row>, error: string)

  datatype Response =
    | Rejected(message: string)         // the request or the body decoding threw
    | NotOk(status: nat, text: string)   // `!response.ok`
    | Received(data: Data)

  /** What the results page is handed: `onResultsFound(formattedResults, similarityMethod)`. */
  datatype Delivery = Delivery(rows: seq<Row>, metric: string)

  datatype Outcome = Outcome(state: SearchState, request: Option<Request>, delivered: Option<Delivery>, closed: bool)

  /** The selector's `onChange`. */
  function SelectMetric(st: SearchState, m: string): (t: SearchState)
    requires m in Metrics
    ensures Good(st) ==> Good(t)
    ensures t.metric == m && t.(metric := st.metric) == st
  {
    st.(metric := m)
  }

  /** `handleFilterToggle`: flips exactly one flag of the dialog's panel. */
  function ToggleFilter(st: SearchState, a: Attr): (t: SearchState)
    ensures forall b :: b in t.filter.enabled <==> (if b == a then b !in st.filter.enabled else b in st.filter.enabled)
    ensures t.filter.bounds == st.filter.bounds && t.filter.selected == st.filter.selected
    ensures t.(filter := st.filter) == st
  {
    st.(filter := FS.Toggle(st.filter, a))
  }

  /** `handleFilterChange`: replaces exactly one selected range, unchecked. */
  function EditFilter(st: SearchState, a: Attr, r: Range): (t: SearchState)
    ensures a in t.filter.selected && t.filter.selected[a] == r
    ensures forall b | b != a :: (b in t.filter.selected <==> b in st.filter.selected) && (b in st.filter.selected ==> t.filter.selected[b] == st.filter.selected[b])
    ensures t.filter.bounds == st.filter.bounds && t.filter.enabled == st.filter.enabled
    ensures t.(filter := st.filter) == st
  {
    st.(filter := FS.Edit(st.filter, a, r))
  }

  /** The effect on `previousResults`: a non-empty set re-derives the panel's bounds. */
  function FollowPrevious(st: SearchState): (t: SearchState)
    ensures t.metric == st.metric && t.previous == st.previous && t.error == st.error
    ensures |st.previous| == 0 ==> t == st
    ensures t.filter.enabled == st.filter.enabled
    ensures forall a | HasUsable(st.previous, a, DialogValues) ::
      && |Values(st.previous, a, DialogValues)| > 0
      && a in t.filter.bounds && t.filter.bounds[a] == PaddedBound(Values(st.previous, a, DialogValues))
      && a in t.filter.selected && t.filter.selected[a] == t.filter.bounds[a]
    ensures forall a | !HasUsable(st.previous, a, DialogValues) && a in st.filter.bounds && a in st.filter.selected ::
      && a in t.filter.bounds && t.filter.bounds[a] == st.filter.bounds[a]
      && a in t.filter.selected && t.filter.selected[a] == st.filter.selected[a]
  {
    st.(filter := FS.Refresh(st.filter, st.previous, DialogValues))
  }

  /** "Server responded with status: <status>. <text>" */
  function StatusMessage(status: nat, text: string): (m: string)
    ensures exists digits | IsDigits(digits) ::
      && m == "Server responded with status: " + digits + ". " + text
      && ParseDigits(digits) == status
      && |digits| >= 1 && (|digits| > 1 ==> digits[0] != '0')
  {
    NatToStringRoundTrip(status);
    var digits := NatToString(status);
    "Server responded with status: " + digits + ". " + text
  }

  /**
   * `runSearch(withFilters)`: checks for a query, builds the request, and turns the
   * response into the new dialog state, the rows handed to the results page, or an error.
   */
  function RunSearch(st: SearchState, smiles: string, queryId: Val, filename: Val, withFilters: bool,
                     response: Response, parse: Parser): (o: Outcome)
    requires FS.Wellformed(st.filter)
    ensures smiles == "" ==> o == Outcome(st.(error := EmptyQueryMessage), None, None, false)
    ensures smiles != "" ==> o.request.Some? && o.request.value.querySmiles == smiles && o.request.value.metric == st.metric
    ensures o.request.Some? ==> (o.request.value.filters.Some? <==> withFilters)
    ensures o.request.Some? && withFilters ==> o.request.value.filters.value == FS.Snapshot(st.filter)
    ensures o.delivered.Some? <==> smiles != "" && response.Received? && response.data.success
    ensures o.delivered.Some? ==>
      && o.delivered.value.rows == o.state.previous
      && o.delivered.value.rows == NormaliseResults(parse, response.data.results)
      && o.delivered.value.metric == st.metric
      && o.state.error == "" && o.closed
    ensures o.delivered.None? ==> o.state.previous == st.previous && o.state.filter == st.filter && !o.closed
    ensures o.state.metric == st.metric
    ensures FS.Wellformed(o.state.filter)
  {
    var cleared := st.(error := "");
    if smiles == "" then Outcome(cleared.(error := EmptyQueryMessage), None, None, false)
    else
      var request := Request(smiles, queryId, st.metric, filename, if withFilters then Some(FS.Snapshot(st.filter)) else None);
      match response
      case Rejected(m) => Outcome(cleared.(error := m), Some(request), None, false)
      case NotOk(status, text) => Outcome(cleared.(error := StatusMessage(status, text)), Some(request), None, false)
      case Received(data) =>
        if data.success then
          var rows := NormaliseResults(parse, data.results);
          FS.WellformedPreserved(st.filter, rows, DialogValues, Similarity, Range(Null, Null));
          Outcome(FollowPrevious(cleared.(previous := rows)), Some(request), Some(Delivery(rows, st.metric)), true)
        else
          Outcome(cleared.(error := if data.error != "" then data.error else NoMatchMessage), Some(request), None, false)
  }

  /** A filtered search sends exactly the enabled attributes, each with its selected range. */
  lemma FilteredRequestKeys(st: SearchState, smiles: string, queryId: Val, filename: Val, response: Response, parse: Parser)
    requires FS.Wellformed(st.filter) && smiles != ""
    ensures var o := RunSearch(st, smiles, queryId, filename, true, response, parse);
      && o.request.Some? && o.request.value.filters.Some?
      && o.request.value.filters.value.Keys == st.filter.enabled
      && forall a | a in o.request.value.filters.value :: o.request.value.filters.value[a] == st.filter.selected[a]
  {
  }

  /** Every failure leaves a message, keeps the previous rows and the panel, and hands nothing on. */
  lemma FailureKeepsState(st: SearchState, smiles: string, queryId: Val, filename: Val, withFilters: bool,
                          response: Response, parse: Parser)
    requires FS.Wellformed(st.filter)
    requires smiles == "" || response.NotOk? || (response.Received? && !response.data.success)
    ensures var o := RunSearch(st, smiles, queryId, filename, withFilters, response, parse);
      && o.delivered.None? && o.state.error != "" && !o.closed
      && o.state.previous == st.previous && o.state.filter == st.filter
  {
  }

  /**
   * After a successful search the dialog's bounds follow the new rows: an attribute whose
   * non-missing values include a NaN gets the bound [NaN, NaN], since this panel does not
   * skip NaN values; an attribute with a non-missing value gets the padded bound of those
   * values, selected as a whole; an attribute with no non-missing value keeps its bound and
   * its selection; which filters are switched on does not change.
   */
  lemma SearchBoundsFollowRows(st: SearchState, smiles: string, queryId: Val, filename: Val, withFilters: bool,
                               data: Data, parse: Parser, a: Attr)
    requires FS.Wellformed(st.filter) && smiles != "" && data.success
    ensures var o := RunSearch(st, smiles, queryId, filename, withFilters, Received(data), parse);
      var rows := o.state.previous;
      && (forall r | r in rows && Usable(DialogValues, Field(r, a)) && IsNaN(Field(r, a)) ::
            o.state.filter.bounds[a] == Range(NaN, NaN) && o.state.filter.selected[a] == Range(NaN, NaN))
      && (HasUsable(rows, a, DialogValues) ==>
            && |Values(rows, a, DialogValues)| > 0
            && o.state.filter.bounds[a] == PaddedBound(Values(rows, a, DialogValues))
            && o.state.filter.selected[a] == o.state.filter.bounds[a])
      && (!HasUsable(rows, a, DialogValues) ==>
            o.state.filter.bounds[a] == st.filter.bounds[a] && o.state.filter.selected[a] == st.filter.selected[a])
      && o.state.filter.enabled == st.filter.enabled
  {
    var o := RunSearch(st, smiles, queryId, filename, withFilters, Received(data), parse);
    var rows := NormaliseResults(parse, data.results);
    assert o.state.previous == rows;
    assert o.state.filter == FS.Refresh(st.filter, rows, DialogValues);
    DeriveDomain(rows, DialogValues, a);
    forall r | r in rows && Usable(DialogValues, Field(r, a)) && IsNaN(Field(r, a))
      ensures o.state.filter.bounds[a] == Range(NaN, NaN) && o.state.filter.selected[a] == Range(NaN, NaN)
    {
      DeriveSkipMissingNaN(rows, a, r);
      DeriveDomain(rows, DialogValues, a);
    }
  }
}
