# Similarity-result filter engine

A Dafny model of the client-side filtering of similarity-search results in the SuperGlue
molecule editor front end. Three React components are involved:

- **ChemicalEditor** (the editor page) keeps the rows returned by the last search. It
  filters them with a conjunctive, inclusive range test per attribute, restores them on
  "Clear All", and counts the applied filters in its header. It also lists the compound's
  CSV properties and highlights them by threshold.
- **SidebarFilter** (the filter panel on the page) derives slider bounds from the rows it is
  shown. It holds the selected range and the enabled flag of each attribute, and hands a
  snapshot of the enabled ranges to the page.
- **SimilaritySearch** (the search dialog) holds the same kind of filter state. It builds
  the search request, normalises the returned rows, derives its own bounds from them, and
  reports errors.

There are seven filtered attributes: similarity, binary_occ, cont_occ, low_gsh_prob,
med_gsh_prob, high_gsh_prob and selectivity. Values are JavaScript values (`JsValue.Val`).
Comparisons follow JavaScript's abstract relational comparison: `null` compares as 0, and
`undefined` and NaN fail every comparison. Numbers are exact reals, so
`[min, max + 0.05·(max − min)]` is computed without rounding. `parseFloat` on text is a
parameter (`Parser`), because its digit grammar is not part of the model.

Each handler and effect is one pure state transition. The modules are:

- `Page` wires the editor, the session and the panel together.
- `Session` is the editor's result state.
- `FilterState` is the state of either filter panel.
- `RangeDerive` is the bound derivation.
- `Evaluate` is the range filter.
- `Normalise` is result-row normalisation.
- `SimilaritySearch` is the dialog.
- `App` connects the dialog's output to the page.
- `CsvProperties`, `CardStyle` and `Labels` are the small presentation helpers.

The panel's bound effect is modelled as running after every change of the rows it is shown.
React runs it only when the array identity changes. There are two cases where React skips
it and the model does not. When the same array is shown again, the effect is idempotent
(`FilterState.RefreshIdempotent`). When "Clear All" restores `originalResults` while the
page already shows that array, the panel's bounds are still those the effect last derived
from it, whatever was toggled or edited since. Refreshing the cleared panel over the same
rows then changes nothing (`FilterState.ClearOfRefreshedIsSettled`). The panel is rendered
conditionally, so showing it mounts a fresh one: default state, then the effect.

"Clear All" followed by "Apply Filters" shows the original rows again when every original
row has a usable similarity (`Page.ClearThenApplyRestores`). The cleared panel always sends
the similarity range it derived with `undefined`, `null` and NaN skipped, and the filter
excludes a row whose value fails that range. So a row with a missing or NaN similarity is
lost (`Page.ClearThenApplyDropsMissing`). A row with a `null` similarity compares as 0. It
survives whenever the range covers 0, for example when some similarity is 0, which the
normaliser gives every result without one, or when no row has a usable similarity and the
bound the panel keeps covers 0, as the default [0, 1] does. It is lost when every usable similarity is positive
(`Page.ClearThenApplyDropsNull`, `Page.ClearThenApplyDropsNullExample`). This is how the
exclusion of missing values by the range test plays out, and the model keeps it.

## Model

| member | source | states |
|---|---|---|
| FilterState.Initial | superglue-front/src/components/SidebarFilter.jsx:17-42 | binary_occ starts at [-1, 5] and every other attribute at [0, 1]; the selections equal the bounds; only similarity is enabled |
| FilterState.Refresh | superglue-front/src/components/SidebarFilter.jsx:45-90 | no rows change nothing; an attribute with a usable value gets bound = selection = padded [min, max] of the values; every other attribute keeps its bound and selection; the flags are untouched |
| FilterState.RefreshIdempotent | superglue-front/src/components/SidebarFilter.jsx:84-88 | running the bound effect twice on the same rows equals running it once |
| FilterState.ClearOfRefreshedIsSettled | superglue-front/src/components/SidebarFilter.jsx:121-138 | a panel whose bounds came from the effect over some rows, cleared after any toggles and edits, is unchanged by running the effect over the same rows again |
| FilterState.Toggle | superglue-front/src/components/SidebarFilter.jsx:93-98 | exactly the toggled attribute's flag flips; bounds and selections stay |
| FilterState.ToggleTwice | superglue-front/src/components/SidebarFilter.jsx:93-98 | toggling the same attribute twice restores the state |
| FilterState.Edit | superglue-front/src/components/SidebarFilter.jsx:101-106 | the edited attribute's selection becomes the given pair unclamped; every other selection, the bounds and the flags stay |
| FilterState.EditLastWins | superglue-front/src/components/SidebarFilter.jsx:101-106 | a second edit of one attribute overrides the first |
| FilterState.EditsCommute | superglue-front/src/components/SidebarFilter.jsx:101-106 | edits of different attributes can be swapped |
| FilterState.Snapshot | superglue-front/src/components/SidebarFilter.jsx:109-118 | the snapshot's keys are exactly the enabled attributes, each mapped to its selected range |
| FilterState.Clear | superglue-front/src/components/SidebarFilter.jsx:121-138 | only similarity stays enabled; every selection is reset to its bound; bounds stay |
| FilterState.ClearThenSnapshot | superglue-front/src/components/SidebarFilter.jsx:121-138 | an apply right after a clear sends only similarity, with its full bound |
| FilterState.ClearedRefreshSnapshot | superglue-front/src/components/SidebarFilter.jsx:109-138 | a cleared panel refreshed over rows with a usable similarity sends only similarity, with the padded bound of those rows |
| FilterState.ClearForgetsEdits | superglue-front/src/components/SidebarFilter.jsx:121-138 | toggles, edits and earlier clears do not survive a clear |
| FilterState.WellformedPreserved | superglue-front/src/components/SidebarFilter.jsx:28-42 | every panel handler keeps an entry for each of the seven attributes in both maps |
| RangeDerive.ValuesMembers | superglue-front/src/components/SidebarFilter.jsx:56-58 | the collected values are exactly the rows' usable values of the attribute; the list is non-empty iff some row has one |
| RangeDerive.Derive | superglue-front/src/components/SidebarFilter.jsx:55-71 | the derived ranges have an entry exactly for each attribute that some row holds a usable value of |
| RangeDerive.DeriveDomain | superglue-front/src/components/ChemicalEditor.jsx:274 | an attribute gets a derived range iff some row holds a usable value for it, and that range is the padded bound of the values |
| RangeDerive.DeriveEmpty | superglue-front/src/components/SidebarFilter.jsx:46 | no rows derive no ranges |
| RangeDerive.MinIsLeastValue | superglue-front/src/components/SidebarFilter.jsx:62 | a numeric Math.min of the values is the least usable value, and some row holds it |
| RangeDerive.MaxIsGreatestValue | superglue-front/src/components/SidebarFilter.jsx:63 | a numeric Math.max of the values is the greatest usable value, and some row holds it |
| RangeDerive.SkipNaNValuesNumeric | superglue-front/src/components/SidebarFilter.jsx:58-63 | with NaN skipped, both Math.min and Math.max are numbers, and min <= max |
| RangeDerive.PaddedBoundNumeric | superglue-front/src/components/SidebarFilter.jsx:66-70 | on numeric extremes the bound is [mn, mx + (mx - mn) * 0.05] |
| RangeDerive.DeriveBoundIsPaddedMinMax | superglue-front/src/components/ChemicalEditor.jsx:269-286 | with undefined, null and NaN skipped, the lower bound is the minimum value; the upper bound is at least the maximum, with equality iff min = max |
| RangeDerive.DeriveSkipMissingNaN | superglue-front/src/components/SimilaritySearch.jsx:67-74 | without the NaN check, a single NaN value makes that attribute's dialog bound [NaN, NaN] |
| RangeDerive.DeriveFiltersAgree | superglue-front/src/components/SimilaritySearch.jsx:67-69 | when no value is NaN, the dialog and the panel collect the same values |
| RangeDerive.DeriveOrderIndependent | superglue-front/src/components/SidebarFilter.jsx:55-71 | the derived ranges depend only on which rows are present, not on their order or repetition |
| JsValue.ToNumber | superglue-front/src/components/ChemicalEditor.jsx:320 | the operand conversion yields a number or NaN; numbers are kept, undefined becomes NaN, null becomes 0 |
| JsValue.CompareWithNumber | superglue-front/src/components/ChemicalEditor.jsx:320 | against a number, >= and <= compare the converted operand numerically and fail on NaN |
| JsValue.MathMinSpec | superglue-front/src/components/SidebarFilter.jsx:62 | Math.min is a number iff every argument converts to one; it is then attained and least; otherwise it is NaN |
| JsValue.MathMaxSpec | superglue-front/src/components/SidebarFilter.jsx:63 | Math.max is a number iff every argument converts to one; it is then attained and greatest; otherwise it is NaN |
| JsValue.MathMinMaxSetDetermined | superglue-front/src/components/SidebarFilter.jsx:62-63 | Math.min and Math.max depend only on the set of arguments |
| JsValue.ParseFloat | superglue-front/src/components/ChemicalEditor.jsx:373 | parseFloat yields a number or NaN; a number is kept; text goes through the parser |
| Evaluate.Apply | superglue-front/src/components/ChemicalEditor.jsx:315-322 | never more rows; a kept row is an input row passing every range; every passing input row is kept |
| Evaluate.ApplyIsSubseq | superglue-front/src/components/ChemicalEditor.jsx:315-322 | the kept rows are an order-preserving subsequence of the input |
| Evaluate.ApplyCounts | superglue-front/src/components/ChemicalEditor.jsx:315-322 | a passing row is kept as often as it occurs; a failing row never is |
| Evaluate.ApplyNoFilters | superglue-front/src/components/ChemicalEditor.jsx:317 | an empty filter map keeps every row |
| Evaluate.ApplyAllPass | superglue-front/src/components/ChemicalEditor.jsx:315-322 | when every row passes, filtering is the identity |
| Evaluate.ApplyExtends | superglue-front/src/components/ChemicalEditor.jsx:317-321 | filtering by a larger map equals filtering the already filtered rows by it |
| Evaluate.ApplyMonotone | superglue-front/src/components/ChemicalEditor.jsx:317-321 | a larger filter map keeps a subsequence of what a smaller one keeps |
| Evaluate.ApplyAddKey | superglue-front/src/components/ChemicalEditor.jsx:317-321 | adding one attribute never increases the number of rows kept |
| Evaluate.MissingFails | superglue-front/src/components/ChemicalEditor.jsx:318-320 | an absent or NaN value fails any range on its attribute |
| Evaluate.NullAsZero | superglue-front/src/components/ChemicalEditor.jsx:320 | a null value passes iff both ends are numeric and lo <= 0 <= hi |
| Evaluate.NumberInRange | superglue-front/src/components/ChemicalEditor.jsx:320 | a number passes a numeric range iff lo <= x <= hi, both ends inclusive |
| Session.NewResults | superglue-front/src/components/ChemicalEditor.jsx:255-263 | displayed = original = the new rows; filters are inactive and empty; the table is shown with the search metric |
| Session.ApplyFilters | superglue-front/src/components/ChemicalEditor.jsx:298-333 | shows the filtered original rows in order with their multiplicities; the original rows stay; a flag is set iff its key is in the map |
| Session.ClearFilters | superglue-front/src/components/ChemicalEditor.jsx:336-351 | shows the original rows; filters are inactive and empty; only similarity is enabled |
| Session.AppliedCountAfterApply | superglue-front/src/components/ChemicalEditor.jsx:569-572 | after an apply the header counts exactly the applied attributes |
| Session.NoCountWhenInactive | superglue-front/src/components/ChemicalEditor.jsx:569 | after new results or a clear, the header shows no count |
| Session.ClearAfterApplies | superglue-front/src/components/ChemicalEditor.jsx:349 | a clear restores the original rows after any number of applies |
| Session.ApplyForgetsPrevious | superglue-front/src/components/ChemicalEditor.jsx:315 | each apply filters the original rows, so an earlier apply has no effect |
| Page.Initial | superglue-front/src/components/ChemicalEditor.jsx:42-65 | the initial page satisfies the page invariant, has no panel mounted, and its session is the empty one: no original or displayed rows, filters inactive, no applied filters, only similarity enabled, no results shown |
| Page.ToggleSidebar | superglue-front/src/components/ChemicalEditor.jsx:582 | hiding unmounts the panel; showing mounts a fresh panel whose effect has run on the displayed rows; the session stays |
| Page.SelectAction | superglue-front/src/components/ChemicalEditor.jsx:230-252 | every menu action hides the panel; an action other than similarity also hides the results table; nothing else in the page state changes |
| Page.Follow | superglue-front/src/components/SidebarFilter.jsx:45-90 | the effect leaves the session and the flags alone; with no rows it changes nothing; an attribute with a usable displayed value gets bound = selection = the padded bound of the values; every other attribute keeps its bound and selection |
| Page.OnResults | superglue-front/src/components/ChemicalEditor.jsx:255-263 | new results become the original and displayed rows with filters inactive; the page flags stay; a mounted panel takes bound = selection from the new rows, its flags unchanged |
| Page.OnToggle | superglue-front/src/components/SidebarFilter.jsx:93-98 | a panel switch flips only that attribute's flag; bounds, selections and the displayed rows stay |
| Page.OnEdit | superglue-front/src/components/SidebarFilter.jsx:101-106 | a panel edit replaces only that attribute's selection; bounds, flags and the displayed rows stay |
| Page.OnApply | superglue-front/src/components/ChemicalEditor.jsx:298-333 | the page shows exactly the original rows that pass the panel's snapshot, in order; the original rows stay; filters are active and the page flags are the panel's |
| Page.OnClear | superglue-front/src/components/ChemicalEditor.jsx:336-351 | the page shows the original rows with filters inactive and only similarity enabled; the panel is cleared and then follows the original rows |
| Page.GoodPreserved | superglue-front/src/components/ChemicalEditor.jsx:607-626 | every page transition keeps the displayed rows derivable from the original ones and a mounted panel total |
| Page.BoundsFollowDisplayed | superglue-front/src/components/ChemicalEditor.jsx:619 | after an apply, the panel's bounds come from the filtered rows; attributes without a usable value keep their bound; an empty result changes nothing in the panel |
| Page.EnabledAgreeAfterApply | superglue-front/src/components/ChemicalEditor.jsx:308-312 | after an apply the page's flags equal the panel's, the header count is their number, and the original rows stay |
| Page.UsableValueInPaddedBound | superglue-front/src/components/SidebarFilter.jsx:60-69 | every NaN-free value lies inside the padded bound derived from its rows |
| Page.ClearedSnapshot | superglue-front/src/components/ChemicalEditor.jsx:336-351 | after Clear All on rows with a usable similarity, the panel's snapshot holds only similarity, with the bound re-derived from the original rows |
| Page.ClearThenApplyRestores | superglue-front/src/components/SidebarFilter.jsx:121-138 | when every row has a usable similarity, a clear followed by an apply shows all the original rows again |
| Page.ClearThenApplyDropsMissing | superglue-front/src/components/ChemicalEditor.jsx:315-322 | after a clear, an apply loses every row whose similarity is missing or NaN |
| Page.ClearThenApplyDropsNull | superglue-front/src/components/ChemicalEditor.jsx:315-322 | after a clear, an apply loses a row whose similarity is null when the rows hold a usable similarity and all usable similarities are positive |
| Page.ClearThenApplyDropsNullExample | superglue-front/src/components/ChemicalEditor.jsx:315-322 | with the rows 0.5 and null, a clear followed by an apply does not show the original rows |
| Normalise.Converted | superglue-front/src/components/SimilaritySearch.jsx:170-174 | a string the parser accepts becomes that number; every other value is copied unchanged |
| Normalise.NormaliseRow | superglue-front/src/components/SimilaritySearch.jsx:154-179 | the keys are the result's keys except id/smiles/SMILES, plus id, cmpd_id, similarity and smiles; id defaults to Unknown; smiles is smiles, else SMILES, else ''; a copied cmpd_id or similarity overrides the defaulted one |
| Normalise.NormaliseResults | superglue-front/src/components/SimilaritySearch.jsx:154 | the count and order of the results are preserved, each row normalised |
| Normalise.AttributesParsed | superglue-front/src/components/SimilaritySearch.jsx:170-174 | text left in a normalised attribute is text the parser rejects |
| Normalise.MissingSimilarityIsZero | superglue-front/src/components/SimilaritySearch.jsx:160-162 | a result without similarity gets the number 0 |
| SimilaritySearch.Initial | superglue-front/src/components/SimilaritySearch.jsx:20-54 | the dialog starts with Tanimoto, no previous rows, no error, and the filter panel's default state |
| SimilaritySearch.SelectMetric | superglue-front/src/components/SimilaritySearch.jsx:266-279 | choosing one of the seven metrics changes only the metric |
| SimilaritySearch.ToggleFilter | superglue-front/src/components/SimilaritySearch.jsx:215-220 | exactly one dialog flag flips; nothing else changes |
| SimilaritySearch.EditFilter | superglue-front/src/components/SimilaritySearch.jsx:223-228 | exactly one dialog selection is replaced; nothing else changes |
| SimilaritySearch.FollowPrevious | superglue-front/src/components/SimilaritySearch.jsx:57-102 | the dialog's effect leaves the metric, rows, error and flags alone; with no rows it changes nothing; an attribute with a non-missing value gets bound = selection = the padded bound of the values; every other attribute keeps its bound and selection |
| SimilaritySearch.StatusMessage | superglue-front/src/components/SimilaritySearch.jsx:144-147 | the message names the status in decimal digits without a leading zero that read back as the status, followed by the response text |
| SimilaritySearch.RunSearch | superglue-front/src/components/SimilaritySearch.jsx:105-202 | an empty query fails with its message and sends nothing; filters are sent iff the search is filtered, and then they are the snapshot; rows are delivered iff the response succeeds, and then they are the normalised results |
| SimilaritySearch.FilteredRequestKeys | superglue-front/src/components/SimilaritySearch.jsx:124-131 | a filtered request's filter keys are exactly the enabled attributes, each with its selected range |
| SimilaritySearch.FailureKeepsState | superglue-front/src/components/SimilaritySearch.jsx:193-199 | a failed search keeps the previous rows and the filter state and leaves the dialog open |
| SimilaritySearch.SearchBoundsFollowRows | superglue-front/src/components/SimilaritySearch.jsx:57-102 | after a success, an attribute with a non-missing value gets bound = selection = the padded bound of the delivered rows' values, and [NaN, NaN] if one of them is NaN; an attribute without one keeps its bound and selection; the flags stay |
| App.Deliver | superglue-front/src/components/ChemicalEditor.jsx:832 | a search that delivers nothing leaves the page unchanged |
| App.FailedSearchKeepsPage | superglue-front/src/components/SimilaritySearch.jsx:193-199 | an empty query, a missing response or an unsuccessful one leaves the page unchanged |
| App.SuccessfulSearchShowsResults | superglue-front/src/components/SimilaritySearch.jsx:184-192 | after a successful search the page shows exactly the normalised results, unfiltered, under the search's metric, and a mounted panel takes its bounds from them |
| CsvProperties.IsBasicFieldSimplified | superglue-front/src/components/ChemicalEditor.jsx:102-117 | a key is basic iff, lower-cased, it equals a column name or "structure", or contains id, name or smiles |
| CsvProperties.Extract | superglue-front/src/components/ChemicalEditor.jsx:119-122 | every listed name has a value, and every key with a value is listed |
| CsvProperties.ExtractShown | superglue-front/src/components/ChemicalEditor.jsx:108-123 | a key is shown iff some entry has it with a non-basic key and a value other than undefined, null and '' |
| CsvProperties.ExtractKeepsOrderAndValues | superglue-front/src/components/ChemicalEditor.jsx:119-122 | the shown names keep the order of `Object.entries(sourceData)` without repeats, and each maps to its own value |
| CsvProperties.ShowProperties | superglue-front/src/components/ChemicalEditor.jsx:99-130 | without a CSV row nothing changes; otherwise, with the columns defaulting to cmpd_id and SMILES, a key is shown iff some entry has it with a non-basic key and a value other than undefined, null and '', so no shown key is a column, "structure", or id/name/SMILES-like; a key is among the rendered names iff it has a value; with distinct keys the shown names keep the order of `Object.entries(sourceData)` without repeats, each mapped to its own value |
| CardStyle.PropertyCardStyle | superglue-front/src/components/ChemicalEditor.jsx:373-376 | a value parseFloat turns into NaN is never highlighted |
| CardStyle.StyleMatchesRules | superglue-front/src/components/ChemicalEditor.jsx:372-390 | the style is that of the first rule (logp, weight, mw, psa) whose fragment the lower-cased key contains; the alogp and tpsa tests are redundant |
| CardStyle.MiddleBandPlain | superglue-front/src/components/ChemicalEditor.jsx:379-389 | a value inside every rule's band, both thresholds included, is not highlighted |
| CardStyle.UnmatchedKeyPlain | superglue-front/src/components/ChemicalEditor.jsx:389 | a key matching no rule is never highlighted |
| Labels.Split | superglue-front/src/components/SidebarFilter.jsx:142 | split gives at least one part, and no part contains the separator |
| Labels.SplitJoin | superglue-front/src/components/SidebarFilter.jsx:142-144 | joining the parts with the separator gives back the string |
| Labels.Capitalise | superglue-front/src/components/SidebarFilter.jsx:143 | a word keeps its length, and only its first character is upper-cased |
| Labels.FormatLabel | superglue-front/src/components/SidebarFilter.jsx:140-145 | the label equals reading the name character by character from the start of a word, and has the name's length |
| Labels.FormatLabelChars | superglue-front/src/components/SidebarFilter.jsx:140-145 | the label has the name's length; '_' becomes ' '; a character at the start or after '_' is upper-cased; the others are kept |
| Labels.StepOfAttribute | superglue-front/src/components/SidebarFilter.jsx:148-153 | the two occurrence attributes step by 0.1, all others by 0.01 |
| Labels.Step | superglue-front/src/components/SimilaritySearch.jsx:238-243 | the step is 0.1 iff the name is not similarity and contains occ, otherwise 0.01 |
| Text.Lower | superglue-front/src/components/ChemicalEditor.jsx:111 | lower-casing keeps the length and maps each character |
| Text.ContainsIff | superglue-front/src/components/ChemicalEditor.jsx:113 | includes holds iff the pattern occurs at some position |
| Text.ContainsTransitive | superglue-front/src/components/ChemicalEditor.jsx:378 | a string containing u contains every substring of u |
| Text.NatToStringRoundTrip | superglue-front/src/components/SimilaritySearch.jsx:146 | the decimal rendering of a status reads back as the status |

## Left out

- `Object.entries` lists integer-like keys first, in ascending order, then the other keys in insertion order; `CsvProperties` takes the entries in that order as given and does not model the reordering of a CSV row with numeric column names.
- The Ketcher iframe, `fetch`, `message` toasts, `console.log` and antd rendering are I/O or presentation.
  The search response is a parameter of `SimilaritySearch.RunSearch`.
- The `Math.random` fallback for a result's `key` field (SimilaritySearch.jsx:157) is nondeterministic and left out.
  The `key` field is not part of a normalised row.
- `formatPropertyValue`, `formatValue`, the slider tooltip and column `render` turn floats into text with `toFixed`.
  They are left out.
- React scheduling and batched `setState` are not modelled. Each handler or effect is one synchronous transition.
  The `isLoading` and `isSearching` flags only drive spinners and are left out.
- The `getSmiles` call, the `searchQuery` update after new results, and the tab and mode strings are left out.
  They concern the editor iframe, not filtering.
- The backend (Flask routes, SQLite, RDKit) is not part of this model.
- Floating point is not modelled: numbers are exact reals, and infinities and rounding are left out.
- JsValue.ToNumber: a string converts to 0 when blank and to NaN otherwise. The numeric-string case of `Number(s)` is
  left out, because every string `parseFloat` accepts has already been converted by the normaliser.
- JsValue.ParseFloat: a number is returned unchanged, so the round trip through its decimal text is assumed exact.
  `parseFloat` on text is the `Parser` parameter.
- Text.Lower: only ASCII letters are case-mapped; Unicode case mapping is left out.
- JsValue.StrLess compares strings by character order, which equals code-unit order for the characters modelled.
- The dead range computation in `handleSimilarityResults` (ChemicalEditor.jsx:266-287) is never stored. It equals
  `RangeDerive.Derive` with NaN skipped, and `Session.NewResults` ignores it.
- The "Show Results"/"Hide Results" toggle is not modelled, and neither is the rule that the filter buttons appear
  only with the results table on the similarity tab. `Page.ToggleSidebar` may be taken in any state.
- The order of keys within a row is not modelled. Rows are maps.
- Page.SelectAction: the `selectedTab` update and the dialog's `similaritySearchVisible` flag (ChemicalEditor.jsx:230-252)
  are not part of the page state. Its contract covers only the panel and the results table.
- `data.error` is taken to be a string, where "" stands for a missing message.
