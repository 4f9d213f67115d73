/**
 * The filter panel's state: the bound map (slider limits), the selected-range map and the
 * set of enabled attributes, with the panel's handlers as state-to-state functions.
 */
module FilterState {
  import opened JsValue
  import opened Attributes
  import opened RangeDerive

  datatype FilterState = FilterState(bounds: map<Attr, Range>, selected: map<Attr, Range>, enabled: set<Attr>)

  /** Both maps hold an entry for every attribute. */
  ghost predicate Wellformed(s: FilterState) {
    forall a: Attr :: a in s.bounds && a in s.selected
  }

  /** The starting bound of an attribute. */
  function DefaultBound(a: Attr): Range {
    if a == BinaryOcc then Range(Num(-1.0), Num(5.0)) else Range(Num(0.0), Num(1.0))
  }

  const DefaultRanges: map<Attr, Range> := map a | a in All :: DefaultBound(a)

  /** The attributes enabled initially and after a clear. */
  const DefaultEnabled: set<Attr> := {Similarity}

  /** The state a freshly mounted panel starts with. */
  function Initial(): (s: FilterState)
    ensures Wellformed(s)
    ensures s.bounds[BinaryOcc] == Range(Num(-1.0), Num(5.0))
    ensures forall a: Attr | a != BinaryOcc :: s.bounds[a] == Range(Num(0.0), Num(1.0))
    ensures s.selected == s.bounds
    ensures forall a: Attr :: a in s.enabled <==> a == Similarity
  {
    AllListsAll();
    FilterState(DefaultRanges, DefaultRanges, DefaultEnabled)
  }

  /** `{...prev, ...ranges}` on both the bound map and the selected map. */
  function Merge(s: FilterState, d: map<Attr, Range>): FilterState {
    FilterState(s.bounds + d, s.selected + d, s.enabled)
  }

  /**
   * The effect run when the panel's result set changes: nothing for an empty set; otherwise
   * every attribute with usable values gets its padded bound as both bound and selection,
   * and every other attribute keeps its bound and selection.
   */
  function Refresh(s: FilterState, rows: seq<Row>, f: ValueFilter): (t: FilterState)
    ensures |rows| == 0 ==> t == s
    ensures t.enabled == s.enabled
    ensures forall a | HasUsable(rows, a, f) ::
      && |Values(rows, a, f)| > 0
      && a in t.bounds && t.bounds[a] == PaddedBound(Values(rows, a, f))
      && a in t.selected && t.selected[a] == t.bounds[a]
    ensures forall a | !HasUsable(rows, a, f) ::
      && (a in t.bounds <==> a in s.bounds) && (a in s.bounds ==> t.bounds[a] == s.bounds[a])
      && (a in t.selected <==> a in s.selected) && (a in s.selected ==> t.selected[a] == s.selected[a])
  {
    forall a ensures a in Derive(rows, f) <==> HasUsable(rows, a, f)
      ensures HasUsable(rows, a, f) ==> |Values(rows, a, f)| > 0
      ensures a in Derive(rows, f) ==> Derive(rows, f)[a] == PaddedBound(Values(rows, a, f))
    {
      DeriveDomain(rows, f, a);
      ValuesMembers(rows, a, f);
    }
    if |rows| > 0 then Merge(s, Derive(rows, f)) else s
  }

  /** Running the effect twice on the same results is the same as running it once. */
  lemma RefreshIdempotent(s: FilterState, rows: seq<Row>, f: ValueFilter)
    ensures Refresh(Refresh(s, rows, f), rows, f) == Refresh(s, rows, f)
  {
    var t := Refresh(s, rows, f);
    var u := Refresh(t, rows, f);
    assert u.bounds == t.bounds;
    assert u.selected == t.selected;
  }

  /** `handleFilterToggle`: flips one attribute's flag. */
  function Toggle(s: FilterState, a: Attr): (t: FilterState)
    ensures forall b :: b in t.enabled <==> (if b == a then b !in s.enabled else b in s.enabled)
    ensures t.bounds == s.bounds && t.selected == s.selected
  {
    FilterState(s.bounds, s.selected, if a in s.enabled then s.enabled - {a} else s.enabled + {a})
  }

  /** Toggling an attribute twice restores the state. */
  lemma ToggleTwice(s: FilterState, a: Attr)
    ensures Toggle(Toggle(s, a), a) == s
  {
    assert Toggle(Toggle(s, a), a).enabled == s.enabled;
  }

  /** `handleFilterChange`: stores the new pair as given, with no clamping and no order check. */
  function Edit(s: FilterState, a: Attr, r: Range): (t: FilterState)
    ensures a in t.selected && t.selected[a] == r
    ensures forall b | b != a :: (b in t.selected <==> b in s.selected) && (b in s.selected ==> t.selected[b] == s.selected[b])
    ensures t.bounds == s.bounds && t.enabled == s.enabled
  {
    FilterState(s.bounds, s.selected[a := r], s.enabled)
  }

  /** A later edit of the same attribute overrides an earlier one. */
  lemma EditLastWins(s: FilterState, a: Attr, r1: Range, r2: Range)
    ensures Edit(Edit(s, a, r1), a, r2) == Edit(s, a, r2)
  {
  }

  /** Edits of different attributes do not interfere. */
  lemma EditsCommute(s: FilterState, a: Attr, ra: Range, b: Attr, rb: Range)
    requires a != b
    ensures Edit(Edit(s, a, ra), b, rb) == Edit(Edit(s, b, rb), a, ra)
  {
  }

  /** `handleApplyFilters`: the selected range of every enabled attribute. */
  function Snapshot(s: FilterState): (p: map<Attr, Range>)
    requires Wellformed(s)
    ensures p.Keys == s.enabled
    ensures forall a | a in p :: p[a] == s.selected[a]
  {
    AllListsAll();
    map a | a in All && a in s.enabled :: s.selected[a]
  }

  /** `handleClearFilters`: only `similarity` enabled, every selection back to its bound. */
  function Clear(s: FilterState): (t: FilterState)
    ensures t.bounds == s.bounds
    ensures t.selected == s.bounds
    ensures t.enabled == {Similarity}
  {
    FilterState(s.bounds, s.bounds, DefaultEnabled)
  }

  /**
   * A panel whose bounds are those a refresh over `rows` produced, whatever toggles and
   * edits happened since, is already settled once cleared: refreshing it over the same rows
   * changes nothing. So skipping the effect when Clear All restores the same array is
   * harmless.
   */
  lemma ClearOfRefreshedIsSettled(s: FilterState, u: FilterState, rows: seq<Row>, f: ValueFilter)
    requires u.bounds == Refresh(s, rows, f).bounds
    ensures Refresh(Clear(u), rows, f) == Clear(u)
  {
    if |rows| > 0 {
      var d := Derive(rows, f);
      var c := Clear(u);
      assert Refresh(c, rows, f) == Merge(c, d);
      assert u.bounds == s.bounds + d;
      UnionAgain(s.bounds, d);
      assert Merge(c, d) == FilterState(u.bounds + d, u.bounds + d, c.enabled);
    }
  }

  lemma UnionAgain<K, V>(m: map<K, V>, d: map<K, V>)
    ensures (m + d) + d == m + d
  {
  }

  /**
   * A cleared panel, refreshed over rows that hold a usable similarity, sends only
   * `similarity`, with the bound derived from those rows.
   */
  lemma ClearedRefreshSnapshot(u: FilterState, rows: seq<Row>, f: ValueFilter)
    requires Wellformed(u) && HasUsable(rows, Similarity, f)
    ensures |Values(rows, Similarity, f)| > 0
    ensures Wellformed(Refresh(Clear(u), rows, f))
    ensures Snapshot(Refresh(Clear(u), rows, f)) == map[Similarity := PaddedBound(Values(rows, Similarity, f))]
  {
    var c := Clear(u);
    var t := Refresh(c, rows, f);
    WellformedPreserved(u, rows, f, Similarity, Range(Null, Null));
    assert Wellformed(t);
    assert t.enabled == {Similarity};
    var b := PaddedBound(Values(rows, Similarity, f));
    assert t.selected[Similarity] == b;
    SnapshotOfSimilarity(t, b);
  }

  lemma SnapshotOfSimilarity(t: FilterState, b: Range)
    requires Wellformed(t) && t.enabled == {Similarity} && t.selected[Similarity] == b
    ensures Snapshot(t) == map[Similarity := b]
  {
    var snap := Snapshot(t);
    var m := map[Similarity := b];
    assert snap.Keys == m.Keys;
    assert forall k | k in snap :: snap[k] == m[k];
    MapsAgree(snap, m);
  }

  lemma MapsAgree<K, V>(x: map<K, V>, y: map<K, V>)
    requires x.Keys == y.Keys && forall k | k in x :: x[k] == y[k]
    ensures x == y
  {
  }

  /** After a clear, apply sends only `similarity`, with its full bound. */
  lemma ClearThenSnapshot(s: FilterState)
    requires Wellformed(s)
    ensures Wellformed(Clear(s))
    ensures Snapshot(Clear(s)) == map[Similarity := s.bounds[Similarity]]
  {
  }

  /** Toggles and edits since the last bound change do not survive a clear. */
  lemma ClearForgetsEdits(s: FilterState, a: Attr, r: Range)
    ensures Clear(Toggle(s, a)) == Clear(s)
    ensures Clear(Edit(s, a, r)) == Clear(s)
    ensures Clear(Clear(s)) == Clear(s)
  {
  }

  /** Every handler keeps an entry for every attribute in both maps. */
  lemma WellformedPreserved(s: FilterState, rows: seq<Row>, f: ValueFilter, a: Attr, r: Range)
    requires Wellformed(s)
    ensures Wellformed(Refresh(s, rows, f))
    ensures Wellformed(Toggle(s, a))
    ensures Wellformed(Edit(s, a, r))
    ensures Wellformed(Clear(s))
  {
  }
}
