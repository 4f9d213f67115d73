/**
 * Range derivation: for each attribute, the usable values of a result set give the
 * bound `[min, max + 5% of (max - min)]`; an attribute without usable values gets no entry.
 */
module RangeDerive {
  import opened JsValue
  import opened Attributes

  /** Which values take part in a bound. */
  datatype ValueFilter =
    | SkipMissingAndNaN  // `val !== undefined && val !== null && !isNaN(val)`
    | SkipMissing        // `val !== undefined && val !== null`

  predicate Usable(f: ValueFilter, v: Val) {
    v != Absent && v != Null && (f.SkipMissing? || !IsNaN(v))
  }

  /** Some row holds a usable value of `a`. */
  predicate HasUsable(rows: seq<Row>, a: Attr, f: ValueFilter) {
    exists r | r in rows :: Usable(f, Field(r, a))
  }

  /** `rows.map(result => result[prop]).filter(...)` */
  function Values(rows: seq<Row>, a: Attr, f: ValueFilter): seq<Val> {
    if rows == [] then []
    else
      var v := Field(rows[0], a);
      (if Usable(f, v) then [v] else []) + Values(rows[1..], a, f)
  }

  /** The collected values are exactly the usable values of the rows. */
  lemma {:induction false} ValuesMembers(rows: seq<Row>, a: Attr, f: ValueFilter)
    ensures forall v :: v in Values(rows, a, f) <==> exists r | r in rows :: Field(r, a) == v && Usable(f, v)
    ensures |Values(rows, a, f)| > 0 <==> HasUsable(rows, a, f)
  {
    if rows != [] {
      ValuesMembers(rows[1..], a, f);
      assert rows == [rows[0]] + rows[1..];
      var vs := Values(rows, a, f);
      if Usable(f, Field(rows[0], a)) {
        assert vs[0] == Field(rows[0], a);
      }
    }
  }

  /** `[min, max + (max - min) * 0.05]` of a non-empty value list. */
  function PaddedBound(vs: seq<Val>): Range
    requires |vs| > 0
  {
    var mn := MathMin(vs);
    var mx := MathMax(vs);
    var buffer := Mul(Sub(mx, mn), Num(0.05));
    Range(mn, Add(mx, buffer))
  }

  /**
   * The `ranges` object built for the seven attributes: an entry exactly for each attribute
   * some row holds a usable value of.
   */
  function Derive(rows: seq<Row>, f: ValueFilter): (d: map<Attr, Range>)
    ensures forall a: Attr :: a in d <==> HasUsable(rows, a, f)
  {
    forall a: Attr ensures a in All && (|Values(rows, a, f)| > 0 <==> HasUsable(rows, a, f)) {
      ValuesMembers(rows, a, f);
      AllListsEveryAttr(a);
    }
    map a | a in All && |Values(rows, a, f)| > 0 :: PaddedBound(Values(rows, a, f))
  }

  /** An attribute has an entry exactly when some row holds a usable value for it. */
  lemma DeriveDomain(rows: seq<Row>, f: ValueFilter, a: Attr)
    ensures a in Derive(rows, f) <==> HasUsable(rows, a, f)
    ensures a in Derive(rows, f) ==> Derive(rows, f)[a] == PaddedBound(Values(rows, a, f))
  {
    ValuesMembers(rows, a, f);
    AllListsEveryAttr(a);
  }

  /** No rows, no entries: every prior bound has to be kept. */
  lemma DeriveEmpty(f: ValueFilter)
    ensures Derive([], f) == map[]
  {
    forall a | a in Derive([], f) ensures false {
      DeriveDomain([], f, a);
    }
  }

  /** `m` is the least numeric value of `a` among the rows' usable values, and occurs. */
  ghost predicate IsLeastValue(rows: seq<Row>, a: Attr, f: ValueFilter, m: real) {
    && (exists r | r in rows :: Usable(f, Field(r, a)) && ToNumber(Field(r, a)) == Num(m))
    && (forall r | r in rows && Usable(f, Field(r, a)) :: ToNumber(Field(r, a)).Num? && m <= ToNumber(Field(r, a)).r)
  }

  /** `m` is the greatest numeric value of `a` among the rows' usable values, and occurs. */
  ghost predicate IsGreatestValue(rows: seq<Row>, a: Attr, f: ValueFilter, m: real) {
    && (exists r | r in rows :: Usable(f, Field(r, a)) && ToNumber(Field(r, a)) == Num(m))
    && (forall r | r in rows && Usable(f, Field(r, a)) :: ToNumber(Field(r, a)).Num? && m >= ToNumber(Field(r, a)).r)
  }

  /** A numeric `Math.min` of the collected values is the least value of the rows. */
  lemma MinIsLeastValue(rows: seq<Row>, a: Attr, f: ValueFilter)
    requires |Values(rows, a, f)| > 0 && MathMin(Values(rows, a, f)).Num?
    ensures IsLeastValue(rows, a, f, MathMin(Values(rows, a, f)).r)
  {
    var vs := Values(rows, a, f);
    ValuesMembers(rows, a, f);
    MathMinSpec(vs);
    var u :| u in vs && ToNumber(u) == MathMin(vs);
    var r :| r in rows && Field(r, a) == u && Usable(f, u);
    forall r' | r' in rows && Usable(f, Field(r', a))
      ensures ToNumber(Field(r', a)).Num? && MathMin(vs).r <= ToNumber(Field(r', a)).r
    {
      assert Field(r', a) in vs;
    }
  }

  /** A numeric `Math.max` of the collected values is the greatest value of the rows. */
  lemma MaxIsGreatestValue(rows: seq<Row>, a: Attr, f: ValueFilter)
    requires |Values(rows, a, f)| > 0 && MathMax(Values(rows, a, f)).Num?
    ensures IsGreatestValue(rows, a, f, MathMax(Values(rows, a, f)).r)
  {
    var vs := Values(rows, a, f);
    ValuesMembers(rows, a, f);
    MathMaxSpec(vs);
    var u :| u in vs && ToNumber(u) == MathMax(vs);
    var r :| r in rows && Field(r, a) == u && Usable(f, u);
    forall r' | r' in rows && Usable(f, Field(r', a))
      ensures ToNumber(Field(r', a)).Num? && MathMax(vs).r >= ToNumber(Field(r', a)).r
    {
      assert Field(r', a) in vs;
    }
  }

  /** With NaN values skipped, `Math.min` and `Math.max` of the collected values are numbers, in order. */
  lemma SkipNaNValuesNumeric(rows: seq<Row>, a: Attr)
    requires |Values(rows, a, SkipMissingAndNaN)| > 0
    ensures MathMin(Values(rows, a, SkipMissingAndNaN)).Num?
    ensures MathMax(Values(rows, a, SkipMissingAndNaN)).Num?
    ensures MathMin(Values(rows, a, SkipMissingAndNaN)).r <= MathMax(Values(rows, a, SkipMissingAndNaN)).r
  {
    var vs := Values(rows, a, SkipMissingAndNaN);
    ValuesMembers(rows, a, SkipMissingAndNaN);
    assert AllNumeric(vs);
    MathMinSpec(vs);
    MathMaxSpec(vs);
    var w :| w in vs && ToNumber(w) == MathMax(vs);
    assert MathMin(vs).r <= ToNumber(w).r;
  }

  /** On numeric extremes the padded bound is `[mn, mx + (mx - mn) * 0.05]`. */
  lemma PaddedBoundNumeric(vs: seq<Val>, mn: real, mx: real)
    requires |vs| > 0 && MathMin(vs) == Num(mn) && MathMax(vs) == Num(mx)
    ensures PaddedBound(vs) == Range(Num(mn), Num(mx + (mx - mn) * 0.05))
  {
    var hi := Add(Num(mx), Mul(Sub(Num(mx), Num(mn)), Num(0.05)));
    assert PaddedBound(vs) == Range(Num(mn), hi);
    PadNumbers(Num(mn), Num(mx));
  }

  lemma PadNumbers(mn: Val, mx: Val)
    requires mn.Num? && mx.Num?
    ensures Add(mx, Mul(Sub(mx, mn), Num(0.05))) == Num(mx.r + (mx.r - mn.r) * 0.05)
  {
  }

  /**
   * With NaN values skipped, an attribute's lower bound is the minimum of its values, and
   * its upper bound is at least the maximum, equal to it exactly when all values agree.
   */
  lemma DeriveBoundIsPaddedMinMax(rows: seq<Row>, a: Attr)
    requires HasUsable(rows, a, SkipMissingAndNaN)
    ensures a in Derive(rows, SkipMissingAndNaN)
    ensures var b := Derive(rows, SkipMissingAndNaN)[a];
      && b.lo.Num? && IsLeastValue(rows, a, SkipMissingAndNaN, b.lo.r)
      && b.hi.Num?
      && exists mx: real ::
        && IsGreatestValue(rows, a, SkipMissingAndNaN, mx)
        && b.hi.r >= mx
        && (b.hi.r == mx <==> b.lo.r == mx)
  {
    var f := SkipMissingAndNaN;
    DeriveDomain(rows, f, a);
    var vs := Values(rows, a, f);
    SkipNaNValuesNumeric(rows, a);
    MinIsLeastValue(rows, a, f);
    MaxIsGreatestValue(rows, a, f);
    var mn := MathMin(vs).r;
    var mx := MathMax(vs).r;
    PaddedBoundNumeric(vs, mn, mx);
    var b := Derive(rows, f)[a];
    assert b == PaddedBound(vs);
    assert b.lo == Num(mn) && b.hi == Num(mx + (mx - mn) * 0.05);
    PadAtLeastMax(mn, mx);
    assert IsGreatestValue(rows, a, f, mx);
  }

  /** The padded upper end is at least the maximum, and equals it exactly when the extremes agree. */
  lemma PadAtLeastMax(mn: real, mx: real)
    requires mn <= mx
    ensures mx + (mx - mn) * 0.05 >= mx
    ensures mx + (mx - mn) * 0.05 == mx <==> mn == mx
  {
  }

  /** Without the NaN check, one NaN-valued row makes both ends of that attribute's bound NaN. */
  lemma DeriveSkipMissingNaN(rows: seq<Row>, a: Attr, r: Row)
    requires r in rows && Usable(SkipMissing, Field(r, a)) && IsNaN(Field(r, a))
    ensures a in Derive(rows, SkipMissing)
    ensures Derive(rows, SkipMissing)[a] == Range(NaN, NaN)
  {
    DeriveDomain(rows, SkipMissing, a);
    ValuesMembers(rows, a, SkipMissing);
    var vs := Values(rows, a, SkipMissing);
    assert Field(r, a) in vs;
    MathMinSpec(vs);
    MathMaxSpec(vs);
  }

  /** When no value is NaN the two filters agree, so the loose variant derives the same bounds. */
  lemma DeriveFiltersAgree(rows: seq<Row>, a: Attr)
    requires forall r | r in rows && Usable(SkipMissing, Field(r, a)) :: !IsNaN(Field(r, a))
    ensures Values(rows, a, SkipMissing) == Values(rows, a, SkipMissingAndNaN)
  {
    if rows != [] {
      DeriveFiltersAgree(rows[1..], a);
    }
  }

  /** The derived bounds depend only on which rows there are, not on their order or repetition. */
  lemma DeriveOrderIndependent(rows1: seq<Row>, rows2: seq<Row>, f: ValueFilter)
    requires forall r :: r in rows1 <==> r in rows2
    ensures Derive(rows1, f) == Derive(rows2, f)
  {
    forall a | a in All
      ensures (|Values(rows1, a, f)| > 0) == (|Values(rows2, a, f)| > 0)
      ensures |Values(rows1, a, f)| > 0 ==> PaddedBound(Values(rows1, a, f)) == PaddedBound(Values(rows2, a, f))
    {
      ValuesMembers(rows1, a, f);
      ValuesMembers(rows2, a, f);
      if |Values(rows1, a, f)| > 0 {
        MathMinMaxSetDetermined(Values(rows1, a, f), Values(rows2, a, f));
      }
    }
  }
}
