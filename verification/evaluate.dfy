/**
 * Filter evaluation: the conjunctive, inclusive range filter the results page applies to
 * its retained original results.
 */
module Evaluate {
  import opened JsValue
  import opened Attributes

  /** `value >= range[0] && value <= range[1]`, with JavaScript's comparison. */
  predicate InRange(v: Val, r: Range) {
    AtLeast(v, r.lo) && AtMost(v, r.hi)
  }

  /** `enabledFilterKeys.every(...)`: the row satisfies every range in the filter map. */
  predicate Passes(row: Row, filters: map<Attr, Range>) {
    forall a | a in filters :: InRange(Field(row, a), filters[a])
  }

  /** `originalResults.filter(...)` */
  function Apply(rows: seq<Row>, filters: map<Attr, Range>): (kept: seq<Row>)
    ensures |kept| <= |rows|
    ensures forall x | x in kept :: x in rows && Passes(x, filters)
    ensures forall x | x in rows && Passes(x, filters) :: x in kept
  {
    if rows == [] then []
    else (if Passes(rows[0], filters) then [rows[0]] else []) + Apply(rows[1..], filters)
  }

  /** `xs` is `ys` with some elements left out, the rest in their original order. */
  predicate IsSubseq<T(==)>(xs: seq<T>, ys: seq<T>)
    decreases |ys|
  {
    if ys == [] then xs == []
    else (xs != [] && xs[0] == ys[0] && IsSubseq(xs[1..], ys[1..])) || IsSubseq(xs, ys[1..])
  }

  lemma {:induction false} SubseqTransitive<T>(xs: seq<T>, ys: seq<T>, zs: seq<T>)
    requires IsSubseq(xs, ys) && IsSubseq(ys, zs)
    ensures IsSubseq(xs, zs)
    decreases |zs|
  {
    if zs == [] {
    } else if ys != [] && ys[0] == zs[0] && IsSubseq(ys[1..], zs[1..]) {
      if xs != [] && xs[0] == ys[0] && IsSubseq(xs[1..], ys[1..]) {
        SubseqTransitive(xs[1..], ys[1..], zs[1..]);
      } else {
        SubseqTransitive(xs, ys[1..], zs[1..]);
      }
    } else {
      SubseqTransitive(xs, ys, zs[1..]);
    }
  }

  /** The kept rows are an order-preserving subsequence of the input. */
  lemma {:induction false} ApplyIsSubseq(rows: seq<Row>, filters: map<Attr, Range>)
    ensures IsSubseq(Apply(rows, filters), rows)
  {
    if rows != [] {
      ApplyIsSubseq(rows[1..], filters);
      var kept := Apply(rows, filters);
      if Passes(rows[0], filters) {
        assert kept[0] == rows[0] && kept[1..] == Apply(rows[1..], filters);
        assert IsSubseq(kept[1..], rows[1..]);
      } else {
        assert kept == Apply(rows[1..], filters);
        assert IsSubseq(kept, rows[1..]);
      }
    }
  }

  /** Each passing row is kept as often as it occurs, each failing row never. */
  lemma {:induction false} ApplyCounts(rows: seq<Row>, filters: map<Attr, Range>, x: Row)
    ensures multiset(Apply(rows, filters))[x] == if Passes(x, filters) then multiset(rows)[x] else 0
  {
    if rows != [] {
      ApplyCounts(rows[1..], filters, x);
      var head := if Passes(rows[0], filters) then [rows[0]] else [];
      var kept := Apply(rows[1..], filters);
      assert Apply(rows, filters) == head + kept;
      assert multiset(head + kept) == multiset(head) + multiset(kept);
      assert rows == [rows[0]] + rows[1..];
      assert multiset(rows) == multiset([rows[0]]) + multiset(rows[1..]);
    }
  }

  /** No filters: every row is kept. */
  lemma {:induction false} ApplyNoFilters(rows: seq<Row>)
    ensures Apply(rows, map[]) == rows
  {
    if rows != [] {
      ApplyNoFilters(rows[1..]);
    }
  }

  /** When every row passes, the filter is the identity. */
  lemma {:induction false} ApplyAllPass(rows: seq<Row>, filters: map<Attr, Range>)
    requires forall x | x in rows :: Passes(x, filters)
    ensures Apply(rows, filters) == rows
  {
    if rows != [] {
      assert rows[0] in rows;
      ApplyAllPass(rows[1..], filters);
    }
  }

  /** `big` holds every range of `small`, with the same bounds. */
  predicate Extends(big: map<Attr, Range>, small: map<Attr, Range>) {
    forall a | a in small :: a in big && big[a] == small[a]
  }

  /** Filtering by an extended map is filtering the already-filtered rows again. */
  lemma {:induction false} ApplyExtends(rows: seq<Row>, small: map<Attr, Range>, big: map<Attr, Range>)
    requires Extends(big, small)
    ensures Apply(rows, big) == Apply(Apply(rows, small), big)
  {
    if rows != [] {
      ApplyExtends(rows[1..], small, big);
      if Passes(rows[0], big) {
        assert Passes(rows[0], small);
      }
      var once := Apply(rows, small);
      if Passes(rows[0], small) {
        assert once == [rows[0]] + Apply(rows[1..], small);
        assert once[0] == rows[0] && once[1..] == Apply(rows[1..], small);
        assert Apply(once, big) == (if Passes(rows[0], big) then [rows[0]] else []) + Apply(once[1..], big);
      } else {
        assert once == Apply(rows[1..], small);
      }
    }
  }

  /**
   * Monotonicity: more ranges keep a subsequence of what fewer ranges keep, so never more
   * rows, and still in the input's order.
   */
  lemma ApplyMonotone(rows: seq<Row>, small: map<Attr, Range>, big: map<Attr, Range>)
    requires Extends(big, small)
    ensures IsSubseq(Apply(rows, big), Apply(rows, small))
    ensures IsSubseq(Apply(rows, big), rows)
    ensures |Apply(rows, big)| <= |Apply(rows, small)|
  {
    ApplyExtends(rows, small, big);
    ApplyIsSubseq(Apply(rows, small), big);
    ApplyIsSubseq(rows, small);
    SubseqTransitive(Apply(rows, big), Apply(rows, small), rows);
  }

  /** Enabling one more attribute never increases the number of rows kept. */
  lemma ApplyAddKey(rows: seq<Row>, filters: map<Attr, Range>, a: Attr, r: Range)
    requires a !in filters
    ensures |Apply(rows, filters[a := r])| <= |Apply(rows, filters)|
  {
    ApplyMonotone(rows, filters, filters[a := r]);
  }

  /** An absent or NaN value fails any range on its attribute. */
  lemma MissingFails(row: Row, filters: map<Attr, Range>, a: Attr)
    requires a in filters && (Field(row, a).Absent? || Field(row, a).NaN?)
    ensures !Passes(row, filters)
  {
    assert !InRange(Field(row, a), filters[a]);
  }

  /** A `null` value compares as 0: it passes a range exactly when the range holds 0. */
  lemma NullAsZero(r: Range)
    ensures InRange(Null, r) <==> ToNumber(r.lo).Num? && ToNumber(r.hi).Num? && ToNumber(r.lo).r <= 0.0 <= ToNumber(r.hi).r
  {
  }

  /** A numeric value and a numeric range compare as reals, both ends inclusive. */
  lemma NumberInRange(x: real, lo: real, hi: real)
    ensures InRange(Num(x), Range(Num(lo), Num(hi))) <==> lo <= x <= hi
  {
  }
}
