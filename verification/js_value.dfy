/**
 * JavaScript values as they occur in search result rows, CSV cells and filter ranges,
 * together with the parts of JavaScript's semantics the filter engine depends on:
 * truthiness (`||`), `ToNumber`, the relational comparison, `Math.min`/`Math.max`,
 * numeric `-`, `*`, `+`, and `parseFloat`.
 *
 * Numbers are exact reals or NaN; IEEE rounding, infinities and -0 are abstracted away.
 */
module JsValue {
  import opened Wrappers

  /** `Absent` is `undefined`; a key missing from a row also reads as `Absent`. */
  datatype Val = Absent | Null | NaN | Num(r: real) | Bool(b: bool) | Str(s: string)

  /** `typeof v === 'number'` */
  predicate IsNumber(v: Val) {
    v.NaN? || v.Num?
  }

  /** The values `a || b` skips over. */
  predicate Truthy(v: Val) {
    match v
    case Absent => false
    case Null => false
    case NaN => false
    case Num(x) => x != 0.0
    case Bool(b) => b
    case Str(s) => s != ""
  }

  /** `a || b`: the first operand when it is truthy, else the second. */
  function Or(a: Val, b: Val): Val {
    if Truthy(a) then a else b
  }

  /**
   * The white-space and line-terminator characters `Number(s)` trims: tab, vertical tab,
   * form feed, space, no-break space, the byte-order mark, every other space separator
   * (U+1680, U+2000 to U+200A, U+202F, U+205F, U+3000), and the line terminators.
   */
  predicate IsJsSpace(c: char) {
    c in {
      ' ', '\t', '\n', '\r', '\U{B}', '\U{C}', '\U{A0}', '\U{1680}',
      '\U{2000}', '\U{2001}', '\U{2002}', '\U{2003}', '\U{2004}', '\U{2005}',
      '\U{2006}', '\U{2007}', '\U{2008}', '\U{2009}', '\U{200A}',
      '\U{2028}', '\U{2029}', '\U{202F}', '\U{205F}', '\U{3000}', '\U{FEFF}'}
  }

  predicate IsBlank(s: string) {
    forall i | 0 <= i < |s| :: IsJsSpace(s[i])
  }

  /**
   * JavaScript's `ToNumber`. On a string, the model gives 0 for a blank string and NaN
   * otherwise: that is `Number(s)` exactly for every string `parseFloat` rejects, and the
   * result-row normaliser converts every string `parseFloat` accepts before rows reach
   * a comparison.
   */
  function ToNumber(v: Val): (n: Val)
    ensures IsNumber(n)
    ensures IsNumber(v) ==> n == v
    ensures v.Absent? ==> n.NaN?
    ensures v.Null? ==> n == Num(0.0)
  {
    match v
    case Absent => NaN
    case Null => Num(0.0)
    case NaN => NaN
    case Num(_) => v
    case Bool(b) => Num(if b then 1.0 else 0.0)
    case Str(s) => if IsBlank(s) then Num(0.0) else NaN
  }

  /** `isNaN(v)` */
  predicate IsNaN(v: Val) {
    ToNumber(v).NaN?
  }

  /** String `<`: code-unit lexicographic order. */
  predicate StrLess(a: string, b: string)
    decreases |a|
  {
    if |a| == 0 then |b| > 0
    else if |b| == 0 then false
    else if a[0] != b[0] then a[0] < b[0]
    else StrLess(a[1..], b[1..])
  }

  /**
   * The abstract relational comparison `x < y`: two strings compare as text, anything
   * else as numbers; `None` is the `undefined` outcome of a NaN operand.
   */
  function Less(x: Val, y: Val): Option<bool> {
    if x.Str? && y.Str? then Some(StrLess(x.s, y.s))
    else
      var a := ToNumber(x);
      var b := ToNumber(y);
      if a.Num? && b.Num? then Some(a.r < b.r) else None
  }

  /** `x >= y`: false when the comparison is undefined. */
  predicate AtLeast(x: Val, y: Val) {
    Less(x, y) == Some(false)
  }

  /** `x <= y`: false when the comparison is undefined. */
  predicate AtMost(x: Val, y: Val) {
    Less(y, x) == Some(false)
  }

  /** Against a number, `>=` and `<=` are numeric and fail on NaN, `undefined` and blank-free text. */
  lemma CompareWithNumber(v: Val, y: real)
    ensures AtLeast(v, Num(y)) <==> ToNumber(v).Num? && ToNumber(v).r >= y
    ensures AtMost(v, Num(y)) <==> ToNumber(v).Num? && ToNumber(v).r <= y
  {
  }

  /** Numeric `x - y` */
  function Sub(x: Val, y: Val): Val {
    var a := ToNumber(x);
    var b := ToNumber(y);
    if a.Num? && b.Num? then Num(a.r - b.r) else NaN
  }

  /** Numeric `x * y` */
  function Mul(x: Val, y: Val): Val {
    var a := ToNumber(x);
    var b := ToNumber(y);
    if a.Num? && b.Num? then Num(a.r * b.r) else NaN
  }

  /** Numeric `x + y` (the operands here are never strings). */
  function Add(x: Val, y: Val): Val {
    var a := ToNumber(x);
    var b := ToNumber(y);
    if a.Num? && b.Num? then Num(a.r + b.r) else NaN
  }

  /** Every argument converts to a number. */
  predicate AllNumeric(vs: seq<Val>) {
    forall v | v in vs :: ToNumber(v).Num?
  }

  /** `Math.min(...vs)` for a non-empty argument list: NaN as soon as one argument is NaN. */
  function MathMin(vs: seq<Val>): Val
    requires |vs| > 0
  {
    var x := ToNumber(vs[0]);
    if |vs| == 1 then x
    else
      var m := MathMin(vs[1..]);
      if x.Num? && m.Num? then Num(if x.r <= m.r then x.r else m.r) else NaN
  }

  /** `Math.max(...vs)` for a non-empty argument list: NaN as soon as one argument is NaN. */
  function MathMax(vs: seq<Val>): Val
    requires |vs| > 0
  {
    var x := ToNumber(vs[0]);
    if |vs| == 1 then x
    else
      var m := MathMax(vs[1..]);
      if x.Num? && m.Num? then Num(if x.r >= m.r then x.r else m.r) else NaN
  }

  /** `Math.min` is a number exactly when every argument is, and then it is the least of them. */
  lemma {:induction false} MathMinSpec(vs: seq<Val>)
    requires |vs| > 0
    ensures MathMin(vs).Num? <==> AllNumeric(vs)
    ensures MathMin(vs).Num? ==> exists v | v in vs :: ToNumber(v) == MathMin(vs)
    ensures MathMin(vs).Num? ==> forall v | v in vs :: MathMin(vs).r <= ToNumber(v).r
    ensures !MathMin(vs).Num? ==> MathMin(vs).NaN?
  {
    if |vs| > 1 {
      MathMinSpec(vs[1..]);
      assert vs == [vs[0]] + vs[1..];
      var m := MathMin(vs[1..]);
      if m.Num? && ToNumber(vs[0]).Num? {
        var w :| w in vs[1..] && ToNumber(w) == m;
        assert w in vs;
      }
    }
  }

  /** `Math.max` is a number exactly when every argument is, and then it is the greatest of them. */
  lemma {:induction false} MathMaxSpec(vs: seq<Val>)
    requires |vs| > 0
    ensures MathMax(vs).Num? <==> AllNumeric(vs)
    ensures MathMax(vs).Num? ==> exists v | v in vs :: ToNumber(v) == MathMax(vs)
    ensures MathMax(vs).Num? ==> forall v | v in vs :: MathMax(vs).r >= ToNumber(v).r
    ensures !MathMax(vs).Num? ==> MathMax(vs).NaN?
  {
    if |vs| > 1 {
      MathMaxSpec(vs[1..]);
      assert vs == [vs[0]] + vs[1..];
      var m := MathMax(vs[1..]);
      if m.Num? && ToNumber(vs[0]).Num? {
        var w :| w in vs[1..] && ToNumber(w) == m;
        assert w in vs;
      }
    }
  }

  /** `Math.min` and `Math.max` see only which values are passed, not their order or repetition. */
  lemma MathMinMaxSetDetermined(us: seq<Val>, vs: seq<Val>)
    requires |us| > 0 && |vs| > 0
    requires forall v :: v in us <==> v in vs
    ensures MathMin(us) == MathMin(vs)
    ensures MathMax(us) == MathMax(vs)
  {
    MathMinSpec(us);
    MathMinSpec(vs);
    MathMaxSpec(us);
    MathMaxSpec(vs);
    if MathMin(us).Num? {
      var u :| u in us && ToNumber(u) == MathMin(us);
      var v :| v in vs && ToNumber(v) == MathMin(vs);
      assert MathMin(us).r <= ToNumber(v).r;
      assert MathMin(vs).r <= ToNumber(u).r;
    }
    if MathMax(us).Num? {
      var u :| u in us && ToNumber(u) == MathMax(us);
      var v :| v in vs && ToNumber(v) == MathMax(vs);
      assert MathMax(us).r >= ToNumber(v).r;
      assert MathMax(vs).r >= ToNumber(u).r;
    }
  }

  /** A string parser standing for `parseFloat` on text: `None` is NaN. */
  type Parser = string -> Option<real>

  function FromParsed(p: Option<real>): (v: Val)
    ensures IsNumber(v)
  {
    match p
    case Some(x) => Num(x)
    case None => NaN
  }

  /**
   * `parseFloat(v)`: the argument is first turned into text. A number's own text
   * parses back to the number; every other value goes through `parse`.
   */
  function ParseFloat(parse: Parser, v: Val): (n: Val)
    ensures IsNumber(n)
    ensures IsNumber(v) ==> n == v
    ensures v.Str? ==> n == FromParsed(parse(v.s))
  {
    match v
    case Num(_) => v
    case NaN => NaN
    case Str(s) => FromParsed(parse(s))
    case Absent => FromParsed(parse("undefined"))
    case Null => FromParsed(parse("null"))
    case Bool(b) => FromParsed(parse(if b then "true" else "false"))
  }
}
