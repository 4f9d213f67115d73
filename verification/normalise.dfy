/**
 * Result-row normalisation: the search dialog turns each raw result of a successful
 * response into the row the results table and the filters work on.
 */
module Normalise {
  import opened JsValue
  import opened Attributes

  /** The keys the copy loop skips. */
  const Skipped: set<string> := {"id", "smiles", "SMILES"}

  /** A string `parseFloat` accepts becomes that number; every other value is copied as it is. */
  function Converted(parse: Parser, v: Val): (w: Val)
    ensures !v.Str? ==> w == v
    ensures v.Str? && parse(v.s).Some? ==> w == Num(parse(v.s).value)
    ensures v.Str? && parse(v.s).None? ==> w == v
  {
    if v.Str? && !IsNaN(ParseFloat(parse, v)) then ParseFloat(parse, v) else v
  }

  /** `result.similarity` if it is a number, else `parseFloat(result.similarity || 0)`. */
  function BaseSimilarity(parse: Parser, v: Val): Val {
    if IsNumber(v) then v else ParseFloat(parse, Or(v, Num(0.0)))
  }

  /**
   * The standard fields first, then every other key copied over them: `id` defaults to
   * "Unknown"; `smiles` is `smiles`, else `SMILES`, else ""; `SMILES` itself is dropped;
   * every other key of the result is copied with numeric strings converted, and the copy
   * overrides the defaults computed for `cmpd_id` and `similarity`, which therefore apply
   * only when the result lacks those keys.
   */
  function NormaliseRow(parse: Parser, result: Row): (out: Row)
    ensures out.Keys == (result.Keys - Skipped) + {"id", "cmpd_id", "similarity", "smiles"}
    ensures var id := Get(result, "id");
      out["id"] == (if Truthy(id) then id else Str("Unknown"))
    ensures out["smiles"] == (if Truthy(Get(result, "smiles")) then Get(result, "smiles")
                              else if Truthy(Get(result, "SMILES")) then Get(result, "SMILES")
                              else Str(""))
    ensures var id := Get(result, "id");
      out["cmpd_id"] == (if "cmpd_id" in result then Converted(parse, result["cmpd_id"])
                         else if Truthy(id) then id else Str("Unknown"))
    ensures out["similarity"] == (if "similarity" in result then Converted(parse, result["similarity"])
                                  else Num(0.0))
    ensures forall k | k in result && k !in Skipped :: out[k] == Converted(parse, result[k])
  {
    var base := Standard(parse, result);
    var copied := Copied(parse, result);
    assert base.Keys == {"id", "cmpd_id", "similarity", "smiles"};
    assert copied.Keys == result.Keys - Skipped;
    var out := base + copied;
    assert out.Keys == base.Keys + copied.Keys;
    assert out["id"] == base["id"] && out["smiles"] == base["smiles"];
    out
  }

  /** The object literal `formattedResult` starts as. */
  function Standard(parse: Parser, result: Row): Row {
    map[
      "id" := Or(Get(result, "id"), Str("Unknown")),
      "cmpd_id" := Or(Or(Get(result, "cmpd_id"), Get(result, "id")), Str("Unknown")),
      "similarity" := BaseSimilarity(parse, Get(result, "similarity")),
      "smiles" := Or(Or(Get(result, "smiles"), Get(result, "SMILES")), Str(""))]
  }

  /** The keys the `forEach` copies, each value converted. */
  function Copied(parse: Parser, result: Row): Row {
    map k | k in result && k !in Skipped :: Converted(parse, result[k])
  }

  /** `data.results.map(...)` */
  function NormaliseResults(parse: Parser, results: seq<Row>): (rows: seq<Row>)
    ensures |rows| == |results|
    ensures forall i | 0 <= i < |results| :: rows[i] == NormaliseRow(parse, results[i])
  {
    seq(|results|, i requires 0 <= i < |results| => NormaliseRow(parse, results[i]))
  }

  /** A normalised value `parseFloat` would accept is a number: text left in a row is text `parseFloat` rejects. */
  lemma AttributesParsed(parse: Parser, result: Row, a: Attr)
    ensures var v := Field(NormaliseRow(parse, result), a);
      v.Str? ==> parse(v.s).None?
  {
  }

  /** A result whose `similarity` is missing gets the number 0, whatever the parser. */
  lemma MissingSimilarityIsZero(parse: Parser, result: Row)
    requires "similarity" !in result
    ensures Field(NormaliseRow(parse, result), Similarity) == Num(0.0)
  {
  }
}
