/** The seven filterable result attributes, result rows, and value ranges. */
module Attributes {
  import opened JsValue

  /** The fixed attribute list every component checks, in its declared order. */
  datatype Attr = Similarity | BinaryOcc | ContOcc | LowGshProb | MedGshProb | HighGshProb | Selectivity

  /** The key an attribute has in a result row. */
  function Name(a: Attr): string {
    match a
    case Similarity => "similarity"
    case BinaryOcc => "binary_occ"
    case ContOcc => "cont_occ"
    case LowGshProb => "low_gsh_prob"
    case MedGshProb => "med_gsh_prob"
    case HighGshProb => "high_gsh_prob"
    case Selectivity => "selectivity"
  }

  const All: seq<Attr> := [Similarity, BinaryOcc, ContOcc, LowGshProb, MedGshProb, HighGshProb, Selectivity]

  lemma AllListsEveryAttr(a: Attr)
    ensures a in All
  {
  }

  lemma AllListsAll()
    ensures forall a: Attr :: a in All
  {
    forall a: Attr ensures a in All {
      AllListsEveryAttr(a);
    }
  }

  /** A result row: a dynamically keyed record. */
  type Row = map<string, Val>

  /** `row[key]`: a missing key reads as `undefined`. */
  function Get(row: Row, key: string): Val {
    if key in row then row[key] else Absent
  }

  /** `row[name]` for an attribute. */
  function Field(row: Row, a: Attr): Val {
    Get(row, Name(a))
  }

  /** A `[lower, upper]` pair; no ordering between the ends is enforced anywhere. */
  datatype Range = Range(lo: Val, hi: Val)
}
