/**
 * The highlight of a CSV property card: a background colour when a logP, weight or polar
 * surface area value lies beyond its thresholds.
 */
module CardStyle {
  import opened JsValue
  import opened Text

  datatype Style = Plain | Background(colour: string)

  /** `getPropertyCardStyle(key, value)` */
  function PropertyCardStyle(parse: Parser, key: string, value: Val): (style: Style)
    ensures !ParseFloat(parse, value).Num? ==> style == Plain
  {
    var n := ParseFloat(parse, value);
    if IsNaN(n) then Plain
    else
      var k := Lower(key);
      var x := n.r;
      if Contains(k, "logp") || Contains(k, "alogp") then
        if x > 5.0 then Background("#ffecec") else if x < 0.0 then Background("#ecffec") else Plain
      else if Contains(k, "weight") || Contains(k, "mw") then
        if x > 500.0 then Background("#f0f0ff") else if x < 200.0 then Background("#fffff0") else Plain
      else if Contains(k, "tpsa") || Contains(k, "psa") then
        if x > 140.0 then Background("#e6f7ff") else if x < 60.0 then Background("#fffbe6") else Plain
      else Plain
  }

  /** One threshold rule: the key fragment that selects it, and its two thresholds with their colours. */
  datatype Rule = Rule(fragment: string, high: real, highColour: string, low: real, lowColour: string)

  /** The rules in the order they are tried; the first whose fragment the lower-cased key contains decides. */
  const Rules: seq<Rule> := [
    Rule("logp", 5.0, "#ffecec", 0.0, "#ecffec"),
    Rule("weight", 500.0, "#f0f0ff", 200.0, "#fffff0"),
    Rule("mw", 500.0, "#f0f0ff", 200.0, "#fffff0"),
    Rule("psa", 140.0, "#e6f7ff", 60.0, "#fffbe6")]

  function Classify(rule: Rule, x: real): Style {
    if x > rule.high then Background(rule.highColour)
    else if x < rule.low then Background(rule.lowColour)
    else Plain
  }

  function RuleStyle(rules: seq<Rule>, k: string, x: real): Style {
    if rules == [] then Plain
    else if Contains(k, rules[0].fragment) then Classify(rules[0], x)
    else RuleStyle(rules[1..], k, x)
  }

  /**
   * The card style is the rule table's verdict: the redundant "alogp" and "tpsa" tests
   * add nothing, since those keys already contain "logp" and "psa".
   */
  lemma StyleMatchesRules(parse: Parser, key: string, value: Val)
    ensures var n := ParseFloat(parse, value);
      PropertyCardStyle(parse, key, value) == (if n.Num? then RuleStyle(Rules, Lower(key), n.r) else Plain)
  {
    var k := Lower(key);
    var n := ParseFloat(parse, value);
    if n.Num? {
      RulesUnfold(k, n.r);
    }
    ContainsItself("logp");
    ContainsItself("psa");
    assert MatchAt("alogp", "logp", 1);
    ContainsIff("alogp", "logp");
    assert MatchAt("tpsa", "psa", 1);
    ContainsIff("tpsa", "psa");
    if Contains(k, "alogp") {
      ContainsTransitive(k, "alogp", "logp");
    }
    if Contains(k, "tpsa") {
      ContainsTransitive(k, "tpsa", "psa");
    }
  }

  lemma RulesUnfold(k: string, x: real)
    ensures RuleStyle(Rules, k, x) ==
      if Contains(k, "logp") then Classify(Rules[0], x)
      else if Contains(k, "weight") then Classify(Rules[1], x)
      else if Contains(k, "mw") then Classify(Rules[2], x)
      else if Contains(k, "psa") then Classify(Rules[3], x)
      else Plain
  {
    var r1 := Rules[1..];
    var r2 := r1[1..];
    var r3 := r2[1..];
    assert r1[0] == Rules[1] && r2[0] == Rules[2] && r3[0] == Rules[3];
    assert r3[1..] == [];
    assert RuleStyle(r3, k, x) == if Contains(k, "psa") then Classify(Rules[3], x) else Plain;
    assert RuleStyle(r2, k, x) == if Contains(k, "mw") then Classify(Rules[2], x) else RuleStyle(r3, k, x);
    assert RuleStyle(r1, k, x) == if Contains(k, "weight") then Classify(Rules[1], x) else RuleStyle(r2, k, x);
    assert RuleStyle(Rules, k, x) == if Contains(k, "logp") then Classify(Rules[0], x) else RuleStyle(r1, k, x);
  }

  /** A value between a rule's thresholds, both included, is never highlighted. */
  lemma {:induction false} MiddleBandPlain(rules: seq<Rule>, k: string, x: real)
    requires forall i | 0 <= i < |rules| :: rules[i].low <= x <= rules[i].high
    ensures RuleStyle(rules, k, x) == Plain
  {
    if rules != [] && !Contains(k, rules[0].fragment) {
      assert forall i | 0 <= i < |rules[1..]| :: rules[1..][i] == rules[i + 1];
      MiddleBandPlain(rules[1..], k, x);
    }
  }

  /** A key that matches no fragment is never highlighted, whatever its value. */
  lemma UnmatchedKeyPlain(parse: Parser, key: string, value: Val)
    requires forall i | 0 <= i < |Rules| :: !Contains(Lower(key), Rules[i].fragment)
    ensures PropertyCardStyle(parse, key, value) == Plain
  {
    StyleMatchesRules(parse, key, value);
    var n := ParseFloat(parse, value);
    if n.Num? {
      RulesUnfold(Lower(key), n.r);
    }
  }
}
