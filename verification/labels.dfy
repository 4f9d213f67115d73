/**
 * How a filter attribute is presented next to its slider: the label text and the slider step.
 * Both filter panels (the sidebar and the search dialog) use the same two helpers.
 */
module Labels {
  import opened Text
  import opened Attributes

  /** `s.split(sep)` for a one-character separator: never empty, and "" splits to [""]. */
  function Split(s: string, sep: char): (parts: seq<string>)
    ensures |parts| >= 1
    ensures forall i | 0 <= i < |parts| :: sep !in parts[i]
  {
    if s == [] then [""]
    else
      var rest := Split(s[1..], sep);
      if s[0] == sep then [""] + rest
      else [[s[0]] + rest[0]] + rest[1..]
  }

  /** `parts.join(sep)` */
  function Join(parts: seq<string>, sep: char): string {
    if |parts| == 0 then ""
    else if |parts| == 1 then parts[0]
    else parts[0] + [sep] + Join(parts[1..], sep)
  }

  /** `word.charAt(0).toUpperCase() + word.slice(1)` */
  function Capitalise(w: string): (r: string)
    ensures |r| == |w|
    ensures forall i | 0 < i < |w| :: r[i] == w[i]
    ensures |w| > 0 ==> r[0] == UpperChar(w[0])
  {
    if w == [] then "" else [UpperChar(w[0])] + w[1..]
  }

  function CapitaliseAll(words: seq<string>): (r: seq<string>)
    ensures |r| == |words|
    ensures forall i | 0 <= i < |words| :: r[i] == Capitalise(words[i])
  {
    if words == [] then [] else [Capitalise(words[0])] + CapitaliseAll(words[1..])
  }

  /**
   * `formatLabel(property)`: the same text as reading the name character by character,
   * starting at the beginning of a word.
   */
  function FormatLabel(p: string): (r: string)
    ensures r == LabelFrom(p, true)
    ensures |r| == |p|
  {
    FormatLabelFrom(p);
    Join(CapitaliseAll(Split(p, '_')), ' ')
  }

  /**
   * The label read character by character: an underscore becomes a space, a character
   * at the start or right after an underscore is upper-cased, and every other one is kept.
   */
  function LabelFrom(s: string, atStart: bool): (r: string)
    ensures |r| == |s|
  {
    if s == [] then [] else [LabelChar(s[0], atStart)] + LabelFrom(s[1..], s[0] == '_')
  }

  function LabelChar(c: char, atStart: bool): char {
    if c == '_' then ' ' else if atStart then UpperChar(c) else c
  }

  /** Position `i` of `p` begins a word. */
  predicate StartsWord(p: string, i: nat)
    requires i < |p|
  {
    i == 0 || p[i - 1] == '_'
  }

  /** Splitting and joining again gives back the original string. */
  lemma {:induction false} SplitJoin(s: string, sep: char)
    ensures Join(Split(s, sep), sep) == s
  {
    if s != [] {
      var rest := Split(s[1..], sep);
      SplitJoin(s[1..], sep);
      if s[0] == sep {
        assert ([""] + rest)[1..] == rest;
      } else {
        JoinConsHead([s[0]], rest[0], rest[1..], sep);
        assert [rest[0]] + rest[1..] == rest;
      }
    }
  }

  /** Prepending to the first word prepends to the joined string. */
  lemma JoinConsHead(a: string, w: string, rest: seq<string>, sep: char)
    ensures Join([a + w] + rest, sep) == a + Join([w] + rest, sep)
  {
    if rest != [] {
      assert ([a + w] + rest)[1..] == rest;
      assert ([w] + rest)[1..] == rest;
    }
  }

  /** The label of words whose first one is left as it is. */
  function JoinTail(words: seq<string>): string
    requires |words| >= 1
  {
    Join([words[0]] + CapitaliseAll(words[1..]), ' ')
  }

  lemma {:induction false} FormatLabelFrom(s: string)
    ensures Join(CapitaliseAll(Split(s, '_')), ' ') == LabelFrom(s, true)
    ensures JoinTail(Split(s, '_')) == LabelFrom(s, false)
  {
    if s != [] {
      var rest := Split(s[1..], '_');
      FormatLabelFrom(s[1..]);
      assert CapitaliseAll(rest) == [Capitalise(rest[0])] + CapitaliseAll(rest[1..]);
      if s[0] == '_' {
        var parts := [""] + rest;
        assert parts[1..] == rest;
        assert CapitaliseAll(parts) == [""] + CapitaliseAll(rest);
        assert (["" ] + CapitaliseAll(rest))[1..] == CapitaliseAll(rest);
      } else {
        var w := [s[0]] + rest[0];
        var parts := [w] + rest[1..];
        assert parts[1..] == rest[1..];
        assert Capitalise(w) == [UpperChar(s[0])] + rest[0];
        assert CapitaliseAll(parts) == [Capitalise(w)] + CapitaliseAll(rest[1..]);
        JoinConsHead([UpperChar(s[0])], rest[0], CapitaliseAll(rest[1..]), ' ');
        JoinConsHead([s[0]], rest[0], CapitaliseAll(rest[1..]), ' ');
      }
    }
  }

  /** The label is the property name with underscores as spaces and each word capitalised. */
  lemma FormatLabelChars(p: string)
    ensures |FormatLabel(p)| == |p|
    ensures forall i | 0 <= i < |p| :: FormatLabel(p)[i] == LabelChar(p[i], StartsWord(p, i))
  {
    FormatLabelFrom(p);
    LabelFromChars(p, true);
  }

  lemma {:induction false} LabelFromChars(s: string, atStart: bool)
    ensures forall i | 0 <= i < |s| :: LabelFrom(s, atStart)[i] == LabelChar(s[i], if i == 0 then atStart else s[i - 1] == '_')
  {
    if s != [] {
      LabelFromChars(s[1..], s[0] == '_');
      var r := LabelFrom(s, atStart);
      forall i | 0 < i < |s|
        ensures r[i] == LabelChar(s[i], s[i - 1] == '_')
      {
        assert r[i] == LabelFrom(s[1..], s[0] == '_')[i - 1];
        assert s[1..][i - 1] == s[i];
        if i > 1 {
          assert s[1..][i - 2] == s[i - 1];
        }
      }
    }
  }

  /**
   * `getStep(property)`: 0.1 exactly for a name other than "similarity" that contains "occ",
   * 0.01 for every other name; the "prob" test changes nothing.
   */
  function Step(p: string): (r: real)
    ensures r == 0.1 <==> p != "similarity" && Contains(p, "occ")
    ensures r == 0.1 || r == 0.01
  {
    if p == "similarity" then 0.01
    else if Contains(p, "occ") then 0.1
    else if Contains(p, "prob") then 0.01
    else 0.01
  }

  /** Only the occurrence columns move in steps of 0.1; every other attribute moves in hundredths. */
  lemma StepOfAttribute(a: Attr)
    ensures Step(Name(a)) == if a == BinaryOcc || a == ContOcc then 0.1 else 0.01
  {
    match a
    case BinaryOcc =>
      assert MatchAt("binary_occ", "occ", 7);
      ContainsIff("binary_occ", "occ");
    case ContOcc =>
      assert MatchAt("cont_occ", "occ", 5);
      ContainsIff("cont_occ", "occ");
    case LowGshProb => MissingCharNotContained("low_gsh_prob", "occ", 'c');
    case MedGshProb => MissingCharNotContained("med_gsh_prob", "occ", 'c');
    case HighGshProb => MissingCharNotContained("high_gsh_prob", "occ", 'c');
    case Selectivity => MissingCharNotContained("selectivity", "occ", 'o');
    case Similarity =>
  }
}
