/**
 * String helpers with JavaScript's meaning, restricted to what the filter engine uses:
 * ASCII case mapping, `String.prototype.includes`, and the decimal form of a status code.
 */
module Text {

  /** `toLowerCase` on one character; only ASCII letters are mapped. */
  function LowerChar(c: char): char {
    if 'A' <= c <= 'Z' then (c as int + 32) as char else c
  }

  /** `toUpperCase` on one character; only ASCII letters are mapped. */
  function UpperChar(c: char): char {
    if 'a' <= c <= 'z' then (c as int - 32) as char else c
  }

  /** `s.toLowerCase()` */
  function Lower(s: string): (r: string)
    ensures |r| == |s|
    ensures forall i | 0 <= i < |s| :: r[i] == LowerChar(s[i])
  {
    if s == [] then [] else [LowerChar(s[0])] + Lower(s[1..])
  }

  /** Lower-casing leaves a string without ASCII capitals unchanged. */
  lemma LowerOfLowerCase(s: string)
    requires forall i | 0 <= i < |s| :: !('A' <= s[i] <= 'Z')
    ensures Lower(s) == s
  {
  }

  /** `t` occurs in `s` starting at index `i`. */
  predicate MatchAt(s: string, t: string, i: nat)
    requires i <= |s|
  {
    |t| <= |s| - i && forall j | 0 <= j < |t| :: s[i + j] == t[j]
  }

  predicate ContainsFrom(s: string, t: string, i: nat)
    requires i <= |s|
    decreases |s| - i
  {
    MatchAt(s, t, i) || (i < |s| && ContainsFrom(s, t, i + 1))
  }

  /** `s.includes(t)` */
  predicate Contains(s: string, t: string) {
    ContainsFrom(s, t, 0)
  }

  lemma {:induction false} ContainsFromWitness(s: string, t: string, i: nat)
    requires i <= |s|
    ensures ContainsFrom(s, t, i) <==> exists k | i <= k <= |s| :: MatchAt(s, t, k)
    decreases |s| - i
  {
    if i < |s| {
      ContainsFromWitness(s, t, i + 1);
      if MatchAt(s, t, i) {
      } else if exists k | i <= k <= |s| :: MatchAt(s, t, k) {
        var k :| i <= k <= |s| && MatchAt(s, t, k);
        assert k != i;
      }
    } else {
      if exists k | i <= k <= |s| :: MatchAt(s, t, k) {
        var k :| i <= k <= |s| && MatchAt(s, t, k);
        assert k == i;
      }
    }
  }

  /** `includes` means: some position of `s` starts a copy of `t`. */
  lemma ContainsIff(s: string, t: string)
    ensures Contains(s, t) <==> exists k | 0 <= k <= |s| :: MatchAt(s, t, k)
  {
    ContainsFromWitness(s, t, 0);
  }

  lemma ContainsItself(s: string)
    ensures Contains(s, s)
  {
    assert MatchAt(s, s, 0);
    ContainsIff(s, s);
  }

  /** A string cannot contain a pattern one of whose characters it lacks. */
  lemma MissingCharNotContained(s: string, t: string, c: char)
    requires c in t && c !in s
    ensures !Contains(s, t)
  {
    ContainsIff(s, t);
  }

  /** Containment is transitive: a string holding `u` holds every substring of `u`. */
  lemma ContainsTransitive(s: string, u: string, t: string)
    requires Contains(s, u) && Contains(u, t)
    ensures Contains(s, t)
  {
    ContainsIff(s, u);
    ContainsIff(u, t);
    var k :| 0 <= k <= |s| && MatchAt(s, u, k);
    var m :| 0 <= m <= |u| && MatchAt(u, t, m);
    assert forall j | 0 <= j < |t| :: s[k + m + j] == u[m + j] == t[j];
    assert MatchAt(s, t, k + m);
    ContainsIff(s, t);
  }

  function DigitChar(d: nat): char
    requires d < 10
  {
    "0123456789"[d]
  }

  predicate IsDigits(s: string) {
    forall i | 0 <= i < |s| :: '0' <= s[i] <= '9'
  }

  /**
   * `String(n)` for a non-negative integer: its decimal digits, most significant first, with
   * no leading zero except for zero itself.
   */
  function NatToString(n: nat): (r: string)
    ensures |r| >= 1 && IsDigits(r)
    ensures r[0] == '0' <==> n == 0
    ensures |r| > 1 ==> r[0] != '0'
    decreases n
  {
    if n < 10 then [DigitChar(n)] else NatToString(n / 10) + [DigitChar(n % 10)]
  }

  /** Reads a string of decimal digits back as a number. */
  function ParseDigits(s: string): nat
    requires IsDigits(s)
  {
    if s == [] then 0 else ParseDigits(s[..|s| - 1]) * 10 + (s[|s| - 1] as int - '0' as int)
  }

  /** The decimal form names the number it was made from. */
  lemma {:induction false} NatToStringRoundTrip(n: nat)
    ensures ParseDigits(NatToString(n)) == n
    decreases n
  {
    var r := NatToString(n);
    if n < 10 {
      assert r[..0] == [];
    } else {
      NatToStringRoundTrip(n / 10);
      assert r[..|r| - 1] == NatToString(n / 10);
    }
  }
}
