/**
 Small string helpers of the logger: the boolean token grammar used for
 configuration values, and the formatting of an acceptor's address pair.
 */
module Text {

  /** The ASCII case fold the case-insensitive regex match applies to each character. */
  function FoldCase(c: char): (f: char)
  {
    if 'A' <= c <= 'Z' then (c as int + 32) as char else c
  }

  /** The string with every ASCII upper-case letter turned into lower case. */
  function Lower(s: string): (l: string)
  {
    seq(|s|, i requires 0 <= i < |s| => FoldCase(s[i]))
  }

  /** Case-insensitive equality of two whole strings (an anchored `icase` match of a literal). */
  predicate EqualsIgnoreCase(s: string, t: string)
  {
    |s| == |t| && forall i :: 0 <= i < |s| ==> FoldCase(s[i]) == FoldCase(t[i])
  }

  /** The alternatives of the anchored pattern `^(t|true|on|enable|allow|1|)$`, in its order. */
  const TruthyAlternatives: seq<string> := ["t", "true", "on", "enable", "allow", "1", ""]

  /** The tokens a configuration value may take, after lower-casing, to mean `true`. */
  const TruthyTokens: set<string> := {"", "t", "true", "on", "enable", "allow", "1"}

  /** Whether `s` matches one of `alts` case-insensitively, trying them in turn. */
  predicate MatchesAny(s: string, alts: seq<string>)
  {
    alts != [] && (EqualsIgnoreCase(s, alts[0]) || MatchesAny(s, alts[1..]))
  }

  /**
   parseBool: a whole-string, case-insensitive match against the truthy
   alternatives. Every string is accepted; anything that does not match is
   `false`, so there is no error result.
   */
  function ParseBool(s: string): (b: bool)
  {
    MatchesAny(s, TruthyAlternatives)
  }

  /** A value parses as `true` exactly when its lower-cased form is one of the truthy tokens. */
  lemma ParseBoolMeaning(s: string)
    ensures ParseBool(s) <==> Lower(s) in TruthyTokens
  {
    AlternativesAreLower();
    MatchesAnyIffLowerIn(s, TruthyAlternatives);
    assert (set t | t in TruthyAlternatives) == TruthyTokens;
  }

  /** A lower-case literal is matched case-insensitively exactly by the strings that lower-case to it. */
  lemma EqualsIgnoreCaseIffLower(s: string, t: string)
    requires Lower(t) == t
    ensures EqualsIgnoreCase(s, t) <==> Lower(s) == t
  {
    if |s| == |t| && EqualsIgnoreCase(s, t) {
      assert forall i :: 0 <= i < |t| ==> t[i] == Lower(t)[i];
      assert Lower(s) == t;
    }
  }

  lemma {:induction false} MatchesAnyIffLowerIn(s: string, alts: seq<string>)
    requires forall t :: t in alts ==> Lower(t) == t
    ensures MatchesAny(s, alts) <==> Lower(s) in set t | t in alts
  {
    if alts != [] {
      EqualsIgnoreCaseIffLower(s, alts[0]);
      MatchesAnyIffLowerIn(s, alts[1..]);
      assert (set t | t in alts) == {alts[0]} + set t | t in alts[1..];
    }
  }

  lemma AlternativesAreLower()
    ensures forall t :: t in TruthyAlternatives ==> Lower(t) == t
  {
    assert Lower("t") == "t";
    assert Lower("true") == "true";
    assert Lower("on") == "on";
    assert Lower("enable") == "enable";
    assert Lower("allow") == "allow";
    assert Lower("1") == "1";
  }

  /** Sample values: the truthy tokens as written in the pattern. */
  lemma ParseBoolTruthySamples()
    ensures ParseBool("") && ParseBool("t") && ParseBool("true") && ParseBool("1")
  {
  }

  /** Sample values: the truthy tokens in upper or mixed letter case. */
  lemma ParseBoolMixedCaseSamples()
    ensures ParseBool("T") && ParseBool("ON") && ParseBool("Enable") && ParseBool("ALLOW")
  {
    assert EqualsIgnoreCase("T", "t");
    assert EqualsIgnoreCase("ON", "on");
    assert EqualsIgnoreCase("Enable", "enable");
    assert EqualsIgnoreCase("ALLOW", "allow");
  }

  /** Sample values: other words and other digits are `false`. */
  lemma ParseBoolFalsySamples()
    ensures !ParseBool("false") && !ParseBool("no") && !ParseBool("0") && !ParseBool("xyz")
  {
    assert !EqualsIgnoreCase("false", "allow") by { assert FoldCase("false"[0]) != FoldCase("allow"[0]); }
    assert !EqualsIgnoreCase("no", "on") by { assert FoldCase("no"[0]) != FoldCase("on"[0]); }
    assert !EqualsIgnoreCase("0", "t") by { assert FoldCase("0"[0]) != FoldCase("t"[0]); }
    assert !EqualsIgnoreCase("0", "1") by { assert FoldCase("0"[0]) != FoldCase("1"[0]); }
  }

  /** Sample values: the match is anchored, so padded, truncated or repeated tokens are `false`. */
  lemma ParseBoolNearMissSamples()
    ensures !ParseBool(" true") && !ParseBool("tru") && !ParseBool("11")
  {
    assert !EqualsIgnoreCase(" true", "allow") by { assert FoldCase(" true"[0]) != FoldCase("allow"[0]); }
    assert !EqualsIgnoreCase("11", "on") by { assert FoldCase("11"[0]) != FoldCase("on"[0]); }
  }

  /** A transport address, modelled by its textual value alone (for printing and for comparison). */
  datatype Address = Address(value: string)

  /**
   addr2String: one address when both are present and equal, the first with
   the second in parentheses when both are present and differ, otherwise the
   concatenation, which is the present one or the empty string.
   */
  function AddrToString(a1: Address, a2: Address): (r: string)
    ensures a1.value <= r
    ensures r == "" <==> a1.value == "" && a2.value == ""
    ensures a1.value == "" ==> r == a2.value
    ensures a2.value == "" ==> r == a1.value
    ensures a1.value != "" && a2.value != "" ==> (r == a1.value <==> a1 == a2)
    ensures a1.value != "" && a2.value != "" && a1 != a2 ==> r[|a1.value|..] == " (" + a2.value + ")"
  {
    if a1.value != "" && a2.value != "" then
      if a1 == a2 then a1.value else a1.value + " (" + a2.value + ")"
    else
      a1.value + a2.value
  }

  /** Both addresses can be read off the formatted text: the first as its prefix, the second somewhere inside it. */
  lemma AddrToStringShowsBoth(a1: Address, a2: Address)
    ensures a1.value <= AddrToString(a1, a2)
    ensures exists i :: 0 <= i <= |AddrToString(a1, a2)| && a2.value <= AddrToString(a1, a2)[i..]
  {
    var r := AddrToString(a1, a2);
    if a1.value != "" && a2.value != "" {
      if a1 == a2 {
        assert a2.value <= r[0..];
      } else {
        var i := |a1.value| + 2;
        assert r[i..] == a2.value + ")";
        assert a2.value <= r[i..];
      }
    } else {
      var i := |a1.value|;
      assert r[i..] == a2.value;
      assert a2.value <= r[i..];
    }
  }
}
