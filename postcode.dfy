/**
 * Postcode strings as the browser client rewrites them (public/app.js) and
 * the outward code, the sharding key of the lookup chunks, as both the client
 * and the batch builder extract it with `^[A-Z]{1,2}\d{1,2}[A-Z]?`.
 */
module Postcode {
  import opened Wrappers
  import opened Text

  /** The postcode with every whitespace character removed, upper-cased. */
  function Compact(s: string): (r: string)
    ensures NoSpace(r) && NoLower(r)
    ensures |r| == |StripSpaces(s)| <= |s|
    ensures forall i :: 0 <= i < |r| ==> r[i] == UpperChar(StripSpaces(s)[i])
    ensures NoSpace(s) && NoLower(s) ==> r == s
    ensures r == [] <==> StripSpaces(s) == []
  {
    ToUpper(StripSpaces(s))
  }

  /** Where the unit part starts: the last three characters. */
  function UnitStart(c: string): nat
  {
    if |c| >= 3 then |c| - 3 else 0
  }

  /**
   * normalizePostcode: whitespace removed and upper-cased; when five or more
   * characters remain, one space goes before the last three.
   */
  function Normalize(s: string): (r: string)
    ensures StripSpaces(r) == Compact(s)
    ensures NoLower(r)
    ensures |Compact(s)| < 5 ==> NoSpace(r)
    ensures |Compact(s)| >= 5 ==>
      |r| == |Compact(s)| + 1 && r[|r| - 4] == ' '
      && forall i :: 0 <= i < |r| && i != |r| - 4 ==> !IsSpace(r[i])
  {
    var c := Compact(s);
    if |c| >= 5 then
      SpacedUnit(c);
      c[..|c| - 3] + " " + c[|c| - 3..]
    else c
  }

  lemma SpacedUnit(c: string)
    requires NoSpace(c) && NoLower(c) && |c| >= 5
    ensures var r := c[..|c| - 3] + " " + c[|c| - 3..];
      && StripSpaces(r) == c && NoLower(r)
      && |r| == |c| + 1 && r[|r| - 4] == ' '
      && forall i :: 0 <= i < |r| && i != |r| - 4 ==> !IsSpace(r[i])
  {
    var r := c[..|c| - 3] + " " + c[|c| - 3..];
    StripSpacesAppend(c[..|c| - 3] + " ", c[|c| - 3..]);
    StripSpacesAppend(c[..|c| - 3], " ");
    assert c == c[..|c| - 3] + c[|c| - 3..];
    assert forall i :: 0 <= i < |r| && i != |r| - 4 ==> r[i] == c[if i < |r| - 4 then i else i - 1];
  }

  lemma NormalizeIdempotent(s: string)
    ensures Normalize(Normalize(s)) == Normalize(s)
  {
    var n := Normalize(s);
    ToUpperKeepsSpaces(StripSpaces(n));
    assert Compact(n) == Compact(s);
  }

  /**
   * formatPostcode: a postcode that already contains a space is returned as it
   * is; otherwise a space is inserted before the last three characters
   * (JavaScript's slice clamps, so a string of under three characters gets a
   * leading space).
   */
  function Format(p: string): (r: string)
    ensures ' ' in p ==> r == p
    ensures ' ' !in p ==>
      |r| == |p| + 1 && r[UnitStart(p)] == ' '
      && r[..UnitStart(p)] + r[UnitStart(p) + 1..] == p
  {
    if ' ' in p then p
    else
      var k := UnitStart(p);
      var r := p[..k] + " " + p[k..];
      assert r[..k] == p[..k] && r[k + 1..] == p[k..];
      r
  }

  /** The list shows a normalized postcode exactly as a search would spell it. */
  lemma FormatKeepsNormalized(s: string)
    requires |Compact(s)| >= 5
    ensures Format(Normalize(s)) == Normalize(s)
  {
    var n := Normalize(s);
    assert n[|n| - 4] == ' ';
  }

  /** On a compact postcode of five or more characters, formatting and normalizing agree. */
  lemma FormatCompactIsNormalize(c: string)
    requires NoSpace(c) && NoLower(c) && |c| >= 5
    ensures Format(c) == Normalize(c)
  {
    ToUpperKeepsSpaces(c);
    assert Compact(c) == c;
  }

  /**
   * One way of reading o as an outward code: l letters, d digits, then a
   * letters (1 <= l <= 2, 1 <= d <= 2, a <= 1).
   */
  predicate Fits(o: string, l: nat, d: nat, a: nat)
    requires 1 <= l <= 2 && 1 <= d <= 2 && a <= 1
  {
    && |o| == l + d + a
    && IsUpper(o[0]) && (l == 2 ==> IsUpper(o[1]))
    && IsDigit(o[l]) && (d == 2 ==> IsDigit(o[l + 1]))
    && (a == 1 ==> IsUpper(o[l + d]))
  }

  /** o as a whole has the outward-code shape `[A-Z]{1,2}\d{1,2}[A-Z]?`. */
  ghost predicate OutwardShape(o: string) {
    exists l: nat, d: nat, a: nat :: 1 <= l <= 2 && 1 <= d <= 2 && a <= 1 && Fits(o, l, d, a)
  }

  /**
   * The match of the anchored pattern `^[A-Z]{1,2}\d{1,2}[A-Z]?`, or None.
   * Each quantifier is greedy and no backtracking can turn a failure into a
   * match, so the match is computed directly.
   */
  function Outward(s: string): (r: Option<string>)
    ensures r.Some? ==> OutwardShape(r.value) && r.value <= s
  {
    var l := if |s| >= 2 && IsUpper(s[0]) && IsUpper(s[1]) then 2
             else if |s| >= 1 && IsUpper(s[0]) then 1 else 0;
    if l == 0 || l >= |s| || !IsDigit(s[l]) then None
    else
      var d := if l + 1 < |s| && IsDigit(s[l + 1]) then 2 else 1;
      var a := if l + d < |s| && IsUpper(s[l + d]) then 1 else 0;
      assert Fits(s[..l + d + a], l, d, a);
      Some(s[..l + d + a])
  }

  /** Any prefix of s with the outward shape is at most as long as the match, so the match exists. */
  lemma ShapedPrefixWithinMatch(s: string, k: nat)
    requires k <= |s| && OutwardShape(s[..k])
    ensures Outward(s).Some? && k <= |Outward(s).value|
  {
    var l: nat, d: nat, a: nat :| 1 <= l <= 2 && 1 <= d <= 2 && a <= 1 && Fits(s[..k], l, d, a);
    assert s[..k][0] == s[0] && s[..k][l] == s[l];
    assert l == 2 ==> s[..k][1] == s[1];
    assert d == 2 ==> s[..k][l + 1] == s[l + 1];
    assert a == 1 ==> s[..k][l + d] == s[l + d];
  }

  /**
   * The pattern picks the longest prefix of the outward shape, and there is a
   * match exactly when some prefix has that shape.
   */
  lemma OutwardIsLongestShapedPrefix(s: string)
    ensures Outward(s).None? <==> forall k :: 0 <= k <= |s| ==> !OutwardShape(s[..k])
    ensures Outward(s).Some? ==>
      forall k :: |Outward(s).value| < k <= |s| ==> !OutwardShape(s[..k])
  {
    forall k | 0 <= k <= |s| && OutwardShape(s[..k])
      ensures Outward(s).Some? && k <= |Outward(s).value|
    {
      ShapedPrefixWithinMatch(s, k);
    }
    if Outward(s).Some? {
      var o := Outward(s).value;
      assert s[..|o|] == o;
    }
  }

  /** Extracting the outward code from an outward code gives it back unchanged. */
  lemma OutwardIdempotent(s: string)
    requires Outward(s).Some?
    ensures Outward(Outward(s).value) == Outward(s)
  {
    var o := Outward(s).value;
    assert o[..|o|] == o;
    ShapedPrefixWithinMatch(o, |o|);
  }

  /** "N15 5QA" is sharded under "N15"; its compact spelling "N155QA" under the same key. */
  lemma OutwardExample()
    ensures Outward("N15 5QA") == Some("N15") && Outward("N155QA") == Some("N15")
    ensures Outward("SW1A 1AA") == Some("SW1A")
  {
    var a, b, c := "N15 5QA", "N155QA", "SW1A 1AA";
    assert a[..3] == "N15" && b[..3] == "N15" && c[..4] == "SW1A";
  }
}
