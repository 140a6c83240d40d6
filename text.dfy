/**
 * Character classes and string rewrites used by both the browser client and
 * the batch scripts: JavaScript's `\s`, ASCII upper-casing, and the decimal
 * rendering behind Python's `{i:04d}` format.
 */
module Text {

  /** The characters JavaScript's `\s` class matches. */
  predicate IsSpace(c: char) {
    || c == ' ' || c == '\t' || c == '\n' || c == '\r'
    || c == '\U{000B}' || c == '\U{000C}' || c == '\U{00A0}' || c == '\U{1680}'
    || ('\U{2000}' <= c <= '\U{200A}')
    || c == '\U{2028}' || c == '\U{2029}' || c == '\U{202F}' || c == '\U{205F}'
    || c == '\U{3000}' || c == '\U{FEFF}'
  }

  predicate NoSpace(s: string) {
    forall i :: 0 <= i < |s| ==> !IsSpace(s[i])
  }

  /** `s.replace(/\s+/g, '')`: every whitespace character removed, the rest kept in order. */
  function StripSpaces(s: string): (r: string)
    ensures NoSpace(r)
    ensures |r| <= |s|
    ensures NoSpace(s) ==> r == s
    ensures |s| == 1 ==> r == (if IsSpace(s[0]) then "" else s)
  {
    if s == [] then []
    else if IsSpace(s[0]) then StripSpaces(s[1..])
    else [s[0]] + StripSpaces(s[1..])
  }

  /** Exactly the non-whitespace characters of s survive. */
  lemma {:induction false} StripSpacesKeeps(s: string, c: char)
    ensures c in StripSpaces(s) <==> c in s && !IsSpace(c)
  {
    if s != [] {
      StripSpacesKeeps(s[1..], c);
      assert s == [s[0]] + s[1..];
    }
  }

  lemma {:induction false} StripSpacesAppend(a: string, b: string)
    ensures StripSpaces(a + b) == StripSpaces(a) + StripSpaces(b)
  {
    if a == [] {
      assert a + b == b;
    } else {
      assert (a + b)[1..] == a[1..] + b;
      StripSpacesAppend(a[1..], b);
    }
  }

  predicate IsLower(c: char) { 'a' <= c <= 'z' }

  predicate IsUpper(c: char) { 'A' <= c <= 'Z' }

  predicate IsDigit(c: char) { '0' <= c <= '9' }

  function UpperChar(c: char): char {
    if IsLower(c) then (c as int - 32) as char else c
  }

  predicate NoLower(s: string) {
    forall i :: 0 <= i < |s| ==> !IsLower(s[i])
  }

  /** `toUpperCase()` restricted to the ASCII letters; length is kept. */
  function ToUpper(s: string): (r: string)
    ensures |r| == |s|
    ensures NoLower(r)
    ensures forall i :: 0 <= i < |s| ==> r[i] == UpperChar(s[i])
  {
    seq(|s|, i requires 0 <= i < |s| => UpperChar(s[i]))
  }

  lemma ToUpperKeepsSpaces(s: string)
    ensures NoSpace(s) ==> NoSpace(ToUpper(s))
    ensures NoLower(s) ==> ToUpper(s) == s
  {
  }

  /** The decimal digit for 0..9. */
  function DigitChar(d: nat): char
    requires d < 10
  {
    ('0' as int + d) as char
  }

  /** `str(n)` for a natural number: its decimal digits, most significant first. */
  function Decimal(n: nat): (r: string)
    ensures |r| >= 1
    ensures forall i :: 0 <= i < |r| ==> IsDigit(r[i])
  {
    if n < 10 then [DigitChar(n)] else Decimal(n / 10) + [DigitChar(n % 10)]
  }

  /** The value of a string of decimal digits (the inverse of Decimal). */
  function DigitsValue(s: string): nat
    requires forall i :: 0 <= i < |s| ==> IsDigit(s[i])
  {
    if s == [] then 0
    else
      assert IsDigit(s[|s| - 1]);
      DigitsValue(s[..|s| - 1]) * 10 + (s[|s| - 1] as int - '0' as int)
  }

  /** Python's `{n:04d}`: the decimal digits of n left-padded with '0' to at least four. */
  function Pad4(n: nat): (r: string)
    ensures |r| >= 4
    ensures forall i :: 0 <= i < |r| ==> IsDigit(r[i])
  {
    var d := Decimal(n);
    if |d| >= 4 then d else seq(4 - |d|, _ => '0') + d
  }

  lemma {:induction false} DecimalRoundTrip(n: nat)
    ensures DigitsValue(Decimal(n)) == n
  {
    if n >= 10 {
      var d := Decimal(n / 10) + [DigitChar(n % 10)];
      assert d[..|d| - 1] == Decimal(n / 10);
      DecimalRoundTrip(n / 10);
    }
  }

  lemma {:induction false} LeadingZerosValue(z: nat, s: string)
    requires forall i :: 0 <= i < |s| ==> IsDigit(s[i])
    ensures var p := seq(z, _ => '0') + s;
      (forall i :: 0 <= i < |p| ==> IsDigit(p[i])) && DigitsValue(p) == DigitsValue(s)
  {
    var p := seq(z, _ => '0') + s;
    if s == [] {
      assert p == seq(z, _ => '0');
      ZerosValue(z);
    } else {
      assert p[..|p| - 1] == seq(z, _ => '0') + s[..|s| - 1];
      LeadingZerosValue(z, s[..|s| - 1]);
    }
  }

  lemma {:induction false} ZerosValue(z: nat)
    ensures DigitsValue(seq(z, _ => '0')) == 0
  {
    if z > 0 {
      assert seq(z, _ => '0')[..z - 1] == seq(z - 1, _ => '0');
      ZerosValue(z - 1);
    }
  }

  /** Parsing a padded number gives it back, so padding never maps two numbers to one string. */
  lemma Pad4RoundTrip(n: nat)
    ensures DigitsValue(Pad4(n)) == n
  {
    DecimalRoundTrip(n);
    var d := Decimal(n);
    if |d| < 4 {
      LeadingZerosValue(4 - |d|, d);
    }
  }

  lemma Pad4Injective(m: nat, n: nat)
    ensures Pad4(m) == Pad4(n) ==> m == n
  {
    Pad4RoundTrip(m);
    Pad4RoundTrip(n);
  }
}
