/** Decimal numbers as the todo CLI reads and writes them: `parseInt(s, 10)` for a position
    argument, and the decimal rendering of a position inside a template string. */
module Numbers {
  import opened Wrappers
  import opened Text

  predicate IsDigit(c: char) {
    '0' <= c <= '9'
  }

  predicate AllDigits(s: string) {
    forall i :: 0 <= i < |s| ==> IsDigit(s[i])
  }

  function DigitChar(d: nat): (c: char)
    requires d < 10
    ensures IsDigit(c) && c as int - '0' as int == d
  {
    (d + '0' as int) as char
  }

  function DigitValue(c: char): (d: nat)
    requires IsDigit(c)
    ensures d < 10 && DigitChar(d) == c
  {
    c as int - '0' as int
  }

  /** The value of a string of decimal digits, most significant first. */
  function DigitsValue(ds: string): nat
    requires AllDigits(ds)
  {
    if ds == [] then 0 else 10 * DigitsValue(ds[..|ds| - 1]) + DigitValue(ds[|ds| - 1])
  }

  /** The decimal rendering of `n`, as `${n}` produces it: digits only, no leading zero. */
  function NatToString(n: nat): (r: string)
    ensures |r| >= 1 && AllDigits(r)
    ensures |r| > 1 ==> r[0] != '0'
  {
    if n < 10 then [DigitChar(n)] else NatToString(n / 10) + [DigitChar(n % 10)]
  }

  /** Reading the rendering of `n` back gives `n`. */
  lemma {:induction false} DigitsValueOfNatToString(n: nat)
    ensures DigitsValue(NatToString(n)) == n
  {
    if n >= 10 {
      DigitsValueOfNatToString(n / 10);
      var r := NatToString(n);
      assert r[..|r| - 1] == NatToString(n / 10);
    }
  }

  /** The longest prefix of `s` made of decimal digits. */
  function DigitPrefix(s: string): (r: string)
    ensures |r| <= |s| && r == s[..|r|] && AllDigits(r)
    ensures |r| < |s| ==> !IsDigit(s[|r|])
  {
    if s != [] && IsDigit(s[0]) then [s[0]] + DigitPrefix(s[1..]) else []
  }

  /** Digits followed by a non-digit (or nothing) form the whole digit prefix. */
  lemma {:induction false} DigitPrefixOfDigits(ds: string, rest: string)
    requires AllDigits(ds)
    requires rest == [] || !IsDigit(rest[0])
    ensures DigitPrefix(ds + rest) == ds
  {
    if ds != [] {
      assert (ds + rest)[1..] == ds[1..] + rest;
      DigitPrefixOfDigits(ds[1..], rest);
    } else {
      assert ds + rest == rest;
    }
  }

  /** `parseInt(s, 10)`: skip leading white space, read an optional sign and then the longest run
      of decimal digits; `None` stands for NaN, which is the result when there is no digit. */
  function ParseInt(s: string): Option<int> {
    ParseSigned(TrimStart(s))
  }

  /** `parseInt` after the leading white space: an optional sign, then the digit prefix. */
  function ParseSigned(t: string): Option<int> {
    var signed := t != [] && (t[0] == '-' || t[0] == '+');
    var ds := DigitPrefix(if signed then t[1..] else t);
    if ds == [] then None
    else if signed && t[0] == '-' then Some(-(DigitsValue(ds) as int))
    else Some(DigitsValue(ds))
  }

  /** Without leading white space, `parseInt` starts at the sign or the digits directly. */
  lemma ParseIntUnpadded(s: string)
    requires s != [] && !IsSpace(s[0])
    ensures ParseInt(s) == ParseSigned(s)
  {
  }

  /** `parseInt` reads back the rendering of `n`, whatever non-digit text follows it. */
  lemma ParseRendered(n: nat, rest: string)
    requires rest == [] || !IsDigit(rest[0])
    ensures ParseInt(NatToString(n) + rest) == Some(n)
  {
    var ds := NatToString(n);
    var s := ds + rest;
    assert s[0] == ds[0];
    ParseIntUnpadded(s);
    DigitPrefixOfDigits(ds, rest);
    DigitsValueOfNatToString(n);
  }

  /** A minus sign followed by the rendering of `n` reads as `-n`. */
  lemma ParseSignedNegative(n: nat)
    ensures ParseSigned("-" + NatToString(n)) == Some(-(n as int))
  {
    var ds := NatToString(n);
    var s := "-" + ds;
    assert s[1..] == ds;
    DigitPrefixOfDigits(ds, []);
    assert ds + [] == ds;
    DigitsValueOfNatToString(n);
  }

  /** `parseInt` reads a minus sign followed by the rendering of `n` as `-n`. */
  lemma ParseRenderedNegative(n: nat)
    ensures ParseInt("-" + NatToString(n)) == Some(-(n as int))
  {
    ParseSignedNegative(n);
    ParseIntUnpadded("-" + NatToString(n));
  }

  /** A string without any digit is NaN to `parseInt`. */
  lemma ParseNoDigits(s: string)
    requires forall i :: 0 <= i < |s| ==> !IsDigit(s[i])
    ensures ParseInt(s) == None
  {
    var t := TrimStart(s);
    TrimStartSuffix(s);
    if t != [] && (t[0] == '-' || t[0] == '+') {
      if t[1..] != [] { assert t[1..][0] == s[|s| - |t| + 1]; }
    } else if t != [] {
      assert t[0] == s[|s| - |t|];
    }
  }
}
