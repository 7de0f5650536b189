/** JavaScript's global `parseInt(string)` called without a radix, and the
    decimal rendering of a natural number (what a `<select>` option value or a
    numeric object key looks like as a string). A result of `None` is `NaN`. */
module JsParseInt {
  import opened Wrappers

  /** The white space and line terminator characters `parseInt` skips at the start. */
  predicate IsJsSpace(c: char)
  {
    c == '\t' || c == '\n' || c == '\U{000B}' || c == '\U{000C}' || c == '\r' || c == ' '
    || c == '\U{00A0}' || c == '\U{1680}' || ('\U{2000}' <= c <= '\U{200A}')
    || c == '\U{2028}' || c == '\U{2029}' || c == '\U{202F}' || c == '\U{205F}'
    || c == '\U{3000}' || c == '\U{FEFF}'
  }

  function TrimStart(s: string): (t: string)
    ensures |t| <= |s| && t == s[|s| - |t|..]
    ensures t == [] || !IsJsSpace(t[0])
    ensures forall i :: 0 <= i < |s| - |t| ==> IsJsSpace(s[i])
  {
    if |s| > 0 && IsJsSpace(s[0]) then TrimStart(s[1..]) else s
  }

  /** The value of `c` as a digit of base 36, if it is one. */
  function DigitValue(c: char): Option<nat>
  {
    if '0' <= c <= '9' then Some(c as int - '0' as int)
    else if 'a' <= c <= 'z' then Some(c as int - 'a' as int + 10)
    else if 'A' <= c <= 'Z' then Some(c as int - 'A' as int + 10)
    else None
  }

  predicate IsDigit(c: char, radix: nat)
  {
    DigitValue(c).Some? && DigitValue(c).value < radix
  }

  /** The length of the longest prefix of `s` made of digits of `radix`. */
  function DigitPrefixLength(s: string, radix: nat): (n: nat)
    ensures n <= |s|
    ensures forall i :: 0 <= i < n ==> IsDigit(s[i], radix)
    ensures n < |s| ==> !IsDigit(s[n], radix)
  {
    if |s| > 0 && IsDigit(s[0], radix) then 1 + DigitPrefixLength(s[1..], radix) else 0
  }

  /** The number a string of digits denotes in base `radix` (only ever applied to digits). */
  function DigitsValue(s: string, radix: nat): nat
  {
    if s == [] then 0
    else
      var d := match DigitValue(s[|s| - 1]) case Some(v) => v case None => 0;
      DigitsValue(s[..|s| - 1], radix) * radix + d
  }

  /** The number denoted by the longest run of digits at the start of `w`, if any. */
  function ReadDigits(w: string, radix: nat): Option<nat>
  {
    var n := DigitPrefixLength(w, radix);
    if n == 0 then None else Some(DigitsValue(w[..n], radix))
  }

  predicate HasHexPrefix(u: string)
  {
    |u| >= 2 && u[0] == '0' && (u[1] == 'x' || u[1] == 'X')
  }

  /** `parseInt(s)`: skip leading white space, read an optional sign, switch to
      base 16 after a `0x`/`0X` prefix, then read the longest run of digits;
      no digit at all gives `NaN`. A number comes only from a string with
      something left after the white space, and its sign is that of a
      leading `-`. */
  function ParseInt(s: string): (r: Option<int>)
    ensures r.Some? ==> TrimStart(s) != [] && (if TrimStart(s)[0] == '-' then r.value <= 0 else r.value >= 0)
  {
    ParseTrimmed(TrimStart(s))
  }

  /** `parseInt` once the leading white space is gone. */
  function ParseTrimmed(t: string): Option<int>
  {
    var negative := |t| > 0 && t[0] == '-';
    var u := if |t| > 0 && (t[0] == '-' || t[0] == '+') then t[1..] else t;
    var m := if HasHexPrefix(u) then ReadDigits(u[2..], 16) else ReadDigits(u, 10);
    match m
    case None => None
    case Some(v) =>
      var r: int := if negative then -(v as int) else v;
      Some(r)
  }

  function DigitChar(d: nat): (c: char)
    requires d < 10
    ensures '0' <= c <= '9' && DigitValue(c) == Some(d)
  {
    ('0' as int + d) as char
  }

  /** The decimal rendering of `n`, without sign or leading zeros. */
  function NatToString(n: nat): (s: string)
    ensures |s| > 0
    ensures forall i :: 0 <= i < |s| ==> '0' <= s[i] <= '9'
  {
    if n < 10 then [DigitChar(n)] else NatToString(n / 10) + [DigitChar(n % 10)]
  }

  lemma {:induction false} DigitsValueOfNatToString(n: nat)
    ensures forall i :: 0 <= i < |NatToString(n)| ==> IsDigit(NatToString(n)[i], 10)
    ensures DigitsValue(NatToString(n), 10) == n
  {
    var s := NatToString(n);
    if n >= 10 {
      DigitsValueOfNatToString(n / 10);
      assert s[..|s| - 1] == NatToString(n / 10);
    } else {
      assert s[..0] == [];
    }
  }

  /** A string made only of digits is read whole. */
  lemma {:induction false} ReadWholeDigits(s: string, radix: nat)
    requires s != []
    requires forall i :: 0 <= i < |s| ==> IsDigit(s[i], radix)
    ensures ReadDigits(s, radix) == Some(DigitsValue(s, radix))
  {
    WhollyDigits(s, radix);
    assert s[..|s|] == s;
  }

  lemma {:induction false} WhollyDigits(s: string, radix: nat)
    requires forall i :: 0 <= i < |s| ==> IsDigit(s[i], radix)
    ensures DigitPrefixLength(s, radix) == |s|
  {
    if |s| > 0 {
      WhollyDigits(s[1..], radix);
    }
  }

  /** The decimal rendering of a number, as `parseInt` reads it. */
  lemma ReadNatToString(n: nat)
    ensures TrimStart(NatToString(n)) == NatToString(n)
    ensures !HasHexPrefix(NatToString(n))
    ensures ReadDigits(NatToString(n), 10) == Some(n)
  {
    NatToStringPlain(n);
    DigitsValueOfNatToString(n);
    ReadWholeDigits(NatToString(n), 10);
  }

  /** A decimal rendering starts with a digit, so there is nothing to trim and no `0x`. */
  lemma NatToStringPlain(n: nat)
    ensures TrimStart(NatToString(n)) == NatToString(n)
    ensures !HasHexPrefix(NatToString(n))
  {
    var s := NatToString(n);
    assert !IsJsSpace(s[0]);
    assert |s| >= 2 ==> s[1] != 'x' && s[1] != 'X';
  }

  /** Parsing the decimal rendering of a number gives that number back. */
  lemma ParseIntOfNatToString(n: nat)
    ensures ParseInt(NatToString(n)) == Some(n)
  {
    var s := NatToString(n);
    ReadNatToString(n);
    assert '0' <= s[0] <= '9';
    assert ParseTrimmed(s) == Some(n);
  }

  /** A minus sign in front negates the number read. */
  lemma ParseIntOfNegated(n: nat)
    ensures ParseInt(['-'] + NatToString(n)) == Some(-(n as int))
  {
    ReadNatToString(n);
    NegatedDigits(NatToString(n), n);
  }

  lemma NegatedDigits(s: string, n: nat)
    requires !HasHexPrefix(s) && ReadDigits(s, 10) == Some(n)
    ensures ParseInt(['-'] + s) == Some(-(n as int))
  {
    var t := ['-'] + s;
    NoSpaceToTrim(t);
    assert t[1..] == s;
  }

  lemma NoSpaceToTrim(t: string)
    requires t != [] && !IsJsSpace(t[0])
    ensures ParseInt(t) == ParseTrimmed(t)
  {
  }

  /** Leading white space is ignored. */
  lemma ParseIntSkipsSpace(c: char, s: string)
    requires IsJsSpace(c)
    ensures ParseInt([c] + s) == ParseInt(s)
  {
  }

  /** A string without a decimal digit is `NaN`. */
  lemma ParseIntWithoutDigits(s: string)
    requires forall i :: 0 <= i < |s| ==> !('0' <= s[i] <= '9')
    ensures ParseInt(s) == None
  {
  }

  /** The digits of a string of digits followed by anything else. */
  lemma {:induction false} DigitPrefixOfAppend(s: string, t: string, radix: nat)
    requires forall i :: 0 <= i < |s| ==> IsDigit(s[i], radix)
    ensures DigitPrefixLength(s + t, radix) == |s| + DigitPrefixLength(t, radix)
  {
    if |s| > 0 {
      assert (s + t)[1..] == s[1..] + t;
      DigitPrefixOfAppend(s[1..], t, radix);
    } else {
      assert s + t == t;
    }
  }

  /** Reading stops at the first character that is not a decimal digit; only
      `0` followed by `x` or `X` switches to base 16 instead. */
  lemma ParseIntStopsAtNonDigit(n: nat, c: char, rest: string)
    requires !('0' <= c <= '9')
    requires n != 0 || (c != 'x' && c != 'X')
    ensures ParseInt(NatToString(n) + [c] + rest) == Some(n)
  {
    var w := NatToString(n) + [c] + rest;
    ReadStopsAtNonDigit(n, c, rest);
    NoHexPrefixBeforeNonDigit(n, c, rest);
    NoSpaceToTrim(w);
  }

  lemma ReadStopsAtNonDigit(n: nat, c: char, rest: string)
    requires !('0' <= c <= '9')
    ensures ReadDigits(NatToString(n) + [c] + rest, 10) == Some(n)
  {
    var d := NatToString(n);
    var w := d + [c] + rest;
    DigitsValueOfNatToString(n);
    assert w == d + ([c] + rest);
    DigitPrefixOfAppend(d, [c] + rest, 10);
    assert DigitPrefixLength([c] + rest, 10) == 0;
    assert w[..|d|] == d;
  }

  lemma NoHexPrefixBeforeNonDigit(n: nat, c: char, rest: string)
    requires n != 0 || (c != 'x' && c != 'X')
    ensures !HasHexPrefix(NatToString(n) + [c] + rest)
    ensures '0' <= (NatToString(n) + [c] + rest)[0] <= '9'
  {
    if n >= 10 {
      assert NatToString(n) == NatToString(n / 10) + [DigitChar(n % 10)];
    }
  }

  /** After `0x` or `0X` the digits are read in base 16. */
  lemma ParseIntHexPrefix(x: char, s: string)
    requires x == 'x' || x == 'X'
    ensures ReadDigits(s, 16).None? ==> ParseInt(['0', x] + s) == None
    ensures ReadDigits(s, 16).Some? ==> ParseInt(['0', x] + s) == Some(ReadDigits(s, 16).value)
  {
    var w := ['0', x] + s;
    NoSpaceToTrim(w);
    assert w[2..] == s;
  }

  /** Distinct numbers have distinct decimal renderings. */
  lemma NatToStringInjective(a: nat, b: nat)
    requires NatToString(a) == NatToString(b)
    ensures a == b
  {
    ParseIntOfNatToString(a);
    ParseIntOfNatToString(b);
  }
}
