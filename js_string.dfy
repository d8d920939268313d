/**
 * The JavaScript string built-ins the handlers rely on:
 * `String.prototype.trim` (the blank-listName check), the global `parseInt`
 * with no radix argument (the `:id` path parameter) and the decimal printing
 * of an integral Number (the `${listId}` in response messages).
 */
module JsString {
  import opened Wrappers

  /**
   * ECMAScript's StrWhiteSpaceChar: the WhiteSpace code points (tab, vertical
   * tab, form feed, space, no-break space, the byte order mark and every other
   * space separator) and the LineTerminator code points (LF, CR, line and
   * paragraph separators). Both `trim` and `parseInt` skip exactly these.
   */
  predicate IsWhite(c: char)
  {
    c == '\t' || c == '\n' || c == '\U{B}' || c == '\U{C}' || c == '\r' || c == ' ' ||
    c == '\U{A0}' || c == '\U{1680}' || ('\U{2000}' <= c <= '\U{200A}') ||
    c == '\U{2028}' || c == '\U{2029}' || c == '\U{202F}' || c == '\U{205F}' ||
    c == '\U{3000}' || c == '\U{FEFF}'
  }

  predicate AllWhite(s: string)
  {
    forall i :: 0 <= i < |s| ==> IsWhite(s[i])
  }

  /** Drops the leading white space: the result is the suffix that starts at the first other character. */
  function TrimStart(s: string): (r: string)
    ensures |r| <= |s| && r == s[|s| - |r|..]
    ensures AllWhite(s[..|s| - |r|])
    ensures r == [] || !IsWhite(r[0])
  {
    if |s| > 0 && IsWhite(s[0]) then
      var r := TrimStart(s[1..]);
      assert forall i :: 1 <= i < |s| - |r| ==> s[i] == s[1..][..|s| - 1 - |r|][i - 1];
      r
    else s
  }

  /** Drops the trailing white space: the result is the prefix that ends at the last other character. */
  function TrimEnd(s: string): (r: string)
    ensures |r| <= |s| && r == s[..|r|]
    ensures AllWhite(s[|r|..])
    ensures r == [] || !IsWhite(r[|r| - 1])
  {
    if |s| > 0 && IsWhite(s[|s| - 1]) then
      var r := TrimEnd(s[..|s| - 1]);
      assert forall i :: |r| <= i < |s| - 1 ==> s[i] == s[..|s| - 1][i];
      r
    else s
  }

  /** `s.trim()`. */
  function Trim(s: string): string
  {
    TrimEnd(TrimStart(s))
  }

  /** `s.trim() === ''` holds exactly when every character of `s` is white space. */
  lemma TrimEmptyIff(s: string)
    ensures Trim(s) == [] <==> AllWhite(s)
  {
    var t := TrimStart(s);
    if Trim(s) == [] {
      assert AllWhite(t[|t|..]);
      forall i | 0 <= i < |s| ensures IsWhite(s[i]) {
        if i < |s| - |t| {
          assert s[i] == s[..|s| - |t|][i];
        } else {
          assert s[i] == t[i - (|s| - |t|)];
        }
      }
    } else {
      var k := |s| - |t|;
      assert t != [] && !IsWhite(t[0]);
      assert s[k] == t[0];
    }
  }

  /** The part of `s` that `trim` keeps does not begin or end with white space. */
  lemma TrimHasNoOuterWhite(s: string)
    ensures Trim(s) == [] || (!IsWhite(Trim(s)[0]) && !IsWhite(Trim(s)[|Trim(s)| - 1]))
  {
    var t := TrimStart(s);
    var r := TrimEnd(t);
    if r != [] {
      assert r[0] == t[0];
    }
  }

  // ---------------------------------------------------------------------------
  // parseInt

  /** The value of `c` as a digit in base 36 (`0-9`, then `a-z` or `A-Z`), or 36 when it is none. */
  function DigitValue(c: char): (d: nat)
    ensures d <= 36
    ensures '0' <= c <= '9' ==> d == c as int - '0' as int
  {
    if '0' <= c <= '9' then c as int - '0' as int
    else if 'a' <= c <= 'z' then c as int - 'a' as int + 10
    else if 'A' <= c <= 'Z' then c as int - 'A' as int + 10
    else 36
  }

  predicate IsRadixDigit(c: char, radix: nat)
  {
    DigitValue(c) < radix
  }

  /** The length of the longest prefix of `s` made of radix digits. */
  function DigitRunLength(s: string, radix: nat): (n: nat)
    ensures n <= |s|
    ensures forall i :: 0 <= i < n ==> IsRadixDigit(s[i], radix)
    ensures n == |s| || !IsRadixDigit(s[n], radix)
  {
    if |s| > 0 && IsRadixDigit(s[0], radix) then 1 + DigitRunLength(s[1..], radix) else 0
  }

  /** The number that the digit string `ds` denotes in base `radix`, most significant digit first. */
  function DigitsValue(ds: string, radix: nat): nat
  {
    if |ds| == 0 then 0
    else DigitsValue(ds[..|ds| - 1], radix) * radix + DigitValue(ds[|ds| - 1])
  }

  /** `u` starts with the `0x` or `0X` that switches `parseInt` to base 16. */
  predicate HasHexPrefix(u: string)
  {
    |u| >= 2 && u[0] == '0' && (u[1] == 'x' || u[1] == 'X')
  }

  /** The longest run of radix digits at the start of `v`, read as a number; `None` when the run is empty. */
  function ParseDigits(v: string, radix: nat): (r: Option<nat>)
    ensures r.None? <==> v == [] || !IsRadixDigit(v[0], radix)
  {
    var n := DigitRunLength(v, radix);
    if n == 0 then None else Some(DigitsValue(v[..n], radix))
  }

  /** The unsigned part of a `parseInt` input: hexadecimal after `0x`/`0X`, decimal otherwise. */
  function ParseUnsigned(u: string): Option<nat>
  {
    if HasHexPrefix(u) then ParseDigits(u[2..], 16) else ParseDigits(u, 10)
  }

  /** An optional `+` or `-`, then the unsigned part. */
  function ParseSigned(t: string): Option<int>
  {
    if |t| > 0 && t[0] == '-' then
      match ParseUnsigned(t[1..])
      case None => None
      case Some(m) => Some(-(m as int))
    else if |t| > 0 && t[0] == '+' then
      match ParseUnsigned(t[1..])
      case None => None
      case Some(m) => Some(m)
    else
      match ParseUnsigned(t)
      case None => None
      case Some(m) => Some(m)
  }

  /**
   * `parseInt(s)` with no radix, `None` standing for NaN: skip leading white
   * space, take an optional `+` or `-`, switch to base 16 after a `0x` or `0X`,
   * then read the longest run of digits; no digits at all gives NaN. Whatever
   * follows the digits (`.5`, `abc`) is ignored.
   */
  function ParseInt(s: string): Option<int>
  {
    ParseSigned(TrimStart(s))
  }

  // ---------------------------------------------------------------------------
  // Printing an integral Number in decimal, as a template literal does

  function DigitChar(d: nat): (c: char)
    requires d < 10
    ensures '0' <= c <= '9' && DigitValue(c) == d
  {
    ('0' as int + d) as char
  }

  function NatToString(n: nat): (s: string)
    ensures |s| >= 1
    ensures forall i :: 0 <= i < |s| ==> '0' <= s[i] <= '9'
    ensures s[0] == '0' ==> n == 0
  {
    if n < 10 then [DigitChar(n)] else NatToString(n / 10) + [DigitChar(n % 10)]
  }

  /** `String(n)` for an integral Number: a minus sign for negatives, then the decimal digits. */
  function IntToString(n: int): string
  {
    if n < 0 then "-" + NatToString(-n) else NatToString(n)
  }

  lemma {:induction false} NatToStringValue(n: nat)
    ensures DigitsValue(NatToString(n), 10) == n
  {
    var s := NatToString(n);
    if n >= 10 {
      NatToStringValue(n / 10);
      assert s[..|s| - 1] == NatToString(n / 10);
    }
  }

  /** A run of digits followed by something that is not a digit is read as exactly that run. */
  lemma {:induction false} DigitRunOfDigits(ds: string, rest: string, radix: nat)
    requires forall i :: 0 <= i < |ds| ==> IsRadixDigit(ds[i], radix)
    requires rest == [] || !IsRadixDigit(rest[0], radix)
    ensures DigitRunLength(ds + rest, radix) == |ds|
  {
    if |ds| > 0 {
      assert (ds + rest)[1..] == ds[1..] + rest;
      DigitRunOfDigits(ds[1..], rest, radix);
    } else {
      assert ds + rest == rest;
    }
  }

  /**
   * `rest` cannot extend a number printed in front of it: it is empty, or it
   * starts with a character that is neither a decimal digit nor the `x`/`X`
   * that would turn a leading `0` into a hexadecimal prefix.
   */
  predicate EndsNumber(rest: string)
  {
    rest == [] || (!IsRadixDigit(rest[0], 10) && rest[0] != 'x' && rest[0] != 'X')
  }

  lemma NatRoundTrip(n: nat, rest: string, s: string)
    requires EndsNumber(rest) && s == NatToString(n) + rest
    ensures ParseUnsigned(s) == Some(n)
  {
    var ds := NatToString(n);
    DigitRunOfDigits(ds, rest, 10);
    assert s[..|ds|] == ds;
    NatToStringValue(n);
    if |s| >= 2 && s[0] == '0' {
      assert n == 0 && |ds| == 1;
      assert s[1] == rest[0];
    }
    assert !HasHexPrefix(s);
  }

  /**
   * Reading back a printed integer gives the integer, even when other text
   * follows it: `parseInt(String(n) + rest) == n`. This is why `"1.5"` and
   * `"1abc"` both address the list with id 1.
   */
  lemma ParseIntRoundTrip(n: int, rest: string)
    requires EndsNumber(rest)
    ensures ParseInt(IntToString(n) + rest) == Some(n)
  {
    var s := IntToString(n) + rest;
    if n < 0 {
      NegativeRoundTrip(n, rest, s);
    } else {
      NonNegativeRoundTrip(n, rest, s);
    }
  }

  lemma NonNegativeRoundTrip(n: nat, rest: string, s: string)
    requires EndsNumber(rest) && s == NatToString(n) + rest
    ensures ParseInt(s) == Some(n)
  {
    NatRoundTrip(n, rest, s);
    assert s[0] == NatToString(n)[0];
    ParseIntOfDigitStart(s);
  }

  lemma NegativeRoundTrip(n: int, rest: string, s: string)
    requires n < 0 && EndsNumber(rest) && s == "-" + NatToString(-n) + rest
    ensures ParseInt(s) == Some(n)
  {
    assert s[1..] == NatToString(-n) + rest;
    NatRoundTrip(-n, rest, s[1..]);
    ParseIntNegative(s, -n);
  }

  /** Text that starts with a decimal digit parses as its unsigned reading. */
  lemma ParseIntOfDigitStart(u: string)
    requires u != [] && '0' <= u[0] <= '9'
    ensures ParseInt(u) == ParseUnsigned(u)
  {
    assert !IsWhite(u[0]);
    assert TrimStart(u) == u;
  }

  lemma ParseIntNegative(s: string, m: nat)
    requires s != [] && s[0] == '-'
    requires ParseUnsigned(s[1..]) == Some(m)
    ensures ParseInt(s) == Some(-(m as int))
  {
    assert TrimStart(s) == s;
  }

  /** `parseInt` ignores any amount of leading white space. */
  lemma {:induction false} ParseIntSkipsWhite(w: string, s: string)
    requires AllWhite(w)
    ensures ParseInt(w + s) == ParseInt(s)
    ensures TrimStart(w + s) == TrimStart(s)
  {
    if |w| > 0 {
      assert (w + s)[1..] == w[1..] + s;
      ParseIntSkipsWhite(w[1..], s);
    } else {
      assert w + s == s;
    }
  }

  /**
   * When the first character after the white space and the optional sign is
   * not a decimal digit, `parseInt` gives NaN (as for `"invalidId"`).
   */
  lemma ParseIntNonDigit(s: string)
    requires var t := TrimStart(s);
      var u := if |t| > 0 && (t[0] == '-' || t[0] == '+') then t[1..] else t;
      u == [] || !IsRadixDigit(u[0], 10)
    ensures ParseInt(s) == None
  {
  }

  /**
   * `parseInt` gives NaN exactly when, after the white space and the optional
   * sign, there is no decimal digit, or there is a `0x`/`0X` prefix with no
   * hexadecimal digit after it.
   */
  lemma ParseIntNaNIff(s: string)
    ensures var t := TrimStart(s);
      var u := if |t| > 0 && (t[0] == '-' || t[0] == '+') then t[1..] else t;
      ParseInt(s).None? <==>
        u == [] || !IsRadixDigit(u[0], 10) ||
        (HasHexPrefix(u) && (|u| == 2 || !IsRadixDigit(u[2], 16)))
  {
    var t := TrimStart(s);
    var u := if |t| > 0 && (t[0] == '-' || t[0] == '+') then t[1..] else t;
    assert ParseSigned(t).None? <==> ParseUnsigned(u).None?;
  }

  /** Distinct integers print differently, so `${listId}` names the id it was given. */
  lemma IntToStringInjective(a: int, b: int)
    requires IntToString(a) == IntToString(b)
    ensures a == b
  {
    ParseIntOfIntToString(a);
    ParseIntOfIntToString(b);
  }

  /** Reading back a printed integer on its own gives the integer. */
  lemma ParseIntOfIntToString(n: int)
    ensures ParseInt(IntToString(n)) == Some(n)
  {
    ParseIntRoundTrip(n, "");
    assert IntToString(n) + "" == IntToString(n);
  }

  /** A path segment with no leading digit, as in the route tests, is NaN. */
  lemma ParseIntInvalidId()
    ensures ParseInt("invalidId") == None
  {
    ParseIntNonDigit("invalidId");
  }

  /** Text after the digits is ignored: `"1.5"` and `"1abc"` both read as 1. */
  lemma ParseIntTrailingText()
    ensures ParseInt("1.5") == Some(1)
    ensures ParseInt("1abc") == Some(1)
  {
    assert IntToString(1) == "1";
    assert "1" + ".5" == "1.5" && "1" + "abc" == "1abc";
    ParseIntRoundTrip(1, ".5");
    ParseIntRoundTrip(1, "abc");
  }

  /** A run of digits followed by a non-digit is read as exactly that run. */
  lemma ParseDigitsRun(ds: string, rest: string, radix: nat, v: string)
    requires |ds| > 0 && forall i :: 0 <= i < |ds| ==> IsRadixDigit(ds[i], radix)
    requires rest == [] || !IsRadixDigit(rest[0], radix)
    requires v == ds + rest
    ensures ParseDigits(v, radix) == Some(DigitsValue(ds, radix))
  {
    DigitRunOfDigits(ds, rest, radix);
    assert v[..|ds|] == ds;
  }

  /**
   * After `0x` or `0X`, the longest run of hexadecimal digits is read in base
   * 16, whatever text follows it.
   */
  lemma ParseIntHex(s: string, ds: string, rest: string)
    requires |s| >= 2 && s[0] == '0' && (s[1] == 'x' || s[1] == 'X') && s[2..] == ds + rest
    requires |ds| > 0 && forall i :: 0 <= i < |ds| ==> IsRadixDigit(ds[i], 16)
    requires rest == [] || !IsRadixDigit(rest[0], 16)
    ensures ParseInt(s) == Some(DigitsValue(ds, 16))
  {
    assert HasHexPrefix(s);
    ParseDigitsRun(ds, rest, 16, s[2..]);
    ParseIntOfDigitStart(s);
  }

  /** `0x` with no digit after it is NaN, although `0` alone is a number. */
  lemma ParseIntBareHexPrefix()
    ensures ParseInt("0x") == None
  {
    var u := "0x";
    ParseIntOfDigitStart(u);
    assert HasHexPrefix(u) && u[2..] == [];
  }
}
