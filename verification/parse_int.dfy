/**
 The global `parseInt(string)` with no radix argument (section 19.2.5 of
 ECMA-262), and the decimal text of an integer, as a template literal or
 `String(n)` writes it. The gates apply `parseInt` to path parameters.
 */
module JsParseInt {
  import opened JsValues

  /** WhiteSpace and LineTerminator code points (sections 12.2 and 12.3 of ECMA-262). */
  predicate IsJsSpace(c: char)
  {
    || c == '\t' || c == '\U{000B}' || c == '\U{000C}' || c == ' '
    || c == '\U{00A0}' || c == '\U{FEFF}' || c == '\U{1680}'
    || ('\U{2000}' <= c <= '\U{200A}')
    || c == '\U{202F}' || c == '\U{205F}' || c == '\U{3000}'
    || c == '\n' || c == '\r' || c == '\U{2028}' || c == '\U{2029}'
  }

  predicate IsDecimalDigit(c: char)
  {
    '0' <= c <= '9'
  }

  /** The radices `parseInt` ends up using when no radix is passed. */
  type Radix = r: nat | r == 10 || r == 16 witness 10

  /** The value of `c` as a digit of the given radix, if it is one. */
  function Digit(c: char, radix: Radix): (d: Option<nat>)
    ensures d.Some? ==> d.value < radix
    ensures IsDecimalDigit(c) <==> d.Some? && d.value < 10
  {
    if IsDecimalDigit(c) then Some(c as int - '0' as int)
    else if radix == 16 && 'a' <= c <= 'f' then Some(c as int - 'a' as int + 10)
    else if radix == 16 && 'A' <= c <= 'F' then Some(c as int - 'A' as int + 10)
    else None
  }

  predicate AllDigits(s: string, radix: Radix)
  {
    forall i :: 0 <= i < |s| ==> Digit(s[i], radix).Some?
  }

  /** `s` without its leading white space. */
  function TrimStart(s: string): (t: string)
    ensures |t| <= |s| && t == s[|s| - |t|..]
    ensures t == [] || !IsJsSpace(t[0])
  {
    if |s| > 0 && IsJsSpace(s[0]) then TrimStart(s[1..]) else s
  }

  /** The length of the longest prefix of `s` made of digits of the radix. */
  function DigitRun(s: string, radix: Radix): (n: nat)
    ensures n <= |s|
    ensures AllDigits(s[..n], radix)
    ensures n < |s| ==> Digit(s[n], radix).None?
  {
    if |s| > 0 && Digit(s[0], radix).Some? then 1 + DigitRun(s[1..], radix) else 0
  }

  /** The number a string of digits denotes, most significant digit first. */
  function DigitsValue(ds: string, radix: Radix): nat
    requires AllDigits(ds, radix)
  {
    if |ds| == 0 then 0
    else DigitsValue(ds[..|ds| - 1], radix) * radix + Digit(ds[|ds| - 1], radix).value
  }

  /** Whether `u` starts with the hexadecimal prefix `0x` or `0X`. */
  predicate HexPrefixed(u: string)
  {
    |u| >= 2 && u[0] == '0' && (u[1] == 'x' || u[1] == 'X')
  }

  /**
   `parseInt(s)`: skip leading white space, take an optional sign, switch to
   radix 16 after a `0x`/`0X` prefix, then read the longest run of digits;
   no digit at all gives NaN (`None`). The result is exact: the rounding of
   integers beyond 2^53 to the nearest double is not modelled. `-0` is
   folded into `0`, to which it is strictly equal.
   */
  function ParseInt(s: string): Option<int>
  {
    ParseSignedText(TrimStart(s))
  }

  /** `parseInt` once the white space is gone: an optional sign, then the number. */
  function ParseSignedText(t: string): Option<int>
  {
    if |t| > 0 && t[0] == '-' then
      match ParseUnsignedText(t[1..])
      case None => None
      case Some(m) => Some(-m)
    else if |t| > 0 && t[0] == '+' then ParseUnsignedText(t[1..])
    else ParseUnsignedText(t)
  }

  /** The number after the sign: hexadecimal after a `0x`/`0X` prefix, decimal otherwise. */
  function ParseUnsignedText(u: string): (r: Option<int>)
    ensures !HexPrefixed(u) ==> r == ReadDigits(u, 10)
    ensures r.Some? ==> r.value >= 0
  {
    if HexPrefixed(u) then ReadDigits(u[2..], 16) else ReadDigits(u, 10)
  }

  /** Text holding no decimal digit at all parses to NaN. */
  lemma {:induction false} ParseIntWithoutDigits(s: string)
    requires forall i :: 0 <= i < |s| ==> !IsDecimalDigit(s[i])
    ensures ParseInt(s) == None
  {
    var t := TrimStart(s);
    assert forall i :: 0 <= i < |t| ==> !IsDecimalDigit(t[i]) by {
      forall i | 0 <= i < |t| ensures !IsDecimalDigit(t[i]) {
        assert t[i] == s[|s| - |t| + i];
      }
    }
    if |t| > 0 && (t[0] == '-' || t[0] == '+') {
      assert t[1..] == [] || !IsDecimalDigit(t[1..][0]);
    }
  }

  /** Text that starts with a decimal digit and no hexadecimal prefix parses to a number. */
  lemma {:induction false} ParseIntLeadingDigit(s: string)
    requires |s| > 0 && IsDecimalDigit(s[0]) && !HexPrefixed(s)
    ensures ParseInt(s).Some? && ParseInt(s).value >= 0
  {
    ParseUnsigned(s);
    assert Digit(s[0], 10).Some?;
  }

  /** White space trimming leaves text that starts with anything else unchanged. */
  lemma {:induction false} TrimStartKeeps(s: string)
    requires |s| > 0 && !IsJsSpace(s[0])
    ensures TrimStart(s) == s
  {
  }

  /** The value of the longest run of digits at the start of `v`, if there is one. */
  function ReadDigits(v: string, radix: Radix): (r: Option<int>)
    ensures r.None? <==> v == [] || Digit(v[0], radix).None?
    ensures r.Some? ==> r.value >= 0
  {
    var n := DigitRun(v, radix);
    if n == 0 then None else Some(DigitsValue(v[..n], radix))
  }

  function DecimalDigitChar(d: nat): (c: char)
    requires d < 10
    ensures IsDecimalDigit(c) && Digit(c, 10) == Some(d)
  {
    ('0' as int + d) as char
  }

  /** The decimal text of `n`, without leading zeros. */
  function NatToDecimal(n: nat): (s: string)
    ensures |s| > 0 && AllDigits(s, 10)
    ensures s[0] == '0' <==> n == 0
    decreases n
  {
    if n < 10 then [DecimalDigitChar(n)]
    else NatToDecimal(n / 10) + [DecimalDigitChar(n % 10)]
  }

  /** The text JavaScript gives an integer of magnitude below 10^21, as in `${n}`. */
  function IntToDecimal(n: int): (s: string)
    ensures |s| > 0
    ensures s[0] == '-' <==> n < 0
  {
    if n < 0 then "-" + NatToDecimal(-n) else NatToDecimal(n)
  }

  /** Reading back the decimal text of `n` gives `n`. */
  lemma {:induction false} DecimalValue(n: nat)
    ensures DigitsValue(NatToDecimal(n), 10) == n
    decreases n
  {
    if n >= 10 {
      var s := NatToDecimal(n);
      var p := NatToDecimal(n / 10);
      assert s == p + [DecimalDigitChar(n % 10)];
      assert s[..|s| - 1] == p;
      DecimalValue(n / 10);
    }
  }

  /** A digit string followed by a non-digit is read up to its end. */
  lemma {:induction false} DigitRunOfDigits(ds: string, rest: string, radix: Radix)
    requires AllDigits(ds, radix)
    requires rest == [] || Digit(rest[0], radix).None?
    ensures DigitRun(ds + rest, radix) == |ds|
    decreases |ds|
  {
    if |ds| > 0 {
      assert (ds + rest)[0] == ds[0];
      assert (ds + rest)[1..] == ds[1..] + rest;
      DigitRunOfDigits(ds[1..], rest, radix);
    } else {
      assert ds + rest == rest;
    }
  }

  /**
   `parseInt` reads the decimal text of `n` back as `n` whatever follows it,
   as long as what follows is not a further digit and does not turn a
   leading `0` into the hexadecimal prefix: `parseInt("12abc")` is 12.
   */
  lemma {:induction false} ParseIntDecimalPrefix(n: int, rest: string)
    requires rest == [] || !IsDecimalDigit(rest[0])
    requires n == 0 ==> rest == [] || (rest[0] != 'x' && rest[0] != 'X')
    ensures ParseInt(IntToDecimal(n) + rest) == Some(n)
  {
    if n < 0 {
      ParseNegativePrefix(n, rest);
    } else {
      ParseNonNegativePrefix(n, rest);
    }
  }

  lemma {:induction false} ParseNonNegativePrefix(m: nat, rest: string)
    requires rest == [] || !IsDecimalDigit(rest[0])
    requires m == 0 ==> rest == [] || (rest[0] != 'x' && rest[0] != 'X')
    ensures ParseInt(IntToDecimal(m) + rest) == Some(m)
  {
    var u := NatToDecimal(m) + rest;
    DecimalTextStart(m, rest);
    ReadDecimalPrefix(m, rest);
    UnsignedNotHex(m, rest);
    ParseUnsigned(u);
  }

  lemma {:induction false} ParseNegativePrefix(n: int, rest: string)
    requires n < 0
    requires rest == [] || !IsDecimalDigit(rest[0])
    ensures ParseInt(IntToDecimal(n) + rest) == Some(n)
  {
    var m: nat := -n;
    var d := NatToDecimal(m);
    var text := IntToDecimal(n) + rest;
    assert text == "-" + (d + rest) by {
      assert IntToDecimal(n) == "-" + d;
      ConcatAssociative("-", d, rest);
    }
    assert ParseInt("-" + (d + rest)) == Some(n) by {
      ReadDecimalPrefix(m, rest);
      UnsignedNotHex(m, rest);
      ParseSigned(d + rest, m);
    }
  }

  lemma {:induction false} ConcatAssociative(a: string, b: string, c: string)
    ensures (a + b) + c == a + (b + c)
  {
  }

  lemma {:induction false} DecimalTextStart(m: nat, rest: string)
    ensures IsDecimalDigit((NatToDecimal(m) + rest)[0])
  {
    var d := NatToDecimal(m);
    assert (d + rest)[0] == d[0];
    assert Digit(d[0], 10).Some?;
  }

  /** Reading digits from the decimal text of `m` stops at its end. */
  lemma {:induction false} ReadDecimalPrefix(m: nat, rest: string)
    requires rest == [] || !IsDecimalDigit(rest[0])
    ensures ReadDigits(NatToDecimal(m) + rest, 10) == Some(m)
  {
    var d := NatToDecimal(m);
    assert rest == [] || Digit(rest[0], 10).None?;
    DigitRunOfDigits(d, rest, 10);
    assert (d + rest)[..|d|] == d;
    DecimalValue(m);
  }

  lemma {:induction false} UnsignedNotHex(m: nat, rest: string)
    requires m == 0 ==> rest == [] || (rest[0] != 'x' && rest[0] != 'X')
    ensures !HexPrefixed(NatToDecimal(m) + rest)
  {
    var d := NatToDecimal(m);
    var u := d + rest;
    assert u[0] == d[0];
    if |d| == 1 {
      assert |u| >= 2 ==> u[1] == rest[0];
    } else {
      assert u[1] == d[1];
    }
  }

  /** Text starting with a decimal digit and no hexadecimal prefix is read as its digits. */
  lemma {:induction false} ParseUnsigned(u: string)
    requires |u| > 0 && IsDecimalDigit(u[0]) && !HexPrefixed(u)
    ensures ParseInt(u) == ReadDigits(u, 10)
  {
    assert !IsJsSpace(u[0]);
    TrimStartKeeps(u);
    assert ParseSignedText(u) == ParseUnsignedText(u);
  }

  /** A leading minus sign negates what follows it. */
  lemma {:induction false} ParseSigned(u: string, k: int)
    requires !HexPrefixed(u)
    requires ReadDigits(u, 10) == Some(k)
    ensures ParseInt("-" + u) == Some(-k)
  {
    var s := "-" + u;
    assert TrimStart(s) == s;
    assert s[1..] == u;
    assert ParseUnsignedText(u) == Some(k);
  }

  /** `parseInt` inverts the decimal text of every integer. */
  lemma {:induction false} ParseIntRoundTrip(n: int)
    ensures ParseInt(IntToDecimal(n)) == Some(n)
  {
    ParseIntDecimalPrefix(n, []);
    assert IntToDecimal(n) + [] == IntToDecimal(n);
  }
}
