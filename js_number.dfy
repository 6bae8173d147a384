/** JavaScript numbers as far as this program produces them, and the global
    `parseInt` with radix 16 (ECMA-262, 2024 edition, section 19.2.5,
    "parseInt ( string, radix )"). */
module JsNumber {

  /** A JavaScript Number that is either an integer or NaN. Negative zero is
      not distinguished from zero, and integers are exact (a double rounds
      above 2^53). */
  datatype Num = Int(value: int) | NaN

  /** A StrWhiteSpaceChar of ECMA-262: a WhiteSpace code point (TAB, VT, FF,
      ZWNBSP or any space separator of Unicode category Zs) or a
      LineTerminator (LF, CR, LS, PS). */
  predicate IsStrWhiteSpaceChar(c: char)
  {
    var u := c as int;
    || u == 0x09 || u == 0x0B || u == 0x0C || u == 0xFEFF
    || u == 0x20 || u == 0xA0 || u == 0x1680 || 0x2000 <= u <= 0x200A
    || u == 0x202F || u == 0x205F || u == 0x3000
    || u == 0x0A || u == 0x0D || u == 0x2028 || u == 0x2029
  }

  /** TrimString(s, start): `s` without its leading white space. */
  function TrimStart(s: string): (r: string)
    ensures |r| <= |s| && r == s[|s| - |r|..]
    ensures forall k :: 0 <= k < |s| - |r| ==> IsStrWhiteSpaceChar(s[k])
    ensures r == [] || !IsStrWhiteSpaceChar(r[0])
  {
    if s != [] && IsStrWhiteSpaceChar(s[0]) then TrimStart(s[1..]) else s
  }

  /** A radix-16 digit. */
  predicate IsHexDigit(c: char)
  {
    '0' <= c <= '9' || 'a' <= c <= 'f' || 'A' <= c <= 'F'
  }

  predicate AllHexDigits(z: string)
  {
    forall k :: 0 <= k < |z| ==> IsHexDigit(z[k])
  }

  /** The mathematical value of one radix-16 digit; letters in either case. */
  function DigitValue(c: char): (v: nat)
    requires IsHexDigit(c)
    ensures v < 16
  {
    if '0' <= c <= '9' then c as int - '0' as int
    else if 'a' <= c <= 'f' then c as int - 'a' as int + 10
    else c as int - 'A' as int + 10
  }

  /** The longest prefix of `s` made of radix-16 digits (step 11 of parseInt:
      parsing stops at the first code point that is not a digit). */
  function HexDigitsPrefix(s: string): (z: string)
    ensures |z| <= |s| && z == s[..|z|]
    ensures AllHexDigits(z)
    ensures |z| == |s| || !IsHexDigit(s[|z|])
  {
    if s != [] && IsHexDigit(s[0]) then [s[0]] + HexDigitsPrefix(s[1..]) else []
  }

  function Pow16(n: nat): (p: nat)
    ensures p >= 1
  {
    if n == 0 then 1 else 16 * Pow16(n - 1)
  }

  /** The integer that a string of radix-16 digits denotes, most significant
      digit first. */
  function HexValue(z: string): nat
    requires AllHexDigits(z)
  {
    if z == [] then 0 else HexValue(z[..|z| - 1]) * 16 + DigitValue(z[|z| - 1])
  }

  /** -1 when the trimmed string starts with `-` (step 4 of parseInt). */
  function SignOf(s: string): int
  {
    if |s| > 0 && s[0] == '-' then -1 else 1
  }

  /** Step 5: drop one leading `+` or `-`. */
  function StripSign(s: string): string
  {
    if |s| > 0 && (s[0] == '+' || s[0] == '-') then s[1..] else s
  }

  /** Step 10: with radix 16, drop a leading `0x` or `0X`. */
  function StripHexPrefix(s: string): string
  {
    if |s| >= 2 && s[0] == '0' && (s[1] == 'x' || s[1] == 'X') then s[2..] else s
  }

  /** `parseInt(input, 16)`: skip leading white space, take an optional sign,
      drop an optional `0x`/`0X` prefix, read the longest run of hex digits;
      with no digit the result is NaN. */
  function ParseInt16(input: string): (r: Num)
    ensures TrimStart(input) == [] ==> r.NaN?
    ensures var t := TrimStart(input);
            |t| > 0 && !IsHexDigit(t[0]) && t[0] != '+' && t[0] != '-' ==> r.NaN?
    ensures r.Int? && r.value < 0 ==> |TrimStart(input)| > 0 && TrimStart(input)[0] == '-'
  {
    var s := TrimStart(input);
    var z := HexDigitsPrefix(StripHexPrefix(StripSign(s)));
    if z == [] then NaN else Int(SignOf(s) * HexValue(z))
  }

  /** The value of a concatenation of digit strings: the left part shifted
      by one hex place per digit of the right part. */
  lemma {:induction false} HexValueConcat(a: string, b: string)
    requires AllHexDigits(a) && AllHexDigits(b)
    ensures AllHexDigits(a + b)
    ensures HexValue(a + b) == HexValue(a) * Pow16(|b|) + HexValue(b)
  {
    AllHexDigitsAppend(a, b);
    if b == [] {
      assert a + b == a;
    } else {
      var b' := b[..|b| - 1];
      HexValueConcat(a, b');
      HexValueLast(a, b);
      ConcatStep(HexValue(a + b), HexValue(a + b'), HexValue(a), Pow16(|b'|), HexValue(b'),
                 DigitValue(b[|b| - 1]), Pow16(|b|), HexValue(b));
    }
  }

  lemma AllHexDigitsAppend(a: string, b: string)
    requires AllHexDigits(a) && AllHexDigits(b)
    ensures AllHexDigits(a + b)
  {
    forall k | 0 <= k < |a + b|
      ensures IsHexDigit((a + b)[k])
    {
      if k < |a| {
        assert (a + b)[k] == a[k];
      } else {
        assert (a + b)[k] == b[k - |a|];
      }
    }
  }

  /** One unfolding of HexValue on a concatenation with a non-empty right part. */
  lemma HexValueLast(a: string, b: string)
    requires AllHexDigits(a) && AllHexDigits(b) && b != []
    ensures AllHexDigits(b[..|b| - 1]) && AllHexDigits(a + b[..|b| - 1]) && AllHexDigits(a + b)
    ensures HexValue(a + b) == HexValue(a + b[..|b| - 1]) * 16 + DigitValue(b[|b| - 1])
    ensures HexValue(b) == HexValue(b[..|b| - 1]) * 16 + DigitValue(b[|b| - 1])
  {
    var b' := b[..|b| - 1];
    assert forall k :: 0 <= k < |b'| ==> b'[k] == b[k];
    AllHexDigitsAppend(a, b');
    AllHexDigitsAppend(a, b);
    assert (a + b)[..|a + b| - 1] == a + b';
  }

  /** A string of `n` digits denotes less than 16^n. */
  lemma {:induction false} HexValueBound(z: string)
    requires AllHexDigits(z)
    ensures HexValue(z) < Pow16(|z|)
  {
    if z != [] {
      var z' := z[..|z| - 1];
      assert AllHexDigits(z') by {
        forall k | 0 <= k < |z'| ensures IsHexDigit(z'[k]) { assert z'[k] == z[k]; }
      }
      HexValueBound(z');
      var x, p, d := HexValue(z'), Pow16(|z'|), DigitValue(z[|z| - 1]);
      assert HexValue(z) == x * 16 + d;
      assert Pow16(|z|) == 16 * p;
      ShiftBound(x, p, d);
    }
  }

  lemma ShiftBound(x: int, p: int, d: int)
    requires 0 <= x < p && 0 <= d < 16
    ensures x * 16 + d < 16 * p
  {
  }

  lemma ShiftDistributes(x: int, p: int, y: int, d: int)
    ensures (x * p + y) * 16 + d == x * (16 * p) + (y * 16 + d)
  {
  }

  /** One digit more on both sides of the concatenation law. */
  lemma ConcatStep(v: int, v': int, x: int, p: int, y: int, d: int, q: int, w: int)
    requires v == v' * 16 + d && v' == x * p + y
    requires q == 16 * p && w == y * 16 + d
    ensures v == x * q + w
  {
    ShiftDistributes(x, p, y, d);
  }

  /** A hex literal with the `0x` prefix parses to the value of its digits. */
  lemma ParseHexLiteral(d: string)
    requires |d| > 0 && AllHexDigits(d)
    ensures ParseInt16("0x" + d) == Int(HexValue(d))
  {
    var s := "0x" + d;
    assert s[0] == '0' && s[1] == 'x' && s[2..] == d;
    TrimStartNoSpace(s);
    assert StripSign(s) == s && SignOf(s) == 1;
    assert StripHexPrefix(s) == d;
    HexDigitsPrefixAll(d);
    assert ParseInt16(s) == Int(1 * HexValue(d));
  }

  /** Trimming stops at once on a string that starts with no white space. */
  lemma TrimStartNoSpace(s: string)
    requires s != [] && !IsStrWhiteSpaceChar(s[0])
    ensures TrimStart(s) == s
  {
  }

  /** A string of digits is its own longest digit prefix. */
  lemma HexDigitsPrefixAll(d: string)
    requires AllHexDigits(d)
    ensures HexDigitsPrefix(d) == d
  {
    var z := HexDigitsPrefix(d);
    assert |z| == |d|;
  }

  /** The digit for a letter in upper case, mapped to lower case. */
  function LowerHex(c: char): (l: char)
    ensures IsHexDigit(c) ==> IsHexDigit(l) && DigitValue(l) == DigitValue(c)
  {
    if 'A' <= c <= 'F' then (c as int - 'A' as int + 'a' as int) as char else c
  }

  /** `a` and `b` agree up to the case of the letters `A`-`F`. */
  predicate SameIgnoringHexCase(a: string, b: string)
  {
    |a| == |b| && forall k :: 0 <= k < |a| ==> LowerHex(a[k]) == LowerHex(b[k])
  }

  /** Upper- and lower-case digits denote the same value. */
  lemma {:induction false} HexValueIgnoresCase(a: string, b: string)
    requires AllHexDigits(a) && AllHexDigits(b) && SameIgnoringHexCase(a, b)
    ensures HexValue(a) == HexValue(b)
  {
    if a != [] {
      var a', b' := a[..|a| - 1], b[..|b| - 1];
      assert AllHexDigits(a') by {
        forall k | 0 <= k < |a'| ensures IsHexDigit(a'[k]) { assert a'[k] == a[k]; }
      }
      assert AllHexDigits(b') by {
        forall k | 0 <= k < |b'| ensures IsHexDigit(b'[k]) { assert b'[k] == b[k]; }
      }
      assert SameIgnoringHexCase(a', b') by {
        forall k | 0 <= k < |a'| ensures LowerHex(a'[k]) == LowerHex(b'[k]) {
          assert a'[k] == a[k] && b'[k] == b[k];
        }
      }
      HexValueIgnoresCase(a', b');
      assert LowerHex(a[|a| - 1]) == LowerHex(b[|b| - 1]);
    }
  }
}
