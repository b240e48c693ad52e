/**
  The string side of the JavaScript runtime the views rely on: decimal
  rendering of integers (`String(n)` / template literals), `padStart`, `trim`,
  and the truncating `%` operator.
 */
module Text {
  import opened Wrappers

  predicate IsDigit(c: char)
  {
    '0' <= c <= '9'
  }

  predicate AllDigits(s: string)
  {
    forall i :: 0 <= i < |s| ==> IsDigit(s[i])
  }

  function DigitChar(d: nat): (c: char)
    requires d < 10
    ensures IsDigit(c)
  {
    ('0' as int + d) as char
  }

  /** The value of a string of decimal digits; leading zeros are allowed. */
  function DigitsValue(s: string): nat
    requires AllDigits(s)
  {
    if |s| == 0 then 0
    else DigitsValue(s[..|s| - 1]) * 10 + (s[|s| - 1] as int - '0' as int)
  }

  /** The decimal rendering of a natural number, without leading zeros. */
  function NatToString(n: nat): (s: string)
    ensures 1 <= |s|
    ensures AllDigits(s)
    ensures n < 10 <==> |s| == 1
    ensures n < 100 ==> |s| <= 2
  {
    if n < 10 then [DigitChar(n)] else NatToString(n / 10) + [DigitChar(n % 10)]
  }

  lemma {:induction false} NatToStringRoundTrip(n: nat)
    ensures DigitsValue(NatToString(n)) == n
  {
    if n >= 10 {
      var s := NatToString(n);
      assert s[..|s| - 1] == NatToString(n / 10);
      NatToStringRoundTrip(n / 10);
    }
  }

  /** The longest run of decimal digits at the start of `s`. */
  function LeadingDigits(s: string): (r: string)
    ensures AllDigits(r) && |r| <= |s| && r == s[..|r|]
    ensures |r| < |s| ==> !IsDigit(s[|r|])
  {
    if |s| == 0 || !IsDigit(s[0]) then []
    else [s[0]] + LeadingDigits(s[1..])
  }

  predicate IsHexDigit(c: char)
  {
    IsDigit(c) || ('a' <= c <= 'f') || ('A' <= c <= 'F')
  }

  predicate AllHexDigits(s: string)
  {
    forall i :: 0 <= i < |s| ==> IsHexDigit(s[i])
  }

  function HexDigitValue(c: char): (d: nat)
    requires IsHexDigit(c)
    ensures d < 16
    ensures IsDigit(c) ==> d == c as int - '0' as int
  {
    if IsDigit(c) then c as int - '0' as int
    else if 'a' <= c <= 'f' then c as int - 'a' as int + 10
    else c as int - 'A' as int + 10
  }

  /** The value of a string of hexadecimal digits, either case. */
  function HexValue(s: string): nat
    requires AllHexDigits(s)
  {
    if |s| == 0 then 0
    else HexValue(s[..|s| - 1]) * 16 + HexDigitValue(s[|s| - 1])
  }

  /** The longest run of hexadecimal digits at the start of `s`. */
  function LeadingHexDigits(s: string): (r: string)
    ensures AllHexDigits(r) && |r| <= |s| && r == s[..|r|]
    ensures |r| < |s| ==> !IsHexDigit(s[|r|])
  {
    if |s| == 0 || !IsHexDigit(s[0]) then []
    else [s[0]] + LeadingHexDigits(s[1..])
  }

  /** `parseInt` without a radix reads a string that starts with `0x` or `0X` in base 16. */
  predicate HexPrefixed(s: string)
  {
    |s| >= 2 && s[0] == '0' && (s[1] == 'x' || s[1] == 'X')
  }

  /**
    `parseInt(s)` for a string that starts with a digit: after a `0x`/`0X`
    prefix the value of the hexadecimal digits that follow it, otherwise the
    value of the leading decimal digits, whatever follows them. `None` stands
    for every other input (NaN, and the signed or space-led forms this model
    does not read), a bare `0x` included.
   */
  function ParseIntPrefix(s: string): (r: Option<nat>)
    ensures !HexPrefixed(s) ==> (r.Some? <==> |s| > 0 && IsDigit(s[0]))
    ensures HexPrefixed(s) ==> (r.Some? <==> |s| > 2 && IsHexDigit(s[2]))
  {
    if HexPrefixed(s) then
      var h := LeadingHexDigits(s[2..]);
      if |h| == 0 then None else Some(HexValue(h))
    else
      var d := LeadingDigits(s);
      if |d| == 0 then None else Some(DigitsValue(d))
  }

  /** `0x` followed by hexadecimal digits, then anything that is not one, parses to their base-16 value. */
  lemma ParseIntPrefixHexDigits(h: string, rest: string)
    requires |h| > 0 && AllHexDigits(h)
    requires |rest| == 0 || !IsHexDigit(rest[0])
    ensures ParseIntPrefix("0x" + h + rest) == Some(HexValue(h))
  {
    var t := h + rest;
    var s := "0x" + t;
    assert s == "0x" + h + rest;
    assert s[0] == '0' && s[1] == 'x';
    assert HexPrefixed(s);
    assert s[2..] == t;
    LeadingHexDigitsOf(h, rest);
    assert LeadingHexDigits(s[2..]) == h;
  }

  lemma {:induction false} LeadingHexDigitsOf(s: string, rest: string)
    requires AllHexDigits(s)
    requires |rest| == 0 || !IsHexDigit(rest[0])
    ensures LeadingHexDigits(s + rest) == s
  {
    if |s| > 0 {
      assert (s + rest)[1..] == s[1..] + rest;
      LeadingHexDigitsOf(s[1..], rest);
    } else {
      assert s + rest == rest;
    }
  }

  /** A hexadecimal prefix is read in base 16, and a bare prefix is not a number. */
  lemma ParseIntPrefixHex()
    ensures ParseIntPrefix("0x10") == Some(16)
    ensures ParseIntPrefix("0X1f;") == Some(31)
    ensures ParseIntPrefix("0x") == None
    ensures ParseIntPrefix("0xg") == None
  {
    assert LeadingHexDigits("10") == "10" by {
      assert LeadingHexDigits("0") == "0" by { assert LeadingHexDigits("") == ""; }
      assert "10"[1..] == "0";
    }
    assert "0x10"[2..] == "10";
    assert HexValue("10") == 16 by { assert "10"[..1] == "1"; assert "1"[..0] == ""; }
    assert LeadingHexDigits("1f;") == "1f" by {
      assert "1f;"[1..] == "f;";
      assert "f;"[1..] == ";";
    }
    assert "0X1f;"[2..] == "1f;";
    assert HexValue("1f") == 31 by { assert "1f"[..1] == "1"; assert "1"[..0] == ""; }
    assert "0xg"[2..] == "g";
  }

  /**
    The digits of `n`, followed by anything that is not a digit, parse back to
    `n`, unless `n` is zero and an `x` follows, which reads as a hexadecimal prefix.
   */
  lemma {:induction false} ParseIntPrefixRoundTrip(n: nat, rest: string)
    requires |rest| == 0 || !IsDigit(rest[0])
    requires !(n == 0 && |rest| > 0 && (rest[0] == 'x' || rest[0] == 'X'))
    ensures ParseIntPrefix(NatToString(n) + rest) == Some(n)
  {
    var s := NatToString(n);
    if n < 10 {
      assert s == [DigitChar(n)];
    } else {
      assert IsDigit((s + rest)[1]);
    }
    assert !HexPrefixed(s + rest);
    LeadingDigitsOfDigits(s, rest);
    NatToStringRoundTrip(n);
  }

  lemma {:induction false} LeadingDigitsOfDigits(s: string, rest: string)
    requires AllDigits(s)
    requires |rest| == 0 || !IsDigit(rest[0])
    ensures LeadingDigits(s + rest) == s
  {
    if |s| > 0 {
      assert (s + rest)[1..] == s[1..] + rest;
      LeadingDigitsOfDigits(s[1..], rest);
    } else {
      assert s + rest == rest;
    }
  }

  /** JavaScript's `String(i)` for an integer value. */
  function IntToString(i: int): (s: string)
    ensures i >= 0 ==> s == NatToString(i)
    ensures i < 0 ==> s == "-" + NatToString(-i)
  {
    if i >= 0 then NatToString(i) else "-" + NatToString(-i)
  }

  /** `s.padStart(width, fill)`: `fill` repeated on the left up to `width` characters. */
  function PadStart(s: string, width: nat, fill: char): (r: string)
    ensures |r| == if |s| < width then width else |s|
    ensures r[|r| - |s|..] == s
    ensures forall i :: 0 <= i < |r| - |s| ==> r[i] == fill
  {
    if |s| < width then seq(width - |s|, _ => fill) + s else s
  }

  /** Zeros on the left change neither digit-ness nor value. */
  lemma {:induction false} ZeroPadValue(s: string, width: nat)
    requires AllDigits(s)
    ensures AllDigits(PadStart(s, width, '0'))
    ensures DigitsValue(PadStart(s, width, '0')) == DigitsValue(s)
    decreases width
  {
    if |s| < width {
      PadStartStep(s, width, '0');
      ZeroPadValue(s, width - 1);
      LeadingZeroValue(PadStart(s, width - 1, '0'));
    }
  }

  /** Padding to one more character adds one more fill character in front. */
  lemma PadStartStep(s: string, width: nat, fill: char)
    requires |s| < width
    ensures PadStart(s, width, fill) == [fill] + PadStart(s, width - 1, fill)
  {
    var longer := seq(width - |s|, _ => fill);
    var shorter := [fill] + seq(width - 1 - |s|, _ => fill);
    forall i | 0 <= i < |longer|
      ensures longer[i] == shorter[i]
    {
    }
    assert longer == shorter;
  }

  lemma {:induction false} LeadingZeroValue(s: string)
    requires AllDigits(s)
    ensures AllDigits(['0'] + s)
    ensures DigitsValue(['0'] + s) == DigitsValue(s)
  {
    if |s| > 0 {
      var z := ['0'] + s;
      assert z[..|z| - 1] == ['0'] + s[..|s| - 1];
      LeadingZeroValue(s[..|s| - 1]);
    }
  }

  /**
    Reads back a clock string `<digits>:<two digits>` as (minutes, seconds);
    the inverse the clock formatters of the views are proved against.
   */
  function ParseClock(s: string): Option<(nat, nat)>
  {
    if |s| >= 4 && s[|s| - 3] == ':' && AllDigits(s[..|s| - 3]) && AllDigits(s[|s| - 2..])
    then Some((DigitsValue(s[..|s| - 3]), DigitsValue(s[|s| - 2..])))
    else None
  }

  /** Splitting a `minutes + ":" + seconds` string recovers both parts. */
  lemma ParseClockOf(minutes: string, seconds: string)
    requires 1 <= |minutes| && AllDigits(minutes)
    requires |seconds| == 2 && AllDigits(seconds)
    ensures ParseClock(minutes + ":" + seconds) == Some((DigitsValue(minutes), DigitsValue(seconds)))
  {
    var s := minutes + ":" + seconds;
    assert s[..|s| - 3] == minutes;
    assert s[|s| - 2..] == seconds;
  }

  /** The characters `String.prototype.trim` removes: WhiteSpace and LineTerminator of ECMAScript. */
  predicate IsJsWhitespace(c: char)
  {
    || c == ' ' || c == '\t' || c == '\n' || c == '\r'
    || c == '\U{000B}' || c == '\U{000C}' || c == '\U{00A0}' || c == '\U{FEFF}'
    || c == '\U{1680}' || ('\U{2000}' <= c <= '\U{200A}')
    || c == '\U{2028}' || c == '\U{2029}' || c == '\U{202F}' || c == '\U{205F}' || c == '\U{3000}'
  }

  function TrimStart(s: string): (r: string)
    ensures |r| <= |s| && r == s[|s| - |r|..]
    ensures forall i :: 0 <= i < |s| - |r| ==> IsJsWhitespace(s[i])
    ensures |r| > 0 ==> !IsJsWhitespace(r[0])
  {
    if |s| > 0 && IsJsWhitespace(s[0]) then
      var r := TrimStart(s[1..]);
      assert r == s[|s| - |r|..];
      r
    else s
  }

  function TrimEnd(s: string): (r: string)
    ensures |r| <= |s| && r == s[..|r|]
    ensures forall i :: |r| <= i < |s| ==> IsJsWhitespace(s[i])
    ensures |r| > 0 ==> !IsJsWhitespace(r[|r| - 1])
  {
    if |s| > 0 && IsJsWhitespace(s[|s| - 1]) then TrimEnd(s[..|s| - 1]) else s
  }

  /** `r` is `s` with `k` whitespace characters cut from the front and only whitespace cut from the back. */
  predicate StripsWhitespace(s: string, r: string, k: int)
  {
    && 0 <= k && k + |r| <= |s| && r == s[k..k + |r|]
    && (forall i :: 0 <= i < k ==> IsJsWhitespace(s[i]))
    && (forall i :: k + |r| <= i < |s| ==> IsJsWhitespace(s[i]))
  }

  /** `s.trim()`: the longest infix of `s` that starts and ends with a non-whitespace character. */
  function Trim(s: string): (r: string)
    ensures |r| == 0 <==> forall i :: 0 <= i < |s| ==> IsJsWhitespace(s[i])
    ensures |r| > 0 ==> !IsJsWhitespace(r[0]) && !IsJsWhitespace(r[|r| - 1])
    ensures |r| <= |s|
    ensures exists k :: StripsWhitespace(s, r, k)
  {
    var t := TrimStart(s);
    var r := TrimEnd(t);
    StripsBothEnds(s, t, r);
    // When nothing is left, TrimStart already consumed everything: a non-empty `t` starts with a
    // non-whitespace character that TrimEnd would have kept.
    assert |r| == 0 ==> |t| == 0;
    r
  }

  /** Cutting whitespace from the front of `s` and then from the back of what is left cuts only whitespace. */
  lemma StripsBothEnds(s: string, t: string, r: string)
    requires |t| <= |s| && t == s[|s| - |t|..]
    requires forall i :: 0 <= i < |s| - |t| ==> IsJsWhitespace(s[i])
    requires |r| <= |t| && r == t[..|r|]
    requires forall i :: |r| <= i < |t| ==> IsJsWhitespace(t[i])
    ensures StripsWhitespace(s, r, |s| - |t|)
  {
    var k := |s| - |t|;
    assert r == s[k..k + |r|];
    forall i | k + |r| <= i < |s|
      ensures IsJsWhitespace(s[i])
    {
      assert s[i] == t[i - k];
    }
  }

  /** JavaScript's `%` on integers: the remainder truncates toward zero, taking the sign of `a`. */
  function JsRem(a: int, b: int): (r: int)
    requires b > 0
    ensures a >= 0 ==> 0 <= r < b && r == a % b
    ensures a < 0 ==> -b < r <= 0
    ensures exists q :: a == q * b + r
  {
    if a >= 0 then
      assert a == (a / b) * b + a % b;
      a % b
    else
      assert -a == ((-a) / b) * b + (-a) % b;
      assert a == (-((-a) / b)) * b + -((-a) % b);
      -((-a) % b)
  }
}
