/** JavaScript's global `parseInt(string)` called without a radix, as section
    19.2.5 of ECMA-262 defines it, with the mathematical value kept exact. */
module JsNumbers {

  /** A number as `parseInt` can return it: an integer, or NaN. */
  datatype JsInt = Num(value: int) | NaN

  /** The WhiteSpace and LineTerminator code points (sections 12.2 and 12.3 of
      ECMA-262) that `parseInt` skips before the number. */
  predicate IsStrWhiteSpace(c: char)
  {
    || c in {'\t', '\U{000B}', '\U{000C}', ' ', '\U{00A0}', '\U{FEFF}', '\U{1680}',
             '\U{202F}', '\U{205F}', '\U{3000}', '\n', '\r', '\U{2028}', '\U{2029}'}
    || '\U{2000}' <= c <= '\U{200A}'
  }

  /** Drops leading white space. */
  function TrimStart(s: string): (r: string)
    ensures |r| <= |s|
    decreases |s|
  {
    if |s| > 0 && IsStrWhiteSpace(s[0]) then TrimStart(s[1..]) else s
  }

  /** What `TrimStart` drops is white space, what it keeps is a suffix that does
      not start with white space. */
  lemma {:induction false} TrimStartDropsWhiteSpace(s: string)
    ensures var r := TrimStart(s);
            && r == s[|s| - |r|..]
            && (forall i :: 0 <= i < |s| - |r| ==> IsStrWhiteSpace(s[i]))
            && (r == [] || !IsStrWhiteSpace(r[0]))
    decreases |s|
  {
    if |s| > 0 && IsStrWhiteSpace(s[0]) {
      TrimStartDropsWhiteSpace(s[1..]);
      var r := TrimStart(s);
      forall i | 0 <= i < |s| - |r|
        ensures IsStrWhiteSpace(s[i])
      {
        if i > 0 {
          assert s[i] == s[1..][i - 1];
        }
      }
    }
  }

  /** The digit value of a character in radices up to 36: '0'..'9' are 0..9 and
      the letters of either case are 10..35; anything else is 36, a digit in no radix. */
  function DigitValue(c: char): (d: nat)
    ensures d <= 36
  {
    if '0' <= c <= '9' then c as int - '0' as int
    else if 'a' <= c <= 'z' then c as int - 'a' as int + 10
    else if 'A' <= c <= 'Z' then c as int - 'A' as int + 10
    else 36
  }

  predicate IsDigit(c: char, radix: nat)
  {
    DigitValue(c) < radix
  }

  /** The length of the longest prefix of `s` made of digits of `radix`. */
  function DigitRun(s: string, radix: nat): (k: nat)
    ensures k <= |s|
    decreases |s|
  {
    if |s| > 0 && IsDigit(s[0], radix) then 1 + DigitRun(s[1..], radix) else 0
  }

  /** `DigitRun` stops at the first character that is not a digit. */
  lemma {:induction false} DigitRunIsLongestDigitPrefix(s: string, radix: nat)
    ensures var k := DigitRun(s, radix);
            && (forall i :: 0 <= i < k ==> IsDigit(s[i], radix))
            && (k == |s| || !IsDigit(s[k], radix))
    decreases |s|
  {
    if |s| > 0 && IsDigit(s[0], radix) {
      DigitRunIsLongestDigitPrefix(s[1..], radix);
      var k := DigitRun(s, radix);
      forall i | 0 <= i < k
        ensures IsDigit(s[i], radix)
      {
        if i > 0 {
          assert s[i] == s[1..][i - 1];
        }
      }
      if k < |s| {
        assert s[k] == s[1..][k - 1];
      }
    }
  }

  /** The value of a string of digits, most significant first. */
  function DigitsValue(z: string, radix: nat): nat
    decreases |z|
  {
    if z == [] then 0 else DigitsValue(z[..|z| - 1], radix) * radix + DigitValue(z[|z| - 1])
  }

  /** Steps 7 to 14 of the algorithm: an optional "0x"/"0X" prefix selects radix
      16, otherwise radix 10; the longest digit prefix is read (step 11), an empty
      one is NaN (step 13), and its digits give the value (step 14). */
  function ParseUnsigned(u: string): JsInt
  {
    var hex := |u| >= 2 && u[0] == '0' && (u[1] == 'x' || u[1] == 'X');
    var radix := if hex then 16 else 10;
    var digits := if hex then u[2..] else u;
    var k := DigitRun(digits, radix);
    if k == 0 then NaN else Num(DigitsValue(digits[..k], radix))
  }

  /** Steps 3 to 16 of the algorithm, on a string with no leading white space:
      an optional sign, then the number, negated after a '-'. */
  function ParseSigned(t: string): JsInt
  {
    var negative := |t| > 0 && t[0] == '-';
    var u := if |t| > 0 && (t[0] == '-' || t[0] == '+') then t[1..] else t;
    match ParseUnsigned(u)
    case NaN => NaN
    case Num(m) => Num(if negative then -m else m)
  }

  /** `parseInt(s)`: skip leading white space, then read a signed number. */
  function ParseInt(s: string): JsInt
  {
    ParseSigned(TrimStart(s))
  }

  /** JavaScript's `x + y` on a number and a `parseInt` result: NaN absorbs. */
  function Plus(x: int, y: JsInt): JsInt
  {
    match y
    case NaN => NaN
    case Num(n) => Num(x + n)
  }

  function DigitChar(d: nat): (c: char)
    requires d < 10
    ensures DigitValue(c) == d
  {
    (('0' as int) + d) as char
  }

  /** The plain decimal digits of a natural number, without leading zeros and
      without exponent notation. */
  function DecimalDigits(n: nat): (s: string)
    ensures |s| >= 1
    ensures forall i :: 0 <= i < |s| ==> IsDigit(s[i], 10)
    ensures n > 0 ==> s[0] != '0'
    decreases n
  {
    if n < 10 then [DigitChar(n)] else DecimalDigits(n / 10) + [DigitChar(n % 10)]
  }

  /** The decimal rendering of an integer, with a leading '-' when negative. */
  function Decimal(n: int): string
  {
    if n < 0 then "-" + DecimalDigits(-n) else DecimalDigits(n)
  }

  /** Reading back the digits of `n` gives `n`. */
  lemma {:induction false} DigitsValueOfDecimal(n: nat)
    ensures DigitsValue(DecimalDigits(n), 10) == n
    decreases n
  {
    var s := DecimalDigits(n);
    if n >= 10 {
      var p := DecimalDigits(n / 10);
      assert s == p + [DigitChar(n % 10)];
      assert s[..|s| - 1] == p;
      DigitsValueOfDecimal(n / 10);
    }
  }

  /** The digit run of a digit string followed by a non-digit stops exactly at the non-digit. */
  lemma {:induction false} DigitRunOfPrefix(a: string, rest: string, radix: nat)
    requires forall i :: 0 <= i < |a| ==> IsDigit(a[i], radix)
    requires rest == [] || !IsDigit(rest[0], radix)
    ensures DigitRun(a + rest, radix) == |a|
    decreases |a|
  {
    if a == [] {
      assert a + rest == rest;
    } else {
      assert (a + rest)[0] == a[0];
      assert (a + rest)[1..] == a[1..] + rest;
      DigitRunOfPrefix(a[1..], rest, radix);
    }
  }

  /** A string that does not start with white space is left as it is. */
  lemma TrimStartKeeps(s: string)
    requires s == [] || !IsStrWhiteSpace(s[0])
    ensures TrimStart(s) == s
  {
  }

  /** Without a sign, the digits of `m` followed by a non-digit read as `m`. */
  lemma {:induction false} ParseUnsignedReadsDecimalPrefix(m: nat, rest: string)
    requires rest == [] || !IsDigit(rest[0], 10)
    requires m == 0 && rest != [] ==> rest[0] != 'x' && rest[0] != 'X'
    ensures ParseUnsigned(DecimalDigits(m) + rest) == Num(m)
  {
    var d := DecimalDigits(m);
    var u := d + rest;
    assert !(|u| >= 2 && u[0] == '0' && (u[1] == 'x' || u[1] == 'X')) by {
      if |d| >= 2 {
        assert u[1] == d[1];
      } else if m == 0 {
        assert |u| >= 2 ==> u[1] == rest[0];
      } else {
        assert u[0] == d[0];
      }
    }
    DigitRunOfPrefix(d, rest, 10);
    assert u[..|d|] == d;
    DigitsValueOfDecimal(m);
  }

  /** A decimal digit is neither white space nor a sign. */
  lemma DigitIsNotSpaceOrSign(c: char)
    requires IsDigit(c, 10)
    ensures !IsStrWhiteSpace(c) && c != '-' && c != '+'
  {
  }

  /** A string starting with neither white space nor a sign is read by `ParseUnsigned`
      alone. */
  lemma ParseIntOfUnsigned(u: string)
    requires u != [] && !IsStrWhiteSpace(u[0]) && u[0] != '-' && u[0] != '+'
    ensures ParseInt(u) == ParseUnsigned(u)
  {
    TrimStartKeeps(u);
  }

  /** A '-' in front of such a string negates what `ParseUnsigned` reads. */
  lemma {:induction false} ParseIntOfNegated(u: string, m: int)
    requires ParseUnsigned(u) == Num(m)
    ensures ParseInt("-" + u) == Num(-m)
  {
    var t := "-" + u;
    TrimStartKeeps(t);
    assert t[0] == '-';
    assert t[1..] == u;
  }

  /** `parseInt` reads the decimal rendering of any integer back, and ignores what
      follows it once a character that is not a decimal digit comes (prefix semantics).
      The one exception is "0" followed by 'x' or 'X', which starts a hexadecimal number. */
  lemma {:induction false} ParseIntReadsDecimalPrefix(n: int, rest: string)
    requires rest == [] || !IsDigit(rest[0], 10)
    requires n == 0 && rest != [] ==> rest[0] != 'x' && rest[0] != 'X'
    ensures ParseInt(Decimal(n) + rest) == Num(n)
  {
    var m := if n < 0 then -n else n;
    var d := DecimalDigits(m);
    var u := d + rest;
    assert u[0] == d[0];
    DigitIsNotSpaceOrSign(u[0]);
    ParseUnsignedReadsDecimalPrefix(m, rest);
    if n < 0 {
      assert Decimal(n) + rest == "-" + u;
      ParseIntOfNegated(u, m);
    } else {
      assert Decimal(n) + rest == u;
      ParseIntOfUnsigned(u);
    }
  }

  /** The decimal rendering of every integer parses back to that integer. */
  lemma ParseIntOfDecimal(n: int)
    ensures ParseInt(Decimal(n)) == Num(n)
  {
    ParseIntReadsDecimalPrefix(n, []);
    assert Decimal(n) + [] == Decimal(n);
  }

  /** Leading white space does not change what `parseInt` reads. */
  lemma ParseIntSkipsWhiteSpace(c: char, s: string)
    requires IsStrWhiteSpace(c)
    ensures ParseInt([c] + s) == ParseInt(s)
  {
    assert ([c] + s)[1..] == s;
    assert TrimStart([c] + s) == TrimStart(s);
  }

  /** A string that, after no white space, starts with neither a sign nor a decimal
      digit holds no number: `parseInt` returns NaN. */
  lemma ParseIntWithoutDigitsIsNaN(s: string)
    requires s == [] || (!IsStrWhiteSpace(s[0]) && !IsDigit(s[0], 10) && s[0] != '+' && s[0] != '-')
    ensures ParseInt(s) == NaN
  {
    assert TrimStart(s) == s;
  }
}
