/** Integer <-> string conversions as the browser performs them:
    `Number.prototype.toString(radix)`, `String(n)`, `padStart`, `parseInt`. */
module JsNumbers {
  import opened Prelude
  import opened JsStrings

  /** `Number.MAX_SAFE_INTEGER`. */
  const MAX_SAFE_INTEGER: int := 9007199254740991

  /** The digit `d` as `toString(radix)` writes it: `0`-`9`, then lower-case letters. */
  function DigitChar(d: nat): char
    requires d < 36
  {
    if d < 10 then ('0' as int + d) as char else ('a' as int + d - 10) as char
  }

  /** The value of `c` as a digit in `radix`, as `parseInt` reads it: letters of
      either case count from 10 on; nothing if `c` is no digit in that radix. */
  function DigitValue(c: char, radix: nat): Option<nat>
  {
    var v: int :=
      if '0' <= c <= '9' then c as int - '0' as int
      else if 'a' <= c <= 'z' then c as int - 'a' as int + 10
      else if 'A' <= c <= 'Z' then c as int - 'A' as int + 10
      else -1;
    if 0 <= v < radix then Some(v as nat) else None
  }

  predicate IsDigit(c: char, radix: nat)
  {
    DigitValue(c, radix).Some?
  }

  predicate AllDigits(s: string, radix: nat)
  {
    forall i :: 0 <= i < |s| ==> IsDigit(s[i], radix)
  }

  /** The digits of `n` in `radix`, most significant first, no leading zero. */
  function Digits(n: nat, radix: nat): (r: string)
    requires 2 <= radix <= 36
    ensures |r| >= 1
    decreases n
  {
    if n < radix then [DigitChar(n)] else Digits(n / radix, radix) + [DigitChar(n % radix)]
  }

  /** The number a string of digits denotes. */
  function ValueOf(s: string, radix: nat): nat
    requires AllDigits(s, radix)
  {
    if s == [] then 0
    else ValueOf(s[..|s| - 1], radix) * radix + DigitValue(s[|s| - 1], radix).value
  }

  /** `n.toString(radix)` for an integer `n`. */
  function ToStringRadix(n: int, radix: nat): string
    requires 2 <= radix <= 36
  {
    if n < 0 then "-" + Digits(-n, radix) else Digits(n, radix)
  }

  /** `String(n)` for an integer `n` (below 10^21 in magnitude, where the
      browser would switch to exponent notation). */
  function IntToString(n: int): string
  {
    ToStringRadix(n, 10)
  }

  function Repeat(c: char, k: nat): (r: string)
    ensures |r| == k && forall i :: 0 <= i < k ==> r[i] == c
  {
    if k == 0 then "" else Repeat(c, k - 1) + [c]
  }

  /** `s.padStart(len, [c])`. */
  function PadStart(s: string, len: nat, c: char): (r: string)
    ensures |r| == if |s| >= len then |s| else len
  {
    if |s| >= len then s else Repeat(c, len - |s|) + s
  }

  /** The longest prefix of `s` made of digits in `radix`. */
  function DigitPrefix(s: string, radix: nat): (r: string)
    ensures |r| <= |s| && r == s[..|r|] && AllDigits(r, radix)
    ensures |r| < |s| ==> !IsDigit(s[|r|], radix)
  {
    if s == [] || !IsDigit(s[0], radix) then ""
    else [s[0]] + DigitPrefix(s[1..], radix)
  }

  /** `parseInt(s, 10)` (`hexPrefix` false) and `parseInt(s)` (`hexPrefix`
      true, where a leading `0x`/`0X` switches to radix 16), following
      section 19.2.5 of ECMA-262: strip leading whitespace, one optional sign,
      then the longest run of digits; `None` is `NaN`. */
  function ParseIntWith(s: string, hexPrefix: bool): Option<int>
  {
    var t := TrimStart(s);
    var negative := |t| > 0 && t[0] == '-';
    var u := if |t| > 0 && (t[0] == '-' || t[0] == '+') then t[1..] else t;
    var hex := hexPrefix && |u| >= 2 && u[0] == '0' && (u[1] == 'x' || u[1] == 'X');
    var radix := if hex then 16 else 10;
    var digits := DigitPrefix(if hex then u[2..] else u, radix);
    if digits == [] then None
    else
      var magnitude: int := ValueOf(digits, radix);
      Some(if negative then -magnitude else magnitude)
  }

  /** `parseInt(s, 10)`. */
  function ParseIntDecimal(s: string): Option<int>
  {
    ParseIntWith(s, false)
  }

  /** `parseInt(s)` with no radix. */
  function ParseIntAuto(s: string): Option<int>
  {
    ParseIntWith(s, true)
  }

  /** `s.replace(c, rep)` with a one-character string pattern: only the first
      occurrence is replaced. */
  function ReplaceFirst(s: string, c: char, rep: string): string
  {
    if s == [] then s
    else if s[0] == c then rep + s[1..]
    else [s[0]] + ReplaceFirst(s[1..], c, rep)
  }

  // ---------------------------------------------------------------------------
  // lemmas

  /** A text that starts with neither whitespace, a sign nor a decimal digit
      is `NaN` to `parseInt(s, 10)`. */
  lemma NoLeadingDigit(s: string)
    requires s != [] && !IsWhitespace(s[0]) && s[0] != '-' && s[0] != '+' && !IsDigit(s[0], 10)
    ensures ParseIntDecimal(s) == None
  {
    assert TrimStart(s) == s;
    assert DigitPrefix(s, 10) == "";
  }

  lemma DigitCharValue(d: nat, radix: nat)
    requires d < radix <= 36
    ensures DigitValue(DigitChar(d), radix) == Some(d)
  {
  }

  lemma {:induction false} DigitsAreDigits(n: nat, radix: nat)
    requires 2 <= radix <= 36
    ensures AllDigits(Digits(n, radix), radix)
    ensures ValueOf(Digits(n, radix), radix) == n
    decreases n
  {
    if n < radix {
      SingleDigit(n, radix);
    } else {
      DigitsAreDigits(n / radix, radix);
      DigitsStep(n, radix);
    }
  }

  lemma SingleDigit(n: nat, radix: nat)
    requires 2 <= radix <= 36 && n < radix
    ensures Digits(n, radix) == [DigitChar(n)]
    ensures AllDigits([DigitChar(n)], radix) && ValueOf([DigitChar(n)], radix) == n
  {
    DigitCharValue(n, radix);
    assert [DigitChar(n)][..0] == [];
  }

  lemma DigitsStep(n: nat, radix: nat)
    requires 2 <= radix <= 36 && n >= radix
    requires AllDigits(Digits(n / radix, radix), radix)
    requires ValueOf(Digits(n / radix, radix), radix) == n / radix
    ensures AllDigits(Digits(n, radix), radix)
    ensures ValueOf(Digits(n, radix), radix) == n
  {
    var q, d := n / radix, n % radix;
    DigitCharValue(d, radix);
    var p := Digits(q, radix);
    SnocDigit(p, DigitChar(d), radix);
    assert Digits(n, radix) == p + [DigitChar(d)];
    DivMod(n, radix);
  }

  lemma DivMod(n: nat, radix: nat)
    requires radix > 0
    ensures n == (n / radix) * radix + n % radix
  {
  }

  /** One more digit at the end: the value is shifted and the digit added. */
  lemma SnocDigit(s: string, c: char, radix: nat)
    requires AllDigits(s, radix) && IsDigit(c, radix)
    ensures AllDigits(s + [c], radix)
    ensures ValueOf(s + [c], radix) == ValueOf(s, radix) * radix + DigitValue(c, radix).value
  {
    assert (s + [c])[..|s|] == s;
  }

  lemma {:induction false} ZerosValue(k: nat, radix: nat)
    requires radix >= 1
    ensures AllDigits(Repeat('0', k), radix) && ValueOf(Repeat('0', k), radix) == 0
  {
    if k > 0 {
      var z := Repeat('0', k);
      ZerosValue(k - 1, radix);
      assert z[..k - 1] == Repeat('0', k - 1);
      ZeroAppended(z, radix);
    }
  }

  /** A zero digit after a string of value 0 keeps the value 0. */
  lemma ZeroAppended(z: string, radix: nat)
    requires radix >= 1 && z != [] && z[|z| - 1] == '0'
    requires AllDigits(z[..|z| - 1], radix) && ValueOf(z[..|z| - 1], radix) == 0
    ensures AllDigits(z, radix) && ValueOf(z, radix) == 0
  {
    assert DigitValue('0', radix) == Some(0);
    assert forall i :: 0 <= i < |z| - 1 ==> z[..|z| - 1][i] == z[i];
  }

  /** Leading zeros do not change the value of a digit string. */
  lemma {:induction false} LeadingZeros(k: nat, s: string, radix: nat)
    requires radix >= 1 && AllDigits(s, radix)
    ensures AllDigits(Repeat('0', k) + s, radix)
    ensures ValueOf(Repeat('0', k) + s, radix) == ValueOf(s, radix)
    decreases |s|
  {
    var z := Repeat('0', k);
    ZerosValue(k, radix);
    if s == [] {
      assert z + s == z;
    } else {
      var n := |s| - 1;
      FreeSliceDigits(s, n, radix);
      LeadingZeros(k, s[..n], radix);
      assert (z + s)[..|z + s| - 1] == z + s[..n];
      assert (z + s)[|z + s| - 1] == s[n];
      SameLastDigit(z + s, s, radix);
    }
  }

  lemma FreeSliceDigits(s: string, n: nat, radix: nat)
    requires AllDigits(s, radix) && n <= |s|
    ensures AllDigits(s[..n], radix)
  {
    assert forall i :: 0 <= i < n ==> s[..n][i] == s[i];
  }

  /** Two digit strings with the same last digit and prefixes of equal value
      have equal values. */
  lemma SameLastDigit(a: string, b: string, radix: nat)
    requires a != [] && b != [] && a[|a| - 1] == b[|b| - 1]
    requires AllDigits(a, radix) && AllDigits(b, radix)
    requires AllDigits(a[..|a| - 1], radix) && AllDigits(b[..|b| - 1], radix)
    requires ValueOf(a[..|a| - 1], radix) == ValueOf(b[..|b| - 1], radix)
    ensures ValueOf(a, radix) == ValueOf(b, radix)
  {
  }

  lemma DigitPrefixAll(s: string, radix: nat)
    requires AllDigits(s, radix)
    ensures DigitPrefix(s, radix) == s
  {
  }

  /** `String(n)` reads back through `parseInt(_, 10)`. */
  lemma NatToStringRoundTrip(n: nat)
    ensures ParseIntDecimal(IntToString(n)) == Some(n)
  {
    var s := IntToString(n);
    DigitsAreDigits(n, 10);
    assert s[0] != '-' && s[0] != '+' && !IsWhitespace(s[0]);
    assert TrimStart(s) == s;
    DigitPrefixAll(s, 10);
  }

  /** `String(n)` also reads back through `parseInt` with no radix: a decimal
      text never starts with `0x`, so the hexadecimal switch stays off. */
  lemma NatToStringAutoRoundTrip(n: nat)
    ensures ParseIntAuto(IntToString(n)) == Some(n)
  {
    var s := IntToString(n);
    DigitsAreDigits(n, 10);
    assert s[0] != '-' && s[0] != '+' && !IsWhitespace(s[0]);
    assert TrimStart(s) == s;
    if |s| >= 2 {
      assert IsDigit(s[1], 10);
      assert DigitValue('x', 10).None? && DigitValue('X', 10).None?;
    }
    NoHexPrefix(s);
    NatToStringRoundTrip(n);
  }

  /** Without a sign, leading whitespace or a `0x`/`0X` prefix, `parseInt`
      with no radix reads the text as `parseInt(_, 10)` does. */
  lemma NoHexPrefix(s: string)
    requires s != [] && TrimStart(s) == s && s[0] != '-' && s[0] != '+'
    requires |s| >= 2 ==> s[1] != 'x' && s[1] != 'X'
    ensures ParseIntAuto(s) == ParseIntDecimal(s)
  {
    var d := DigitPrefix(s, 10);
    var r := if d == [] then None else Some(ValueOf(d, 10));
    assert ParseIntWith(s, true) == r;
    assert ParseIntWith(s, false) == r;
  }

  function Pow16(k: nat): nat
  {
    if k == 0 then 1 else 16 * Pow16(k - 1)
  }

  /** A number below 16^k has at most k hex digits. */
  lemma {:induction false} HexDigitsFit(n: nat, k: nat)
    requires k >= 1 && n < Pow16(k)
    ensures |Digits(n, 16)| <= k
  {
    if n >= 16 {
      HexDigitsFit(n / 16, k - 1);
    }
  }

  /** `c` is a digit of `radix` as `toString(radix)` writes it: a decimal digit
      or a lower-case letter. */
  predicate IsLowerDigit(c: char, radix: nat)
  {
    ('0' <= c <= '9' && c as int - '0' as int < radix) || ('a' <= c <= 'z' && c as int - 'a' as int + 10 < radix)
  }

  /** `toString(radix)` writes no capital letters. */
  lemma {:induction false} DigitsLowercase(n: nat, radix: nat)
    requires 2 <= radix <= 36
    ensures forall i :: 0 <= i < |Digits(n, radix)| ==> IsLowerDigit(Digits(n, radix)[i], radix)
    decreases n
  {
    if n < radix {
      DigitCharLower(n, radix);
    } else {
      var hi := Digits(n / radix, radix);
      QuotientSmaller(n, radix);
      DigitsLowercase(n / radix, radix);
      DigitCharLower(n % radix, radix);
      var ds := Digits(n, radix);
      assert ds == hi + [DigitChar(n % radix)];
      forall i | 0 <= i < |ds| ensures IsLowerDigit(ds[i], radix) {
        if i < |hi| {
          assert ds[i] == hi[i];
        }
      }
    }
  }

  lemma QuotientSmaller(n: nat, radix: nat)
    requires 2 <= radix <= n
    ensures n / radix < n
  {
    DivMod(n, radix);
  }

  lemma DigitCharLower(d: nat, radix: nat)
    requires d < radix <= 36
    ensures IsLowerDigit(DigitChar(d), radix)
  {
  }
}
