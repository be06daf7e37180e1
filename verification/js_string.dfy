/** The JavaScript string and number built-ins the roll-number code relies
    on: String.prototype.trim, slice, padStart, toLowerCase, includes and
    endsWith, Number.prototype.toString and the global parseInt. A string is
    a sequence of Unicode scalar values; JavaScript counts and slices UTF-16
    code units instead, so the two agree only on text without characters
    beyond U+FFFF. */
module JsString {
  import opened Optional

  /** ECMAScript WhiteSpace and LineTerminator code points: what trim removes
      and what parseInt skips before the number. */
  predicate IsWhiteSpace(c: char) {
    var k := c as int;
    || k == 0x09 || k == 0x0A || k == 0x0B || k == 0x0C || k == 0x0D
    || k == 0x20 || k == 0xA0 || k == 0x1680 || 0x2000 <= k <= 0x200A
    || k == 0x2028 || k == 0x2029 || k == 0x202F || k == 0x205F
    || k == 0x3000 || k == 0xFEFF
  }

  /** Removes the longest all-whitespace prefix. */
  function TrimStart(s: string): (r: string)
    ensures |r| <= |s|
  {
    if |s| > 0 && IsWhiteSpace(s[0]) then TrimStart(s[1..]) else s
  }

  /** Removes the longest all-whitespace suffix. */
  function TrimEnd(s: string): (r: string)
    ensures |r| <= |s| && r == s[..|r|]
    ensures |r| > 0 ==> !IsWhiteSpace(r[|r| - 1])
    ensures forall i :: |r| <= i < |s| ==> IsWhiteSpace(s[i])
  {
    if |s| > 0 && IsWhiteSpace(s[|s| - 1]) then TrimEnd(s[..|s| - 1]) else s
  }

  /** String.prototype.trim. */
  function Trim(s: string): string {
    TrimEnd(TrimStart(s))
  }

  /** The position a slice argument denotes in a string of length len: a
      negative argument counts back from the end; the result is clamped to
      [0, len]. */
  function SliceIndex(k: int, len: nat): (r: nat)
    ensures r <= len
  {
    if k < 0 then (if len + k < 0 then 0 else len + k)
    else if k > len then len
    else k
  }

  /** String.prototype.slice(start, end). */
  function Slice(s: string, start: int, end: int): string {
    var from := SliceIndex(start, |s|);
    var to := SliceIndex(end, |s|);
    if from < to then s[from..to] else []
  }

  /** s.slice(-4): the last four code units, or all of s when it is shorter. */
  function LastFour(s: string): (r: string)
    ensures |r| == if |s| < 4 then |s| else 4
    ensures r == s[|s| - |r|..]
  {
    Slice(s, -4, |s|)
  }

  /** A run of n '0' characters. */
  function Zeros(n: nat): (r: string)
    ensures |r| == n
  {
    if n == 0 then [] else ['0'] + Zeros(n - 1)
  }

  /** s.padStart(4, '0'). */
  function PadStart4(s: string): (r: string)
    ensures |r| == if |s| < 4 then 4 else |s|
  {
    if |s| < 4 then Zeros(4 - |s|) + s else s
  }

  function DigitChar(d: nat): (c: char)
    requires d < 10
    ensures '0' <= c <= '9'
  {
    ('0' as int + d) as char
  }

  /** The decimal digits of n, most significant first, without leading zeros. */
  function Digits(n: nat): (r: string)
    ensures |r| >= 1
    decreases n
  {
    if n < 10 then [DigitChar(n)] else Digits(n / 10) + [DigitChar(n % 10)]
  }

  /** Number.prototype.toString() of an integer-valued number. */
  function NumberToString(i: int): string {
    if i < 0 then "-" + Digits(-i) else Digits(i)
  }

  /** The value of c as a digit in any radix up to 36; 36 for a non-digit. */
  function DigitValue(c: char): (v: nat)
    ensures v <= 36
  {
    if '0' <= c <= '9' then c as int - '0' as int
    else if 'a' <= c <= 'z' then c as int - 'a' as int + 10
    else if 'A' <= c <= 'Z' then c as int - 'A' as int + 10
    else 36
  }

  predicate IsDigitIn(c: char, radix: nat) {
    DigitValue(c) < radix
  }

  /** The longest prefix of s made of digits of the given radix. */
  function LeadingDigits(s: string, radix: nat): (r: string)
    ensures |r| <= |s|
  {
    if |s| > 0 && IsDigitIn(s[0], radix) then [s[0]] + LeadingDigits(s[1..], radix) else []
  }

  /** The value of a digit string in the given radix. */
  function ValueIn(ds: string, radix: nat): nat {
    if |ds| == 0 then 0 else ValueIn(ds[..|ds| - 1], radix) * radix + DigitValue(ds[|ds| - 1])
  }

  /** The global parseInt(s) with no radix argument; None stands for NaN.
      Leading whitespace is skipped, one sign is accepted, a 0x or 0X prefix
      switches to hexadecimal, and the longest run of digits that follows is
      the number. */
  function ParseInt(s: string): Option<int> {
    var t := TrimStart(s);
    var negative := |t| > 0 && t[0] == '-';
    var unsigned := if |t| > 0 && (t[0] == '-' || t[0] == '+') then t[1..] else t;
    var hex := |unsigned| >= 2 && unsigned[0] == '0' && (unsigned[1] == 'x' || unsigned[1] == 'X');
    var radix := if hex then 16 else 10;
    var digits := LeadingDigits(if hex then unsigned[2..] else unsigned, radix);
    var magnitude: int := ValueIn(digits, radix);
    if |digits| == 0 then None else Some(if negative then -magnitude else magnitude)
  }

  /** String.prototype.toLowerCase, for the ASCII letters. */
  function ToLowerChar(c: char): char {
    if 'A' <= c <= 'Z' then (c as int + 32) as char else c
  }

  function ToLower(s: string): (r: string)
    ensures |r| == |s|
    ensures forall i :: 0 <= i < |s| ==> r[i] == ToLowerChar(s[i])
  {
    seq(|s|, i requires 0 <= i < |s| => ToLowerChar(s[i]))
  }

  /** Lower-casing leaves no ASCII capital behind: each capital becomes the
      small letter at the same alphabet position, every other character is
      kept, and so lower-casing twice changes nothing more. */
  lemma ToLowerSpec(s: string)
    ensures forall i :: 0 <= i < |s| ==> !('A' <= ToLower(s)[i] <= 'Z')
    ensures forall i :: 0 <= i < |s| && 'A' <= s[i] <= 'Z' ==>
      'a' <= ToLower(s)[i] <= 'z' && ToLower(s)[i] as int - 'a' as int == s[i] as int - 'A' as int
    ensures forall i :: 0 <= i < |s| && !('A' <= s[i] <= 'Z') ==> ToLower(s)[i] == s[i]
    ensures ToLower(ToLower(s)) == ToLower(s)
  {
  }

  ghost predicate OccursAt(text: string, needle: string, i: int) {
    0 <= i && i + |needle| <= |text| && text[i..i + |needle|] == needle
  }

  /** String.prototype.includes: whether needle occurs somewhere in text. */
  function Includes(text: string, needle: string): bool
    decreases |text|
  {
    if |needle| > |text| then false
    else if text[..|needle|] == needle then true
    else Includes(text[1..], needle)
  }

  /** String.prototype.endsWith. */
  predicate EndsWith(s: string, suffix: string) {
    |suffix| <= |s| && s[|s| - |suffix|..] == suffix
  }

  function Pow(base: nat, e: nat): (r: nat)
    ensures base >= 1 ==> r >= 1
  {
    if e == 0 then 1 else base * Pow(base, e - 1)
  }

  /** Strips leading '0' characters while more than one character is left:
      the inverse of PadStart4 on the strings NumberToString produces. */
  function StripZeros(s: string): string {
    if |s| > 1 && s[0] == '0' then StripZeros(s[1..]) else s
  }

  // ---------------------------------------------------------------------
  // Lemmas

  lemma {:induction false} ZerosAreZero(n: nat)
    ensures forall i :: 0 <= i < n ==> Zeros(n)[i] == '0'
  {
    if n > 0 {
      ZerosAreZero(n - 1);
    }
  }

  /** TrimStart removes exactly the longest all-whitespace prefix. */
  lemma {:induction false} TrimStartSpec(s: string)
    ensures var r := TrimStart(s);
      && r == s[|s| - |r|..]
      && (|r| > 0 ==> !IsWhiteSpace(r[0]))
      && forall i :: 0 <= i < |s| - |r| ==> IsWhiteSpace(s[i])
  {
    if |s| > 0 && IsWhiteSpace(s[0]) {
      TrimStartSpec(s[1..]);
    }
  }

  /** LeadingDigits is the longest prefix of radix digits. */
  lemma {:induction false} LeadingDigitsSpec(s: string, radix: nat)
    ensures var r := LeadingDigits(s, radix);
      && r == s[..|r|]
      && (forall i :: 0 <= i < |r| ==> IsDigitIn(r[i], radix))
      && (|r| < |s| ==> !IsDigitIn(s[|r|], radix))
  {
    if |s| > 0 && IsDigitIn(s[0], radix) {
      LeadingDigitsSpec(s[1..], radix);
    }
  }

  /** padStart keeps s as the tail and fills the front with '0'. */
  lemma PadStart4Shape(s: string)
    ensures var r := PadStart4(s);
      && r[|r| - |s|..] == s
      && forall i :: 0 <= i < |r| - |s| ==> r[i] == '0'
  {
    if |s| < 4 {
      ZerosAreZero(4 - |s|);
    }
  }

  /** The printed digits are decimal digits with no leading zero. */
  lemma {:induction false} DigitsShape(n: nat)
    ensures forall i :: 0 <= i < |Digits(n)| ==> '0' <= Digits(n)[i] <= '9'
    ensures Digits(n)[0] == '0' ==> n == 0
    decreases n
  {
    if n >= 10 {
      DigitsShape(n / 10);
    }
  }

  /** includes is a search: true exactly when needle occurs at some index. */
  lemma {:induction false} IncludesIffOccurs(text: string, needle: string)
    ensures Includes(text, needle) <==> exists i :: OccursAt(text, needle, i)
    decreases |text|
  {
    if |needle| > |text| {
    } else if text[..|needle|] == needle {
      assert OccursAt(text, needle, 0);
    } else {
      IncludesIffOccurs(text[1..], needle);
      if Includes(text[1..], needle) {
        var i :| OccursAt(text[1..], needle, i);
        assert text[i + 1..i + 1 + |needle|] == text[1..][i..i + |needle|];
        assert OccursAt(text, needle, i + 1);
      }
      if exists i :: OccursAt(text, needle, i) {
        var i :| OccursAt(text, needle, i);
        assert i != 0;
        assert text[1..][i - 1..i - 1 + |needle|] == text[i..i + |needle|];
        assert OccursAt(text[1..], needle, i - 1);
      }
    }
  }

  lemma DigitValueOfDigitChar(d: nat)
    requires d < 10
    ensures DigitValue(DigitChar(d)) == d
  {
  }

  /** Reading the decimal digits of n back gives n. */
  lemma {:induction false} DigitsValue(n: nat)
    ensures ValueIn(Digits(n), 10) == n
    decreases n
  {
    if n < 10 {
      DigitValueOfDigitChar(n);
    } else {
      var ds := Digits(n);
      assert ds[..|ds| - 1] == Digits(n / 10);
      DigitsValue(n / 10);
      DigitValueOfDigitChar(n % 10);
    }
  }

  /** Leading characters whose value is zero do not change a value. */
  lemma {:induction false} ValueIgnoresZeroPrefix(z: string, s: string, radix: nat)
    requires ValueIn(z, radix) == 0
    ensures ValueIn(z + s, radix) == ValueIn(s, radix)
    decreases |s|
  {
    if |s| > 0 {
      assert (z + s)[..|z + s| - 1] == z + s[..|s| - 1];
      ValueIgnoresZeroPrefix(z, s[..|s| - 1], radix);
    } else {
      assert z + s == z;
    }
  }

  lemma {:induction false} ZerosValue(n: nat, radix: nat)
    ensures ValueIn(Zeros(n), radix) == 0
  {
    if n > 0 {
      ZerosAreZero(n);
      ZerosAreZero(n - 1);
      assert Zeros(n)[..n - 1] == Zeros(n - 1);
      ZerosValue(n - 1, radix);
    }
  }

  /** A value of k digits lies below radix^k. */
  lemma {:induction false} ValueBelowPow(ds: string, radix: nat)
    requires forall i :: 0 <= i < |ds| ==> IsDigitIn(ds[i], radix)
    ensures ValueIn(ds, radix) < Pow(radix, |ds|)
  {
    if |ds| > 0 {
      var init := ds[..|ds| - 1];
      ValueBelowPow(init, radix);
      assert ds[..|ds| - 1] == init;
      MulDigitBelow(ValueIn(init, radix), Pow(radix, |init|), radix, DigitValue(ds[|ds| - 1]));
    }
  }

  lemma MulDigitBelow(v: nat, p: nat, radix: nat, d: nat)
    requires v < p && d < radix
    ensures v * radix + d < radix * p
  {
    assert v * radix + d < (v + 1) * radix;
    assert (v + 1) * radix <= p * radix;
  }

  lemma {:induction false} PowMonotone(base: nat, a: nat, b: nat)
    requires 1 <= base && a <= b
    ensures Pow(base, a) <= Pow(base, b)
    decreases b
  {
    if a < b {
      PowMonotone(base, a, b - 1);
    }
  }

  /** parseInt reads a string of decimal digits, leading zeros and all, as
      its decimal value. */
  lemma ParseIntOfDecimal(s: string)
    requires |s| > 0
    requires forall i :: 0 <= i < |s| ==> '0' <= s[i] <= '9'
    ensures ParseInt(s) == Some(ValueIn(s, 10))
  {
    assert !IsWhiteSpace(s[0]);
    assert TrimStart(s) == s;
    assert s[0] != '-' && s[0] != '+';
    assert !(|s| >= 2 && (s[1] == 'x' || s[1] == 'X'));
    LeadingDigitsOfDigits(s, 10);
  }

  /** parseInt reads toString's decimal form of any integer back, sign
      included. */
  lemma ParseIntOfNumberToString(i: int)
    ensures ParseInt(NumberToString(i)) == Some(i)
  {
    var n := if i < 0 then -i else i;
    var ds := Digits(n);
    DigitsShape(n);
    DigitsValue(n);
    LeadingDigitsOfDigits(ds, 10);
    if i < 0 {
      var s := "-" + ds;
      assert TrimStart(s) == s;
      assert s[1..] == ds;
      assert !(|ds| >= 2 && ds[0] == '0');
    } else {
      ParseIntOfDecimal(ds);
    }
  }

  lemma {:induction false} LeadingDigitsOfDigits(s: string, radix: nat)
    requires forall i :: 0 <= i < |s| ==> IsDigitIn(s[i], radix)
    ensures LeadingDigits(s, radix) == s
  {
    if |s| > 0 {
      LeadingDigitsOfDigits(s[1..], radix);
    }
  }

  /** parseInt reads a counter in [0, 9999] back from its four-digit
      zero-padded form. */
  lemma ParseIntOfPadded(i: int)
    requires 0 <= i <= 9999
    ensures ParseInt(PadStart4(NumberToString(i))) == Some(i)
  {
    var t := NumberToString(i);
    var padded := PadStart4(t);
    DigitsShape(i);
    PadStart4Shape(t);
    assert forall k :: 0 <= k < |padded| ==> '0' <= padded[k] <= '9';
    ParseIntOfDecimal(padded);
    if |t| < 4 {
      ZerosValue(4 - |t|, 10);
      ValueIgnoresZeroPrefix(Zeros(4 - |t|), t, 10);
    }
    DigitsValue(i);
  }

  /** parseInt of at most four code units, when it is a number, lies in
      [-999, 9999]: at most four decimal digits, or three after a sign, or at
      most two hexadecimal digits after 0x. */
  lemma ParseIntShortBound(s: string)
    requires |s| <= 4
    requires ParseInt(s).Some?
    ensures -999 <= ParseInt(s).value <= 9999
  {
    var t := TrimStart(s);
    var negative := |t| > 0 && t[0] == '-';
    var signed := |t| > 0 && (t[0] == '-' || t[0] == '+');
    var unsigned := if signed then t[1..] else t;
    var hex := |unsigned| >= 2 && unsigned[0] == '0' && (unsigned[1] == 'x' || unsigned[1] == 'X');
    var radix := if hex then 16 else 10;
    var body := if hex then unsigned[2..] else unsigned;
    var digits := LeadingDigits(body, radix);
    LeadingDigitsSpec(body, radix);
    ValueBelowPow(digits, radix);
    var v := ValueIn(digits, radix);
    if hex {
      assert |digits| <= 2;
      PowMonotone(16, |digits|, 2);
      assert v < 256;
    } else if negative {
      assert |digits| <= 3;
      PowMonotone(10, |digits|, 3);
      assert v < 1000;
    } else {
      PowMonotone(10, |digits|, 4);
      assert v < 10000;
    }
  }

  /** A number below 10^k has at most k decimal digits. */
  lemma {:induction false} DigitsShort(n: nat, k: nat)
    requires 1 <= k && n < Pow(10, k)
    ensures |Digits(n)| <= k
    decreases n
  {
    if n >= 10 {
      var p := Pow(10, k - 1);
      assert n < 10 * p;
      assert n / 10 < p;
      DigitsShort(n / 10, k - 1);
    }
  }

  /** Numbers in [-999, 9999] print in at most four characters. */
  lemma NumberToStringShort(i: int)
    requires -999 <= i <= 9999
    ensures |NumberToString(i)| <= 4
  {
    assert Pow(10, 3) == 1000;
    assert Pow(10, 4) == 10000;
    if i < 0 {
      DigitsShort(-i, 3);
    } else {
      DigitsShort(i, 4);
    }
  }

  lemma {:induction false} StripZerosAfterZeros(k: nat, t: string)
    requires |t| > 0 && (|t| == 1 || t[0] != '0')
    ensures StripZeros(Zeros(k) + t) == t
  {
    if k > 0 {
      ZerosAreZero(k);
      assert (Zeros(k) + t)[1..] == Zeros(k - 1) + t;
      StripZerosAfterZeros(k - 1, t);
    } else {
      assert Zeros(k) + t == t;
    }
  }

  /** StripZeros undoes padStart(4, '0') on a printed number. */
  lemma StripZerosUnpads(i: int)
    ensures StripZeros(PadStart4(NumberToString(i))) == NumberToString(i)
  {
    var t := NumberToString(i);
    DigitsShape(if i < 0 then -i else i);
    assert |t| > 0 && (|t| == 1 || t[0] != '0');
    if |t| < 4 {
      StripZerosAfterZeros(4 - |t|, t);
    } else {
      StripZerosAfterZeros(0, t);
      assert Zeros(0) + t == t;
    }
  }

  lemma DigitsInjective(a: nat, b: nat)
    requires Digits(a) == Digits(b)
    ensures a == b
  {
    DigitsValue(a);
    DigitsValue(b);
  }

  /** Different integers print differently. */
  lemma NumberToStringInjective(a: int, b: int)
    requires NumberToString(a) == NumberToString(b)
    ensures a == b
  {
    var sa, sb := NumberToString(a), NumberToString(b);
    DigitsShape(if a < 0 then -a else a);
    DigitsShape(if b < 0 then -b else b);
    if a < 0 {
      assert sa[0] == '-';
      assert b < 0;
      assert Digits(-a) == sa[1..] == sb[1..] == Digits(-b);
      DigitsInjective(-a, -b);
    } else {
      assert b >= 0;
      DigitsInjective(a, b);
    }
  }
}
