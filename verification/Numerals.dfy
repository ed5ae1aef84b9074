/** Decimal and hexadecimal numerals as text, with the inverse readings. */
module Numerals {
  import opened Arithmetic

  predicate IsDigit(c: char) {
    '0' <= c <= '9'
  }

  predicate AllDigits(s: string) {
    forall i :: 0 <= i < |s| ==> IsDigit(s[i])
  }

  function DigitChar(d: nat): (c: char)
    requires d < 10
    ensures IsDigit(c) && DigitValue(c) == d
  {
    '0' + d as char
  }

  function DigitValue(c: char): (d: nat)
    requires IsDigit(c)
    ensures d < 10 && c == '0' + d as char
  {
    c as int - '0' as int
  }

  /** The shortest decimal numeral of `n`. */
  function NatText(n: nat): (s: string)
    ensures |s| > 0 && AllDigits(s) && (|s| > 1 ==> s[0] != '0')
    ensures n > 0 ==> s[0] != '0'
  {
    if n < 10 then [DigitChar(n)] else NatText(n / 10) + [DigitChar(n % 10)]
  }

  function NatValue(s: string): nat
    requires AllDigits(s)
  {
    if s == [] then 0 else 10 * NatValue(s[..|s| - 1]) + DigitValue(s[|s| - 1])
  }

  function IntText(n: int): string {
    if n < 0 then "-" + NatText(-n) else NatText(n)
  }

  /** A numeral as IntText writes it: optional sign, no superfluous zero, no "-0". */
  predicate IsCanonicalInt(s: string) {
    var digits := if |s| > 0 && s[0] == '-' then s[1..] else s;
    && |digits| > 0 && AllDigits(digits)
    && (|digits| > 1 ==> digits[0] != '0')
    && (digits == "0" ==> digits == s)
  }

  function IntValue(s: string): int
    requires IsCanonicalInt(s)
  {
    var digits := if s[0] == '-' then s[1..] else s;
    var magnitude: int := NatValue(digits);
    if s[0] == '-' then -magnitude else magnitude
  }

  lemma {:induction false} NatValueSnoc(s: string, c: char)
    requires AllDigits(s) && IsDigit(c)
    ensures AllDigits(s + [c]) && NatValue(s + [c]) == 10 * NatValue(s) + DigitValue(c)
  {
    assert (s + [c])[..|s|] == s;
  }

  lemma {:induction false} NatValueOfText(n: nat)
    ensures NatValue(NatText(n)) == n
  {
    if n >= 10 {
      NatValueOfText(n / 10);
      NatValueSnoc(NatText(n / 10), DigitChar(n % 10));
    }
  }

  lemma {:induction false} NatTextOfValue(s: string)
    requires AllDigits(s) && |s| > 0 && (|s| > 1 ==> s[0] != '0')
    ensures NatText(NatValue(s)) == s
  {
    var front, last := s[..|s| - 1], s[|s| - 1];
    if |s| == 1 {
      assert front == [];
      assert s == [DigitChar(DigitValue(last))];
    } else {
      NatTextOfValue(front);
      NatValuePositive(front);
      var n := NatValue(s);
      assert n / 10 == NatValue(front) && n % 10 == DigitValue(last);
      assert s == front + [last];
    }
  }

  lemma {:induction false} NatValuePositive(s: string)
    requires AllDigits(s) && |s| > 0 && s[0] != '0'
    ensures NatValue(s) > 0
  {
    if |s| > 1 {
      NatValuePositive(s[..|s| - 1]);
    }
  }

  lemma {:induction false} IntTextIsCanonical(n: int)
    ensures IsCanonicalInt(IntText(n)) && IntValue(IntText(n)) == n
  {
    if n < 0 {
      var digits := NatText(-n);
      NatValueOfText(-n);
      assert ("-" + digits)[1..] == digits;
      assert ("-" + digits)[0] == '-';
    } else {
      NatValueOfText(n);
      assert IsDigit(NatText(n)[0]);
    }
  }

  lemma {:induction false} IntTextOfValue(s: string)
    requires IsCanonicalInt(s)
    ensures IntText(IntValue(s)) == s
  {
    hide NatText, NatValue;
    if s[0] == '-' {
      NatTextOfValue(s[1..]);
      NatValuePositive(s[1..]);
      assert s == "-" + s[1..];
    } else {
      NatTextOfValue(s);
    }
  }

  lemma {:induction false} NatValueSplit(a: string, b: string)
    requires AllDigits(a) && AllDigits(b)
    ensures AllDigits(a + b)
    ensures NatValue(a + b) == NatValue(a) * Pow10(|b|) + NatValue(b)
    decreases |b|
  {
    if b == [] {
      assert a + b == a;
    } else {
      var front, last := b[..|b| - 1], b[|b| - 1];
      NatValueSplit(a, front);
      assert (a + b)[..|a + b| - 1] == a + front;
      calc {
        NatValue(a + b);
        10 * NatValue(a + front) + DigitValue(last);
        10 * (NatValue(a) * Pow10(|front|) + NatValue(front)) + DigitValue(last);
        { MulMove(10, NatValue(a), Pow10(|front|)); }
        NatValue(a) * (10 * Pow10(|front|)) + (10 * NatValue(front) + DigitValue(last));
        NatValue(a) * Pow10(|b|) + NatValue(b);
      }
    }
  }

  function Pow10(n: nat): (p: nat)
    ensures p > 0
  {
    if n == 0 then 1 else 10 * Pow10(n - 1)
  }

  function Zeros(n: nat): (s: string)
    ensures |s| == n && AllDigits(s)
  {
    seq(n, _ => '0')
  }

  lemma {:induction false} ZerosAreWorthless(n: nat)
    ensures NatValue(Zeros(n)) == 0
  {
    if n > 0 {
      ZerosAreWorthless(n - 1);
      assert Zeros(n)[..n - 1] == Zeros(n - 1);
    }
  }

  /* ---- hexadecimal ---- */

  predicate IsHexDigit(c: char) {
    '0' <= c <= '9' || 'a' <= c <= 'f' || 'A' <= c <= 'F'
  }

  function HexValue(c: char): (d: nat)
    requires IsHexDigit(c)
    ensures d < 16
  {
    if '0' <= c <= '9' then c as int - '0' as int
    else if 'a' <= c <= 'f' then c as int - 'a' as int + 10
    else c as int - 'A' as int + 10
  }

  function HexChar(d: nat): (c: char)
    requires d < 16
    ensures IsHexDigit(c) && HexValue(c) == d && !('A' <= c <= 'F')
  {
    if d < 10 then '0' + d as char else 'a' + (d - 10) as char
  }

  function Pow16(n: nat): (p: nat)
    ensures p > 0
  {
    if n == 0 then 1 else 16 * Pow16(n - 1)
  }

  /** The lower-case digits that `%0<width>x` prints for a value below 16^width. */
  function HexText(x: nat, width: nat): (s: string)
    requires x < Pow16(width)
    ensures |s| == width
    ensures forall i :: 0 <= i < |s| ==> IsHexDigit(s[i]) && !('A' <= s[i] <= 'F')
  {
    if width == 0 then [] else HexText(x / 16, width - 1) + [HexChar(x % 16)]
  }

  predicate AllHex(s: string) {
    forall i :: 0 <= i < |s| ==> IsHexDigit(s[i])
  }

  function HexNat(s: string): nat
    requires AllHex(s)
  {
    if s == [] then 0 else 16 * HexNat(s[..|s| - 1]) + HexValue(s[|s| - 1])
  }

  lemma {:induction false} HexNatSnoc(s: string, c: char)
    requires AllHex(s) && IsHexDigit(c)
    ensures AllHex(s + [c]) && HexNat(s + [c]) == 16 * HexNat(s) + HexValue(c)
  {
    assert (s + [c])[..|s|] == s;
  }

  lemma {:induction false} HexNatBound(s: string)
    requires AllHex(s)
    ensures HexNat(s) < Pow16(|s|)
  {
    if s != [] {
      HexNatBound(s[..|s| - 1]);
    }
  }

  lemma {:induction false} HexNatOfText(x: nat, width: nat)
    requires x < Pow16(width)
    ensures HexNat(HexText(x, width)) == x
  {
    if width > 0 {
      var front, last := HexText(x / 16, width - 1), HexChar(x % 16);
      assert HexText(x, width) == front + [last];
      hide HexText, HexNat, HexChar, HexValue, IsHexDigit;
      HexNatOfText(x / 16, width - 1);
      HexNatSnoc(front, last);
    }
  }

  /** ASCII lower-casing, enough for hexadecimal digits and dashes. */
  function LowerChar(c: char): char {
    if 'A' <= c <= 'Z' then c + 32 as char else c
  }

  function Lower(s: string): (r: string)
    ensures |r| == |s|
  {
    seq(|s|, i requires 0 <= i < |s| => LowerChar(s[i]))
  }

  lemma {:induction false} HexTextOfNat(s: string)
    requires AllHex(s)
    ensures HexNat(s) < Pow16(|s|) && HexText(HexNat(s), |s|) == Lower(s)
  {
    HexNatBound(s);
    if s != [] {
      var front, last := s[..|s| - 1], s[|s| - 1];
      HexTextOfNat(front);
      assert HexNat(s) / 16 == HexNat(front) && HexNat(s) % 16 == HexValue(last);
      assert HexChar(HexValue(last)) == LowerChar(last);
      assert Lower(s) == Lower(front) + [LowerChar(last)];
    }
  }

  /** Printing high and low parts separately prints the whole. */
  lemma {:induction false} HexTextSplit(x: nat, high: nat, low: nat)
    requires x < Pow16(high + low)
    ensures FloorDiv(x, Pow16(low)) < Pow16(high)
    ensures HexText(x, high + low) == HexText(FloorDiv(x, Pow16(low)), high) + HexText(FloorMod(x, Pow16(low)), low)
    decreases low
  {
    var p := Pow16(low);
    var q, r := FloorDiv(x, p), FloorMod(x, p);
    HighPartFits(x, high, low);
    if low == 0 {
      FloorUnique(x, 1, x, 0);
      assert HexText(x, high) == HexText(x, high) + [];
    } else {
      var rest := HexText(r / 16, low - 1);
      DropDigit(x, low);
      HexTextSplit(x / 16, high, low - 1);
      assert HexText(r, low) == rest + [HexChar(x % 16)];
      assert HexText(q, high) + (rest + [HexChar(x % 16)]) == HexText(q, high) + rest + [HexChar(x % 16)];
    }
  }

  lemma {:induction false} HighPartFits(x: nat, high: nat, low: nat)
    requires x < Pow16(high + low)
    ensures FloorDiv(x, Pow16(low)) < Pow16(high)
  {
    Pow16Add(high, low);
    FloorBelow(x, Pow16(low), Pow16(high));
  }

  /** Without its last digit a number has the same high part, and a low part without it. */
  lemma {:induction false} DropDigit(x: nat, low: nat)
    requires low > 0
    ensures var q, r := FloorDiv(x, Pow16(low)), FloorMod(x, Pow16(low));
            && FloorDiv(x / 16, Pow16(low - 1)) == q && FloorMod(x / 16, Pow16(low - 1)) == r / 16
            && r % 16 == x % 16
  {
    var p' := Pow16(low - 1);
    var q, r := FloorDiv(x, Pow16(low)), FloorMod(x, Pow16(low));
    MulMove(q, 16, p');
    assert x == 16 * (q * p') + r;
    FloorUnique(x / 16, p', q, r / 16);
  }

  lemma {:induction false} Pow16Add(a: nat, b: nat)
    ensures Pow16(a + b) == Pow16(a) * Pow16(b)
    decreases b
  {
    if b > 0 {
      Pow16Add(a, b - 1);
      MulMove(16, Pow16(a), Pow16(b - 1));
    }
  }

  /** A hexadecimal digit is worth its place among the sixteen. */
  lemma {:induction false} HexDigitsInOrder(c: char, d: nat)
    requires d < 16
    ensures IsHexDigit(c) ==> "0123456789abcdef"[HexValue(c)] == LowerChar(c)
    ensures HexChar(d) == "0123456789abcdef"[d]
  {
  }
}
