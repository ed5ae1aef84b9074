/** Rendering of a Decimal cell (raw integer and scale) as text. */
module DecimalText {
  import opened Arithmetic
  import opened Numerals

  function Abs(n: int): nat {
    if n < 0 then -n else n
  }

  function WithSign(negative: bool, text: string): string {
    if negative then "-" + text else text
  }

  /** The digit string that is cut at the point. */
  function Padded(digits: string, scale: nat): (s: string)
    ensures |s| > scale || |digits| == 0
  {
    if |digits| <= scale then Zeros(scale - |digits| + 1) + digits else digits
  }

  /** The string surgery of the source: print the raw integer, pad, insert the point. */
  function Render(raw: int, scale: nat): string {
    var str := IntText(raw);
    if scale == 0 then
      str
    else
      var negative := str[0] == '-';
      var padded := Padded(if negative then str[1..] else str, scale);
      var point := |padded| - scale;
      WithSign(negative, padded[..point] + "." + padded[point..])
  }

  /** Exactly `width` digits of x, with leading zeros. */
  function FixedText(x: nat, width: nat): (s: string)
    requires x < Pow10(width)
    ensures |s| == width && AllDigits(s)
  {
    if width == 0 then [] else FixedText(x / 10, width - 1) + [DigitChar(x % 10)]
  }

  /** What the text of raw / 10^scale ought to be: the sign, the shortest integer part, and
      exactly `scale` fractional digits behind a point. */
  function Reference(raw: int, scale: nat): string {
    var whole := NatText(FloorDiv(Abs(raw), Pow10(scale)));
    var fraction := FixedText(FloorMod(Abs(raw), Pow10(scale)), scale);
    WithSign(raw < 0, if scale == 0 then whole else whole + "." + fraction)
  }

  /** Delete the point and read the remaining signed numeral. */
  function DeletePoint(s: string): string {
    if s == [] then [] else (if s[0] == '.' then [] else [s[0]]) + DeletePoint(s[1..])
  }

  predicate IsSignedNumeral(s: string) {
    AllDigits(if s != [] && s[0] == '-' then s[1..] else s)
  }

  function SignedValue(s: string): int
    requires IsSignedNumeral(s)
  {
    if s != [] && s[0] == '-' then (var m: int := NatValue(s[1..]); -m) else NatValue(s)
  }

  lemma {:induction false} FixedTextOfValue(s: string)
    requires AllDigits(s)
    ensures NatValue(s) < Pow10(|s|) && FixedText(NatValue(s), |s|) == s
  {
    if s != [] {
      var front, last := s[..|s| - 1], s[|s| - 1];
      FixedTextOfValue(front);
      assert NatValue(s) / 10 == NatValue(front) && NatValue(s) % 10 == DigitValue(last);
      assert s == front + [last];
    }
  }

  lemma {:induction false} ValueOfFixedText(x: nat, width: nat)
    requires x < Pow10(width)
    ensures NatValue(FixedText(x, width)) == x
  {
    if width > 0 {
      ValueOfFixedText(x / 10, width - 1);
      NatValueSnoc(FixedText(x / 10, width - 1), DigitChar(x % 10));
    }
  }

  /** The padded digit string splits at the point into quotient and remainder. */
  lemma {:induction false} PaddedSplit(n: nat, scale: nat, padded: string)
    requires AllDigits(padded) && NatValue(padded) == n && |padded| > scale
    requires |padded| > scale + 1 ==> padded[0] != '0'
    ensures padded[..|padded| - scale] == NatText(FloorDiv(n, Pow10(scale)))
    ensures padded[|padded| - scale..] == FixedText(FloorMod(n, Pow10(scale)), scale)
  {
    var point := |padded| - scale;
    var whole, fraction := padded[..point], padded[point..];
    assert padded == whole + fraction;
    NatValueSplit(whole, fraction);
    FixedTextOfValue(fraction);
    FloorUnique(n, Pow10(scale), NatValue(whole), NatValue(fraction));
    NatTextOfValue(whole);
  }

  lemma {:induction false} PaddedValue(n: nat, scale: nat)
    ensures var padded := Padded(NatText(n), scale);
            AllDigits(padded) && NatValue(padded) == n && |padded| > scale
            && (|padded| > scale + 1 ==> padded[0] != '0')
  {
    var digits := NatText(n);
    NatValueOfText(n);
    if |digits| <= scale {
      var padding := Zeros(scale - |digits| + 1);
      ZerosAreWorthless(|padding|);
      NatValueSplit(padding, digits);
    }
  }

  lemma {:induction false} SignOf(raw: int)
    ensures var str := IntText(raw);
            |str| > 0 && (str[0] == '-' <==> raw < 0)
            && (if raw < 0 then str[1..] else str) == NatText(Abs(raw))
  {
    var digits := NatText(Abs(raw));
    assert IsDigit(digits[0]);
    assert ("-" + digits)[1..] == digits;
  }

  /** What the cut at the point yields, for the digits of any natural number. */
  lemma {:induction false} CutAtPoint(n: nat, scale: nat, digits: string)
    requires digits == NatText(n)
    ensures var padded := Padded(digits, scale);
            && |padded| > scale
            && padded[..|padded| - scale] == NatText(FloorDiv(n, Pow10(scale)))
            && padded[|padded| - scale..] == FixedText(FloorMod(n, Pow10(scale)), scale)
  {
    PaddedValue(n, scale);
    PaddedSplit(n, scale, Padded(digits, scale));
  }

  lemma {:induction false} NothingToCut(n: nat)
    ensures NatText(FloorDiv(n, Pow10(0))) == NatText(n)
  {
    FloorUnique(n, 1, n, 0);
  }

  /** The rendering is canonical: sign, shortest integer part, exactly `scale` digits. */
  lemma {:induction false} RenderMeetsReference(raw: int, scale: nat)
    ensures Render(raw, scale) == Reference(raw, scale)
  {
    var n, str := Abs(raw), IntText(raw);
    SignOf(raw);
    if scale == 0 {
      NothingToCut(n);
    } else {
      CutAtPoint(n, scale, if raw < 0 then str[1..] else str);
    }
  }

  lemma {:induction false} DeletePointAppend(s: string, t: string)
    ensures DeletePoint(s + t) == DeletePoint(s) + DeletePoint(t)
  {
    if s == [] {
      assert s + t == t;
    } else {
      assert (s + t)[0] == s[0] && (s + t)[1..] == s[1..] + t;
      DeletePointAppend(s[1..], t);
    }
  }

  lemma {:induction false} DeletePointOfDigits(s: string)
    requires AllDigits(s)
    ensures DeletePoint(s) == s
  {
    if s != [] {
      DeletePointOfDigits(s[1..]);
    }
  }

  lemma {:induction false} DeletePointOfSigned(negative: bool, text: string)
    ensures DeletePoint(WithSign(negative, text)) == WithSign(negative, DeletePoint(text))
  {
    var sign := "-";
    DeletePointAppend(sign, text);
    assert DeletePoint(sign) == sign + DeletePoint(sign[1..]);
  }

  lemma {:induction false} SignedValueOf(negative: bool, digits: string)
    requires AllDigits(digits) && |digits| > 0
    ensures IsSignedNumeral(WithSign(negative, digits))
    ensures SignedValue(WithSign(negative, digits)) == (if negative then 0 - NatValue(digits) else NatValue(digits))
  {
    var sign := "-";
    assert IsDigit(digits[0]);
    assert (sign + digits)[0] == '-' && (sign + digits)[1..] == digits;
  }

  lemma {:induction false} DeletePointBetween(whole: string, fraction: string)
    requires AllDigits(whole) && AllDigits(fraction)
    ensures DeletePoint(whole + "." + fraction) == whole + fraction
  {
    var point := ".";
    DeletePointAppend(whole + point, fraction);
    DeletePointAppend(whole, point);
    DeletePointOfDigits(whole);
    DeletePointOfDigits(fraction);
    assert DeletePoint(point) == DeletePoint(point[1..]);
    assert whole + [] == whole;
  }

  lemma {:induction false} DeletePointOfReference(raw: int, scale: nat, whole: string, fraction: string)
    requires whole == NatText(FloorDiv(Abs(raw), Pow10(scale)))
    requires fraction == FixedText(FloorMod(Abs(raw), Pow10(scale)), scale)
    ensures DeletePoint(Reference(raw, scale)) == WithSign(raw < 0, whole + fraction)
  {
    DeletePointBetween(whole, fraction);
    DeletePointOfDigits(whole);
    if scale == 0 {
      assert whole + fraction == whole;
      DeletePointOfSigned(raw < 0, whole);
    } else {
      DeletePointOfSigned(raw < 0, whole + "." + fraction);
    }
  }

  /** Lossless: deleting the point and reading the numeral gives the raw integer back. */
  lemma {:induction false} RenderIsLossless(raw: int, scale: nat)
    ensures IsSignedNumeral(DeletePoint(Render(raw, scale)))
    ensures SignedValue(DeletePoint(Render(raw, scale))) == raw
  {
    RenderMeetsReference(raw, scale);
    var q, r := FloorDiv(Abs(raw), Pow10(scale)), FloorMod(Abs(raw), Pow10(scale));
    var whole, fraction := NatText(q), FixedText(r, scale);
    DeletePointOfReference(raw, scale, whole, fraction);
    NatValueSplit(whole, fraction);
    SignedValueOf(raw < 0, whole + fraction);
    NatValueOfText(q);
    ValueOfFixedText(r, scale);
  }

  /** Two different raw values of one scale never share a text. */
  lemma {:induction false} RenderIsInjective(a: int, b: int, scale: nat)
    ensures Render(a, scale) == Render(b, scale) <==> a == b
  {
    RenderIsLossless(a, scale);
    RenderIsLossless(b, scale);
  }

  /** Sign, integer part and fraction of a text with `scale` fractional digits. */
  function SplitDecimal(text: string, scale: nat): (parts: (bool, string, string)) {
    var negative := text != [] && text[0] == '-';
    var body := if negative then text[1..] else text;
    if scale == 0 then (negative, body, [])
    else if |body| <= scale then (negative, [], [])
    else (negative, body[..|body| - scale - 1], body[|body| - scale..])
  }

  function JoinDecimal(negative: bool, whole: string, fraction: string): string {
    WithSign(negative, if fraction == [] then whole else whole + "." + fraction)
  }

  /** The canonical decimal texts of a scale: exactly `scale` digits behind the point, no needless
      zero before it, and no negative zero. */
  predicate IsDecimalText(text: string, scale: nat) {
    var (negative, whole, fraction) := SplitDecimal(text, scale);
    && text == JoinDecimal(negative, whole, fraction) && |fraction| == scale
    && AllDigits(whole) && AllDigits(fraction) && whole != [] && (|whole| > 1 ==> whole[0] != '0')
    && (negative ==> NatValue(whole) > 0 || NatValue(fraction) > 0)
  }

  lemma {:induction false} SplitOfJoin(negative: bool, whole: string, fraction: string)
    requires whole != [] && AllDigits(whole)
    ensures SplitDecimal(JoinDecimal(negative, whole, fraction), |fraction|) == (negative, whole, fraction)
  {
    var body := if fraction == [] then whole else whole + "." + fraction;
    var text := JoinDecimal(negative, whole, fraction);
    assert IsDigit(whole[0]) && body[0] == whole[0];
    assert negative ==> text[1..] == body;
    if fraction != [] {
      assert body[..|whole|] == whole && body[|whole| + 1..] == fraction;
    }
  }

  /** Rendering a raw integer and reading a canonical text are inverse: what is rendered is
      canonical, and a canonical text is the rendering of the number it reads as. */
  lemma {:induction false} RenderIsCanonical(raw: int, scale: nat)
    ensures IsDecimalText(Render(raw, scale), scale)
  {
    hide Render, NatText, FixedText, NatValue, SplitDecimal;
    RenderMeetsReference(raw, scale);
    var q, r := FloorDiv(Abs(raw), Pow10(scale)), FloorMod(Abs(raw), Pow10(scale));
    SplitOfJoin(raw < 0, NatText(q), FixedText(r, scale));
    NatValueOfText(q);
    ValueOfFixedText(r, scale);
    if q == 0 && r == 0 {
      assert Abs(raw) == 0;
    }
  }

  lemma {:induction false} RenderOfCanonical(text: string, scale: nat)
    requires IsDecimalText(text, scale)
    ensures IsSignedNumeral(DeletePoint(text)) && Render(SignedValue(DeletePoint(text)), scale) == text
  {
    hide Render, NatText, FixedText, NatValue, DeletePoint, SignedValue, IsSignedNumeral, SplitDecimal;
    var (negative, whole, fraction) := SplitDecimal(text, scale);
    var q, r := NatValue(whole), NatValue(fraction);
    FixedTextOfValue(fraction);
    NatTextOfValue(whole);
    var n: int := q * Pow10(scale) + r;
    FloorUnique(n, Pow10(scale), q, r);
    if negative && q > 0 {
      MulMonotone(1, q, Pow10(scale));
    }
    var raw := if negative then -n else n;
    assert Abs(raw) == n && (raw < 0 <==> negative);
    assert Reference(raw, scale) == text;
    RenderMeetsReference(raw, scale);
    RenderIsLossless(raw, scale);
  }

  /** Letter by letter: a minus in front iff the number is negative, a point before the last `scale`
      characters unless that is none, and digits everywhere else. */
  lemma {:induction false} RenderLetters(raw: int, scale: nat)
    ensures var s := Render(raw, scale); var sign := if raw < 0 then 1 else 0; var point := |s| - scale - 1;
            && |s| > sign + scale && (s[0] == '-' <==> raw < 0)
            && (scale > 0 ==> sign < point && s[point] == '.')
            && forall i :: sign <= i < |s| && (scale == 0 || i != point) ==> IsDigit(s[i])
  {
    hide Render, NatText, FixedText;
    RenderMeetsReference(raw, scale);
    var whole := NatText(FloorDiv(Abs(raw), Pow10(scale)));
    var fraction := FixedText(FloorMod(Abs(raw), Pow10(scale)), scale);
    assert IsDigit(whole[0]);
    var body := if scale == 0 then whole else whole + "." + fraction;
    assert forall i :: 0 <= i < |body| && (scale == 0 || i != |whole|) ==> IsDigit(body[i]);
    assert Render(raw, scale) == WithSign(raw < 0, body);
  }
}
