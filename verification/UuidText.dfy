/** The textual form of a UUID (section 3 of RFC 4122) and its lenient parser. */
module UuidText {
  import opened Arithmetic
  import opened Numerals

  const TWO_TO_16: nat := 0x1_0000
  const TWO_TO_32: nat := 0x1_0000_0000
  const TWO_TO_48: nat := 0x1_0000_0000_0000
  const TWO_TO_64: nat := 0x1_0000_0000_0000_0000

  /** The hexadecimal digits of a string, in order; everything else is skipped. */
  function HexDigits(s: string): (r: string)
    ensures AllHex(r) && |r| <= |s|
  {
    if s == [] then []
    else HexDigits(s[..|s| - 1]) + (if IsHexDigit(s[|s| - 1]) then [s[|s| - 1]] else [])
  }

  /** The digits that take part in the parse: the first 32. */
  function Significant(s: string): (r: string)
    ensures AllHex(r) && |r| <= 32
  {
    var ds := HexDigits(s);
    ds[..Min(32, |ds|)]
  }

  function HighDigits(ds: string): string {
    ds[..Min(16, |ds|)]
  }

  function LowDigits(ds: string): string {
    ds[Min(16, |ds|)..]
  }

  /** The value the digits denote: up to 16 digits of high word, then the low word. */
  function Words(ds: string): (nat, nat)
    requires AllHex(ds)
  {
    (HexNat(HighDigits(ds)), HexNat(LowDigits(ds)))
  }

  predicate IsWord(w: nat) {
    w < TWO_TO_64
  }

  type Word = w: nat | IsWord(w)

  lemma {:induction false} PowersOf16()
    ensures Pow16(4) == TWO_TO_16 && Pow16(8) == TWO_TO_32
    ensures Pow16(12) == TWO_TO_48 && Pow16(16) == TWO_TO_64
  {
    Pow16Add(4, 4);
    Pow16Add(8, 4);
    Pow16Add(8, 8);
  }

  lemma {:induction false} Pow16Monotone(a: nat, b: nat)
    requires a <= b
    ensures Pow16(a) <= Pow16(b)
    decreases b
  {
    if a < b {
      Pow16Monotone(a, b - 1);
    }
  }

  /** Five groups of digits joined by dashes. */
  function Dashed(a: string, b: string, c: string, d: string, e: string): string {
    a + ("-" + (b + ("-" + (c + ("-" + (d + ("-" + e)))))))
  }

  /** What the printf format of the source prints for the two words. */
  function Canonical(hi: nat, lo: nat): string
    requires IsWord(hi) && IsWord(lo)
  {
    PowersOf16();
    Dashed(HexText(hi / TWO_TO_32, 8), HexText(hi / TWO_TO_16 % TWO_TO_16, 4), HexText(hi % TWO_TO_16, 4),
           HexText(lo / TWO_TO_48, 4), HexText(lo % TWO_TO_48, 12))
  }

  lemma {:induction false} HexDigitsAppend(a: string, b: string)
    ensures HexDigits(a + b) == HexDigits(a) + HexDigits(b)
    decreases |b|
  {
    if b == [] {
      assert a + b == a;
    } else {
      var front, last := b[..|b| - 1], b[|b| - 1];
      HexDigitsAppend(a, front);
      HexDigitsSnoc(a + front, last);
      HexDigitsSnoc(front, last);
      assert b == front + [last] && a + b == a + front + [last];
    }
  }

  lemma {:induction false} HexDigitsSnoc(s: string, c: char)
    ensures HexDigits(s + [c]) == HexDigits(s) + if IsHexDigit(c) then [c] else []
  {
    assert (s + [c])[..|s|] == s;
  }

  lemma {:induction false} HexDigitsOfHex(s: string)
    requires AllHex(s)
    ensures HexDigits(s) == s
  {
    if s != [] {
      HexDigitsOfHex(s[..|s| - 1]);
      assert s == s[..|s| - 1] + [s[|s| - 1]];
    }
  }

  /** One nibble more: where the digit goes and what the words become. */
  lemma {:induction false} WordsOfNext(ds: string, c: char)
    requires AllHex(ds) && |ds| < 32 && IsHexDigit(c)
    ensures |ds| < 16 ==> Words(ds + [c]) == (16 * Words(ds).0 + HexValue(c), Words(ds).1)
    ensures |ds| >= 16 ==> Words(ds + [c]) == (Words(ds).0, 16 * Words(ds).1 + HexValue(c))
  {
    if |ds| < 16 {
      assert HighDigits(ds) == ds && HighDigits(ds + [c]) == ds + [c];
      assert LowDigits(ds) == [] == LowDigits(ds + [c]);
      assert (ds + [c])[..|ds|] == ds;
    } else {
      assert HighDigits(ds + [c]) == HighDigits(ds);
      assert LowDigits(ds + [c]) == LowDigits(ds) + [c];
    }
  }

  lemma {:induction false} WordsFit(ds: string)
    requires AllHex(ds) && |ds| <= 32
    ensures IsWord(Words(ds).0) && IsWord(Words(ds).1)
  {
    PowersOf16();
    HexNatBound(HighDigits(ds));
    HexNatBound(LowDigits(ds));
    Pow16Monotone(|HighDigits(ds)|, 16);
    Pow16Monotone(|LowDigits(ds)|, 16);
  }

  /** `(w << 4) | nib` on a 64-bit word. */
  function ShiftIn(w: nat, nib: nat): nat {
    (w * 16 + nib) % TWO_TO_64
  }

  /** What one more character of the input does to the words read so far. */
  lemma {:induction false} StepOfParse(str: string, i: nat)
    requires i < |str| && |HexDigits(str[..i])| < 32
    ensures var ds, next := HexDigits(str[..i]), HexDigits(str[..i + 1]);
            if !IsHexDigit(str[i]) then next == ds
            else
              var nib := HexValue(str[i]);
              && |next| == |ds| + 1
              && Words(next) == if |ds| < 16 then (ShiftIn(Words(ds).0, nib), Words(ds).1)
                                else (Words(ds).0, ShiftIn(Words(ds).1, nib))
  {
    hide HexDigits, HexNat, HighDigits, LowDigits, HexValue, IsHexDigit;
    var ds, c := HexDigits(str[..i]), str[i];
    HexDigitsSnoc(str[..i], c);
    assert str[..i + 1] == str[..i] + [c];
    if IsHexDigit(c) {
      WordsOfNext(ds, c);
      WordsFit(ds + [c]);
    } else {
      assert ds + [] == ds;
    }
  }

  lemma {:induction false} EndOfParse(str: string, i: nat)
    requires i <= |str| && |HexDigits(str[..i])| <= 32
    requires i == |str| || |HexDigits(str[..i])| == 32
    ensures Significant(str) == HexDigits(str[..i])
  {
    HexDigitsAppend(str[..i], str[i..]);
    assert str == str[..i] + str[i..];
    assert str[..|str|] == str;
  }

  /** The parse loop over 64-bit words: shift in one nibble at a time. */
  method Parse(str: string) returns (hi: nat, lo: nat)
    ensures (hi, lo) == Words(Significant(str))
  {
    hi, lo := 0, 0;
    var nibbles := 0;
    var i := 0;
    while i < |str| && nibbles < 32
      invariant i <= |str|
      invariant nibbles == |HexDigits(str[..i])| <= 32
      invariant hi == Words(HexDigits(str[..i])).0 && lo == Words(HexDigits(str[..i])).1
      decreases |str| - i
    {
      StepOfParse(str, i);
      var c := str[i];
      i := i + 1;
      if !IsHexDigit(c) {
        continue;
      }
      var nib := HexValue(c);
      if nibbles < 16 {
        hi := ShiftIn(hi, nib);
      } else {
        lo := ShiftIn(lo, nib);
      }
      nibbles := nibbles + 1;
    }
    EndOfParse(str, i);
  }

  lemma {:induction false} DigitsOfDashed(a: string, b: string, c: string, d: string, e: string)
    requires AllHex(a) && AllHex(b) && AllHex(c) && AllHex(d) && AllHex(e)
    ensures HexDigits(Dashed(a, b, c, d, e)) == a + (b + (c + (d + e)))
  {
    DigitsOfGroup(d, e);
    DigitsOfGroup(c, d + ("-" + e));
    DigitsOfGroup(b, c + ("-" + (d + ("-" + e))));
    DigitsOfGroup(a, b + ("-" + (c + ("-" + (d + ("-" + e))))));
    HexDigitsOfHex(e);
  }

  lemma {:induction false} DigitsOfGroup(group: string, rest: string)
    requires AllHex(group)
    ensures HexDigits(group + ("-" + rest)) == group + HexDigits(rest)
  {
    var dash := "-";
    calc {
      HexDigits(group + (dash + rest));
      { HexDigitsAppend(group, dash + rest); }
      HexDigits(group) + HexDigits(dash + rest);
      { HexDigitsOfHex(group); HexDigitsAppend(dash, rest); }
      group + (HexDigits(dash) + HexDigits(rest));
      { DashHasNoDigits(); }
      group + ([] + HexDigits(rest));
      { assert [] + HexDigits(rest) == HexDigits(rest); }
      group + HexDigits(rest);
    }
  }

  lemma {:induction false} DashHasNoDigits()
    ensures HexDigits("-") == []
  {
    assert "-"[..0] == [];
  }

  /** Two adjacent digit groups print the number they are cut from. */
  lemma {:induction false} GroupPair(x: nat, high: nat, low: nat, unit: nat)
    requires unit == Pow16(low) && x < Pow16(high + low)
    ensures FloorDiv(x, unit) < Pow16(high) && FloorMod(x, unit) < unit
    ensures HexText(x, high + low) == HexText(FloorDiv(x, unit), high) + HexText(FloorMod(x, unit), low)
  {
    HexTextSplit(x, high, low);
  }

  lemma {:induction false} ShiftTwice(hi: nat)
    ensures hi / TWO_TO_16 / TWO_TO_16 == hi / TWO_TO_32
  {
  }

  /** The groups of the printed form are the 16 digits of either word. */
  lemma {:induction false} GroupsOfWords(hi: nat, lo: nat)
    requires IsWord(hi) && IsWord(lo)
    ensures hi < Pow16(16) && lo < Pow16(16)
    ensures hi / TWO_TO_32 < Pow16(8) && hi / TWO_TO_16 % TWO_TO_16 < Pow16(4) && hi % TWO_TO_16 < Pow16(4)
    ensures lo / TWO_TO_48 < Pow16(4) && lo % TWO_TO_48 < Pow16(12)
    ensures HexText(hi, 16) == HexText(hi / TWO_TO_32, 8)
                               + HexText(hi / TWO_TO_16 % TWO_TO_16, 4) + HexText(hi % TWO_TO_16, 4)
    ensures HexText(lo, 16) == HexText(lo / TWO_TO_48, 4) + HexText(lo % TWO_TO_48, 12)
  {
    PowersOf16();
    GroupPair(hi, 12, 4, TWO_TO_16);
    GroupPair(hi / TWO_TO_16, 8, 4, TWO_TO_16);
    GroupPair(lo, 4, 12, TWO_TO_48);
    ShiftTwice(hi);
  }

  lemma {:induction false} DigitsOfCanonical(hi: nat, lo: nat)
    requires IsWord(hi) && IsWord(lo)
    ensures hi < Pow16(16) && lo < Pow16(16)
    ensures HexDigits(Canonical(hi, lo)) == HexText(hi, 16) + HexText(lo, 16)
  {
    GroupsOfWords(hi, lo);
    var a, b, c := HexText(hi / TWO_TO_32, 8), HexText(hi / TWO_TO_16 % TWO_TO_16, 4), HexText(hi % TWO_TO_16, 4);
    var d, e := HexText(lo / TWO_TO_48, 4), HexText(lo % TWO_TO_48, 12);
    DigitsOfDashed(a, b, c, d, e);
    Regroup(a, b, c, d + e);
  }

  lemma {:induction false} Regroup(a: string, b: string, c: string, d: string)
    ensures a + (b + (c + d)) == a + b + c + d
  {
  }

  lemma {:induction false} WordsOfPair(high: string, low: string)
    requires AllHex(high) && AllHex(low) && |high| == 16 && |low| == 16
    ensures Words((high + low)[..Min(32, |high + low|)]) == (HexNat(high), HexNat(low))
  {
    assert (high + low)[..32] == high + low;
    assert HighDigits(high + low) == high && LowDigits(high + low) == low;
  }

  /** parse(print(u)) == u for every 128-bit value. */
  lemma {:induction false} ParseOfPrint(hi: nat, lo: nat)
    requires IsWord(hi) && IsWord(lo)
    ensures Words(Significant(Canonical(hi, lo))) == (hi, lo)
  {
    DigitsOfCanonical(hi, lo);
    HexNatOfText(hi, 16);
    HexNatOfText(lo, 16);
    WordsOfPair(HexText(hi, 16), HexText(lo, 16));
  }

  predicate IsCanonicalText(s: string) {
    && |s| == 36
    && s[8] == s[13] == s[18] == s[23] == '-'
    && AllHex(s[..8]) && AllHex(s[9..13]) && AllHex(s[14..18]) && AllHex(s[19..23]) && AllHex(s[24..])
  }

  lemma {:induction false} LowerAppend(a: string, b: string)
    ensures Lower(a + b) == Lower(a) + Lower(b)
  {
  }

  lemma {:induction false} LowerOfDashed(a: string, b: string, c: string, d: string, e: string)
    ensures Lower(Dashed(a, b, c, d, e)) == Dashed(Lower(a), Lower(b), Lower(c), Lower(d), Lower(e))
  {
    assert Lower("-") == "-";
    LowerAppend("-", e);
    LowerAppend(d, "-" + e);
    LowerAppend("-", d + ("-" + e));
    LowerAppend(c, "-" + (d + ("-" + e)));
    LowerAppend("-", c + ("-" + (d + ("-" + e))));
    LowerAppend(b, "-" + (c + ("-" + (d + ("-" + e)))));
    LowerAppend("-", b + ("-" + (c + ("-" + (d + ("-" + e))))));
    LowerAppend(a, "-" + (b + ("-" + (c + ("-" + (d + ("-" + e)))))));
  }

  lemma {:induction false} DashedOfText(s: string)
    requires IsCanonicalText(s)
    ensures s == Dashed(s[..8], s[9..13], s[14..18], s[19..23], s[24..])
  {
    assert s == s[..8] + s[8..];
    assert s[8..] == "-" + (s[9..13] + s[13..]);
    assert s[13..] == "-" + (s[14..18] + s[18..]);
    assert s[18..] == "-" + (s[19..23] + s[23..]);
    assert s[23..] == "-" + s[24..];
  }

  lemma {:induction false} SplitEqual(a: string, b: string, a': string, b': string)
    requires |a| == |a'| && a + b == a' + b'
    ensures a == a' && b == b'
  {
    assert a == (a + b)[..|a|] && a' == (a' + b')[..|a|];
    assert b == (a + b)[|a|..] && b' == (a' + b')[|a|..];
  }

  /** print(parse(s)) == lowercase(s) for every canonical text. */
  lemma {:induction false} PrintOfParse(s: string)
    requires IsCanonicalText(s)
    ensures var (hi, lo) := Words(Significant(s));
            IsWord(hi) && IsWord(lo) && Canonical(hi, lo) == Lower(s)
  {
    var a, b, c, d, e := s[..8], s[9..13], s[14..18], s[19..23], s[24..];
    DashedOfText(s);
    DigitsOfDashed(a, b, c, d, e);
    var high, low := a + b + c, d + e;
    Regroup(a, b, c, low);
    WordsOfPair(high, low);
    WordsFit(Significant(s));
    var hi, lo := HexNat(high), HexNat(low);
    HexTextOfNat(high);
    HexTextOfNat(low);
    GroupsOfWords(hi, lo);
    LowerAppend(a + b, c);
    LowerAppend(a, b);
    LowerAppend(d, e);
    SplitEqual(HexText(hi / TWO_TO_32, 8) + HexText(hi / TWO_TO_16 % TWO_TO_16, 4), HexText(hi % TWO_TO_16, 4),
               Lower(a) + Lower(b), Lower(c));
    SplitEqual(HexText(hi / TWO_TO_32, 8), HexText(hi / TWO_TO_16 % TWO_TO_16, 4), Lower(a), Lower(b));
    SplitEqual(HexText(lo / TWO_TO_48, 4), HexText(lo % TWO_TO_48, 12), Lower(d), Lower(e));
    LowerOfDashed(a, b, c, d, e);
  }

  lemma {:induction false} DashedIsCanonical(a: string, b: string, c: string, d: string, e: string)
    requires AllHex(a) && AllHex(b) && AllHex(c) && AllHex(d) && AllHex(e)
    requires |a| == 8 && |b| == |c| == |d| == 4 && |e| == 12
    ensures IsCanonicalText(Dashed(a, b, c, d, e))
  {
    var s := Dashed(a, b, c, d, e);
    assert s[..8] == a;
    assert s[9..13] == b;
    assert s[14..18] == c;
    assert s[19..23] == d;
    assert s[24..] == e;
  }

  lemma {:induction false} HexTextIsLower(x: nat, width: nat)
    requires x < Pow16(width)
    ensures Lower(HexText(x, width)) == HexText(x, width)
  {
  }

  lemma {:induction false} PrintIsCanonical(hi: nat, lo: nat)
    requires IsWord(hi) && IsWord(lo)
    ensures IsCanonicalText(Canonical(hi, lo)) && Lower(Canonical(hi, lo)) == Canonical(hi, lo)
  {
    PowersOf16();
    var a, b, c := HexText(hi / TWO_TO_32, 8), HexText(hi / TWO_TO_16 % TWO_TO_16, 4), HexText(hi % TWO_TO_16, 4);
    var d, e := HexText(lo / TWO_TO_48, 4), HexText(lo % TWO_TO_48, 12);
    DashedIsCanonical(a, b, c, d, e);
    LowerOfDashed(a, b, c, d, e);
    HexTextIsLower(hi / TWO_TO_32, 8);
    HexTextIsLower(hi / TWO_TO_16 % TWO_TO_16, 4);
    HexTextIsLower(hi % TWO_TO_16, 4);
    HexTextIsLower(lo / TWO_TO_48, 4);
    HexTextIsLower(lo % TWO_TO_48, 12);
  }

  /** Exactly which texts survive the trip through the column: the lower-case canonical ones. */
  lemma {:induction false} TextSurvivesIff(s: string)
    ensures var (hi, lo) := Words(Significant(s));
            IsWord(hi) && IsWord(lo)
            && (Canonical(hi, lo) == s <==> IsCanonicalText(s) && Lower(s) == s)
  {
    WordsFit(Significant(s));
    var (hi, lo) := Words(Significant(s));
    PrintIsCanonical(hi, lo);
    if IsCanonicalText(s) {
      PrintOfParse(s);
    }
  }

  /** Any text with 32 digits or more is read like its first 32 digits alone. */
  lemma {:induction false} OnlyTheFirst32DigitsMatter(s: string, more: string)
    requires |HexDigits(s)| >= 32
    ensures Significant(s + more) == Significant(s)
    ensures Words(Significant(s + more)) == Words(Significant(Significant(s)))
  {
    HexDigitsAppend(s, more);
    var kept := Significant(s);
    HexDigitsOfHex(kept);
    assert HexDigits(s + more)[..32] == HexDigits(s)[..32];
    assert kept[..32] == kept;
  }

  /** The printed form, letter by letter: dashes at 8, 13, 18 and 23, and around them the 16 digits of
      the first word and then those of the second. */
  lemma {:induction false} CanonicalLetters(hi: nat, lo: nat)
    requires IsWord(hi) && IsWord(lo)
    ensures hi < Pow16(16) && lo < Pow16(16)
    ensures var s, high, low := Canonical(hi, lo), HexText(hi, 16), HexText(lo, 16);
            && |s| == 36 && s[8] == s[13] == s[18] == s[23] == '-'
            && s[..8] == high[..8] && s[9..13] == high[8..12] && s[14..18] == high[12..]
            && s[19..23] == low[..4] && s[24..] == low[4..]
  {
    hide HexText, Dashed;
    GroupsOfWords(hi, lo);
    var a, b, c := HexText(hi / TWO_TO_32, 8), HexText(hi / TWO_TO_16 % TWO_TO_16, 4), HexText(hi % TWO_TO_16, 4);
    var d, e := HexText(lo / TWO_TO_48, 4), HexText(lo % TWO_TO_48, 12);
    LettersOfDashed(a, b, c, d, e);
    GroupsOfDigits(a, b, c);
    assert (d + e)[..4] == d && (d + e)[4..] == e;
  }

  lemma {:induction false} LettersOfDashed(a: string, b: string, c: string, d: string, e: string)
    requires |a| == 8 && |b| == |c| == |d| == 4 && |e| == 12
    ensures var s := Dashed(a, b, c, d, e);
            && |s| == 36 && s[8] == s[13] == s[18] == s[23] == '-'
            && s[..8] == a && s[9..13] == b && s[14..18] == c && s[19..23] == d && s[24..] == e
  {
  }

  lemma {:induction false} GroupsOfDigits(a: string, b: string, c: string)
    requires |a| == 8 && |b| == |c| == 4
    ensures (a + b + c)[..8] == a && (a + b + c)[8..12] == b && (a + b + c)[12..] == c
  {
  }
}
