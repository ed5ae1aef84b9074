/** The DateTime64 cell codec: ticks = seconds * 10^precision, read back as seconds and
    microseconds. Arithmetic is C++'s: 64-bit, with division truncating toward zero. */
module DateTime64 {
  import opened Arithmetic
  import opened Numerals

  const INT64_MAX: int := 0x7fff_ffff_ffff_ffff
  const INT64_MIN: int := -0x8000_0000_0000_0000
  const MICRO: nat := 1_000_000

  predicate FitsInt64(n: int) {
    INT64_MIN <= n <= INT64_MAX
  }

  /** Whole ticks in a microsecond count, rounded down. */
  function SubTicks(precision: nat, us: nat): nat {
    FloorDiv(us * Pow10(precision), MICRO)
  }

  /** Ticks of a date-time, sub-second part rounded down to the precision. */
  function Ticks(precision: nat, sec: int, us: nat): int {
    sec * Pow10(precision) + SubTicks(precision, us)
  }

  /** Floored seconds of a tick count. */
  function Seconds(precision: nat, ticks: int): int {
    FloorDiv(ticks, Pow10(precision))
  }

  /** Whole microseconds in a sub-second tick count. */
  function SubMicros(precision: nat, frac: nat): nat {
    FloorDiv(frac * MICRO, Pow10(precision))
  }

  /** Floored microseconds of a tick count. */
  function Micros(precision: nat, ticks: int): nat {
    SubMicros(precision, FloorMod(ticks, Pow10(precision)))
  }

  method Scale(precision: nat) returns (scale: nat)
    ensures scale == Pow10(precision)
  {
    scale := 1;
    var i := 0;
    while i < precision
      invariant i <= precision && scale == Pow10(i)
    {
      scale := scale * 10;
      i := i + 1;
    }
  }

  method Write(precision: nat, sec: int, us: nat) returns (ticks: int)
    ensures ticks == Ticks(precision, sec, us)
  {
    var scale := Scale(precision);
    ticks := sec * scale + TruncDiv(us * scale, MICRO);
  }

  method Read(precision: nat, ticks: int) returns (sec: int, usec: nat)
    ensures sec == Seconds(precision, ticks) && usec == Micros(precision, ticks)
  {
    var scale := Scale(precision);
    sec := TruncDiv(ticks, scale);
    var frac := TruncMod(ticks, scale);
    TruncIsShiftedFloor(ticks, scale);
    if frac < 0 {
      frac := frac + scale;
      sec := sec - 1;
    }
    assert frac == FloorMod(ticks, scale);
    if scale > 1 {
      usec := TruncDiv(frac * MICRO, scale);
    } else {
      usec := 0;
    }
  }

  /** Dropping the microsecond digits below the column's precision. */
  function Truncate(precision: nat, us: nat): nat {
    if precision >= 6 then us
    else FloorDiv(us, Pow10(6 - precision)) * Pow10(6 - precision)
  }

  lemma {:induction false} Pow10Add(a: nat, b: nat)
    ensures Pow10(a + b) == Pow10(a) * Pow10(b)
    decreases b
  {
    if b > 0 {
      Pow10Add(a, b - 1);
      MulMove(10, Pow10(a), Pow10(b - 1));
    }
  }

  lemma {:induction false} Pow10Monotone(a: nat, b: nat)
    requires a <= b
    ensures Pow10(a) <= Pow10(b)
    decreases b
  {
    if a < b {
      Pow10Monotone(a, b - 1);
    }
  }

  lemma {:induction false} MicroIsPow()
    ensures Pow10(6) == MICRO
  {
  }

  /** The sub-second ticks of a microsecond count, in both precision ranges. */
  lemma {:induction false} SubTicksValue(precision: nat, us: nat)
    requires us < MICRO
    ensures SubTicks(precision, us) < Pow10(precision)
    ensures precision <= 6 ==> SubTicks(precision, us) == FloorDiv(us, Pow10(6 - precision))
    ensures precision >= 6 ==> SubTicks(precision, us) == us * Pow10(precision - 6)
  {
    MicroIsPow();
    var a := Pow10(precision);
    if precision <= 6 {
      Pow10Add(precision, 6 - precision);
      FloorCancel(us, a, Pow10(6 - precision));
    }
    if precision >= 6 {
      var c := Pow10(precision - 6);
      Pow10Add(6, precision - 6);
      MulMove(us, MICRO, c);
      MulMove(us, c, MICRO);
      FloorUnique(us * a, MICRO, us * c, 0);
    }
    MulMonotone(us + 1, MICRO, a);
    MulDistributes(us, 1, a);
    FloorBelow(us * a, MICRO, a);
  }

  lemma {:induction false} SubMicrosValue(precision: nat, frac: nat)
    requires frac < Pow10(precision)
    ensures SubMicros(precision, frac) < MICRO
    ensures precision <= 6 ==> SubMicros(precision, frac) == frac * Pow10(6 - precision)
    ensures precision >= 6 ==> SubMicros(precision, frac) == FloorDiv(frac, Pow10(precision - 6))
  {
    MicroIsPow();
    var a := Pow10(precision);
    if precision <= 6 {
      var b := Pow10(6 - precision);
      Pow10Add(precision, 6 - precision);
      MulMove(frac, a, b);
      MulMove(frac, b, a);
      FloorUnique(frac * MICRO, a, frac * b, 0);
    }
    if precision >= 6 {
      Pow10Add(6, precision - 6);
      FloorCancel(frac, MICRO, Pow10(precision - 6));
    }
    FloorBelow(frac * MICRO, a, MICRO);
  }

  /** read(write(sec, us)) keeps the second and truncates the microseconds. */
  lemma {:induction false} ReadOfWrite(precision: nat, sec: int, us: nat)
    requires us < MICRO
    ensures Seconds(precision, Ticks(precision, sec, us)) == sec
    ensures Micros(precision, Ticks(precision, sec, us)) == Truncate(precision, us)
  {
    var a, sub := Pow10(precision), SubTicks(precision, us);
    SubTicksValue(precision, us);
    FloorUnique(sec * a + sub, a, sec, sub);
    SubMicrosValue(precision, sub);
    if precision >= 6 {
      var c := Pow10(precision - 6);
      FloorUnique(us * c, c, us, 0);
    }
  }

  /** write(read(ticks)) is the identity up to precision 6; above it, it drops the ticks
      below a whole microsecond and never a second. */
  lemma {:induction false} WriteOfRead(precision: nat, ticks: int)
    ensures Micros(precision, ticks) < MICRO
    ensures var again := Ticks(precision, Seconds(precision, ticks), Micros(precision, ticks));
            && (precision <= 6 ==> again == ticks)
            && (precision >= 6 ==> again == ticks - FloorMod(ticks, Pow10(precision - 6)))
  {
    var a := Pow10(precision);
    var sec, frac := FloorDiv(ticks, a), FloorMod(ticks, a);
    SubMicrosValue(precision, frac);
    var us := SubMicros(precision, frac);
    SubTicksValue(precision, us);
    if precision <= 6 {
      var b := Pow10(6 - precision);
      FloorUnique(frac * b, b, frac, 0);
    }
    if precision >= 6 {
      DropSubMicros(precision, sec, frac);
    }
  }

  lemma {:induction false} DropSubMicros(precision: nat, sec: int, frac: nat)
    requires precision >= 6
    ensures var c := Pow10(precision - 6);
            FloorMod(sec * Pow10(precision) + frac, c) == FloorMod(frac, c)
  {
    var c := Pow10(precision - 6);
    Pow10Add(6, precision - 6);
    MicroIsPow();
    var q, r := FloorDiv(frac, c), FloorMod(frac, c);
    MulMove(sec, MICRO, c);
    MulDistributes(sec * MICRO, q, c);
    FloorUnique(sec * Pow10(precision) + frac, c, sec * MICRO + q, r);
  }

  /** The read preserves order, before the epoch as after it. */
  lemma {:induction false} ReadIsMonotone(precision: nat, t1: int, t2: int)
    requires t1 <= t2
    ensures Seconds(precision, t1) <= Seconds(precision, t2)
    ensures Seconds(precision, t1) == Seconds(precision, t2) ==> Micros(precision, t1) <= Micros(precision, t2)
  {
    var a := Pow10(precision);
    FloorMonotone(t1, t2, a);
    if Seconds(precision, t1) == Seconds(precision, t2) {
      var r1, r2 := FloorMod(t1, a), FloorMod(t2, a);
      MulMonotone(r1, r2, MICRO);
      FloorMonotone(r1 * MICRO, r2 * MICRO, a);
    }
  }

  /** Every product of the sub-second arithmetic fits 64 bits, whatever the operand. */
  ghost predicate SubSecondProductsFit(precision: nat) {
    && (forall us: nat | us < MICRO :: FitsInt64(us * Pow10(precision)))
    && (forall frac: nat | frac < Pow10(precision) :: FitsInt64(frac * MICRO))
  }

  /** They fit for the precisions 0..9 of the type, with room to spare: the limit is 12. */
  lemma {:induction false} ProductsFitIff(precision: nat)
    ensures SubSecondProductsFit(precision) <==> precision <= 12
  {
    var a := Pow10(precision);
    MicroIsPow();
    if precision <= 12 {
      Pow10Monotone(precision, 12);
      Pow10Add(6, 6);
      forall us: nat | us < MICRO ensures FitsInt64(us * a) {
        MulMonotone(us, 999_999, a);
      }
    } else {
      Pow10Monotone(13, precision);
      Pow10Add(6, 7);
      var worst: nat := 999_999;
      assert !FitsInt64(worst * Pow10(precision));
    }
  }

  /** A second is safe to write at every microsecond iff its first and its last tick fit. */
  lemma {:induction false} SecondFitsIff(precision: nat, sec: int)
    requires precision <= 12
    ensures (forall us: nat | us < MICRO ::
               FitsInt64(sec * Pow10(precision)) && FitsInt64(us * Pow10(precision))
               && FitsInt64(Ticks(precision, sec, us)))
            <==> FitsInt64(sec * Pow10(precision)) && FitsInt64(Ticks(precision, sec, 999_999))
  {
    ProductsFitIff(precision);
    var a := Pow10(precision);
    var first: nat, last: nat := 0, 999_999;
    assert first < MICRO && last < MICRO;
    assert FitsInt64(first * Pow10(precision)) && FitsInt64(last * Pow10(precision));
    if FitsInt64(sec * a) && FitsInt64(Ticks(precision, sec, last)) {
      forall us: nat | us < MICRO ensures FitsInt64(us * a) && FitsInt64(Ticks(precision, sec, us)) {
        MulMonotone(us, last, a);
        FloorMonotone(us * a, last * a, MICRO);
      }
    }
  }
}
