/** Scalar cells: what the writer stores for a PHP value and what the reader makes of it. */
module ScalarCodec {
  import opened Arithmetic
  import opened Columns
  import opened DateTime64
  import opened DecimalText
  import opened Exceptions
  import opened Numerals
  import opened PhpValues
  import opened UuidText

  /** The engine's conversions and what the library makes of texts, times and labels; the model
      leaves both open. */
  datatype Lib = Lib(
    longOf: Value -> int,
    textOf: Value -> string,
    truthOf: Value -> bool,
    doubleOf: Value -> int,           // the identity of a float
    single: int -> int,               // the float nearest to a float in single precision
    nearest: int -> int,              // the float nearest to an integer
    ticksOf: (nat, int) -> int,       // a float's seconds as rounded ticks of a precision
    parseText: (nat, string) -> Result<string>,
    parseDecimal: (nat, string) -> Result<int>,
    decimalFits: (nat, int) -> bool,  // raw values that a Decimal of the scale can hold
    timeCell: (nat, int) -> int,      // the seconds that are left of seconds in a column
    enumOf: (nat, string) -> Result<int>,
    enumName: (nat, int) -> string)

  /** What is known of the engine's conversions: they do not change a value of the right kind, an
      integer prints as its numeral, and a float beyond the integers does not print as one. */
  ghost predicate EngineOk(lib: Lib) {
    && (forall n :: lib.longOf(Long(n)) == n)
    && (forall n :: lib.textOf(Long(n)) == IntText(n))
    && (forall s :: lib.textOf(Str(s)) == s)
    && (forall b :: lib.textOf(Bool(b)) == if b then "1" else "")
    && (forall b :: lib.truthOf(Bool(b)) == b)
    && (forall f :: lib.doubleOf(Float(f)) == f)
    && (forall n :: n > LONG_MAX ==> !IsIntLike(lib.textOf(Float(lib.nearest(n)))))
  }

  /** What is known of the library: a Decimal reads the text of any raw value it can hold as that
      value, and no text as another; a label's code has that label. */
  ghost predicate LibraryOk(lib: Lib) {
    && (forall scale, raw :: lib.decimalFits(scale, raw) ==> lib.parseDecimal(scale, Render(raw, scale)) == Ok(raw))
    && (forall scale, s :: lib.parseDecimal(scale, s).Ok? ==> lib.decimalFits(scale, lib.parseDecimal(scale, s).value))
    && (forall kind, s :: lib.enumOf(kind, s).Ok? ==> lib.enumName(kind, lib.enumOf(kind, s).value) == s)
  }

  ghost predicate LibOk(lib: Lib) {
    EngineOk(lib) && LibraryOk(lib)
  }

  lemma {:induction false} FloatTextIsNoInteger()
    ensures !IsIntLike("1.0E+19")
  {
    assert "1.0E+19"[1] == '.' && !IsDigit('.');
  }

  function PlainText(v: Value): string {
    match v
    case Long(n) => IntText(n)
    case Str(s) => s
    case Bool(b) => if b then "1" else ""
    case Float(f) => if f > LONG_MAX then "1.0E+19" else IntText(f)
    case _ => ""
  }

  function PlainLong(v: Value): int {
    if v.Long? then v.n else 0
  }

  function PlainDouble(v: Value): int {
    if v.Float? then v.f else 0
  }

  predicate PlainTruth(v: Value) {
    v.Bool? && v.b
  }

  function Unrounded(n: int): int {
    n
  }

  /** Reads a canonical text as its value, and nothing else. */
  function PlainDecimal(scale: nat, text: string): Result<int> {
    var digits := DeletePoint(text);
    if IsSignedNumeral(digits) then Ok(SignedValue(digits)) else Err(ValidationError)
  }

  function PlainLib(): Lib {
    Lib(PlainLong, PlainText, PlainTruth, PlainDouble, Unrounded, Unrounded, (p, f) => f, (k, s) => Ok(s),
        PlainDecimal, (scale, raw) => true, (k, n) => n, (k, s) => Err(ValidationError), (k, n) => "")
  }

  /** Such conversions exist, with the text that the engine gives zero as a float among them. */
  lemma {:induction false} LibOkIsMet()
    ensures exists lib :: LibOk(lib) && lib.textOf(Float(0)) == "0"
  {
    PlainEngineOk();
    PlainLibraryOk();
    assert LibOk(PlainLib());
  }

  lemma {:induction false} PlainEngineOk()
    ensures EngineOk(PlainLib()) && PlainLib().textOf(Float(0)) == "0"
  {
    hide IsIntLike, NatText;
    FloatTextIsNoInteger();
    IntTextOfZero();
  }

  lemma {:induction false} PlainLibraryOk()
    ensures LibraryOk(PlainLib())
  {
    hide Render, DeletePoint, SignedValue, IsSignedNumeral;
    var lib := PlainLib();
    forall scale, raw ensures lib.parseDecimal(scale, Render(raw, scale)) == Ok(raw) {
      RenderIsLossless(raw, scale);
    }
  }

  lemma {:induction false} IntTextOfZero()
    ensures IntText(0) == "0"
  {
  }

  function Pow2(bits: nat): (p: nat)
    ensures p > 0
  {
    if bits == 0 then 1 else 2 * Pow2(bits - 1)
  }

  /** The cast to an integer type of the given width. */
  function Wrap(bits: nat, signed: bool, n: int): int {
    var m := FloorMod(n, Pow2(bits));
    if signed && 2 * m >= Pow2(bits) then m - Pow2(bits) else m
  }

  predicate InRange(bits: nat, signed: bool, n: int) {
    if signed then 0 <= 2 * n + Pow2(bits) && 2 * n < Pow2(bits) else 0 <= n < Pow2(bits)
  }

  function Pad(s: string, width: nat): string
    requires |s| <= width
  {
    s + seq(width - |s|, _ => '\0')
  }

  function EncodeScalar(lib: Lib, s: Scalar, v: Value): Result<Cell> {
    match s
    case IntT(bits, signed) => Ok(IntCell(Wrap(bits, signed, lib.longOf(v))))
    case BoolT => Ok(BoolCell(lib.truthOf(v)))
    case StringT => Ok(TextCell(lib.textOf(v)))
    case FixedStringT(width) =>
      var text := lib.textOf(v);
      if |text| > width then Err(ValidationError) else Ok(TextCell(Pad(text, width)))
    case UuidT =>
      var digits := Significant(lib.textOf(v));
      WordsFit(digits);
      Ok(UuidCell(Words(digits).0, Words(digits).1))
    case DateTime64T(precision) =>
      var ticks :=
        if v.DateTime? then Ticks(precision, v.sec, v.us)
        else if v.Float? then lib.ticksOf(precision, v.f)
        else lib.longOf(v) * Pow10(precision);
      Ok(IntCell(Wrap(64, true, ticks)))
    case TextT(kind) =>
      (match lib.parseText(kind, lib.textOf(v))
       case Ok(text) => Ok(TextCell(text))
       case Err(e) => Err(e))
    case DecimalT(scale) =>
      (match lib.parseDecimal(scale, lib.textOf(v))
       case Ok(raw) => Ok(IntCell(raw))
       case Err(e) => Err(e))
    case TimeT(kind) => Ok(IntCell(lib.timeCell(kind, if v.DateTime? then v.sec else lib.longOf(v))))
    case EnumT(bits, kind) =>
      if !v.Str? then Ok(IntCell(Wrap(bits, true, lib.longOf(v))))
      else (match lib.enumOf(kind, v.s)
            case Ok(code) => Ok(IntCell(code))
            case Err(e) => Err(e))
    case FloatT(single) =>
      var f := lib.doubleOf(v);
      Ok(FloatCell(if single then lib.single(f) else f))
    case WideT => Err(OtherError)
    case LowCardT => Err(OtherError)
    case OtherT(_) => Err(OtherError)
  }

  function DecodeScalar(lib: Lib, s: Scalar, cell: Cell): Value {
    match (s, cell)
    case (IntT(_, _), IntCell(n)) => if n > LONG_MAX then Float(lib.nearest(n)) else Long(n)
    case (BoolT, BoolCell(b)) => Bool(b)
    case (StringT, TextCell(text)) => Str(text)
    case (FixedStringT(_), TextCell(text)) => Str(text)
    case (UuidT, UuidCell(hi, lo)) => Str(Canonical(hi, lo))
    case (DateTime64T(precision), IntCell(ticks)) => DateTime(Seconds(precision, ticks), Micros(precision, ticks))
    case (TextT(_), TextCell(text)) => Str(text)
    case (DecimalT(scale), IntCell(raw)) => Str(Render(raw, scale))
    case (TimeT(_), IntCell(seconds)) => DateTime(seconds, 0)
    case (EnumT(_, kind), IntCell(code)) => Str(lib.enumName(kind, code))
    case (FloatT(_), FloatCell(f)) => Float(f)
    case (WideT, IntCell(n)) => Str(IntText(n))
    case (LowCardT, TextCell(text)) => Str(text)
    case _ => Null
  }

  /** The values a scalar column gives back unchanged. */
  predicate ScalarFits(lib: Lib, s: Scalar, v: Value) {
    match (s, v)
    case (IntT(bits, signed), Long(n)) => InRange(bits, signed, n) && n <= LONG_MAX
    case (IntT(bits, signed), Float(f)) =>
      var stored := Wrap(bits, signed, lib.longOf(v));
      stored > LONG_MAX && lib.nearest(stored) == f
    case (BoolT, Bool(_)) => true
    case (StringT, Str(_)) => true
    case (FixedStringT(width), Str(text)) => |text| == width
    case (UuidT, Str(text)) => IsCanonicalText(text) && Lower(text) == text
    case (DateTime64T(precision), DateTime(sec, us)) =>
      us < MICRO && Truncate(precision, us) == us && FitsInt64(Ticks(precision, sec, us))
    case (TextT(kind), Str(text)) => lib.parseText(kind, text) == Ok(text)
    case (DecimalT(scale), Str(text)) =>
      IsDecimalText(text, scale) && IsSignedNumeral(DeletePoint(text))
      && lib.decimalFits(scale, SignedValue(DeletePoint(text)))
    case (TimeT(kind), DateTime(sec, us)) => us == 0 && lib.timeCell(kind, sec) == sec
    case (EnumT(_, kind), Str(name)) => lib.enumOf(kind, name).Ok?
    case (FloatT(single), Float(f)) => single ==> lib.single(f) == f
    case _ => false
  }

  lemma {:induction false} WrapKeepsIff(bits: nat, signed: bool, n: int)
    requires bits > 0
    ensures Wrap(bits, signed, n) == n <==> InRange(bits, signed, n)
  {
    var p := Pow2(bits);
    assert p == 2 * Pow2(bits - 1);
    if InRange(bits, signed, n) {
      if n < 0 {
        FloorUnique(n, p, -1, n + p);
      } else {
        FloorUnique(n, p, 0, n);
      }
    }
  }

  lemma {:induction false} Int64Range(n: int)
    ensures Pow2(64) == 0x1_0000_0000_0000_0000
    ensures InRange(64, true, n) <==> FitsInt64(n)
  {
    assert Pow2(8) == 256;
    hide Pow2;
    Pow2Add(8, 8);
    Pow2Add(16, 16);
    Pow2Add(32, 32);
  }

  lemma {:induction false} Pow2Add(a: nat, b: nat)
    ensures Pow2(a + b) == Pow2(a) * Pow2(b)
    decreases b
  {
    if b > 0 {
      Pow2Add(a, b - 1);
      MulMove(2, Pow2(a), Pow2(b - 1));
    }
  }

  /** Two tick counts less than 2^64 apart that wrap to the same word are equal. */
  lemma {:induction false} WrapNear(t: int, w: int)
    requires w == Wrap(64, true, t) && 0 <= w - t < Pow2(64)
    ensures w == t
  {
    SameResidueNear(t, w, Pow2(64));
  }

  lemma {:induction false} SameResidueNear(t: int, w: int, p: nat)
    requires p > 0 && (w == FloorMod(t, p) || w == FloorMod(t, p) - p) && 0 <= w - t < p
    ensures w == t
  {
    var q := FloorDiv(t, p);
    if w == FloorMod(t, p) {
      assert (-q) * p == -(q * p);
      NoMultipleBetween(-q, p);
    } else {
      MulDistributes(-q, 1, p);
      assert (-q) * p == -(q * p);
      NoMultipleBetween(-q - 1, p);
    }
  }

  lemma {:induction false} NoMultipleBetween(k: int, p: nat)
    requires 0 <= k * p < p
    ensures k == 0
  {
    if 1 <= k {
      MulMonotone(1, k, p);
    } else if k <= -1 {
      MulMonotone(k, -1, p);
    }
  }

  lemma {:induction false} DateTimeSurvivesIff(precision: nat, sec: int, us: nat)
    requires precision <= 9
    ensures var ticks := Wrap(64, true, Ticks(precision, sec, us));
            (Seconds(precision, ticks) == sec && Micros(precision, ticks) == us)
            <==> us < MICRO && Truncate(precision, us) == us && FitsInt64(Ticks(precision, sec, us))
  {
    var t := Ticks(precision, sec, us);
    var w := Wrap(64, true, t);
    WrapKeepsIff(64, true, t);
    Int64Range(t);
    WriteOfRead(precision, w);
    if Seconds(precision, w) == sec && Micros(precision, w) == us {
      if precision > 6 {
        Pow10Monotone(precision - 6, 6);
        MicroIsPow();
        WrapNear(t, w);
      }
      assert w == t;
      ReadOfWrite(precision, sec, us);
    } else if us < MICRO && FitsInt64(t) {
      ReadOfWrite(precision, sec, us);
    }
  }

  predicate ScalarSupported(s: Scalar) {
    match s
    case IntT(bits, _) => bits > 0
    case DateTime64T(precision) => precision <= 9
    case EnumT(bits, _) => bits > 0
    case _ => true
  }

  predicate Survives(lib: Lib, s: Scalar, stored: Result<Cell>, v: Value) {
    stored.Ok? && DecodeScalar(lib, s, stored.value) == v
  }

  /** A Decimal gives back exactly the canonical texts of the values it can hold. */
  lemma {:induction false} DecimalSurvivesIff(lib: Lib, scale: nat, v: Value)
    requires LibOk(lib)
    ensures Survives(lib, DecimalT(scale), EncodeScalar(lib, DecimalT(scale), v), v)
            <==> ScalarFits(lib, DecimalT(scale), v)
  {
    hide Render, IsDecimalText, DeletePoint, SignedValue, IsSignedNumeral;
    if v.Str? {
      if lib.parseDecimal(scale, v.s).Ok? {
        var raw := lib.parseDecimal(scale, v.s).value;
        RenderIsCanonical(raw, scale);
        RenderIsLossless(raw, scale);
      }
      if IsDecimalText(v.s, scale) {
        RenderOfCanonical(v.s, scale);
      }
    }
  }

  lemma {:induction false} IntSurvivesIff(lib: Lib, bits: nat, signed: bool, v: Value)
    requires LibOk(lib) && bits > 0
    ensures Survives(lib, IntT(bits, signed), EncodeScalar(lib, IntT(bits, signed), v), v)
            <==> ScalarFits(lib, IntT(bits, signed), v)
  {
    hide Wrap, InRange;
    if v.Long? {
      WrapKeepsIff(bits, signed, v.n);
    }
  }

  lemma {:induction false} UuidSurvivesIff(lib: Lib, v: Value)
    requires LibOk(lib)
    ensures Survives(lib, UuidT, EncodeScalar(lib, UuidT, v), v) <==> ScalarFits(lib, UuidT, v)
  {
    hide Canonical, Words, Significant, Lower, IsCanonicalText;
    if v.Str? {
      TextSurvivesIff(v.s);
    }
  }

  lemma {:induction false} TicksSurviveIff(lib: Lib, precision: nat, v: Value)
    requires LibOk(lib) && precision <= 9
    ensures Survives(lib, DateTime64T(precision), EncodeScalar(lib, DateTime64T(precision), v), v)
            <==> ScalarFits(lib, DateTime64T(precision), v)
  {
    hide Wrap, Ticks, Seconds, Micros, Truncate, FitsInt64;
    if v.DateTime? {
      DateTimeSurvivesIff(precision, v.sec, v.us);
    }
  }

  /** The cells that are stored as the engine or the library converted them. */
  lemma {:induction false} ConvertedSurvivesIff(lib: Lib, s: Scalar, v: Value)
    requires LibOk(lib) && !s.IntT? && !s.UuidT? && !s.DateTime64T? && !s.DecimalT?
    ensures Survives(lib, s, EncodeScalar(lib, s, v), v) <==> ScalarFits(lib, s, v)
  {
    hide Wrap;
    if s.FixedStringT? && v.Str? && |v.s| == s.width {
      assert Pad(v.s, s.width) == v.s;
    }
  }

  /** A scalar survives the trip through its column iff it fits. */
  lemma {:induction false} ScalarSurvivesIff(lib: Lib, s: Scalar, v: Value)
    requires LibOk(lib) && ScalarSupported(s)
    ensures Survives(lib, s, EncodeScalar(lib, s, v), v) <==> ScalarFits(lib, s, v)
  {
    hide LibOk, Survives, EncodeScalar, ScalarFits;
    match s
    case IntT(bits, signed) => IntSurvivesIff(lib, bits, signed, v);
    case UuidT => UuidSurvivesIff(lib, v);
    case DateTime64T(precision) => TicksSurviveIff(lib, precision, v);
    case DecimalT(scale) => DecimalSurvivesIff(lib, scale, v);
    case _ => ConvertedSurvivesIff(lib, s, v);
  }
}
