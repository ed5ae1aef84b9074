/** What every value is stored as and read back as, whether or not it comes back unchanged. Nothing
    here is stated through the writer's or the reader's own case analysis. */
module ReadBack {
  import opened Arithmetic
  import opened CellReader
  import opened CellRoundTrip
  import opened ColumnCodec
  import opened Columns
  import opened DateTime64
  import opened DecimalText
  import opened Exceptions
  import opened Numerals
  import opened PhpValues
  import opened ScalarCodec
  import opened UuidText

  /** What a scalar column gives back for a value, or the exception that the write throws. */
  function Back(lib: Lib, s: Scalar, v: Value): Result<Value> {
    match EncodeScalar(lib, s, v)
    case Err(e) => Err(e)
    case Ok(cell) => Ok(DecodeScalar(lib, s, cell))
  }

  /* ---- writing and reading numbers ---- */

  /** m is the number of the given width that differs from n by a multiple of 2^bits. */
  ghost predicate Congruent(bits: nat, signed: bool, n: int, m: int) {
    && (if signed then 0 <= 2 * m + Pow2(bits) && 2 * m < Pow2(bits) else 0 <= m < Pow2(bits))
    && exists k: int :: n == m + k * Pow2(bits)
  }

  lemma {:induction false} WrapIsCongruent(bits: nat, signed: bool, n: int)
    ensures Congruent(bits, signed, n, Wrap(bits, signed, n))
  {
    var p := Pow2(bits);
    var q, m := FloorDiv(n, p), FloorMod(n, p);
    MulDistributes(q, 1, p);
    assert n == m + q * p && n == m - p + (q + 1) * p;
  }

  /** There is only one. */
  lemma {:induction false} CongruentIsUnique(bits: nat, signed: bool, n: int, a: int, b: int)
    requires Congruent(bits, signed, n, a) && Congruent(bits, signed, n, b)
    ensures a == b
  {
    var p := Pow2(bits);
    var j: int :| n == a + j * p;
    var k: int :| n == b + k * p;
    MulDistributes(j, k, p);
    if a <= b {
      NoMultipleBetween(j - k, p);
    } else {
      assert (k - j) * p == k * p - j * p by { MulDistributes(k, j, p); }
      NoMultipleBetween(k - j, p);
    }
  }

  /** Any value in an integer column: the number of that width congruent to its integer, as an int, or
      as a float beyond the ints. */
  lemma {:induction false} IntReadsBack(lib: Lib, bits: nat, signed: bool, v: Value) returns (m: int)
    ensures Congruent(bits, signed, lib.longOf(v), m)
    ensures EncodeScalar(lib, IntT(bits, signed), v) == Ok(IntCell(m))
    ensures Back(lib, IntT(bits, signed), v) == Ok(if m > LONG_MAX then Float(lib.nearest(m)) else Long(m))
  {
    m := Wrap(bits, signed, lib.longOf(v));
    WrapIsCongruent(bits, signed, lib.longOf(v));
  }

  /** A value that is no string in an enum column: the label of the wrapped code. A string: itself, or
      the library's refusal. */
  lemma {:induction false} EnumReadsBack(lib: Lib, bits: nat, kind: nat, v: Value) returns (code: int)
    requires LibOk(lib)
    ensures !v.Str? ==>
              && Congruent(bits, true, lib.longOf(v), code)
              && EncodeScalar(lib, EnumT(bits, kind), v) == Ok(IntCell(code))
              && Back(lib, EnumT(bits, kind), v) == Ok(Str(lib.enumName(kind, code)))
    ensures v.Str? ==>
              Back(lib, EnumT(bits, kind), v)
              == match lib.enumOf(kind, v.s) case Ok(_) => Ok(v) case Err(e) => Err(e)
  {
    code := Wrap(bits, true, lib.longOf(v));
    WrapIsCongruent(bits, true, lib.longOf(v));
  }

  /* ---- date-times ---- */

  /** The date-time (sec, us) is the last whole microsecond not after `ticks` ticks. */
  predicate IsInstant(precision: nat, ticks: int, sec: int, us: nat) {
    && us < MICRO
    && (sec * MICRO + us) * Pow10(precision) <= ticks * MICRO < (sec * MICRO + us + 1) * Pow10(precision)
  }

  /** Every tick count reads as its instant. */
  lemma {:induction false} TicksReadAsInstant(precision: nat, ticks: int)
    ensures IsInstant(precision, ticks, Seconds(precision, ticks), Micros(precision, ticks))
  {
    var a := Pow10(precision);
    var sec, frac := FloorDiv(ticks, a), FloorMod(ticks, a);
    var us := FloorDiv(frac * MICRO, a);
    SubMicrosValue(precision, frac);
    MulDistributes(sec * a, frac, MICRO);
    MulDistributes(sec * MICRO, us, a);
    MulDistributes(sec * MICRO + us, 1, a);
    MulMove(sec, a, MICRO);
    MulMove(sec, MICRO, a);
  }

  /** The ticks of a value: those of the object, of the rounded float, or whole seconds. */
  lemma {:induction false} DateTime64Stores(lib: Lib, precision: nat, v: Value) returns (w: int)
    ensures EncodeScalar(lib, DateTime64T(precision), v) == Ok(IntCell(w))
    ensures Back(lib, DateTime64T(precision), v)
            == Ok(DateTime(Seconds(precision, w), Micros(precision, w)))
    ensures v.Float? ==> Congruent(64, true, lib.ticksOf(precision, v.f), w)
    ensures v.DateTime? && v.us < MICRO ==>
              exists ticks :: && Congruent(64, true, ticks, w)
                              && ticks * MICRO <= (v.sec * MICRO + v.us) * Pow10(precision) < (ticks + 1) * MICRO
    ensures !v.Float? && !v.DateTime? ==> Congruent(64, true, lib.longOf(v) * Pow10(precision), w)
  {
    var t := if v.DateTime? then Ticks(precision, v.sec, v.us)
             else if v.Float? then lib.ticksOf(precision, v.f)
             else lib.longOf(v) * Pow10(precision);
    w := Wrap(64, true, t);
    WrapIsCongruent(64, true, t);
    if v.DateTime? && v.us < MICRO {
      TicksOfInstant(precision, v.sec, v.us);
    }
  }

  /** A written date-time is the last whole tick not after it. */
  lemma {:induction false} TicksOfInstant(precision: nat, sec: int, us: nat)
    requires us < MICRO
    ensures var ticks := Ticks(precision, sec, us);
            ticks * MICRO <= (sec * MICRO + us) * Pow10(precision) < (ticks + 1) * MICRO
  {
    var a := Pow10(precision);
    var sub := FloorDiv(us * a, MICRO);
    MulDistributes(sec * a, sub, MICRO);
    MulDistributes(sec * a + sub, 1, MICRO);
    MulDistributes(sec * MICRO, us, a);
    MulMove(sec, a, MICRO);
    MulMove(sec, MICRO, a);
  }

  /** A number of seconds in a DateTime64 comes back as that very second iff its ticks fit 64 bits. */
  lemma {:induction false} SecondsReadBackIff(lib: Lib, precision: nat, v: Value)
    requires precision <= 9 && !v.Float? && !v.DateTime?
    ensures var n := lib.longOf(v);
            Back(lib, DateTime64T(precision), v) == Ok(DateTime(n, 0)) <==> FitsInt64(n * Pow10(precision))
  {
    hide Wrap, Seconds, Micros, Truncate, FitsInt64;
    NoSubTicks(precision, lib.longOf(v));
    DateTimeSurvivesIff(precision, lib.longOf(v), 0);
  }

  lemma {:induction false} NoSubTicks(precision: nat, n: int)
    ensures Ticks(precision, n, 0) == n * Pow10(precision) && Truncate(precision, 0) == 0
  {
    FloorUnique(0, MICRO, 0, 0);
    if precision < 6 {
      FloorUnique(0, Pow10(6 - precision), 0, 0);
    }
  }

  /** A date-time object comes back with its microseconds truncated to the precision iff its ticks fit. */
  lemma {:induction false} DateTimeReadsBackIff(lib: Lib, precision: nat, v: Value)
    requires precision <= 9 && v.DateTime? && v.us < MICRO
    ensures Back(lib, DateTime64T(precision), v) == Ok(DateTime(v.sec, Truncate(precision, v.us)))
            <==> FitsInt64(Ticks(precision, v.sec, v.us))
  {
    hide Wrap, Ticks, Seconds, Micros, Truncate, FitsInt64;
    TruncateIsStable(precision, v.sec, v.us);
    DateTimeSurvivesIff(precision, v.sec, Truncate(precision, v.us));
  }

  lemma {:induction false} TruncateIsStable(precision: nat, sec: int, us: nat)
    requires us < MICRO
    ensures var cut := Truncate(precision, us);
            cut <= us && Truncate(precision, cut) == cut && Ticks(precision, sec, cut) == Ticks(precision, sec, us)
  {
    if precision < 6 {
      var b := Pow10(6 - precision);
      var q := FloorDiv(us, b);
      FloorUnique(q * b, b, q, 0);
      SubTicksValue(precision, us);
      SubTicksValue(precision, q * b);
    }
  }

  /** In a Date, Date32 or DateTime column a number reads as the date-time object of that second
      does: what the column keeps of the second, and no microseconds. */
  lemma {:induction false} TimeReadsBack(lib: Lib, kind: nat, v: Value, us: nat)
    requires !v.DateTime?
    ensures var n := lib.longOf(v);
            && Back(lib, TimeT(kind), v) == Back(lib, TimeT(kind), DateTime(n, us))
            && Back(lib, TimeT(kind), v) == Ok(DateTime(lib.timeCell(kind, n), 0))
            && EncodeScalar(lib, TimeT(kind), v) == Ok(IntCell(lib.timeCell(kind, n)))
  {
  }

  /* ---- flags, floats and texts ---- */

  lemma {:induction false} FlagAndFloatReadBack(lib: Lib, v: Value)
    ensures Back(lib, BoolT, v) == Ok(Bool(lib.truthOf(v)))
    ensures EncodeScalar(lib, BoolT, v) == Ok(BoolCell(lib.truthOf(v)))
    ensures Back(lib, FloatT(false), v) == Ok(Float(lib.doubleOf(v)))
    ensures Back(lib, FloatT(true), v) == Ok(Float(lib.single(lib.doubleOf(v))))
    ensures EncodeScalar(lib, FloatT(false), v) == Ok(FloatCell(lib.doubleOf(v)))
  {
  }

  /** Texts: a String keeps all of it, a FixedString fills it up with NUL bytes or refuses it, and the
      library's types keep what the parser makes of it, or refuse it as the parser does. */
  lemma {:induction false} TextReadsBack(lib: Lib, v: Value, width: nat, kind: nat)
    ensures var text := lib.textOf(v);
            && Back(lib, StringT, v) == Ok(Str(text)) && EncodeScalar(lib, StringT, v) == Ok(TextCell(text))
            && Back(lib, TextT(kind), v)
               == (match lib.parseText(kind, text) case Ok(parsed) => Ok(Str(parsed)) case Err(e) => Err(e))
            && (if |text| > width then Back(lib, FixedStringT(width), v) == Err(ValidationError)
                else
                  var r := Back(lib, FixedStringT(width), v);
                  && r.Ok? && r.value.Str? && |r.value.s| == width && text <= r.value.s
                  && forall i :: |text| <= i < width ==> r.value.s[i] as int == 0)
  {
  }

  /** A Decimal gives the canonical text of the number that the library reads. */
  lemma {:induction false} DecimalReadsBack(lib: Lib, scale: nat, v: Value)
    ensures match lib.parseDecimal(scale, lib.textOf(v))
            case Err(e) => Back(lib, DecimalT(scale), v) == Err(e)
            case Ok(raw) =>
              && EncodeScalar(lib, DecimalT(scale), v) == Ok(IntCell(raw))
              && Back(lib, DecimalT(scale), v).Ok? && Back(lib, DecimalT(scale), v).value.Str?
              && var s := Back(lib, DecimalT(scale), v).value.s;
                 IsDecimalText(s, scale) && IsSignedNumeral(DeletePoint(s)) && SignedValue(DeletePoint(s)) == raw
  {
    hide Render, IsDecimalText, DeletePoint, SignedValue, IsSignedNumeral;
    if lib.parseDecimal(scale, lib.textOf(v)).Ok? {
      var raw := lib.parseDecimal(scale, lib.textOf(v)).value;
      RenderIsCanonical(raw, scale);
      RenderIsLossless(raw, scale);
    }
  }

  /** A UUID gives a canonical lower-case text that denotes the two words of the value's text. */
  lemma {:induction false} UuidReadsBack(lib: Lib, v: Value)
    ensures var (hi, lo) := Words(Significant(lib.textOf(v))); var r := Back(lib, UuidT, v);
            && IsWord(hi) && IsWord(lo) && EncodeScalar(lib, UuidT, v) == Ok(UuidCell(hi, lo))
            && r.Ok? && r.value.Str? && IsCanonicalText(r.value.s) && Lower(r.value.s) == r.value.s
            && Words(Significant(r.value.s)) == (hi, lo)
  {
    hide Canonical, Words, Significant, Lower, IsCanonicalText;
    var digits := Significant(lib.textOf(v));
    WordsFit(digits);
    PrintIsCanonical(Words(digits).0, Words(digits).1);
    ParseOfPrint(Words(digits).0, Words(digits).1);
  }

  /** What has no writer refuses every value. */
  lemma {:induction false} NoWriterRefuses(lib: Lib, s: Scalar, v: Value)
    requires s.WideT? || s.LowCardT? || s.OtherT?
    ensures Back(lib, s, v) == Err(OtherError)
  {
  }

  /* ---- reading cells, written or not ---- */

  /** The cells that a column of the library can hold. */
  predicate Holds(s: Scalar, cell: Cell) {
    match s
    case IntT(_, _) => cell.IntCell?
    case BoolT => cell.BoolCell?
    case StringT => cell.TextCell?
    case FixedStringT(_) => cell.TextCell?
    case UuidT => cell.UuidCell?
    case DateTime64T(_) => cell.IntCell?
    case TextT(_) => cell.TextCell?
    case DecimalT(_) => cell.IntCell?
    case TimeT(_) => cell.IntCell?
    case EnumT(_, _) => cell.IntCell?
    case FloatT(_) => cell.FloatCell?
    case WideT => cell.IntCell?
    case LowCardT => cell.TextCell? || cell.NoCell?
    case OtherT(_) => true
  }

  /** The value in row r of a flat column. */
  function ReadFlat(lib: Lib, s: Scalar, cells: seq<Cell>, r: nat): Value
    requires r < |cells|
  {
    Decode(lib, Sc(s), Rows(Flat(s, cells))[r])
  }

  /** A LowCardinality column reads its texts as a String column with the same cells does. */
  lemma {:induction false} LowCardinalityReadsAsString(lib: Lib, cells: seq<Cell>, r: nat)
    requires r < |cells| && cells[r].TextCell?
    ensures ReadFlat(lib, LowCardT, cells, r) == ReadFlat(lib, StringT, cells, r) == Str(cells[r].s)
  {
  }

  /** Null is read only where there is no text, or no reader. */
  lemma {:induction false} NullIsNoCell(lib: Lib, s: Scalar, cells: seq<Cell>, r: nat)
    requires r < |cells| && Holds(s, cells[r])
    ensures ReadFlat(lib, s, cells, r) == Null <==> cells[r].NoCell? || s.OtherT?
  {
  }

  /** A 128-bit integer reads as its canonical numeral. */
  lemma {:induction false} WideReadsAsNumeral(lib: Lib, cells: seq<Cell>, r: nat)
    requires r < |cells| && cells[r].IntCell?
    ensures var v := ReadFlat(lib, WideT, cells, r);
            v.Str? && IsCanonicalInt(v.s) && IntValue(v.s) == cells[r].n
  {
    IntTextIsCanonical(cells[r].n);
  }

  /** Reading loses nothing: two cells of a column that read alike are the same. The exceptions are
      integers beyond the ints, ticks below a microsecond, and labels that codes share. */
  lemma {:induction false} ReaderIsInjective(lib: Lib, s: Scalar, a: Cell, b: Cell)
    requires Holds(s, a) && Holds(s, b) && DecodeScalar(lib, s, a) == DecodeScalar(lib, s, b)
    requires s.IntT? ==> a.n <= LONG_MAX && b.n <= LONG_MAX
    requires s.DateTime64T? ==> s.precision <= 6
    requires !s.EnumT? && !s.OtherT?
    ensures a == b
  {
    hide Canonical, Render, IntText, Seconds, Micros, Words;
    match s
    case UuidT =>
      ParseOfPrint(a.hi, a.lo);
      ParseOfPrint(b.hi, b.lo);
    case DecimalT(scale) => RenderIsInjective(a.n, b.n, scale);
    case DateTime64T(precision) =>
      WriteOfRead(precision, a.n);
      WriteOfRead(precision, b.n);
    case WideT =>
      IntTextIsCanonical(a.n);
      IntTextIsCanonical(b.n);
    case _ =>
  }

  /* ---- any nesting: what is read back, and which fault is reported ---- */

  /** What a column of any type gives back for a value, or the exception that the write throws. */
  function BackOf(lib: Lib, t: Type, v: Value): Result<Value> {
    match Encode(lib, t, v)
    case Err(e) => Err(e)
    case Ok(item) => Ok(Decode(lib, t, item))
  }

  /** r are the values of all results, or the exception of the first that has one. */
  ghost predicate Collects(results: seq<Result<Value>>, r: Result<seq<Value>>) {
    match r
    case Ok(vs) => |vs| == |results| && forall i :: 0 <= i < |vs| ==> results[i] == Ok(vs[i])
    case Err(e) => exists i :: FailsFirst(results, i, e)
  }

  ghost predicate FailsFirst(results: seq<Result<Value>>, i: int, e: Exc) {
    0 <= i < |results| && results[i] == Err(e) && forall j :: 0 <= j < i ==> results[j].Ok?
  }

  lemma {:induction false} FlatReadsBack(lib: Lib, s: Scalar, v: Value)
    ensures BackOf(lib, Sc(s), v) == Back(lib, s, v)
  {
  }

  /** A null is read as null where the nested column takes the placeholder; anything else as there. */
  lemma {:induction false} NullableReadsBack(lib: Lib, u: Type, v: Value)
    ensures BackOf(lib, Nullable(u), v)
            == if !v.Null? then BackOf(lib, u, v)
               else match BackOf(lib, u, Long(0)) case Ok(_) => Ok(Null) case Err(e) => Err(e)
  {
  }

  lemma {:induction false} EncodeAllFault(lib: Lib, u: Type, vs: seq<Value>) returns (i: nat)
    requires EncodeAll(lib, u, vs).Err?
    ensures i < |vs| && Encode(lib, u, vs[i]) == Err(EncodeAll(lib, u, vs).error)
    ensures forall j :: 0 <= j < i ==> Encode(lib, u, vs[j]).Ok?
  {
    if Encode(lib, u, vs[0]).Err? {
      i := 0;
    } else {
      var k := EncodeAllFault(lib, u, vs[1..]);
      i := k + 1;
      assert forall j :: 1 <= j < |vs| ==> vs[j] == vs[1..][j - 1];
    }
  }

  /** The values an array's elements are read back as. */
  function ElementsBack(lib: Lib, u: Type, es: Entries): seq<Result<Value>> {
    seq(|es|, i requires 0 <= i < |es| => BackOf(lib, u, es[i].1))
  }

  /** An array: the list of what its elements read back as, whatever its keys; the first element's
      fault; and no array at all is refused. */
  lemma {:induction false} ArrayReadsBack(lib: Lib, u: Type, v: Value) returns (r: Result<seq<Value>>)
    ensures !v.Arr? ==> BackOf(lib, Array(u), v) == Err(ValidationError)
    ensures v.Arr? ==>
              && Collects(ElementsBack(lib, u, v.entries), r)
              && BackOf(lib, Array(u), v) == match r case Ok(vs) => Ok(ListOf(vs)) case Err(e) => Err(e)
  {
    r := Ok([]);
    if v.Arr? {
      var vs, results := EntryValues(v.entries), ElementsBack(lib, u, v.entries);
      EncodeAllPointwise(lib, u, vs);
      if EncodeAll(lib, u, vs).Ok? {
        r := Ok(DecodeAll(lib, u, EncodeAll(lib, u, vs).value));
      } else {
        var i := EncodeAllFault(lib, u, vs);
        r := Err(EncodeAll(lib, u, vs).error);
        forall j | 0 <= j < i ensures results[j].Ok? {
          assert Encode(lib, u, vs[j]).Ok?;
        }
        assert FailsFirst(results, i, r.error);
      }
    }
  }

  lemma {:induction false} EncodeMembersFault(lib: Lib, ts: seq<Type>, vs: seq<Value>) returns (i: nat)
    requires EncodeMembers(lib, ts, vs).Err?
    ensures i <= |vs| && i <= |ts| && forall j :: 0 <= j < i ==> Encode(lib, ts[j], vs[j]).Ok?
    ensures if i < |vs| && i < |ts| then Encode(lib, ts[i], vs[i]) == Err(EncodeMembers(lib, ts, vs).error)
            else |ts| != |vs| && EncodeMembers(lib, ts, vs).error == ValidationError
  {
    if ts == [] || vs == [] || Encode(lib, ts[0], vs[0]).Err? {
      i := 0;
    } else {
      var k := EncodeMembersFault(lib, ts[1..], vs[1..]);
      i := k + 1;
      assert forall j :: 1 <= j < |vs| ==> vs[j] == vs[1..][j - 1];
      assert forall j :: 1 <= j < |ts| ==> ts[j] == ts[1..][j - 1];
    }
  }

  /** The members that have both a value and a column. */
  function MembersBack(lib: Lib, ts: seq<Type>, es: Entries): seq<Result<Value>> {
    seq(Min(|ts|, |es|), i requires 0 <= i < |ts| && i < |es| => BackOf(lib, ts[i], es[i].1))
  }

  /** A tuple: the list of what its members read back as; the fault of the first that has one, before
      a wrong number of values is noticed; and no array at all is refused. */
  lemma {:induction false} TupleReadsBack(lib: Lib, ts: seq<Type>, v: Value) returns (r: Result<seq<Value>>)
    ensures !v.Arr? ==> BackOf(lib, Tuple(ts), v) == Err(ValidationError)
    ensures v.Arr? ==>
              && Collects(MembersBack(lib, ts, v.entries), r)
              && BackOf(lib, Tuple(ts), v)
                 == match r
                    case Ok(vs) => if |v.entries| == |ts| then Ok(ListOf(vs)) else Err(ValidationError)
                    case Err(e) => Err(e)
  {
    r := Ok([]);
    if v.Arr? {
      var vs, results := EntryValues(v.entries), MembersBack(lib, ts, v.entries);
      EncodeMembersPointwise(lib, ts, vs);
      if EncodeMembers(lib, ts, vs).Ok? {
        var parts := EncodeMembers(lib, ts, vs).value;
        r := Ok(seq(|ts|, i requires 0 <= i < |ts| => Decode(lib, ts[i], parts[i])));
      } else {
        var i := EncodeMembersFault(lib, ts, vs);
        if i < |results| {
          r := Err(EncodeMembers(lib, ts, vs).error);
          assert FailsFirst(results, i, r.error);
        } else {
          r := Ok(seq(|results|, j requires 0 <= j < |results| => results[j].value));
        }
      }
    }
  }

  lemma {:induction false} EncodeEntriesFault(lib: Lib, t: Type, es: Entries) returns (i: nat, e: Exc)
    requires t.Map? && EncodeEntries(lib, t, es).Err?
    ensures e == EncodeEntries(lib, t, es).error
    ensures i < |es| && forall j :: 0 <= j < i ==> EntryEncodes(lib, t, es[j])
    ensures var key := Encode(lib, t.key, KeyValue(es[i].0));
            key == Err(e) || (key.Ok? && Encode(lib, t.val, es[i].1) == Err(e))
  {
    e := EncodeEntries(lib, t, es).error;
    if !EntryEncodes(lib, t, es[0]) {
      i := 0;
    } else {
      var k, f := EncodeEntriesFault(lib, t, es[1..]);
      i := k + 1;
      assert forall j :: 1 <= j < |es| ==> es[j] == es[1..][j - 1];
    }
  }

  /** Keys and values in the order in which they are written: each key before its value. */
  function EntriesBack(lib: Lib, t: Type, es: Entries): (results: seq<Result<Value>>)
    requires t.Map?
    ensures |results| == 2 * |es|
  {
    seq(2 * |es|, i requires 0 <= i < 2 * |es| =>
      if i % 2 == 0 then BackOf(lib, t.key, KeyValue(es[i / 2].0)) else BackOf(lib, t.val, es[i / 2].1))
  }

  /** The pairs that n keys and values make. */
  function Pairs(lib: Lib, vs: seq<Value>, n: nat): (pairs: Entries)
    requires |vs| == 2 * n
    ensures |pairs| == n
  {
    seq(n, i requires 0 <= i < n => (ReadKey(lib, vs[2 * i]), vs[2 * i + 1]))
  }

  /** A map: the array built of what its keys and values read back as; an error of the engine if one
      of the keys is read as an object; the first fault in writing order; and a ValidationError for no
      array, or for types that the library cannot make. */
  lemma {:induction false} MapReadsBack(lib: Lib, t: Type, v: Value) returns (r: Result<seq<Value>>)
    requires t.Map?
    ensures !v.Arr? || !Creatable(t.key) || !Creatable(t.val) ==> BackOf(lib, t, v) == Err(ValidationError)
    ensures v.Arr? && Creatable(t.key) && Creatable(t.val) ==>
              && Collects(EntriesBack(lib, t, v.entries), r)
              && BackOf(lib, t, v)
                 == match r
                    case Err(e) => Err(e)
                    case Ok(vs) =>
                      if exists i :: 0 <= i < |v.entries| && !Convertible(vs[2 * i]) then Ok(Raised)
                      else Ok(Arr(Build(Pairs(lib, vs, |v.entries|))))
  {
    r := Ok([]);
    if v.Arr? && Creatable(t.key) && Creatable(t.val) {
      hide EncodeEntries, EntriesBack, Decode, Convertible, Build, Pairs, Collects;
      if EncodeEntries(lib, t, v.entries).Ok? {
        var vs := WrittenEntries(lib, t, v.entries);
        r := Ok(vs);
      } else {
        var e := RefusedEntries(lib, t, v.entries);
        r := Err(e);
      }
    }
  }

  lemma {:induction false} RefusedEntries(lib: Lib, t: Type, es: Entries) returns (e: Exc)
    requires t.Map? && EncodeEntries(lib, t, es).Err?
    ensures EncodeEntries(lib, t, es) == Err(e) && Collects(EntriesBack(lib, t, es), Err(e))
  {
    hide EncodeEntries, Encode, Decode;
    var i: nat;
    i, e := EncodeEntriesFault(lib, t, es);
    var results := EntriesBack(lib, t, es);
    var first := if Encode(lib, t.key, KeyValue(es[i].0)).Err? then 2 * i else 2 * i + 1;
    forall j | 0 <= j < first ensures results[j].Ok? {
      assert j / 2 < i ==> EntryEncodes(lib, t, es[j / 2]);
    }
    assert FailsFirst(results, first, e);
  }

  lemma {:induction false} WrittenEntries(lib: Lib, t: Type, es: Entries) returns (vs: seq<Value>)
    requires t.Map? && EncodeEntries(lib, t, es).Ok?
    ensures |vs| == 2 * |es| && Collects(EntriesBack(lib, t, es), Ok(vs))
    ensures Decode(lib, t, List(EncodeEntries(lib, t, es).value))
            == if exists i :: 0 <= i < |es| && !Convertible(vs[2 * i]) then Raised
               else Arr(Build(Pairs(lib, vs, |es|)))
  {
    hide EncodeEntries, Encode, Decode;
    var results := EntriesBack(lib, t, es);
    EncodeEntriesPointwise(lib, t, es);
    forall j | 0 <= j < |results| ensures results[j].Ok? {
      assert EntryEncodes(lib, t, es[j / 2]);
    }
    vs := seq(|results|, j requires 0 <= j < |results| => results[j].value);
    WrittenMapReads(lib, t, es, EncodeEntries(lib, t, es).value, vs);
  }

  /** Reading a map, however it was written: an error of the engine iff a key is read as a date-time
      object, or could not be read itself; else the pairs, the last of each key. */
  lemma {:induction false} MapRaisesIff(lib: Lib, t: Type, items: seq<Item>)
    requires t.Map? && forall i :: 0 <= i < |items| ==> items[i].Tup? && |items[i].parts| == 2
    ensures Decode(lib, t, List(items)) == Raised
            <==> exists i :: 0 <= i < |items| &&
                   var key := Decode(lib, t.key, items[i].parts[0]); key.DateTime? || key.Raised?
    ensures Decode(lib, t, List(items)) != Raised ==>
              Decode(lib, t, List(items)) == Arr(Build(seq(|items|, i requires 0 <= i < |items| =>
                (ReadKey(lib, Decode(lib, t.key, items[i].parts[0])), Decode(lib, t.val, items[i].parts[1])))))
  {
    hide Build, ReadKey;
    var pairs := seq(|items|, i requires 0 <= i < |items| =>
      (ReadKey(lib, Decode(lib, t.key, items[i].parts[0])), Decode(lib, t.val, items[i].parts[1])));
    assert DecodePairs(lib, t, items) == pairs;
    if RaisesBefore(lib, t, items, |items|) {
      var i :| 0 <= i < |items| && KeyRaises(lib, t, items[i]);
      assert !Convertible(Decode(lib, t.key, items[i].parts[0]));
    } else {
      forall i | 0 <= i < |items| ensures Convertible(Decode(lib, t.key, items[i].parts[0])) {
        assert !KeyRaises(lib, t, items[i]);
      }
    }
  }

  lemma {:induction false} WrittenMapReads(lib: Lib, t: Type, es: Entries, items: seq<Item>, vs: seq<Value>)
    requires t.Map? && |items| == |es| && |vs| == 2 * |es|
    requires forall i :: 0 <= i < |es| ==>
               && EntryEncodes(lib, t, es[i])
               && items[i] == Tup([Encode(lib, t.key, KeyValue(es[i].0)).value, Encode(lib, t.val, es[i].1).value])
               && BackOf(lib, t.key, KeyValue(es[i].0)) == Ok(vs[2 * i])
               && BackOf(lib, t.val, es[i].1) == Ok(vs[2 * i + 1])
    ensures Decode(lib, t, List(items))
            == if exists i :: 0 <= i < |es| && !Convertible(vs[2 * i]) then Raised
               else Arr(Build(Pairs(lib, vs, |es|)))
  {
    hide EntryEncodes, Encode, Convertible, ReadKey, Build;
    forall i | 0 <= i < |es|
      ensures KeyRaises(lib, t, items[i]) <==> !Convertible(vs[2 * i])
      ensures DecodePair(lib, t, items[i]) == Pairs(lib, vs, |es|)[i]
    {
    }
    assert DecodePairs(lib, t, items) == Pairs(lib, vs, |es|);
  }

  /** A Map whose types mention one that the library does not know, however deep, takes not even the
      empty array; where it knows the type without having a writer for it, it does. */
  lemma {:induction false} UnknownTypeIsRefused(lib: Lib, known: bool)
    ensures var unknown := Array(Nullable(Tuple([Sc(StringT), Sc(OtherT(known))]))); var none := Arr([]);
            && BackOf(lib, Map(Sc(StringT), unknown), none) == (if known then Ok(none) else Err(ValidationError))
            && BackOf(lib, Map(unknown, Sc(StringT)), none) == (if known then Ok(none) else Err(ValidationError))
            && BackOf(lib, Map(Sc(StringT), Map(unknown, unknown)), none)
               == (if known then Ok(none) else Err(ValidationError))
  {
    var members := [Sc(StringT), Sc(OtherT(known))];
    assert members[1] == Sc(OtherT(known));
    assert Creatable(Tuple(members)) <==> known;
    EmptyMapReadsBack(lib, Sc(StringT), Array(Nullable(Tuple(members))));
    EmptyMapReadsBack(lib, Array(Nullable(Tuple(members))), Sc(StringT));
    EmptyMapReadsBack(lib, Sc(StringT), Map(Array(Nullable(Tuple(members))), Array(Nullable(Tuple(members)))));
  }

  lemma {:induction false} EmptyMapReadsBack(lib: Lib, k: Type, w: Type)
    ensures BackOf(lib, Map(k, w), Arr([]))
            == if Creatable(k) && Creatable(w) then Ok(Arr([])) else Err(ValidationError)
  {
    var t := Map(k, w);
    assert EncodeEntries(lib, t, []) == Ok([]);
    assert DecodePairs(lib, t, []) == [] && Build([]) == [] && !RaisesBefore(lib, t, [], 0);
  }
}
