/** What a value becomes after the trip through a column: exactly which values come back
    unchanged, for every nesting of Nullable, Array, Tuple and Map. */
module CellRoundTrip {
  import opened CellReader
  import opened ColumnCodec
  import opened Columns
  import opened Exceptions
  import opened Numerals
  import opened PhpValues
  import opened ScalarCodec

  /** Textual scalars read back as strings. */
  predicate Textual(s: Scalar) {
    s.StringT? || s.FixedStringT? || s.UuidT? || s.TextT? || s.DecimalT?
  }

  /** Precisions and widths are those of the server's types. */
  predicate Supported(t: Type) {
    match t
    case Sc(s) => ScalarSupported(s)
    case Nullable(u) => Supported(u)
    case Array(u) => Supported(u)
    case Tuple(ts) => forall i :: 0 <= i < |ts| ==> Supported(ts[i])
    case Map(k, w) => KeySupported(k) && Supported(w)
  }

  predicate KeySupported(k: Type) {
    match k
    case Sc(s) => ScalarSupported(s)
    case Nullable(u) => KeySupported(u)
    case _ => true
  }

  /** A null needs the nested column to take the integer 0 as its placeholder. */
  predicate TakesPlaceholder(lib: Lib, u: Type) {
    match u
    case Sc(FixedStringT(width)) => width > 0
    case Sc(TextT(kind)) => lib.parseText(kind, "0").Ok?
    case Sc(DecimalT(scale)) => lib.parseDecimal(scale, "0").Ok?
    case Sc(s) => !s.OtherT? && !s.WideT? && !s.LowCardT?
    case Nullable(w) => TakesPlaceholder(lib, w)
    case _ => false
  }

  predicate IsList(es: Entries) {
    forall i :: 0 <= i < |es| ==> es[i].0 == IntKey(i)
  }

  function KeyText(k: Key): string {
    match k
    case IntKey(n) => IntText(n)
    case StrKey(s) => s
  }

  predicate KeyFits(lib: Lib, k: Type, key: Key) {
    match (k, key)
    case (Sc(IntT(bits, signed)), IntKey(n)) => InRange(bits, signed, n) && n <= LONG_MAX
    case (Sc(IntT(bits, signed)), StrKey(s)) =>
      var stored := Wrap(bits, signed, lib.longOf(Str(s)));
      stored > LONG_MAX && lib.textOf(Float(lib.nearest(stored))) == s
    case (Sc(BoolT), _) => key == if lib.truthOf(KeyValue(key)) then IntKey(1) else StrKey("")
    case (Sc(FloatT(single)), _) =>
      var f := lib.doubleOf(KeyValue(key));
      IsArrayKey(key) && lib.textOf(Float(if single then lib.single(f) else f)) == KeyText(key)
    case (Sc(EnumT(_, kind)), StrKey(name)) => IsArrayKey(key) && lib.enumOf(kind, name).Ok?
    case (Sc(EnumT(bits, kind)), IntKey(n)) =>
      IsArrayKey(key) && lib.enumName(kind, Wrap(bits, true, n)) == IntText(n)
    case (Nullable(u), _) => KeyFits(lib, u, key)
    case (Sc(s), _) => Textual(s) && IsArrayKey(key) && ScalarFits(lib, s, Str(KeyText(key)))
    case _ => false
  }

  /** The values a column of type t gives back unchanged. */
  predicate Fits(lib: Lib, t: Type, v: Value)
    decreases t
  {
    match t
    case Sc(s) => ScalarFits(lib, s, v)
    case Nullable(u) => if v.Null? then TakesPlaceholder(lib, u) else Fits(lib, u, v)
    case Array(u) =>
      v.Arr? && IsList(v.entries) && forall i :: 0 <= i < |v.entries| ==> Fits(lib, u, v.entries[i].1)
    case Tuple(ts) =>
      && v.Arr? && IsList(v.entries) && |v.entries| == |ts|
      && forall i :: 0 <= i < |ts| ==> Fits(lib, ts[i], v.entries[i].1)
    case Map(k, w) =>
      && v.Arr? && Creatable(k) && Creatable(w) && DistinctKeys(v.entries)
      && forall i :: 0 <= i < |v.entries| ==> KeyFits(lib, k, v.entries[i].0) && Fits(lib, w, v.entries[i].1)
  }

  predicate Returns(lib: Lib, t: Type, v: Value) {
    Encode(lib, t, v).Ok? && Decode(lib, t, Encode(lib, t, v).value) == v
  }

  lemma {:induction false} PlaceholderIff(lib: Lib, u: Type)
    requires LibOk(lib)
    ensures Encode(lib, u, Long(0)).Ok? <==> TakesPlaceholder(lib, u)
    decreases u
  {
    assert lib.textOf(Long(0)) == IntText(0) == "0";
    match u
    case Nullable(w) => PlaceholderIff(lib, w);
    case _ =>
  }

  /** The failing case: the array column refuses the placeholder, so the nullable one has no null. */
  lemma {:induction false} NullableArrayRefusesNull(lib: Lib)
    ensures Encode(lib, Nullable(Array(Sc(StringT))), Null) == Err(ValidationError)
    ensures !Fits(lib, Nullable(Array(Sc(StringT))), Null)
  {
  }

  /* ---- lists ---- */

  lemma {:induction false} ListOfIff(values: seq<Value>, v: Value)
    ensures ListOf(values) == v <==>
            v.Arr? && IsList(v.entries) && |v.entries| == |values|
            && forall i :: 0 <= i < |values| ==> v.entries[i].1 == values[i]
  {
    if v.Arr? && IsList(v.entries) && |v.entries| == |values|
       && forall i :: 0 <= i < |values| ==> v.entries[i].1 == values[i] {
      assert ListOf(values).entries == v.entries;
    }
  }

  lemma {:induction false} EncodeAllPointwise(lib: Lib, u: Type, vs: seq<Value>)
    ensures EncodeAll(lib, u, vs).Ok? <==> forall i :: 0 <= i < |vs| ==> Encode(lib, u, vs[i]).Ok?
    ensures EncodeAll(lib, u, vs).Ok? ==>
              forall i :: 0 <= i < |vs| ==> EncodeAll(lib, u, vs).value[i] == Encode(lib, u, vs[i]).value
  {
    if vs != [] {
      EncodeAllPointwise(lib, u, vs[1..]);
      assert forall i :: 1 <= i < |vs| ==> vs[i] == vs[1..][i - 1];
    }
  }

  lemma {:induction false} EncodeMembersPointwise(lib: Lib, ts: seq<Type>, vs: seq<Value>)
    ensures EncodeMembers(lib, ts, vs).Ok? <==>
            |ts| == |vs| && forall i :: 0 <= i < |vs| ==> Encode(lib, ts[i], vs[i]).Ok?
    ensures EncodeMembers(lib, ts, vs).Ok? ==>
              forall i :: 0 <= i < |vs| ==> EncodeMembers(lib, ts, vs).value[i] == Encode(lib, ts[i], vs[i]).value
  {
    if vs != [] && ts != [] {
      EncodeMembersPointwise(lib, ts[1..], vs[1..]);
      assert forall i :: 1 <= i < |vs| ==> vs[i] == vs[1..][i - 1];
      assert forall i :: 1 <= i < |ts| ==> ts[i] == ts[1..][i - 1];
    }
  }

  predicate EntryEncodes(lib: Lib, t: Type, e: (Key, Value))
    requires t.Map?
  {
    Encode(lib, t.key, KeyValue(e.0)).Ok? && Encode(lib, t.val, e.1).Ok?
  }

  lemma {:induction false} EncodeEntriesPointwise(lib: Lib, t: Type, es: Entries)
    requires t.Map?
    ensures EncodeEntries(lib, t, es).Ok? <==> forall i :: 0 <= i < |es| ==> EntryEncodes(lib, t, es[i])
    ensures EncodeEntries(lib, t, es).Ok? ==>
              forall i :: 0 <= i < |es| ==>
                EncodeEntries(lib, t, es).value[i]
                == Tup([Encode(lib, t.key, KeyValue(es[i].0)).value, Encode(lib, t.val, es[i].1).value])
  {
    if es != [] {
      EncodeEntriesPointwise(lib, t, es[1..]);
      assert forall i :: 1 <= i < |es| ==> es[i] == es[1..][i - 1];
    }
  }

  /* ---- map keys ---- */

  lemma {:induction false} SymtableIff(s: string, key: Key)
    ensures SymtableKey(s) == key <==> IsArrayKey(key) && s == KeyText(key)
  {
    match key
    case IntKey(n) =>
      IntTextIsCanonical(n);
      if IsCanonicalInt(s) {
        IntTextOfValue(s);
      }
    case StrKey(_) =>
  }

  predicate KeyReturns(lib: Lib, k: Type, key: Key) {
    var stored := Encode(lib, k, KeyValue(key));
    stored.Ok? && Convertible(Decode(lib, k, stored.value)) && ReadKey(lib, Decode(lib, k, stored.value)) == key
  }

  /** A textual column stores what the text of a value says, and reads back a text. */
  lemma {:induction false} TextualSeesText(lib: Lib, s: Scalar, v: Value)
    requires Textual(s) && lib.textOf(Str(lib.textOf(v))) == lib.textOf(v)
    ensures var stored := EncodeScalar(lib, s, v);
            && stored == EncodeScalar(lib, s, Str(lib.textOf(v)))
            && (stored.Ok? ==> DecodeScalar(lib, s, stored.value).Str?)
  {
  }

  lemma {:induction false} TextualKeyIff(lib: Lib, s: Scalar, key: Key)
    requires LibOk(lib) && ScalarSupported(s) && Textual(s)
    ensures KeyReturns(lib, Sc(s), key) <==> KeyFits(lib, Sc(s), key)
  {
    hide EncodeScalar, DecodeScalar, ScalarFits, SymtableKey, IsArrayKey;
    var text := KeyText(key);
    assert lib.textOf(KeyValue(key)) == text == lib.textOf(Str(text));
    TextualSeesText(lib, s, KeyValue(key));
    ScalarSurvivesIff(lib, s, Str(text));
    var stored := EncodeScalar(lib, s, Str(text));
    if stored.Ok? {
      SymtableIff(DecodeScalar(lib, s, stored.value).s, key);
    }
  }

  lemma {:induction false} IntegerKeyIff(lib: Lib, bits: nat, signed: bool, key: Key)
    requires LibOk(lib) && bits > 0
    ensures KeyReturns(lib, Sc(IntT(bits, signed)), key) <==> KeyFits(lib, Sc(IntT(bits, signed)), key)
  {
    var stored := Wrap(bits, signed, lib.longOf(KeyValue(key)));
    assert KeyReturns(lib, Sc(IntT(bits, signed)), key) <==>
           (if stored > LONG_MAX then SymtableKey(lib.textOf(Float(lib.nearest(stored)))) == key
            else IntKey(stored) == key);
    SymtableIff(lib.textOf(Float(lib.nearest(stored))), key);
    match key
    case IntKey(n) =>
      assert lib.longOf(Long(n)) == n;
      IntTextIsCanonical(n);
      WrapKeepsIff(bits, signed, n);
    case StrKey(_) =>
  }

  lemma {:induction false} BoolKeyIff(lib: Lib, key: Key)
    requires LibOk(lib)
    ensures KeyReturns(lib, Sc(BoolT), key) <==> KeyFits(lib, Sc(BoolT), key)
  {
    assert IntText(1) == "1";
    IntKeySurvives(1);
    assert !IsIntLike("");
    assert SymtableKey(lib.textOf(Bool(true))) == IntKey(1) && SymtableKey(lib.textOf(Bool(false))) == StrKey("");
  }

  lemma {:induction false} EnumKeyIff(lib: Lib, bits: nat, kind: nat, key: Key)
    requires LibOk(lib)
    ensures KeyReturns(lib, Sc(EnumT(bits, kind)), key) <==> KeyFits(lib, Sc(EnumT(bits, kind)), key)
  {
    hide IsIntLike, IntText;
    match key
    case IntKey(n) =>
      assert lib.longOf(Long(n)) == n;
      SymtableIff(lib.enumName(kind, Wrap(bits, true, n)), key);
    case StrKey(name) => SymtableIff(name, key);
  }

  lemma {:induction false} FloatKeyIff(lib: Lib, single: bool, key: Key)
    requires LibOk(lib)
    ensures KeyReturns(lib, Sc(FloatT(single)), key) <==> KeyFits(lib, Sc(FloatT(single)), key)
  {
    hide IsIntLike, IntText;
    var f := lib.doubleOf(KeyValue(key));
    SymtableIff(lib.textOf(Float(if single then lib.single(f) else f)), key);
  }

  /** Times come back as objects, which cannot be keys; the others have no writer. */
  lemma {:induction false} NoKeyReturns(lib: Lib, s: Scalar, key: Key)
    requires s.DateTime64T? || s.TimeT? || s.WideT? || s.LowCardT? || s.OtherT?
    ensures !KeyReturns(lib, Sc(s), key) && !KeyFits(lib, Sc(s), key)
  {
  }

  lemma {:induction false} ScalarKeyIff(lib: Lib, s: Scalar, key: Key)
    requires LibOk(lib) && ScalarSupported(s)
    ensures KeyReturns(lib, Sc(s), key) <==> KeyFits(lib, Sc(s), key)
  {
    hide KeyReturns, KeyFits, LibOk;
    match s
    case IntT(bits, signed) => IntegerKeyIff(lib, bits, signed, key);
    case BoolT => BoolKeyIff(lib, key);
    case FloatT(single) => FloatKeyIff(lib, single, key);
    case EnumT(bits, kind) => EnumKeyIff(lib, bits, kind, key);
    case _ =>
      if Textual(s) {
        TextualKeyIff(lib, s, key);
      } else {
        NoKeyReturns(lib, s, key);
      }
  }

  /** An array is no key, so a key type that wants one takes none. */
  lemma {:induction false} CompositeKeyIff(lib: Lib, k: Type, key: Key)
    requires k.Array? || k.Tuple? || k.Map?
    ensures !KeyReturns(lib, k, key) && !KeyFits(lib, k, key)
  {
  }

  lemma {:induction false} NullableKeyIff(lib: Lib, u: Type, key: Key)
    ensures KeyReturns(lib, Nullable(u), key) <==> KeyReturns(lib, u, key)
    ensures KeyFits(lib, Nullable(u), key) <==> KeyFits(lib, u, key)
  {
  }

  lemma {:induction false} KeyReturnsIff(lib: Lib, k: Type, key: Key)
    requires LibOk(lib) && KeySupported(k)
    ensures KeyReturns(lib, k, key) <==> KeyFits(lib, k, key)
    decreases k
  {
    hide KeyReturns, KeyFits, LibOk;
    match k
    case Sc(s) => ScalarKeyIff(lib, s, key);
    case Nullable(u) =>
      KeyReturnsIff(lib, u, key);
      NullableKeyIff(lib, u, key);
    case _ => CompositeKeyIff(lib, k, key);
  }

  /* ---- the round trip ---- */

  /** A value comes back unchanged iff it fits. */
  lemma {:induction false} ReturnsIff(lib: Lib, t: Type, v: Value)
    requires LibOk(lib) && Supported(t)
    ensures Returns(lib, t, v) <==> Fits(lib, t, v)
    decreases t
  {
    hide Returns, KeyReturns, KeyFits, ScalarFits;
    match t
    case Sc(s) => ScalarReturnsIff(lib, s, v);
    case Nullable(u) =>
      ReturnsIff(lib, u, v);
      NullableReturnsIff(lib, u, v);
    case Array(u) =>
      ArrayReturnsIff(lib, u, v);
      if v.Arr? {
        forall i | 0 <= i < |v.entries| ensures Returns(lib, u, v.entries[i].1) <==> Fits(lib, u, v.entries[i].1) {
          ReturnsIff(lib, u, v.entries[i].1);
        }
      }
    case Tuple(ts) =>
      TupleReturnsIff(lib, ts, v);
      if v.Arr? {
        forall i | 0 <= i < |ts| && i < |v.entries|
          ensures Returns(lib, ts[i], v.entries[i].1) <==> Fits(lib, ts[i], v.entries[i].1)
        {
          ReturnsIff(lib, ts[i], v.entries[i].1);
        }
      }
    case Map(k, w) =>
      MapReturnsIff(lib, t, v);
      if v.Arr? {
        forall i | 0 <= i < |v.entries|
          ensures Returns(lib, w, v.entries[i].1) <==> Fits(lib, w, v.entries[i].1)
          ensures KeyReturns(lib, k, v.entries[i].0) <==> KeyFits(lib, k, v.entries[i].0)
        {
          ReturnsIff(lib, w, v.entries[i].1);
          KeyReturnsIff(lib, k, v.entries[i].0);
        }
      }
  }

  lemma {:induction false} ScalarReturnsIff(lib: Lib, s: Scalar, v: Value)
    requires LibOk(lib) && ScalarSupported(s)
    ensures Returns(lib, Sc(s), v) <==> ScalarFits(lib, s, v)
  {
    hide EncodeScalar, DecodeScalar, ScalarFits;
    ScalarSurvivesIff(lib, s, v);
  }

  lemma {:induction false} NullableReturnsIff(lib: Lib, u: Type, v: Value)
    requires LibOk(lib)
    ensures Returns(lib, Nullable(u), v) <==> if v.Null? then TakesPlaceholder(lib, u) else Returns(lib, u, v)
  {
    PlaceholderIff(lib, u);
  }

  lemma {:induction false} ArrayReturnsIff(lib: Lib, u: Type, v: Value)
    ensures Returns(lib, Array(u), v) <==>
            v.Arr? && IsList(v.entries) && forall i :: 0 <= i < |v.entries| ==> Returns(lib, u, v.entries[i].1)
  {
    if v.Arr? {
      var vs := EntryValues(v.entries);
      EncodeAllPointwise(lib, u, vs);
      if EncodeAll(lib, u, vs).Ok? {
        ListOfIff(DecodeAll(lib, u, EncodeAll(lib, u, vs).value), v);
      } else {
        var i :| 0 <= i < |vs| && !Encode(lib, u, vs[i]).Ok?;
        assert !Returns(lib, u, v.entries[i].1);
      }
    }
  }

  lemma {:induction false} TupleReturnsIff(lib: Lib, ts: seq<Type>, v: Value)
    ensures Returns(lib, Tuple(ts), v) <==>
            v.Arr? && IsList(v.entries) && |v.entries| == |ts|
            && forall i :: 0 <= i < |ts| ==> Returns(lib, ts[i], v.entries[i].1)
  {
    if v.Arr? {
      var vs := EntryValues(v.entries);
      EncodeMembersPointwise(lib, ts, vs);
      if EncodeMembers(lib, ts, vs).Ok? {
        var parts := EncodeMembers(lib, ts, vs).value;
        ListOfIff(seq(|ts|, i requires 0 <= i < |ts| => Decode(lib, ts[i], parts[i])), v);
      } else if |ts| == |vs| {
        var i :| 0 <= i < |vs| && !Encode(lib, ts[i], vs[i]).Ok?;
        assert !Returns(lib, ts[i], v.entries[i].1);
      }
    }
  }

  /** The entry an item stands for, when the item encodes an entry. */
  lemma {:induction false} EntryReturnsIff(lib: Lib, t: Type, e: (Key, Value), item: Item)
    requires t.Map? && EntryEncodes(lib, t, e)
    requires item == Tup([Encode(lib, t.key, KeyValue(e.0)).value, Encode(lib, t.val, e.1).value])
    ensures KeyReturns(lib, t.key, e.0) && Returns(lib, t.val, e.1)
            <==> !KeyRaises(lib, t, item) && DecodePair(lib, t, item) == e
  {
  }

  lemma {:induction false} EntriesReturnIff(lib: Lib, t: Type, es: Entries, items: seq<Item>)
    requires t.Map? && |items| == |es|
    requires forall i :: 0 <= i < |es| ==>
               && EntryEncodes(lib, t, es[i])
               && items[i] == Tup([Encode(lib, t.key, KeyValue(es[i].0)).value, Encode(lib, t.val, es[i].1).value])
    ensures Decode(lib, t, List(items)) == Arr(es) <==>
            DistinctKeys(es)
            && forall i :: 0 <= i < |es| ==> KeyReturns(lib, t.key, es[i].0) && Returns(lib, t.val, es[i].1)
  {
    hide KeyReturns, Returns, KeyRaises, DecodePair, EntryEncodes, Build;
    var pairs := DecodePairs(lib, t, items);
    forall i | 0 <= i < |es|
      ensures KeyReturns(lib, t.key, es[i].0) && Returns(lib, t.val, es[i].1)
              <==> !KeyRaises(lib, t, items[i]) && pairs[i] == es[i]
    {
      EntryReturnsIff(lib, t, es[i], items[i]);
      assert pairs[i] == DecodePair(lib, t, items[i]);
    }
    BuildReturnsIff(pairs, es);
  }

  lemma {:induction false} MapReturnsIff(lib: Lib, t: Type, v: Value)
    requires t.Map?
    ensures Returns(lib, t, v) <==>
            v.Arr? && Creatable(t.key) && Creatable(t.val) && DistinctKeys(v.entries)
            && forall i :: 0 <= i < |v.entries| ==>
                 KeyReturns(lib, t.key, v.entries[i].0) && Returns(lib, t.val, v.entries[i].1)
  {
    hide Decode;
    if v.Arr? && Creatable(t.key) && Creatable(t.val) {
      var es := v.entries;
      EncodeEntriesPointwise(lib, t, es);
      if EncodeEntries(lib, t, es).Ok? {
        EntriesReturnIff(lib, t, es, EncodeEntries(lib, t, es).value);
      } else {
        var i :| 0 <= i < |es| && !EntryEncodes(lib, t, es[i]);
        assert !KeyReturns(lib, t.key, es[i].0) || !Returns(lib, t.val, es[i].1);
      }
    }
  }

  lemma {:induction false} BuildReturnsIff(pairs: Entries, es: Entries)
    requires |pairs| == |es|
    ensures Build(pairs) == es <==> DistinctKeys(es) && forall i :: 0 <= i < |es| ==> pairs[i] == es[i]
  {
    BuildKeepsAllIff(pairs);
    if Build(pairs) == es {
      assert pairs == es;
    } else if forall i :: 0 <= i < |es| ==> pairs[i] == es[i] {
      assert pairs == es;
    }
  }

  /** The column round trip. Appending to a well-formed column of any type either refuses the
      value or adds one row; every earlier row reads as before; and the new row reads back as
      the very value that was appended iff that value fits the type. */
  lemma {:induction false} ColumnRoundTrip(lib: Lib, c: Column, t: Type, v: Value)
    requires LibOk(lib) && Supported(t) && Typed(c, t)
    ensures var r := Append(lib, c, t, v);
            && (r.Ok? ==> Typed(r.value, t) && Size(r.value) == Size(c) + 1)
            && (r.Ok? ==> forall i :: 0 <= i < Size(c) ==>
                  Decode(lib, t, Rows(r.value)[i]) == Decode(lib, t, Rows(c)[i]))
            && (r.Ok? && Decode(lib, t, Rows(r.value)[Size(c)]) == v <==> Fits(lib, t, v))
  {
    hide Append, Encode, Decode, Typed, Fits, Rows;
    AppendRefinesEncode(lib, c, t, v);
    ReturnsIff(lib, t, v);
  }
}
