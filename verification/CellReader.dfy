/** Reading a cell back as a PHP value. */
module CellReader {
  import opened ColumnLaws
  import opened Columns
  import opened PhpValues
  import opened ScalarCodec

  /** The array key that a read-back map key becomes. */
  function ReadKey(lib: Lib, v: Value): Key {
    match v
    case Long(n) => IntKey(n)
    case Str(s) => SymtableKey(s)
    case _ => SymtableKey(lib.textOf(v))
  }

  /** The PHP value an item denotes in a type. */
  function Decode(lib: Lib, t: Type, item: Item): Value
    decreases t, 2
  {
    match (t, item)
    case (Sc(s), Leaf(cell)) => DecodeScalar(lib, s, cell)
    case (Nullable(u), Present(x)) => Decode(lib, u, x)
    case (Array(u), List(items)) => ListOf(DecodeAll(lib, u, items))
    case (Tuple(ts), Tup(parts)) =>
      if |parts| == |ts| then
        ListOf(seq(|ts|, i requires 0 <= i < |ts| => Decode(lib, ts[i], parts[i])))
      else Null
    case (Map(_, _), List(items)) =>
      if RaisesBefore(lib, t, items, |items|) then Raised
      else Arr(Build(DecodePairs(lib, t, items)))
    case _ => Null
  }

  function DecodeAll(lib: Lib, u: Type, items: seq<Item>): (vs: seq<Value>)
    ensures |vs| == |items|
    decreases u, 3
  {
    seq(|items|, i requires 0 <= i < |items| => Decode(lib, u, items[i]))
  }

  /** The key is an object, which the engine refuses to turn into text. */
  predicate KeyRaises(lib: Lib, t: Type, item: Item)
    requires t.Map?
    decreases t, 0
  {
    item.Tup? && |item.parts| == 2 && !Convertible(Decode(lib, t.key, item.parts[0]))
  }

  /** One of the first n keys is. */
  predicate RaisesBefore(lib: Lib, t: Type, items: seq<Item>, n: nat)
    requires t.Map? && n <= |items|
    decreases t, 1
  {
    exists i :: 0 <= i < n && KeyRaises(lib, t, items[i])
  }

  lemma {:induction false} RaisesStep(lib: Lib, t: Type, items: seq<Item>, n: nat)
    requires t.Map? && n < |items|
    ensures RaisesBefore(lib, t, items, n + 1) <==> RaisesBefore(lib, t, items, n) || KeyRaises(lib, t, items[n])
  {
    hide KeyRaises;
  }

  predicate Convertible(v: Value) {
    !v.DateTime? && !v.Raised?
  }

  function DecodePair(lib: Lib, t: Type, item: Item): (Key, Value)
    requires t.Map?
    decreases t, 0
  {
    if item.Tup? && |item.parts| == 2 then
      (ReadKey(lib, Decode(lib, t.key, item.parts[0])), Decode(lib, t.val, item.parts[1]))
    else (IntKey(0), Null)
  }

  function DecodePairs(lib: Lib, t: Type, items: seq<Item>): (pairs: Entries)
    requires t.Map?
    ensures |pairs| == |items|
    decreases t, 1
  {
    seq(|items|, i requires 0 <= i < |items| => DecodePair(lib, t, items[i]))
  }

  lemma {:induction false} BuildStep(pairs: Entries, i: nat)
    requires i < |pairs|
    ensures Build(pairs[..i + 1]) == Update(Build(pairs[..i]), pairs[i].0, pairs[i].1)
  {
    assert pairs[..i + 1][..i] == pairs[..i];
  }

  /** The reader: one branch per type, loops over elements, and nothing but what the row means. */
  method ColumnValueToZval(lib: Lib, c: Column, t: Type, row: nat) returns (out: Value)
    requires Typed(c, t) && row < Size(c)
    ensures out == Decode(lib, t, Rows(c)[row])
    decreases t, 1
  {
    match t {
      case Sc(s) =>
        out := DecodeScalar(lib, s, c.cells[row]);
      case Nullable(u) =>
        if c.flags[row] {
          out := Null;
        } else {
          out := ColumnValueToZval(lib, c.nested, u, row);
        }
      case Array(u) =>
        GetAsColumnRows(c, t, row);
        var elements := GetAsColumn(c, row);
        var values := ReadColumn(lib, elements, u);
        out := ListOf(values);
      case Tuple(ts) =>
        var values := [];
        var i := 0;
        while i < |ts|
          invariant i <= |ts| && |values| == i
          invariant forall j :: 0 <= j < i ==> values[j] == Decode(lib, ts[j], Rows(c.columns[j])[row])
        {
          var element := ColumnValueToZval(lib, c.columns[i], ts[i], row);
          values := values + [element];
          i := i + 1;
        }
        out := ListOf(values);
        ghost var parts := Rows(c)[row].parts;
        assert values == seq(|ts|, j requires 0 <= j < |ts| => Decode(lib, ts[j], parts[j]));
      case Map(k, w) =>
        GetAsColumnRows(c.entries, EntriesType(k, w), row);
        var entries := GetAsColumn(c.entries, row);
        out := ReadEntries(lib, entries, t);
    }
  }

  /** All rows of a column as a list of values. */
  method ReadColumn(lib: Lib, c: Column, u: Type) returns (values: seq<Value>)
    requires Typed(c, u)
    ensures values == DecodeAll(lib, u, Rows(c))
    decreases u, 2
  {
    values := [];
    var i := 0;
    while i < Size(c)
      invariant i <= Size(c) && |values| == i
      invariant forall j :: 0 <= j < i ==> values[j] == Decode(lib, u, Rows(c)[j])
    {
      var element := ColumnValueToZval(lib, c, u, i);
      values := values + [element];
      i := i + 1;
    }
  }

  lemma {:induction false} PairAt(lib: Lib, t: Type, entries: Column, i: nat)
    requires t.Map? && entries.TupleCol? && |entries.columns| == 2 && i < Size(entries)
    requires i < Size(entries.columns[0]) && i < Size(entries.columns[1])
    ensures DecodePairs(lib, t, Rows(entries))[i]
            == (ReadKey(lib, Decode(lib, t.key, Rows(entries.columns[0])[i])),
                Decode(lib, t.val, Rows(entries.columns[1])[i]))
    ensures KeyRaises(lib, t, Rows(entries)[i]) <==> !Convertible(Decode(lib, t.key, Rows(entries.columns[0])[i]))
  {
    var item := Rows(entries)[i];
    assert item.Tup? && item.parts == [Rows(entries.columns[0])[i], Rows(entries.columns[1])[i]];
    assert DecodePairs(lib, t, Rows(entries))[i] == DecodePair(lib, t, item);
  }

  lemma {:induction false} BuildNothing(lib: Lib, t: Type, rows: seq<Item>, pairs: Entries)
    requires t.Map?
    ensures Build(pairs[..0]) == [] && !RaisesBefore(lib, t, rows, 0)
  {
  }

  /** The rows of a Tuple(key, value) column as an array, later keys overwriting earlier ones. */
  method ReadEntries(lib: Lib, entries: Column, t: Type) returns (out: Value)
    requires t.Map? && Typed(entries, Tuple([t.key, t.val]))
    ensures out == Decode(lib, t, List(Rows(entries)))
    decreases t, 0
  {
    var keys, values := entries.columns[0], entries.columns[1];
    assert Typed(keys, [t.key, t.val][0]) && Typed(values, [t.key, t.val][1]);
    hide RaisesBefore, KeyRaises, DecodePairs, Rows, Update, ReadKey, Build, Convertible;
    ghost var rows := Rows(entries);
    ghost var pairs := DecodePairs(lib, t, rows);
    BuildNothing(lib, t, rows, pairs);
    var acc: Entries, raised := [], false;
    var i := 0;
    while i < Size(entries)
      invariant i <= Size(entries) && acc == Build(pairs[..i])
      invariant raised <==> RaisesBefore(lib, t, rows, i)
    {
      var key := ColumnValueToZval(lib, keys, t.key, i);
      var value := ColumnValueToZval(lib, values, t.val, i);
      PairAt(lib, t, entries, i);
      BuildStep(pairs, i);
      RaisesStep(lib, t, rows, i);
      raised := raised || !Convertible(key);
      acc := Update(acc, ReadKey(lib, key), value);
      i := i + 1;
    }
    assert pairs[..i] == pairs;
    out := if raised then Raised else Arr(acc);
  }
}
