/** What an accepted value adds to the parts of a column that go over the wire: cells, null flags, end
    offsets, members, keys and values. Rows alone do not say which part holds what. */
module WireLayout {
  import opened CellRoundTrip
  import opened ColumnCodec
  import opened ColumnLaws
  import opened Columns
  import opened Exceptions
  import opened PhpValues
  import opened ScalarCodec

  /** r is c with the value v appended, part by part. */
  ghost predicate Laid(lib: Lib, c: Column, t: Type, v: Value, r: Column)
    requires Typed(c, t) && Typed(r, t)
  {
    match t
    case Sc(s) => exists cell :: EncodeScalar(lib, s, v) == Ok(cell) && r.cells == c.cells + [cell]
    case Nullable(u) =>
      && r.flags == c.flags + [v.Null?]
      && Grew(lib, c.nested, u, [if v.Null? then Long(0) else v], r.nested)
    case Array(u) =>
      && v.Arr? && r.offsets == c.offsets + [Size(c.data) + |v.entries|]
      && Grew(lib, c.data, u, EntryValues(v.entries), r.data)
    case Tuple(ts) =>
      && v.Arr? && |v.entries| == |ts| == |r.columns|
      && forall i :: 0 <= i < |ts| ==> Grew(lib, c.columns[i], ts[i], [v.entries[i].1], r.columns[i])
    case Map(k, w) =>
      && v.Arr? && IsMapOfPairs(c) && IsMapOfPairs(r)
      && r.entries.offsets == c.entries.offsets + [Size(c.entries.data) + |v.entries|]
      && Grew(lib, c.entries.data.columns[0], k, KeyValues(v.entries), r.entries.data.columns[0])
      && Grew(lib, c.entries.data.columns[1], w, EntryValues(v.entries), r.entries.data.columns[1])
  }

  predicate IsMapOfPairs(c: Column) {
    c.MapCol? && c.entries.ArrayCol? && c.entries.data.TupleCol? && |c.entries.data.columns| == 2
  }

  function KeyValues(es: Entries): (vs: seq<Value>)
    ensures |vs| == |es|
  {
    seq(|es|, i requires 0 <= i < |es| => KeyValue(es[i].0))
  }

  /** d has the rows of c and behind them the meanings of the values, in order. */
  ghost predicate Grew(lib: Lib, c: Column, u: Type, vs: seq<Value>, d: Column) {
    && |Rows(d)| == |Rows(c)| + |vs| && Rows(d)[..|Rows(c)|] == Rows(c)
    && forall i :: 0 <= i < |vs| ==> Encode(lib, u, vs[i]) == Ok(Rows(d)[|Rows(c)| + i])
  }

  lemma {:induction false} MapParts(c: Column, t: Type)
    requires Typed(c, t) && t.Map?
    ensures IsMapOfPairs(c)
    ensures Typed(c.entries.data.columns[0], t.key) && Typed(c.entries.data.columns[1], t.val)
    ensures Size(c.entries.data.columns[0]) == Size(c.entries.data.columns[1]) == Size(c.entries.data)
    ensures OffsetsOk(c.entries.offsets, Size(c.entries.data))
  {
    var pair := Tuple([t.key, t.val]);
    assert pair.members[0] == t.key && pair.members[1] == t.val;
    assert Typed(c.entries.data, pair);
  }

  lemma {:induction false} RowsGrew(lib: Lib, c: Column, u: Type, vs: seq<Value>, d: Column, items: seq<Item>)
    requires Rows(d) == Rows(c) + items && |items| == |vs|
    requires forall i :: 0 <= i < |vs| ==> Encode(lib, u, vs[i]) == Ok(items[i])
    ensures Grew(lib, c, u, vs, d)
  {
  }

  lemma {:induction false} FlatLaid(lib: Lib, c: Column, s: Scalar, v: Value)
    requires Typed(c, Sc(s)) && Append(lib, c, Sc(s), v).Ok?
    ensures Laid(lib, c, Sc(s), v, Append(lib, c, Sc(s), v).value)
  {
  }

  lemma {:induction false} NullableLaid(lib: Lib, c: Column, t: Type, v: Value)
    requires Typed(c, t) && t.Nullable? && Append(lib, c, t, v).Ok?
    ensures Laid(lib, c, t, v, Append(lib, c, t, v).value)
  {
    var stored := if v.Null? then Long(0) else v;
    AppendRefinesEncode(lib, c.nested, t.inner, stored);
    var nested := Append(lib, c.nested, t.inner, stored).value;
    RowsGrew(lib, c.nested, t.inner, [stored], nested, [Encode(lib, t.inner, stored).value]);
  }

  lemma {:induction false} ArrayLaid(lib: Lib, c: Column, t: Type, v: Value)
    requires Typed(c, t) && t.Array? && Append(lib, c, t, v).Ok?
    ensures Laid(lib, c, t, v, Append(lib, c, t, v).value)
  {
    hide Rows, Encode, EncodeAll, AppendAll;
    var u, vs, empty := t.item, EntryValues(v.entries), CloneEmpty(c.data);
    CloneIsNew(c.data, u);
    NewTyped(u);
    AppendAllRefines(lib, empty, u, vs);
    EncodeAllPointwise(lib, u, vs);
    var filled := AppendAll(lib, empty, u, vs).value;
    AppendRows(c.data, filled, u);
    OffsetsEnd(c.offsets, Size(c.data));
    NewHasNoRows(u);
    assert Rows(filled) == EncodeAll(lib, u, vs).value;
    RowsGrew(lib, c.data, u, vs, AppendColumn(c.data, filled), Rows(filled));
  }

  lemma {:induction false} NewHasNoRows(u: Type)
    requires TypeOk(u)
    ensures Rows(New(u)) == []
  {
    NewTyped(u);
  }

  lemma {:induction false} TupleLaid(lib: Lib, c: Column, t: Type, v: Value)
    requires Typed(c, t) && t.Tuple? && Append(lib, c, t, v).Ok?
    ensures Laid(lib, c, t, v, Append(lib, c, t, v).value)
  {
    hide Rows, Encode, EncodeMembers, AppendMembers;
    var ts, vs := t.members, EntryValues(v.entries);
    AppendMembersRefines(lib, c.columns, ts, vs);
    EncodeMembersPointwise(lib, ts, vs);
    var filled := AppendMembers(lib, c.columns, ts, vs).value;
    var row := EncodeMembers(lib, ts, vs).value;
    forall i | 0 <= i < |ts| ensures Grew(lib, c.columns[i], ts[i], [v.entries[i].1], filled[i]) {
      assert vs[i] == v.entries[i].1;
      RowsGrew(lib, c.columns[i], ts[i], [vs[i]], filled[i], [row[i]]);
    }
  }

  /** The key and value columns of a written Map row, and its end offset. */
  lemma {:induction false} MapRowParts(c: Column, t: Type, ks: Column, ws: Column)
    requires t.Map? && Typed(c, t) && Typed(ks, t.key) && Typed(ws, t.val) && Size(ks) == Size(ws)
    requires IsMapOfPairs(c)
    requires Typed(c.entries.data.columns[0], t.key) && Typed(c.entries.data.columns[1], t.val)
    requires OffsetsOk(c.entries.offsets, Size(c.entries.data))
    ensures var r, old0, old1 := AppendMapRow(c, ks, ws), c.entries.data.columns[0], c.entries.data.columns[1];
            && IsMapOfPairs(r)
            && Rows(r.entries.data.columns[0]) == Rows(old0) + Rows(ks)
            && Rows(r.entries.data.columns[1]) == Rows(old1) + Rows(ws)
            && r.entries.offsets == c.entries.offsets + [Size(c.entries.data) + Size(ks)]
  {
    hide Rows, OffsetsOk, Size, Typed, CloneEmpty, AppendAsColumn, Shift;
    var data, offsets := c.entries.data, c.entries.offsets;
    var old0, old1 := data.columns[0], data.columns[1];
    MemberGrows(old0, t.key, ks);
    MemberGrows(old1, t.val, ws);
    var new0, new1 := AppendColumn(CloneEmpty(ks), ks), AppendColumn(CloneEmpty(ws), ws);
    OneMapRow(ks, ws);
    OffsetsEnd(offsets, Size(data));
    OneOffset(Size(ks), Size(data));
    PairAppends(old0, old1, new0, new1);
    assert data == TupleCol([old0, old1]) && c == MapCol(ArrayCol(data, offsets));
    MapAppends(data, offsets, TupleCol([new0, new1]), [Size(ks)]);
  }

  lemma {:induction false} OneOffset(n: nat, base: nat)
    ensures Shift([n], base) == [base + n]
  {
  }

  lemma {:induction false} OneMapRow(ks: Column, ws: Column)
    ensures var entries := TupleCol([ks, ws]);
            AppendAsColumn(ArrayCol(CloneEmpty(entries), []), entries)
            == ArrayCol(TupleCol([AppendColumn(CloneEmpty(ks), ks), AppendColumn(CloneEmpty(ws), ws)]), [Size(ks)])
  {
    var entries := TupleCol([ks, ws]);
    PairAppends(CloneEmpty(ks), CloneEmpty(ws), ks, ws);
    assert CloneEmpty(entries).columns == [CloneEmpty(ks), CloneEmpty(ws)];
    assert [] + [Size(ks)] == [Size(ks)];
  }

  lemma {:induction false} MapAppends(a: Column, o: seq<nat>, b: Column, p: seq<nat>)
    ensures AppendColumn(MapCol(ArrayCol(a, o)), MapCol(ArrayCol(b, p)))
            == MapCol(ArrayCol(AppendColumn(a, b), o + Shift(p, Start(o, |o|))))
  {
  }

  lemma {:induction false} PairAppends(a: Column, b: Column, x: Column, y: Column)
    ensures AppendColumn(TupleCol([a, b]), TupleCol([x, y])) == TupleCol([AppendColumn(a, x), AppendColumn(b, y)])
  {
    var both := AppendColumn(TupleCol([a, b]), TupleCol([x, y]));
    assert both.columns == [AppendColumn(a, x), AppendColumn(b, y)];
  }

  lemma {:induction false} MemberGrows(c: Column, u: Type, x: Column)
    requires Typed(c, u) && Typed(x, u)
    ensures Rows(AppendColumn(c, AppendColumn(CloneEmpty(x), x))) == Rows(c) + Rows(x)
  {
    hide Rows;
    CloneIsNew(x, u);
    NewTyped(u);
    NewHasNoRows(u);
    AppendTyped(CloneEmpty(x), x, u);
    AppendRows(CloneEmpty(x), x, u);
    AppendRows(c, AppendColumn(CloneEmpty(x), x), u);
    assert [] + Rows(x) == Rows(x);
  }

  lemma {:induction false} EntriesGrow(lib: Lib, ks: Column, ws: Column, t: Type, es: Entries)
    requires t.Map? && Typed(ks, t.key) && Typed(ws, t.val) && Size(ks) == Size(ws)
    requires AppendEntries(lib, ks, ws, t, es).Ok?
    ensures var filled := AppendEntries(lib, ks, ws, t, es).value;
            Grew(lib, ks, t.key, KeyValues(es), filled.0) && Grew(lib, ws, t.val, EntryValues(es), filled.1)
    decreases |es|
  {
    hide Rows, Encode, Append, Grew;
    if es == [] {
      NothingGrew(lib, ks, t.key);
      NothingGrew(lib, ws, t.val);
    } else {
      var key, val := KeyValue(es[0].0), es[0].1;
      AppendRefinesEncode(lib, ks, t.key, key);
      AppendRefinesEncode(lib, ws, t.val, val);
      var ks', ws' := Append(lib, ks, t.key, key).value, Append(lib, ws, t.val, val).value;
      EntriesGrow(lib, ks', ws', t, es[1..]);
      var filled := AppendEntries(lib, ks, ws, t, es).value;
      GrewFrom(lib, ks, t.key, key, ks', KeyValues(es[1..]), filled.0);
      GrewFrom(lib, ws, t.val, val, ws', EntryValues(es[1..]), filled.1);
      assert KeyValues(es) == [key] + KeyValues(es[1..]) && EntryValues(es) == [val] + EntryValues(es[1..]);
    }
  }

  lemma {:induction false} NothingGrew(lib: Lib, c: Column, u: Type)
    ensures Grew(lib, c, u, [], c)
  {
  }

  lemma {:induction false} GrewFrom(lib: Lib, c: Column, u: Type, v: Value, c': Column, vs: seq<Value>, d: Column)
    requires Encode(lib, u, v).Ok? && Rows(c') == Rows(c) + [Encode(lib, u, v).value]
    requires Grew(lib, c', u, vs, d)
    ensures Grew(lib, c, u, [v] + vs, d)
  {
    hide Rows, Encode;
    var n := |Rows(c)|;
    assert Rows(d)[..n] == Rows(d)[..n + 1][..n] && Rows(d)[n] == Rows(d)[..n + 1][n];
    assert forall i :: 1 <= i < |vs| + 1 ==> ([v] + vs)[i] == vs[i - 1];
  }

  lemma {:induction false} MapLaid(lib: Lib, c: Column, t: Type, v: Value)
    requires Typed(c, t) && t.Map? && Append(lib, c, t, v).Ok?
    ensures Laid(lib, c, t, v, Append(lib, c, t, v).value)
  {
    hide Rows, Encode, Grew, AppendEntries, AppendMapRow;
    MapParts(c, t);
    CloneIsNew(c, t);
    NewTyped(t.key);
    NewTyped(t.val);
    NewHasNoRows(t.key);
    NewHasNoRows(t.val);
    EntriesGrow(lib, New(t.key), New(t.val), t, v.entries);
    var filled := AppendEntries(lib, New(t.key), New(t.val), t, v.entries).value;
    MapRowParts(c, t, filled.0, filled.1);
    var r := AppendMapRow(c, filled.0, filled.1);
    var before, after := c.entries.data.columns, r.entries.data.columns;
    GrewOnTop(lib, New(t.key), t.key, KeyValues(v.entries), filled.0, before[0], after[0]);
    GrewOnTop(lib, New(t.val), t.val, EntryValues(v.entries), filled.1, before[1], after[1]);
  }

  lemma {:induction false} GrewOnTop(lib: Lib, empty: Column, u: Type, vs: seq<Value>, x: Column, c: Column, d: Column)
    requires Rows(empty) == [] && Grew(lib, empty, u, vs, x) && Rows(d) == Rows(c) + Rows(x)
    ensures Grew(lib, c, u, vs, d)
  {
    hide Rows, Encode;
  }

  /** The layout of every accepted value: a null is a set flag over a placeholder, an array row is an
      end offset behind its elements, a tuple is one row in each member in order, and a map row is an
      end offset behind its keys in the first column and its values in the second. */
  lemma {:induction false} AppendLaysOut(lib: Lib, c: Column, t: Type, v: Value)
    requires Typed(c, t) && Append(lib, c, t, v).Ok?
    ensures Laid(lib, c, t, v, Append(lib, c, t, v).value)
  {
    hide Laid, Append, Typed;
    match t
    case Sc(s) => FlatLaid(lib, c, s, v);
    case Nullable(_) => NullableLaid(lib, c, t, v);
    case Array(_) => ArrayLaid(lib, c, t, v);
    case Tuple(_) => TupleLaid(lib, c, t, v);
    case Map(_, _) => MapLaid(lib, c, t, v);
  }
}
