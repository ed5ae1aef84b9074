/** The writer and the reader of cells: two separate recursions over one type grammar. The
    writer appends to columns, the reader takes them apart row by row; both are related to a
    meaning of values that knows nothing of columns. */
module ColumnCodec {
  import opened ColumnLaws
  import opened Columns
  import opened Exceptions
  import opened PhpValues
  import opened ScalarCodec

  /* ---- the writer ---- */

  /** Types the library's column factory can make by name. */
  predicate Creatable(t: Type) {
    match t
    case Sc(s) => !(s.OtherT? && !s.known)
    case Nullable(u) => Creatable(u)
    case Array(u) => Creatable(u)
    case Tuple(ts) => forall i :: 0 <= i < |ts| ==> Creatable(ts[i])
    case Map(k, v) => Creatable(k) && Creatable(v)
  }

  /** Append one value to a column of type t, as the source does: a placeholder under a null
      flag, a temporary column spliced in for Array and Map, member by member for Tuple. */
  function Append(lib: Lib, c: Column, t: Type, v: Value): (r: Result<Column>)
    requires Typed(c, t)
    ensures r.Ok? ==> Typed(r.value, t) && Size(r.value) == Size(c) + 1
    decreases t, 1, 0
  {
    match t
    case Sc(s) =>
      (match EncodeScalar(lib, s, v)
       case Ok(cell) => Ok(Flat(s, c.cells + [cell]))
       case Err(e) => Err(e))
    case Nullable(u) =>
      (match Append(lib, c.nested, u, if v.Null? then Long(0) else v)
       case Ok(n) => Ok(NullableCol(n, c.flags + [v.Null?]))
       case Err(e) => Err(e))
    case Array(u) =>
      if !v.Arr? then Err(ValidationError) else
      CloneIsNew(c.data, u);
      NewTyped(u);
      (match AppendAll(lib, CloneEmpty(c.data), u, EntryValues(v.entries))
       case Ok(elements) => AppendAsColumnRows(c, elements, t); Ok(AppendAsColumn(c, elements))
       case Err(e) => Err(e))
    case Tuple(ts) =>
      if !v.Arr? then Err(ValidationError) else
      (match AppendMembers(lib, c.columns, ts, EntryValues(v.entries))
       case Ok(cs) => Ok(TupleCol(cs))
       case Err(e) => Err(e))
    case Map(k, w) =>
      if !v.Arr? then Err(ValidationError) else
      if !Creatable(k) || !Creatable(w) then Err(ValidationError) else
      CloneIsNew(c, t);
      NewTyped(k);
      NewTyped(w);
      (match AppendEntries(lib, New(k), New(w), t, v.entries)
       case Ok(pair) => MapRowTyped(c, pair.0, pair.1, t); Ok(AppendMapRow(c, pair.0, pair.1))
       case Err(e) => Err(e))
  }

  /** Wrap filled key and value columns in a one-row Array(Tuple) and append it as one row. */
  function AppendMapRow(c: Column, keys: Column, values: Column): Column {
    var entries := TupleCol([keys, values]);
    var wrapped := AppendAsColumn(ArrayCol(CloneEmpty(entries), []), entries);
    AppendColumn(c, MapCol(wrapped))
  }

  function AppendAll(lib: Lib, c: Column, u: Type, vs: seq<Value>): (r: Result<Column>)
    requires Typed(c, u)
    ensures r.Ok? ==> Typed(r.value, u) && Size(r.value) == Size(c) + |vs|
    decreases u, 2, |vs|
  {
    if vs == [] then Ok(c)
    else
      match Append(lib, c, u, vs[0])
      case Ok(c') => AppendAll(lib, c', u, vs[1..])
      case Err(e) => Err(e)
  }

  /** One value per member column, positionally; too many and too few are both refused. */
  function AppendMembers(lib: Lib, cs: seq<Column>, ts: seq<Type>, vs: seq<Value>): (r: Result<seq<Column>>)
    requires |cs| == |ts| && forall i :: 0 <= i < |cs| ==> Typed(cs[i], ts[i])
    ensures r.Ok? ==> |r.value| == |cs|
    ensures r.Ok? ==> forall i :: 0 <= i < |cs| ==> Typed(r.value[i], ts[i]) && Size(r.value[i]) == Size(cs[i]) + 1
    decreases ts, 0, 0
  {
    if vs == [] then
      if ts == [] then Ok([]) else Err(ValidationError)
    else if ts == [] then
      Err(ValidationError)
    else
      match Append(lib, cs[0], ts[0], vs[0])
      case Err(e) => Err(e)
      case Ok(c) =>
        match AppendMembers(lib, cs[1..], ts[1..], vs[1..])
        case Err(e) => Err(e)
        case Ok(rest) => Ok([c] + rest)
  }

  /** Keys and values of the entries in turn, key before value. */
  function AppendEntries(lib: Lib, ks: Column, ws: Column, t: Type, es: Entries): (r: Result<(Column, Column)>)
    requires t.Map? && Typed(ks, t.key) && Typed(ws, t.val) && Size(ks) == Size(ws)
    ensures r.Ok? ==> Typed(r.value.0, t.key) && Typed(r.value.1, t.val)
    ensures r.Ok? ==> Size(r.value.0) == Size(r.value.1) == Size(ks) + |es|
    decreases t, 0, |es|
  {
    if es == [] then Ok((ks, ws))
    else
      match Append(lib, ks, t.key, KeyValue(es[0].0))
      case Err(e) => Err(e)
      case Ok(ks') =>
        match Append(lib, ws, t.val, es[0].1)
        case Err(e) => Err(e)
        case Ok(ws') => AppendEntries(lib, ks', ws', t, es[1..])
  }

  lemma {:induction false} MapRowTyped(c: Column, ks: Column, ws: Column, t: Type)
    requires t.Map? && Typed(c, t) && Typed(ks, t.key) && Typed(ws, t.val) && Size(ks) == Size(ws)
    ensures Typed(AppendMapRow(c, ks, ws), t) && Size(AppendMapRow(c, ks, ws)) == Size(c) + 1
    ensures Rows(AppendMapRow(c, ks, ws)) == Rows(c) + [List(Rows(TupleCol([ks, ws])))]
  {
    var pair := Tuple([t.key, t.val]);
    var entries := TupleCol([ks, ws]);
    assert Typed(entries, pair) by {
      assert pair.members[0] == t.key && pair.members[1] == t.val;
    }
    CloneIsNew(entries, pair);
    NewTyped(pair);
    var empty := ArrayCol(CloneEmpty(entries), []);
    assert Typed(empty, Array(pair));
    AppendAsColumnRows(empty, entries, Array(pair));
    var wrapped := AppendAsColumn(empty, entries);
    assert Rows(wrapped) == [List(Rows(entries))];
    assert Typed(MapCol(wrapped), t);
    AppendTyped(c, MapCol(wrapped), t);
    AppendRows(c, MapCol(wrapped), t);
  }

  /* ---- the meaning of a value, without columns ---- */

  function Encode(lib: Lib, t: Type, v: Value): Result<Item>
    decreases t, 1, 0
  {
    match t
    case Sc(s) =>
      (match EncodeScalar(lib, s, v)
       case Ok(cell) => Ok(Leaf(cell))
       case Err(e) => Err(e))
    case Nullable(u) =>
      (match Encode(lib, u, if v.Null? then Long(0) else v)
       case Ok(item) => Ok(if v.Null? then Absent else Present(item))
       case Err(e) => Err(e))
    case Array(u) =>
      if !v.Arr? then Err(ValidationError) else
      (match EncodeAll(lib, u, EntryValues(v.entries))
       case Ok(items) => Ok(List(items))
       case Err(e) => Err(e))
    case Tuple(ts) =>
      if !v.Arr? then Err(ValidationError) else
      (match EncodeMembers(lib, ts, EntryValues(v.entries))
       case Ok(parts) => Ok(Tup(parts))
       case Err(e) => Err(e))
    case Map(k, w) =>
      if !v.Arr? then Err(ValidationError) else
      if !Creatable(k) || !Creatable(w) then Err(ValidationError) else
      (match EncodeEntries(lib, t, v.entries)
       case Ok(items) => Ok(List(items))
       case Err(e) => Err(e))
  }

  function EncodeAll(lib: Lib, u: Type, vs: seq<Value>): (r: Result<seq<Item>>)
    ensures r.Ok? ==> |r.value| == |vs|
    decreases u, 2, |vs|
  {
    if vs == [] then Ok([])
    else
      match Encode(lib, u, vs[0])
      case Err(e) => Err(e)
      case Ok(item) =>
        match EncodeAll(lib, u, vs[1..])
        case Err(e) => Err(e)
        case Ok(items) => Ok([item] + items)
  }

  function EncodeMembers(lib: Lib, ts: seq<Type>, vs: seq<Value>): (r: Result<seq<Item>>)
    ensures r.Ok? ==> |r.value| == |ts| == |vs|
    decreases ts, 0, 0
  {
    if vs == [] then
      if ts == [] then Ok([]) else Err(ValidationError)
    else if ts == [] then
      Err(ValidationError)
    else
      match Encode(lib, ts[0], vs[0])
      case Err(e) => Err(e)
      case Ok(part) =>
        match EncodeMembers(lib, ts[1..], vs[1..])
        case Err(e) => Err(e)
        case Ok(parts) => Ok([part] + parts)
  }

  function EncodeEntries(lib: Lib, t: Type, es: Entries): (r: Result<seq<Item>>)
    requires t.Map?
    ensures r.Ok? ==> |r.value| == |es|
    decreases t, 0, |es|
  {
    if es == [] then Ok([])
    else
      match Encode(lib, t.key, KeyValue(es[0].0))
      case Err(e) => Err(e)
      case Ok(key) =>
        match Encode(lib, t.val, es[0].1)
        case Err(e) => Err(e)
        case Ok(val) =>
          match EncodeEntries(lib, t, es[1..])
          case Err(e) => Err(e)
          case Ok(items) => Ok([Tup([key, val])] + items)
  }

  /* ---- the writer refines the meaning ---- */

  ghost predicate Appended(r: Result<Column>, c: Column, t: Type, m: Result<Item>) {
    match (r, m)
    case (Ok(c'), Ok(item)) => Typed(c', t) && Rows(c') == Rows(c) + [item]
    case (Err(e), Err(f)) => e == f
    case _ => false
  }

  /** Whatever the value, the writer accepts it exactly when it has a meaning in the type,
      refuses it with the same error, and an accepted value adds one row with that meaning
      behind the untouched earlier rows. */
  lemma {:induction false} AppendRefinesEncode(lib: Lib, c: Column, t: Type, v: Value)
    requires Typed(c, t)
    ensures Appended(Append(lib, c, t, v), c, t, Encode(lib, t, v))
    decreases t, 2, 0
  {
    hide AppendAll, AppendMembers, AppendEntries, EncodeAll, EncodeMembers, EncodeEntries;
    match t
    case Sc(s) =>
    case Nullable(u) => AppendRefinesEncode(lib, c.nested, u, if v.Null? then Long(0) else v);
    case Array(u) =>
      if v.Arr? {
        ArrayRefines(lib, c, t, v);
      }
    case Tuple(ts) =>
      if v.Arr? {
        var vs := EntryValues(v.entries);
        AppendMembersRefines(lib, c.columns, ts, vs);
        var filled := AppendMembers(lib, c.columns, ts, vs);
        if filled.Ok? {
          OneMoreTupleRow(c.columns, filled.value, EncodeMembers(lib, ts, vs).value, Size(c));
        }
      }
    case Map(k, w) =>
      if v.Arr? && Creatable(k) && Creatable(w) {
        MapRefines(lib, c, t, v);
      }
  }

  lemma {:induction false} ArrayRefines(lib: Lib, c: Column, t: Type, v: Value)
    requires Typed(c, t) && t.Array? && v.Arr?
    ensures Appended(Append(lib, c, t, v), c, t, Encode(lib, t, v))
    decreases t, 1, 0
  {
    hide AppendAll, EncodeAll;
    var u, vs := t.item, EntryValues(v.entries);
    CloneIsNew(c.data, u);
    NewTyped(u);
    AppendAllRefines(lib, CloneEmpty(c.data), u, vs);
    var filled := AppendAll(lib, CloneEmpty(c.data), u, vs);
    if filled.Ok? {
      AppendAsColumnRows(c, filled.value, t);
      assert Rows(CloneEmpty(c.data)) == [];
      assert Rows(filled.value) == EncodeAll(lib, u, vs).value;
    }
  }

  lemma {:induction false} MapRefines(lib: Lib, c: Column, t: Type, v: Value)
    requires Typed(c, t) && t.Map? && v.Arr? && Creatable(t.key) && Creatable(t.val)
    ensures Appended(Append(lib, c, t, v), c, t, Encode(lib, t, v))
    decreases t, 1, 0
  {
    hide AppendEntries, EncodeEntries;
    var k, w := t.key, t.val;
    CloneIsNew(c, t);
    NewTyped(k);
    NewTyped(w);
    AppendEntriesRefines(lib, New(k), New(w), t, v.entries);
    var filled := AppendEntries(lib, New(k), New(w), t, v.entries);
    if filled.Ok? {
      MapRowTyped(c, filled.value.0, filled.value.1, t);
      NoRows(New(k), New(w));
      assert Rows(TupleCol([filled.value.0, filled.value.1])) == EncodeEntries(lib, t, v.entries).value;
    }
  }

  lemma {:induction false} NoRows(ks: Column, ws: Column)
    requires Size(ks) == Size(ws) == 0
    ensures Rows(TupleCol([ks, ws])) == []
  {
  }

  lemma {:induction false} AppendAllRefines(lib: Lib, c: Column, u: Type, vs: seq<Value>)
    requires Typed(c, u)
    ensures match (AppendAll(lib, c, u, vs), EncodeAll(lib, u, vs))
            case (Ok(c'), Ok(items)) => Typed(c', u) && Rows(c') == Rows(c) + items
            case (Err(e), Err(f)) => e == f
            case _ => false
    decreases u, 3, |vs|
  {
    if vs == [] {
      assert Rows(c) + [] == Rows(c);
    } else {
      AppendRefinesEncode(lib, c, u, vs[0]);
      var first := Append(lib, c, u, vs[0]);
      if first.Ok? {
        AppendAllRefines(lib, first.value, u, vs[1..]);
        if EncodeAll(lib, u, vs[1..]).Ok? {
          OneThenRest(Rows(c), Encode(lib, u, vs[0]).value, EncodeAll(lib, u, vs[1..]).value);
        }
      }
    }
  }

  lemma {:induction false} OneThenRest(rows: seq<Item>, item: Item, rest: seq<Item>)
    ensures rows + [item] + rest == rows + ([item] + rest)
  {
  }

  lemma {:induction false} AppendMembersRefines(lib: Lib, cs: seq<Column>, ts: seq<Type>, vs: seq<Value>)
    requires |cs| == |ts| && forall i :: 0 <= i < |cs| ==> Typed(cs[i], ts[i])
    ensures match (AppendMembers(lib, cs, ts, vs), EncodeMembers(lib, ts, vs))
            case (Ok(cs'), Ok(parts)) => forall i :: 0 <= i < |cs| ==> Rows(cs'[i]) == Rows(cs[i]) + [parts[i]]
            case (Err(e), Err(f)) => e == f
            case _ => false
    decreases ts, 0, 0
  {
    if vs != [] && ts != [] {
      AppendRefinesEncode(lib, cs[0], ts[0], vs[0]);
      AppendMembersRefines(lib, cs[1..], ts[1..], vs[1..]);
    }
  }

  lemma {:induction false} OneMoreTupleRow(cs: seq<Column>, ds: seq<Column>, parts: seq<Item>, n: nat)
    requires |cs| == |ds| == |parts| > 0
    requires forall i :: 0 <= i < |cs| ==> Size(cs[i]) == n && Rows(ds[i]) == Rows(cs[i]) + [parts[i]]
    ensures Rows(TupleCol(ds)) == Rows(TupleCol(cs)) + [Tup(parts)]
  {
    var singles := seq(|parts|, i requires 0 <= i < |parts| => [parts[i]]);
    TupleRowsAppend(MemberRows(cs), n, singles, 1, MemberRows(ds));
    assert TupleRow(singles, 0).parts == parts;
    assert TupleRows(singles, 1) == [Tup(parts)];
    assert Size(ds[0]) == n + 1;
  }

  lemma {:induction false} AppendEntriesRefines(lib: Lib, ks: Column, ws: Column, t: Type, es: Entries)
    requires t.Map? && Typed(ks, t.key) && Typed(ws, t.val) && Size(ks) == Size(ws)
    ensures match (AppendEntries(lib, ks, ws, t, es), EncodeEntries(lib, t, es))
            case (Ok(pair), Ok(items)) => Rows(TupleCol([pair.0, pair.1])) == Rows(TupleCol([ks, ws])) + items
            case (Err(e), Err(f)) => e == f
            case _ => false
    decreases t, 0, |es|
  {
    if es == [] {
      assert Rows(TupleCol([ks, ws])) + [] == Rows(TupleCol([ks, ws]));
    } else {
      AppendRefinesEncode(lib, ks, t.key, KeyValue(es[0].0));
      var first := Append(lib, ks, t.key, KeyValue(es[0].0));
      if first.Ok? {
        AppendRefinesEncode(lib, ws, t.val, es[0].1);
        var second := Append(lib, ws, t.val, es[0].1);
        if second.Ok? {
          var key, val := Encode(lib, t.key, KeyValue(es[0].0)).value, Encode(lib, t.val, es[0].1).value;
          OneMoreTupleRow([ks, ws], [first.value, second.value], [key, val], Size(ks));
          AppendEntriesRefines(lib, first.value, second.value, t, es[1..]);
          if EncodeEntries(lib, t, es[1..]).Ok? {
            OneThenRest(Rows(TupleCol([ks, ws])), Tup([key, val]), EncodeEntries(lib, t, es[1..]).value);
          }
        }
      }
    }
  }
}
