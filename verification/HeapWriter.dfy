/** The writer on mutable columns, with the memo table of Map key/value templates that one
    insert shares among all its rows. */
module HeapWriter {
  import opened ColumnCodec
  import opened ColumnLaws
  import opened Columns
  import opened Exceptions
  import opened HeapColumns
  import opened MemoRun
  import opened PhpValues
  import opened ScalarCodec
  import opened TemplateMemo

  /** The Type objects of the column are numbered in order, parts behind their whole. */
  ghost predicate Numbered(c: HColumn)
    requires c.Tree()
    decreases c.typ
  {
    match c.typ
    case Sc(_) => true
    case Nullable(_) => c.kids[0].typeIndex == c.typeIndex + 1 && Numbered(c.kids[0])
    case Array(_) => c.kids[0].typeIndex == c.typeIndex + 1 && Numbered(c.kids[0])
    case Tuple(ts) =>
      forall i :: 0 <= i < |ts| ==>
        c.kids[i].typeIndex == c.typeIndex + 1 + ObjectsTo(ts, i) && Numbered(c.kids[i])
    case Map(_, _) => true
  }

  /** A new column of type t, its first Type object the base-th. */
  ghost predicate Made(c: HColumn, t: Type, base: nat)
    reads c.repr
  {
    c.Tree() && c.typ == t && c.Abs() == New(t) && c.typeIndex == base && Numbered(c)
  }

  lemma {:induction false} MadeTypes(members: seq<HColumn>, ts: seq<Type>, base: nat)
    requires |members| == |ts| && forall i :: 0 <= i < |ts| ==> Made(members[i], ts[i], base + ObjectsTo(ts, i))
    ensures forall i :: 0 <= i < |ts| ==> members[i].Tree() && members[i].typ == ts[i]
  {
  }

  lemma {:induction false} FlatIsMade(c: HColumn)
    requires c.Tree() && c.typ.Sc? && c.cells == []
    ensures Made(c, c.typ, c.typeIndex)
  {
  }

  lemma {:induction false} WrapIsMade(c: HColumn)
    requires c.Tree() && (c.typ.Nullable? || c.typ.Array?) && c.flags == [] && c.offsets == []
    requires Made(c.kids[0], if c.typ.Nullable? then c.typ.inner else c.typ.item, c.typeIndex + 1)
    ensures Made(c, c.typ, c.typeIndex)
  {
  }

  lemma {:induction false} MadeIsTree(c: HColumn, t: Type, base: nat)
    requires Made(c, t, base)
    ensures c.Tree() && c.typ == t
  {
  }

  lemma {:induction false} MapIsMade(c: HColumn, key: HColumn, value: HColumn, i: nat, j: nat)
    requires c.Tree() && c.typ.Map? && Made(key, c.typ.key, i) && Made(value, c.typ.val, j)
    requires c.Abs() == MapCol(ArrayCol(TupleCol([key.Abs(), value.Abs()]), []))
    ensures Made(c, c.typ, c.typeIndex)
  {
  }

  /** A tuple column of new members, numbered one after another, is new. */
  lemma {:induction false} TupleIsMade(c: HColumn, first: nat)
    requires c.Tree() && c.typ.Tuple? && c.typeIndex + 1 == first
    requires var ts := c.typ.members;
             forall i :: 0 <= i < |ts| ==> Made(c.kids[i], ts[i], first + ObjectsTo(ts, i))
    ensures Made(c, c.typ, c.typeIndex)
  {
    hide ObjectsTo;
    var ts := c.typ.members;
    forall i | 0 <= i < |ts| ensures c.Abs().columns[i] == New(ts[i]) {
      assert Made(c.kids[i], ts[i], first + ObjectsTo(ts, i));
    }
    assert c.Abs().columns == New(c.typ).columns;
  }

  /** What one insert shares: the allocator's clock and the template table. `address` is where
      the i-th Type object lies when it denotes type t; freed memory may be used again. `trace`
      are the lookups that the table has served. */
  class SendContext {
    const address: Allocator
    var created: nat
    var templates: map<nat, (HColumn, HColumn)>
    ghost var footprint: set<HColumn>
    ghost var trace: seq<Ask>

    ghost function Now(): Memo
      reads `created, `trace
    {
      Memo(created, trace)
    }

    /** Every cached pair is empty, owned by the table, and of the types that the first lookup at
        its address asked for. */
    ghost predicate Valid()
      reads `templates, `footprint, `trace, footprint
    {
      && (forall a :: a in templates <==> a in TableAfter(trace))
      && forall a :: a in templates ==> Entry(templates[a], TableAfter(trace)[a], footprint)
    }

    /** Empty columns of the given types, made of objects of the footprint. */
    static ghost predicate Entry(pair: (HColumn, HColumn), types: (Type, Type), footprint: set<HColumn>)
      reads footprint
    {
      && pair.0.repr <= footprint && pair.1.repr <= footprint && (pair.0.typ, pair.1.typ) == types
      && IsTemplate(pair.0) && IsTemplate(pair.1)
    }

    static ghost predicate IsTemplate(c: HColumn)
      reads c.repr
    {
      c.Tree() && TypeOk(c.typ) && Creatable(c.typ) && c.Abs() == New(c.typ)
    }

    constructor (address: Allocator)
      ensures Valid() && footprint == {} && this.address == address && Now() == Memo(0, [])
    {
      this.address := address;
      created := 0;
      templates := map[];
      footprint := {};
      trace := [];
    }

    /** CreateColumnByType: a fresh empty column, every part with a Type object of its own. */
    method NewColumn(t: Type) returns (c: HColumn)
      requires TypeOk(t)
      modifies this`created
      ensures fresh(c.repr) && Made(c, t, old(created)) && created == old(created) + Objects(t)
      decreases t
    {
      hide Made, New, HColumn.Tree, HColumn.Abs, Numbered;
      var index := created;
      created := created + 1;
      match t {
        case Sc(_) =>
          c := new HColumn(t, index, []);
          FlatIsMade(c);
        case Nullable(u) =>
          var nested := NewColumn(u);
          MadeIsTree(nested, u, index + 1);
          c := new HColumn(t, index, [nested]);
          WrapIsMade(c);
        case Array(u) =>
          var data := NewColumn(u);
          MadeIsTree(data, u, index + 1);
          c := new HColumn(t, index, [data]);
          WrapIsMade(c);
        case Tuple(ts) =>
          c := NewTuple(index, ts);
        case Map(k, v) =>
          var key := NewColumn(k);
          ghost var second := created;
          var value := NewColumn(v);
          MadeIsTree(key, k, index + 1);
          MadeIsTree(value, v, second);
          c := WrapPair(index, key, value);
          MapIsMade(c, key, value, index + 1, second);
      }
    }

    method NewTuple(index: nat, ts: seq<Type>) returns (c: HColumn)
      requires (forall i :: 0 <= i < |ts| ==> TypeOk(ts[i])) && created == index + 1
      modifies this`created
      ensures fresh(c.repr) && Made(c, Tuple(ts), index) && created == old(created) + ObjectsTo(ts, |ts|)
      decreases ts, 1
    {
      hide Made, New, Numbered, ObjectsTo, HColumn.Tree, HColumn.Abs;
      ghost var first := created;
      var members := NewMembers(ts);
      MadeTypes(members, ts, first);
      c := new HColumn(Tuple(ts), index, members);
      forall i | 0 <= i < |ts| ensures Made(c.kids[i], ts[i], first + ObjectsTo(ts, i)) {
        assert Made(members[i], ts[i], first + ObjectsTo(ts, i));
      }
      TupleIsMade(c, first);
    }

    /** An empty Map column around an empty key and an empty value column. */
    method WrapPair(index: nat, key: HColumn, value: HColumn) returns (c: HColumn)
      requires key.Tree() && value.Tree() && key.repr !! value.repr
      ensures c.Tree() && c.typ == Map(key.typ, value.typ) && fresh(c.repr - key.repr - value.repr)
      ensures c.typeIndex == index
      ensures c.Abs() == MapCol(ArrayCol(TupleCol([key.Abs(), value.Abs()]), []))
    {
      var types, parts := [key.typ, value.typ], [key, value];
      var pair := new HColumn(Tuple(types), index, parts);
      assert pair.Abs().columns == [key.Abs(), value.Abs()];
      c := WrapEntries(index, pair, key.typ, value.typ);
    }

    /** An empty Map column around an empty column of pairs. */
    method WrapEntries(index: nat, pair: HColumn, k: Type, v: Type) returns (c: HColumn)
      requires pair.Tree() && pair.typ == Tuple([k, v])
      ensures c.Tree() && c.typ == Map(k, v) && fresh(c.repr - pair.repr) && c.typeIndex == index
      ensures c.Abs() == MapCol(ArrayCol(pair.Abs(), []))
    {
      var entries := new HColumn(EntriesType(k, v), index, [pair]);
      c := new HColumn(Map(k, v), index, [entries]);
    }

    method NewMembers(ts: seq<Type>) returns (members: seq<HColumn>)
      requires forall i :: 0 <= i < |ts| ==> TypeOk(ts[i])
      modifies this`created
      ensures |members| == |ts| && created == old(created) + ObjectsTo(ts, |ts|)
      ensures forall i :: 0 <= i < |ts| ==>
                fresh(members[i].repr) && Made(members[i], ts[i], old(created) + ObjectsTo(ts, i))
      ensures forall i, j :: 0 <= i < j < |ts| ==> members[i].repr !! members[j].repr
      decreases ts, 0
    {
      hide Made, ObjectsTo, Objects;
      NoObjects(ts);
      members := [];
      var i := 0;
      while i < |ts|
        invariant i <= |ts| && |members| == i && created == old(created) + ObjectsTo(ts, i)
        invariant forall j :: 0 <= j < i ==>
                    fresh(members[j].repr) && Made(members[j], ts[j], old(created) + ObjectsTo(ts, j))
        invariant forall j, k :: 0 <= j < k < i ==> members[j].repr !! members[k].repr
      {
        ObjectsStep(ts, i);
        var member := NewColumn(ts[i]);
        members := members + [member];
        i := i + 1;
      }
    }

    /** Column::CloneEmpty. */
    method CloneEmpty(c: HColumn) returns (d: HColumn)
      requires c.Tree() && TypeOk(c.typ)
      modifies this`created
      ensures fresh(d.repr) && Made(d, c.typ, old(created)) && created == old(created) + Objects(c.typ)
    {
      d := NewColumn(c.typ);
    }

    /** Enter a new pair of templates for the Map type t, and note the lookup. */
    method AddTemplates(a: nat, t: Type)
      requires Valid() && t.Map? && TypeOk(t) && Creatable(t.key) && Creatable(t.val) && a !in templates
      modifies this
      ensures Valid() && footprint >= old(footprint) && fresh(footprint - old(footprint))
      ensures Now() == LookUp(old(Now()), Ask(a, t.key, t.val))
    {
      hide Made, Entry, TableAfter, Objects;
      ghost var first := created;
      var k := NewColumn(t.key);
      ghost var second := created;
      var v := NewColumn(t.val);
      MadePairIsEntry(k, v, first, second, t);
      EnterPair(a, k, v);
    }

    static lemma {:induction false} MadePairIsEntry(k: HColumn, v: HColumn, i: nat, j: nat, t: Type)
      requires t.Map? && TypeOk(t) && Creatable(t.key) && Creatable(t.val)
      requires Made(k, t.key, i) && Made(v, t.val, j)
      ensures (k.typ, v.typ) == (t.key, t.val) && Entry((k, v), (k.typ, v.typ), k.repr + v.repr)
    {
    }

    method EnterPair(a: nat, k: HColumn, v: HColumn)
      requires Valid() && a !in templates && Entry((k, v), (k.typ, v.typ), k.repr + v.repr)
      modifies `templates, `footprint, `trace
      ensures Valid() && footprint == old(footprint) + k.repr + v.repr
      ensures trace == old(trace) + [Ask(a, k.typ, v.typ)]
    {
      hide TableAfter, Entry;
      ghost var known, table, less := templates, TableAfter(trace), footprint;
      TableGrows(trace, Ask(a, k.typ, v.typ));
      templates := templates[a := (k, v)];
      footprint := footprint + k.repr + v.repr;
      trace := trace + [Ask(a, k.typ, v.typ)];
      EntriesOfMore(known, table, less, footprint);
      EntriesOfMore(map[a := (k, v)], map[a := (k.typ, v.typ)], k.repr + v.repr, footprint);
      assert a in map[a := (k, v)];
    }

    /** Entries made of some objects are made of more. */
    static lemma {:induction false} EntriesOfMore(pairs: map<nat, (HColumn, HColumn)>, table: Table,
                                                  less: set<HColumn>, more: set<HColumn>)
      requires less <= more && pairs.Keys <= table.Keys
      requires forall a :: a in pairs ==> Entry(pairs[a], table[a], less)
      ensures forall a :: a in pairs ==> Entry(pairs[a], table[a], more)
    {
    }

    /** The memo: make the templates of a Map column's type unless the table has some at its
        address. It fails only where there are none and they cannot be made. */
    method EnsureTemplates(a: nat, t: Type) returns (ok: bool)
      requires Valid() && t.Map? && TypeOk(t)
      modifies this
      ensures Valid() && footprint >= old(footprint) && fresh(footprint - old(footprint))
      ensures ok <==> Servable(old(Now()), Ask(a, t.key, t.val))
      ensures Now() == if ok then LookUp(old(Now()), Ask(a, t.key, t.val)) else old(Now())
    {
      ok := true;
      if a !in templates {
        ok := Creatable(t.key) && Creatable(t.val);
        if ok {
          AddTemplates(a, t);
        }
      } else {
        Find(Ask(a, t.key, t.val));
      }
    }

    /** Note a lookup that the table serves. */
    ghost method Find(ask: Ask)
      requires Valid() && ask.address in templates
      modifies `trace
      ensures Valid() && Now() == LookUp(old(Now()), ask)
    {
      hide TableAfter, Entry;
      TableGrows(trace, ask);
      trace := trace + [ask];
    }

    /** Empty key and value columns for one cell: clones of the shared templates. */
    method ClonePair(a: nat) returns (keys: HColumn, values: HColumn)
      requires Valid() && a in templates
      modifies `created
      ensures a in TableAfter(trace) && (keys.typ, values.typ) == TableAfter(trace)[a]
      ensures fresh(keys.repr) && Made(keys, keys.typ, old(created))
      ensures fresh(values.repr) && Made(values, values.typ, old(created) + Objects(keys.typ))
      ensures keys.repr !! values.repr && TypeOk(keys.typ) && TypeOk(values.typ)
      ensures created == old(created) + Objects(keys.typ) + Objects(values.typ)
      ensures Creatable(keys.typ) && Creatable(values.typ)
    {
      hide Made, TableAfter, HColumn.Tree, HColumn.Abs;
      ghost var types, first := TableAfter(trace)[a], created;
      keys := CloneEmpty(templates[a].0);
      ghost var second := created;
      values := CloneEmpty(templates[a].1);
      MadeIsTree(keys, types.0, first);
      MadeIsTree(values, types.1, second);
    }
  }

  /** The column may be written to: well formed, its Type objects in order, and not one of the
      shared templates. */
  ghost predicate Ready(ctx: SendContext, c: HColumn)
    reads ctx, ctx.footprint, c.repr
  {
    && ctx.Valid() && c.Tree() && Numbered(c)
    && Typed(c.Abs(), c.typ) && c.repr !! ctx.footprint
  }

  /** As Ready, for columns of any number that are filled side by side, member by member; their Type
      objects are numbered from base on. */
  ghost predicate MembersReady(ctx: SendContext, c: HColumn, base: nat)
    reads ctx, ctx.footprint, c.repr
  {
    && ctx.Valid() && c.Tree() && c.typ.Tuple? && c.repr !! ctx.footprint
    && forall i :: 0 <= i < |c.kids| ==>
         && Typed(c.Abs().columns[i], c.typ.members[i])
         && c.kids[i].typeIndex == base + ObjectsTo(c.typ.members, i) && Numbered(c.kids[i])
  }

  /** Append one PHP value to a column in place, with the memo table that the whole insert shares.
      What happens to the allocator and the table, and whether it throws what, is the run `Try`; a
      column that accepts the value becomes what fresh templates for every cell would make it. */
  method AppendValue(lib: Lib, ctx: SendContext, c: HColumn, v: Value) returns (thrown: Option<Exc>)
    requires Ready(ctx, c)
    modifies ctx, c.repr
    ensures ctx.Valid() && ctx.footprint >= old(ctx.footprint) && fresh(ctx.footprint - old(ctx.footprint))
    ensures Tried(ctx.Now(), thrown) == Try(lib, ctx.address, old(ctx.Now()), c.typ, c.typeIndex, v)
    ensures thrown.None? ==> Append(lib, old(c.Abs()), c.typ, v) == Ok(c.Abs())
    decreases Rank(v), 2, c.typ
  {
    hide TableAfter, AppendAll, AppendMembers, AppendEntries, OffsetsOk;
    match c.typ {
      case Sc(s) =>
        var cell := EncodeScalar(lib, s, v);
        if cell.Err? {
          return Some(cell.error);
        }
        c.cells := c.cells + [cell.value];
        thrown := None;
      case Nullable(_) =>
        thrown := AppendValue(lib, ctx, c.kids[0], if v.Null? then Long(0) else v);
        if thrown.None? {
          c.flags := c.flags + [v.Null?];
        }
      case Array(_) =>
        if !v.Arr? {
          return Some(ValidationError);
        }
        thrown := AppendArrayValue(lib, ctx, c, v);
      case Tuple(_) =>
        if !v.Arr? {
          return Some(ValidationError);
        }
        thrown := AppendTupleValue(lib, ctx, c, v);
      case Map(_, _) =>
        if !v.Arr? {
          return Some(ValidationError);
        }
        thrown := AppendMapValue(lib, ctx, c, v);
    }
  }

  method AppendArrayValue(lib: Lib, ctx: SendContext, c: HColumn, v: Value) returns (thrown: Option<Exc>)
    requires Ready(ctx, c) && c.typ.Array? && v.Arr?
    modifies ctx, c.repr
    ensures ctx.Valid() && ctx.footprint >= old(ctx.footprint) && fresh(ctx.footprint - old(ctx.footprint))
    ensures Tried(ctx.Now(), thrown) == Try(lib, ctx.address, old(ctx.Now()), c.typ, c.typeIndex, v)
    ensures thrown.None? ==> Append(lib, old(c.Abs()), c.typ, v) == Ok(c.Abs())
    decreases Rank(v), 1, 1
  {
    hide TableAfter, AppendAll, Columns.AppendColumn, OffsetsOk, Try, TryElements, Objects;
    ghost var c0 := c.Abs();
    TryArray(lib, ctx.address, ctx.Now(), c.typ.item, c.typeIndex, v);
    CloneIsNew(c0.data, c.typ.item);
    NewTyped(c.typ.item);
    var elements := ctx.CloneEmpty(c.kids[0]);
    thrown := AppendAllValues(lib, ctx, elements, v);
    if thrown.None? {
      c.AppendAsColumn(elements);
    }
  }

  /** The loop over the elements of an array value. */
  method AppendAllValues(lib: Lib, ctx: SendContext, c: HColumn, v: Value) returns (thrown: Option<Exc>)
    requires Ready(ctx, c) && v.Arr?
    modifies ctx, c.repr
    ensures ctx.Valid() && ctx.footprint >= old(ctx.footprint) && fresh(ctx.footprint - old(ctx.footprint))
    ensures Tried(ctx.Now(), thrown) == TryElements(lib, ctx.address, old(ctx.Now()), c.typ, c.typeIndex, v, 0)
    ensures thrown.None? ==> AppendAll(lib, old(c.Abs()), c.typ, EntryValues(v.entries)) == Ok(c.Abs())
    decreases Rank(v), 0, 1
  {
    hide TableAfter, Try, Append;
    ghost var vs := EntryValues(v.entries);
    ghost var whole := AppendAll(lib, c.Abs(), c.typ, vs);
    ghost var run := TryElements(lib, ctx.address, ctx.Now(), c.typ, c.typeIndex, v, 0);
    var i := 0;
    while i < |v.entries|
      invariant i <= |v.entries| && Ready(ctx, c)
      invariant ctx.footprint >= old(ctx.footprint) && fresh(ctx.footprint - old(ctx.footprint))
      invariant TryElements(lib, ctx.address, ctx.Now(), c.typ, c.typeIndex, v, i) == run
      invariant AppendAll(lib, c.Abs(), c.typ, vs[i..]) == whole
    {
      thrown := AppendValue(lib, ctx, c, v.entries[i].1);
      if thrown.Some? {
        return;
      }
      assert vs[i..][1..] == vs[i + 1..];
      i := i + 1;
    }
    thrown := None;
  }

  function Prepend(done: seq<Column>, rest: Result<seq<Column>>): Result<seq<Column>> {
    match rest
    case Ok(cs) => Ok(done + cs)
    case Err(e) => Err(e)
  }

  /** What is left of the member loop, from member i on. */
  function MembersFrom(lib: Lib, cs: seq<Column>, ts: seq<Type>, vs: seq<Value>, i: nat): Result<seq<Column>>
    requires |cs| == |ts| && (forall j :: 0 <= j < |cs| ==> Typed(cs[j], ts[j])) && i <= |cs| && i <= |vs|
  {
    AppendMembers(lib, cs[i..], ts[i..], vs[i..])
  }

  lemma {:induction false} MembersStep(lib: Lib, cs: seq<Column>, ts: seq<Type>, vs: seq<Value>, i: nat,
                                       done: seq<Column>)
    requires |cs| == |ts| && (forall j :: 0 <= j < |cs| ==> Typed(cs[j], ts[j])) && i < |cs| && i < |vs|
    ensures var first := Append(lib, cs[i], ts[i], vs[i]);
            Prepend(done, MembersFrom(lib, cs, ts, vs, i))
            == match first
               case Ok(x) => Prepend(done + [x], MembersFrom(lib, cs, ts, vs, i + 1))
               case Err(e) => Err(e)
  {
    assert cs[i..][0] == cs[i] && ts[i..][0] == ts[i] && vs[i..][0] == vs[i];
    assert cs[i..][1..] == cs[i + 1..] && ts[i..][1..] == ts[i + 1..] && vs[i..][1..] == vs[i + 1..];
    var first, rest := Append(lib, cs[i], ts[i], vs[i]), MembersFrom(lib, cs, ts, vs, i + 1);
    if first.Ok? && rest.Ok? {
      assert done + ([first.value] + rest.value) == done + [first.value] + rest.value;
    }
  }

  lemma {:induction false} MembersEnds(lib: Lib, cs: seq<Column>, ts: seq<Type>, vs: seq<Value>, i: nat,
                                       done: seq<Column>)
    requires |cs| == |ts| && (forall j :: 0 <= j < |cs| ==> Typed(cs[j], ts[j])) && i <= |cs| && i <= |vs|
    requires i == |cs| || i == |vs|
    ensures Prepend(done, MembersFrom(lib, cs, ts, vs, i))
            == if |cs| == |vs| then Ok(done) else Err(ValidationError)
  {
    assert done + [] == done;
  }

  /** The member loop is at member i: what is left of it leads from cols to the outcome. */
  ghost predicate Midway(lib: Lib, cs: seq<Column>, ts: seq<Type>, vs: seq<Value>, i: nat, cols: seq<Column>)
    requires |cs| == |ts| && forall j :: 0 <= j < |cs| ==> Typed(cs[j], ts[j])
  {
    && |cols| == |cs| && i <= |cs| && i <= |vs| && cols[i..] == cs[i..]
    && Prepend(cols[..i], MembersFrom(lib, cs, ts, vs, i)) == AppendMembers(lib, cs, ts, vs)
  }

  lemma {:induction false} MembersBegin(lib: Lib, cs: seq<Column>, ts: seq<Type>, vs: seq<Value>)
    requires |cs| == |ts| && forall j :: 0 <= j < |cs| ==> Typed(cs[j], ts[j])
    ensures Midway(lib, cs, ts, vs, 0, cs)
  {
    assert cs[0..] == cs && ts[0..] == ts && vs[0..] == vs && cs[..0] == [];
    var all := AppendMembers(lib, cs, ts, vs);
    assert all.Ok? ==> [] + all.value == all.value;
  }

  /** One round of the member loop, whether the value is accepted or not. */
  lemma {:induction false} MemberDone(lib: Lib, cs: seq<Column>, ts: seq<Type>, vs: seq<Value>, i: nat,
                                      before: seq<Column>, after: seq<Column>)
    requires |cs| == |ts| && forall j :: 0 <= j < |cs| ==> Typed(cs[j], ts[j])
    requires Midway(lib, cs, ts, vs, i, before) && i < |cs| && i < |vs|
    requires |after| == |before| && after == before[i := after[i]]
    ensures match Append(lib, cs[i], ts[i], vs[i])
            case Err(e) => AppendMembers(lib, cs, ts, vs) == Err(e)
            case Ok(x) => x == after[i] ==> Midway(lib, cs, ts, vs, i + 1, after)
  {
    MembersStep(lib, cs, ts, vs, i, before[..i]);
    assert after[..i + 1] == before[..i] + [after[i]];
    assert before[i + 1..] == before[i..][1..] && cs[i + 1..] == cs[i..][1..];
  }

  lemma {:induction false} MembersEnd(lib: Lib, cs: seq<Column>, ts: seq<Type>, vs: seq<Value>, i: nat,
                                      cols: seq<Column>)
    requires |cs| == |ts| && forall j :: 0 <= j < |cs| ==> Typed(cs[j], ts[j])
    requires Midway(lib, cs, ts, vs, i, cols) && (i == |cs| || i == |vs|)
    ensures AppendMembers(lib, cs, ts, vs) == if |cs| == |vs| then Ok(cols) else Err(ValidationError)
  {
    MembersEnds(lib, cs, ts, vs, i, cols[..i]);
    assert i == |cs| ==> cols[..i] == cols;
  }

  method AppendTupleValue(lib: Lib, ctx: SendContext, c: HColumn, v: Value) returns (thrown: Option<Exc>)
    requires Ready(ctx, c) && c.typ.Tuple? && v.Arr?
    modifies ctx, c.repr
    ensures ctx.Valid() && ctx.footprint >= old(ctx.footprint) && fresh(ctx.footprint - old(ctx.footprint))
    ensures Tried(ctx.Now(), thrown) == Try(lib, ctx.address, old(ctx.Now()), c.typ, c.typeIndex, v)
    ensures thrown.None? ==> Append(lib, old(c.Abs()), c.typ, v) == Ok(c.Abs())
    decreases Rank(v), 1, 1
  {
    hide TableAfter, TryMembers, AppendMembers;
    thrown := AppendMemberValues(lib, ctx, c, c.typeIndex + 1, v);
  }

  /** One value per member column; the arity is checked as the loop runs out of either. */
  method AppendMemberValues(lib: Lib, ctx: SendContext, c: HColumn, ghost base: nat, v: Value)
    returns (thrown: Option<Exc>)
    requires MembersReady(ctx, c, base) && v.Arr?
    modifies ctx, c.repr
    ensures ctx.Valid() && ctx.footprint >= old(ctx.footprint) && fresh(ctx.footprint - old(ctx.footprint))
    ensures Tried(ctx.Now(), thrown) == TryMembers(lib, ctx.address, old(ctx.Now()), c.typ.members, base, v, 0)
    ensures thrown.None? ==>
              AppendMembers(lib, old(c.Abs()).columns, c.typ.members, EntryValues(v.entries)) == Ok(c.Abs().columns)
    decreases Rank(v), 0, 1
  {
    hide TableAfter, Try, TryMembers, Append, AppendMembers, ObjectsTo, Objects, MembersFrom, Prepend;
    ghost var ts, cs, vs := c.typ.members, c.Abs().columns, EntryValues(v.entries);
    ghost var run := TryMembers(lib, ctx.address, ctx.Now(), ts, base, v, 0);
    MembersBegin(lib, cs, ts, vs);
    var arity := |c.kids|;
    var i := 0;
    while i < |v.entries|
      invariant ctx.Valid() && c.repr !! ctx.footprint && i <= arity
      invariant ctx.footprint >= old(ctx.footprint) && fresh(ctx.footprint - old(ctx.footprint))
      invariant Midway(lib, cs, ts, vs, i, c.Abs().columns)
      invariant TryMembers(lib, ctx.address, ctx.Now(), ts, base, v, i) == run
    {
      ghost var before := c.Abs().columns;
      TryMember(lib, ctx.address, ctx.Now(), ts, base, v, i);
      if i >= arity {
        return Some(ValidationError);
      }
      assert before[i] == before[i..][0] == cs[i];
      thrown := AppendMember(lib, ctx, c, i, v.entries[i].1);
      if thrown.Some? {
        return;
      }
      MemberDone(lib, cs, ts, vs, i, before, c.Abs().columns);
      i := i + 1;
    }
    MembersEnd(lib, cs, ts, vs, i, c.Abs().columns);
    TriedMembers(lib, ctx.address, ctx.Now(), ts, base, v);
    thrown := if i != arity then Some(ValidationError) else None;
  }

  /** One value into one member column; the other members stay as they are. */
  method AppendMember(lib: Lib, ctx: SendContext, c: HColumn, i: nat, v: Value) returns (thrown: Option<Exc>)
    requires ctx.Valid() && c.Tree() && c.repr !! ctx.footprint && c.typ.Tuple? && i < |c.kids|
    requires Typed(c.Abs().columns[i], c.typ.members[i]) && Numbered(c.kids[i])
    modifies ctx, c.repr
    ensures ctx.Valid() && ctx.footprint >= old(ctx.footprint) && fresh(ctx.footprint - old(ctx.footprint))
    ensures c.Abs().columns == old(c.Abs().columns)[i := c.Abs().columns[i]]
    ensures Tried(ctx.Now(), thrown)
            == Try(lib, ctx.address, old(ctx.Now()), c.typ.members[i], c.kids[i].typeIndex, v)
    ensures thrown.None? ==>
              Append(lib, old(c.Abs()).columns[i], c.typ.members[i], v) == Ok(c.Abs().columns[i])
    decreases Rank(v), 3, 0
  {
    hide TableAfter, Try, Append;
    thrown := AppendValue(lib, ctx, c.kids[i], v);
    assert forall j :: 0 <= j < |c.kids| && j != i ==> c.kids[j].repr !! c.kids[i].repr;
    assert forall j :: 0 <= j < |c.kids| && j != i ==> c.Abs().columns[j] == old(c.Abs()).columns[j];
  }

  /** The lookup that writing to a Map column makes. */
  ghost function AskOf(ctx: SendContext, c: HColumn): Ask
    requires c.typ.Map?
  {
    Ask(ctx.address(c.typeIndex, c.typ), c.typ.key, c.typ.val)
  }

  /** Fill clones of the templates with keys and values, wrap them, append one map row. */
  method AppendMapValue(lib: Lib, ctx: SendContext, c: HColumn, v: Value) returns (thrown: Option<Exc>)
    requires Ready(ctx, c) && c.typ.Map? && v.Arr?
    modifies ctx, c.repr
    ensures ctx.Valid() && ctx.footprint >= old(ctx.footprint) && fresh(ctx.footprint - old(ctx.footprint))
    ensures Tried(ctx.Now(), thrown) == Try(lib, ctx.address, old(ctx.Now()), c.typ, c.typeIndex, v)
    ensures thrown.None? ==> Append(lib, old(c.Abs()), c.typ, v) == Ok(c.Abs())
    decreases Rank(v), 1, 1
  {
    hide TableAfter, TryElements, TryMembers, TryEntries, AppendEntries, Served, Servable, LookUp, AppendMapRow;
    hide Objects, OffsetsOk, Columns.Size, AppendAll, AppendMembers;
    CloneIsNew(c.Abs(), c.typ);
    var known, keys, values := EmptyPair(ctx, c);
    if !known {
      return Some(ValidationError);
    }
    thrown := FillAndAppend(lib, ctx, c, keys, values, v);
  }

  /** Look the column's Map type up in the memo table and clone what it holds. */
  method EmptyPair(ctx: SendContext, c: HColumn) returns (known: bool, keys: HColumn, values: HColumn)
    requires ctx.Valid() && c.typ.Map? && TypeOk(c.typ)
    modifies ctx
    ensures ctx.Valid() && ctx.footprint >= old(ctx.footprint) && fresh(ctx.footprint - old(ctx.footprint))
    ensures known <==> Servable(old(ctx.Now()), AskOf(ctx, c))
    ensures !known ==> ctx.Now() == old(ctx.Now())
    ensures known ==>
              var m := LookUp(old(ctx.Now()), AskOf(ctx, c));
              && (keys.typ, values.typ) == Served(old(ctx.Now()), AskOf(ctx, c))
              && ctx.Now() == Create(m, Objects(keys.typ) + Objects(values.typ))
              && keys.typeIndex == m.created && values.typeIndex == m.created + Objects(keys.typ)
    ensures known ==>
              && fresh(keys.repr) && fresh(values.repr) && keys.repr !! values.repr
              && Ready(ctx, keys) && Ready(ctx, values) && Creatable(keys.typ) && Creatable(values.typ)
              && keys.Abs() == New(keys.typ) && values.Abs() == New(values.typ)
              && Columns.Size(keys.Abs()) == Columns.Size(values.Abs()) == 0
  {
    hide TableAfter, SendContext.Entry;
    var a := ctx.address(c.typeIndex, c.typ);
    known := ctx.EnsureTemplates(a, c.typ);
    keys, values := c, c;
    if known {
      assert ctx.trace[|ctx.trace| - 1].address == a;
      keys, values := ctx.ClonePair(a);
      NewTyped(keys.typ);
      NewTyped(values.typ);
    }
  }

  /** Fill the empty pair and append it as one row. If the pair is of the wrong types the append
      is refused, whatever the entries. */
  method FillAndAppend(lib: Lib, ctx: SendContext, c: HColumn, keys: HColumn, values: HColumn, v: Value)
    returns (thrown: Option<Exc>)
    requires Ready(ctx, c) && c.typ.Map? && Ready(ctx, keys) && Ready(ctx, values) && v.Arr?
    requires c.repr !! keys.repr && c.repr !! values.repr && keys.repr !! values.repr
    requires Columns.Size(keys.Abs()) == Columns.Size(values.Abs())
    requires values.typeIndex == keys.typeIndex + Objects(keys.typ)
    modifies ctx, c.repr, keys.repr, values.repr
    ensures ctx.Valid() && ctx.footprint >= old(ctx.footprint) && fresh(ctx.footprint - old(ctx.footprint))
    ensures var filled := TryEntries(lib, ctx.address, old(ctx.Now()), (keys.typ, values.typ), keys.typeIndex, v, 0);
            Tried(ctx.Now(), thrown) ==
              if filled.thrown.Some? then filled
              else Tried(Create(filled.memo, 1 + Objects(keys.typ) + Objects(values.typ)),
                         if c.typ == Map(keys.typ, values.typ) then None else Some(ValidationError))
    ensures thrown.None? ==>
              var spec := AppendEntries(lib, old(keys.Abs()), old(values.Abs()), Map(keys.typ, values.typ), v.entries);
              && c.typ == Map(keys.typ, values.typ) && spec.Ok?
              && c.Abs() == AppendMapRow(old(c.Abs()), spec.value.0, spec.value.1)
    decreases Rank(v), 1, 0
  {
    hide TableAfter, TryEntries, AppendEntries, AppendMapRow;
    thrown := AppendAllEntries(lib, ctx, keys, values, v);
    if thrown.None? {
      thrown := AppendPair(ctx, c, keys, values);
    }
  }

  /** A pair of other types than the column's is refused by the library. */
  method AppendPair(ctx: SendContext, c: HColumn, keys: HColumn, values: HColumn) returns (thrown: Option<Exc>)
    requires c.Tree() && keys.Tree() && values.Tree() && c.typ.Map?
    requires c.repr !! keys.repr && c.repr !! values.repr && keys.repr !! values.repr
    requires Typed(keys.Abs(), keys.typ) && Typed(values.Abs(), values.typ)
    requires Columns.Size(keys.Abs()) == Columns.Size(values.Abs())
    modifies ctx`created, c.repr
    ensures ctx.created == old(ctx.created) + 1 + Objects(keys.typ) + Objects(values.typ)
    ensures thrown == if c.typ == Map(keys.typ, values.typ) then None else Some(ValidationError)
    ensures thrown.None? ==> c.Abs() == AppendMapRow(old(c.Abs()), old(keys.Abs()), old(values.Abs()))
  {
    hide Columns.AppendColumn, OffsetsOk, Rows, Objects, ObjectsTo, Numbered, HColumn.Tree, HColumn.Abs;
    var entries := PairColumn(keys, values);
    ObjectsOfPair(keys.typ, values.typ);
    var wrapped := OneRow(ctx, entries);
    thrown := AppendWrapped(c, wrapped);
  }

  lemma {:induction false} ObjectsOfPair(k: Type, w: Type)
    ensures Objects(Tuple([k, w])) == 1 + Objects(k) + Objects(w)
  {
    var ts := [k, w];
    assert ObjectsTo(ts, 0) == 0 && ObjectsTo(ts, 1) == Objects(ts[0]);
    assert ObjectsTo(ts, 2) == ObjectsTo(ts, 1) + Objects(ts[1]);
  }

  /** ColumnMap::Append of a one-row map made of the wrapped entries. */
  method AppendWrapped(c: HColumn, wrapped: HColumn) returns (thrown: Option<Exc>)
    requires c.Tree() && wrapped.Tree() && c.repr !! wrapped.repr && c.typ.Map?
    modifies c.repr
    ensures thrown == if wrapped.typ == EntriesType(c.typ.key, c.typ.val) then None else Some(ValidationError)
    ensures thrown.None? ==> c.Abs() == Columns.AppendColumn(old(c.Abs()), MapCol(old(wrapped.Abs())))
  {
    if wrapped.typ != EntriesType(c.typ.key, c.typ.val) {
      return Some(ValidationError);
    }
    var row := new HColumn(c.typ, 0, [wrapped]);
    c.AppendColumn(row);
    thrown := None;
  }

  /** make_shared<ColumnTuple>({keys, values}) */
  method PairColumn(keys: HColumn, values: HColumn) returns (entries: HColumn)
    requires keys.Tree() && values.Tree() && keys.repr !! values.repr
    requires Typed(keys.Abs(), keys.typ) && Typed(values.Abs(), values.typ)
    requires Columns.Size(keys.Abs()) == Columns.Size(values.Abs())
    ensures entries.Tree() && entries.typ == Tuple([keys.typ, values.typ])
    ensures fresh(entries.repr - keys.repr - values.repr)
    ensures entries.Abs() == TupleCol([keys.Abs(), values.Abs()]) && Typed(entries.Abs(), entries.typ)
  {
    hide OffsetsOk, Rows;
    var pair := Tuple([keys.typ, values.typ]);
    entries := new HColumn(pair, 0, [keys, values]);
    assert entries.Abs().columns == [keys.Abs(), values.Abs()];
    assert pair.members[0] == keys.typ && pair.members[1] == values.typ;
  }

  /** An array column whose only row is the given column. */
  method OneRow(ctx: SendContext, x: HColumn) returns (wrapped: HColumn)
    requires x.Tree() && Typed(x.Abs(), x.typ)
    modifies ctx`created
    ensures fresh(wrapped.repr) && wrapped.Tree() && wrapped.typ == Array(x.typ)
    ensures wrapped.Abs() == Columns.AppendAsColumn(ArrayCol(Columns.CloneEmpty(x.Abs()), []), x.Abs())
    ensures ctx.created == old(ctx.created) + Objects(x.typ)
  {
    CloneIsNew(x.Abs(), x.typ);
    var empty := ctx.CloneEmpty(x);
    wrapped := new HColumn(Array(x.typ), 0, [empty]);
    wrapped.AppendAsColumn(x);
  }

  /** Entry i: its key, then its value. */
  method AppendEntry(lib: Lib, ctx: SendContext, keys: HColumn, values: HColumn, v: Value, i: nat)
    returns (thrown: Option<Exc>)
    requires Ready(ctx, keys) && Ready(ctx, values) && keys.repr !! values.repr && v.Arr? && i < |v.entries|
    modifies ctx, keys.repr, values.repr
    ensures ctx.Valid() && ctx.footprint >= old(ctx.footprint) && fresh(ctx.footprint - old(ctx.footprint))
    ensures var first := Try(lib, ctx.address, old(ctx.Now()), keys.typ, keys.typeIndex, KeyValue(v.entries[i].0));
            Tried(ctx.Now(), thrown) ==
              if first.thrown.Some? then first
              else Try(lib, ctx.address, first.memo, values.typ, values.typeIndex, v.entries[i].1)
    ensures thrown.None? ==>
              && Append(lib, old(keys.Abs()), keys.typ, KeyValue(v.entries[i].0)) == Ok(keys.Abs())
              && Append(lib, old(values.Abs()), values.typ, v.entries[i].1) == Ok(values.Abs())
    decreases Rank(v), 0, 0
  {
    hide TableAfter, Try, Append;
    thrown := AppendValue(lib, ctx, keys, KeyValue(v.entries[i].0));
    if thrown.None? {
      thrown := AppendValue(lib, ctx, values, v.entries[i].1);
    }
  }

  /** The loop over the entries of a map value, key before value. */
  method AppendAllEntries(lib: Lib, ctx: SendContext, keys: HColumn, values: HColumn, v: Value)
    returns (thrown: Option<Exc>)
    requires Ready(ctx, keys) && Ready(ctx, values) && keys.repr !! values.repr && v.Arr?
    requires Columns.Size(keys.Abs()) == Columns.Size(values.Abs())
    requires values.typeIndex == keys.typeIndex + Objects(keys.typ)
    modifies ctx, keys.repr, values.repr
    ensures ctx.Valid() && ctx.footprint >= old(ctx.footprint) && fresh(ctx.footprint - old(ctx.footprint))
    ensures Tried(ctx.Now(), thrown)
            == TryEntries(lib, ctx.address, old(ctx.Now()), (keys.typ, values.typ), keys.typeIndex, v, 0)
    ensures thrown.None? ==>
              AppendEntries(lib, old(keys.Abs()), old(values.Abs()), Map(keys.typ, values.typ), v.entries)
              == Ok((keys.Abs(), values.Abs()))
    decreases Rank(v), 0, 1
  {
    hide TableAfter, Try, Append;
    ghost var t, pair := Map(keys.typ, values.typ), (keys.typ, values.typ);
    ghost var whole := AppendEntries(lib, keys.Abs(), values.Abs(), t, v.entries);
    ghost var run := TryEntries(lib, ctx.address, ctx.Now(), pair, keys.typeIndex, v, 0);
    var i := 0;
    while i < |v.entries|
      invariant i <= |v.entries| && Ready(ctx, keys) && Ready(ctx, values)
      invariant Columns.Size(keys.Abs()) == Columns.Size(values.Abs())
      invariant ctx.footprint >= old(ctx.footprint) && fresh(ctx.footprint - old(ctx.footprint))
      invariant TryEntries(lib, ctx.address, ctx.Now(), pair, keys.typeIndex, v, i) == run
      invariant AppendEntries(lib, keys.Abs(), values.Abs(), t, v.entries[i..]) == whole
    {
      thrown := AppendEntry(lib, ctx, keys, values, v, i);
      if thrown.Some? {
        return;
      }
      assert v.entries[i..][1..] == v.entries[i + 1..];
      i := i + 1;
    }
    thrown := None;
  }
}
