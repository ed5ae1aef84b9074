/** One insert: PHP rows pivoted into the typed columns of a single block, and the
    conversation BeginInsert / SendInsertBlock / EndInsert that carries it. */
module Insert {
  import opened CellReader
  import opened CellRoundTrip
  import opened ColumnCodec
  import opened ColumnLaws
  import opened Columns
  import opened Exceptions
  import opened HeapColumns
  import opened HeapWriter
  import opened MemoRun
  import opened PhpValues
  import opened ScalarCodec
  import opened TemplateMemo

  type Block = seq<(string, Column)>

  function NewAll(ts: seq<Type>): (cs: seq<Column>)
    ensures |cs| == |ts|
  {
    seq(|ts|, i requires 0 <= i < |ts| => New(ts[i]))
  }

  predicate TypesOk(ts: seq<Type>) {
    forall i :: 0 <= i < |ts| ==> TypeOk(ts[i])
  }

  predicate AllTyped(cs: seq<Column>, ts: seq<Type>) {
    |cs| == |ts| && forall i :: 0 <= i < |cs| ==> Typed(cs[i], ts[i])
  }

  lemma {:induction false} NewAllTyped(ts: seq<Type>)
    requires TypesOk(ts)
    ensures AllTyped(NewAll(ts), ts)
    ensures forall i :: 0 <= i < |ts| ==> Size(NewAll(ts)[i]) == 0
  {
    forall i | 0 <= i < |ts| ensures Typed(New(ts[i]), ts[i]) && Size(New(ts[i])) == 0 {
      NewTyped(ts[i]);
    }
  }

  /* ---- the pivot, on values ---- */

  /** Row after row into the columns; the first fault of the first faulty row is the error. */
  function FillRows(lib: Lib, cs: seq<Column>, ts: seq<Type>, rows: seq<Value>): (r: Result<seq<Column>>)
    requires AllTyped(cs, ts)
    ensures r.Ok? ==> AllTyped(r.value, ts)
    ensures r.Ok? ==> forall i :: 0 <= i < |cs| ==> Size(r.value[i]) == Size(cs[i]) + |rows|
    decreases |rows|
  {
    if rows == [] then Ok(cs)
    else if !rows[0].Arr? then Err(ValidationError)
    else
      match AppendMembers(lib, cs, ts, EntryValues(rows[0].entries))
      case Err(e) => Err(e)
      case Ok(next) => FillRows(lib, next, ts, rows[1..])
  }

  /** What the rows mean, row by row and without columns. */
  function EncodeRows(lib: Lib, ts: seq<Type>, rows: seq<Value>): (r: Result<seq<seq<Item>>>)
    ensures r.Ok? ==> |r.value| == |rows| && forall j :: 0 <= j < |rows| ==> |r.value[j]| == |ts|
    decreases |rows|
  {
    if rows == [] then Ok([])
    else if !rows[0].Arr? then Err(ValidationError)
    else
      match EncodeMembers(lib, ts, EntryValues(rows[0].entries))
      case Err(e) => Err(e)
      case Ok(row) =>
        match EncodeRows(lib, ts, rows[1..])
        case Err(e) => Err(e)
        case Ok(rest) => Ok([row] + rest)
  }

  /** Column i of a table of rows. */
  function Nth(table: seq<seq<Item>>, i: nat): (column: seq<Item>)
    ensures |column| == |table|
  {
    seq(|table|, j requires 0 <= j < |table| => if i < |table[j]| then table[j][i] else Absent)
  }

  lemma {:induction false} RowBeforeRows(column: seq<Item>, row: seq<Item>, rest: seq<seq<Item>>, i: nat)
    requires i < |row|
    ensures column + [row[i]] + Nth(rest, i) == column + Nth([row] + rest, i)
  {
    assert Nth([row] + rest, i) == [row[i]] + Nth(rest, i);
  }

  /** The block is the transpose of the rows, and it is refused exactly when they have no
      meaning, with the same error. */
  lemma {:induction false} FillRowsTransposes(lib: Lib, cs: seq<Column>, ts: seq<Type>, rows: seq<Value>)
    requires AllTyped(cs, ts)
    ensures match (FillRows(lib, cs, ts, rows), EncodeRows(lib, ts, rows))
            case (Ok(filled), Ok(table)) => forall i :: 0 <= i < |ts| ==> Rows(filled[i]) == Rows(cs[i]) + Nth(table, i)
            case (Err(e), Err(f)) => e == f
            case _ => false
    decreases |rows|
  {
    if rows != [] && rows[0].Arr? {
      var vs := EntryValues(rows[0].entries);
      AppendMembersRefines(lib, cs, ts, vs);
      var first := AppendMembers(lib, cs, ts, vs);
      if first.Ok? {
        FillRowsTransposes(lib, first.value, ts, rows[1..]);
        if EncodeRows(lib, ts, rows[1..]).Ok? {
          var row, rest := EncodeMembers(lib, ts, vs).value, EncodeRows(lib, ts, rows[1..]).value;
          forall i | 0 <= i < |ts|
            ensures Rows(FillRows(lib, cs, ts, rows).value[i]) == Rows(cs[i]) + Nth([row] + rest, i)
          {
            RowBeforeRows(Rows(cs[i]), row, rest, i);
          }
        }
      }
    }
  }

  predicate RowAccepted(lib: Lib, ts: seq<Type>, row: Value) {
    row.Arr? && |row.entries| == |ts| && forall i :: 0 <= i < |ts| ==> Encode(lib, ts[i], row.entries[i].1).Ok?
  }

  /** All or nothing: the rows become a block iff each is an array of exactly one acceptable
      cell per column; item (i, j) of the table is then the meaning of cell i of row j. */
  lemma {:induction false} AcceptedIff(lib: Lib, ts: seq<Type>, rows: seq<Value>)
    ensures EncodeRows(lib, ts, rows).Ok? <==> forall j :: 0 <= j < |rows| ==> RowAccepted(lib, ts, rows[j])
    ensures EncodeRows(lib, ts, rows).Ok? ==>
              forall i, j :: 0 <= i < |ts| && 0 <= j < |rows| ==>
                EncodeRows(lib, ts, rows).value[j][i] == Encode(lib, ts[i], rows[j].entries[i].1).value
    decreases |rows|
  {
    if rows != [] {
      AcceptedIff(lib, ts, rows[1..]);
      assert forall j :: 1 <= j < |rows| ==> rows[j] == rows[1..][j - 1];
      if rows[0].Arr? {
        var vs := EntryValues(rows[0].entries);
        EncodeMembersPointwise(lib, ts, vs);
        assert forall i :: 0 <= i < |vs| ==> vs[i] == rows[0].entries[i].1;
      }
      if EncodeRows(lib, ts, rows[1..]).Err? {
        var j :| 0 <= j < |rows[1..]| && !RowAccepted(lib, ts, rows[1..][j]);
        assert !RowAccepted(lib, ts, rows[j + 1]);
      }
    }
  }

  /** A stored cell reads back as what the caller passed, iff it fits its column. */
  lemma {:induction false} CellsReadBackIff(lib: Lib, ts: seq<Type>, rows: seq<Value>, i: nat, j: nat)
    requires LibOk(lib) && i < |ts| && j < |rows| && TypesOk(ts) && Supported(ts[i])
    requires AllTyped(NewAll(ts), ts) && EncodeRows(lib, ts, rows).Ok?
    ensures var filled := FillRows(lib, NewAll(ts), ts, rows);
            && filled.Ok? && |filled.value| == |ts| && Size(filled.value[i]) == |rows|
            && rows[j].Arr? && |rows[j].entries| == |ts|
            && (Decode(lib, ts[i], Rows(filled.value[i])[j]) == rows[j].entries[i].1
                <==> Fits(lib, ts[i], rows[j].entries[i].1))
  {
    NewAllTyped(ts);
    FillRowsTransposes(lib, NewAll(ts), ts, rows);
    AcceptedIff(lib, ts, rows);
    assert RowAccepted(lib, ts, rows[j]);
    var filled, table := FillRows(lib, NewAll(ts), ts, rows).value, EncodeRows(lib, ts, rows).value;
    assert Rows(filled[i]) == Rows(NewAll(ts)[i]) + Nth(table, i) == Nth(table, i);
    ReturnsIff(lib, ts[i], rows[j].entries[i].1);
  }

  /* ---- the run of the shared template table ---- */

  /** The rows from row j on, written to columns whose Type objects are numbered from 0 on. */
  function TryRows(lib: Lib, at: Allocator, m: Memo, ts: seq<Type>, rows: seq<Value>, j: nat): Tried
    requires j <= |rows|
    decreases |rows| - j
  {
    if j == |rows| then Tried(m, None)
    else if !rows[j].Arr? then Tried(m, Some(ValidationError))
    else
      var row := TryMembers(lib, at, m, ts, 0, rows[j], 0);
      if row.thrown.Some? then row else TryRows(lib, at, row.memo, ts, rows, j + 1)
  }

  /** One insert: the columns are cloned from the sample, then filled row by row. */
  function TryInsert(lib: Lib, at: Allocator, ts: seq<Type>, rows: seq<Value>): Tried {
    TryRows(lib, at, Memo(ObjectsTo(ts, |ts|), []), ts, rows, 0)
  }

  lemma {:induction false} RowsRight(lib: Lib, at: Allocator, m: Memo, ts: seq<Type>, rows: seq<Value>, j: nat)
    requires j <= |rows| && Makeable(m.asks)
    ensures Right(at, m, TryRows(lib, at, m, ts, rows, j), Fault(EncodeRows(lib, ts, rows[j..])))
    decreases |rows| - j
  {
    hide OneTypePerAddress, Founded, Makeable, TableAfter;
    if j < |rows| && rows[j].Arr? {
      MembersRight(lib, at, m, ts, 0, rows[j], 0);
      assert ts[0..] == ts && EntryValues(rows[j].entries)[0..] == EntryValues(rows[j].entries);
      assert rows[j..][0] == rows[j] && rows[j..][1..] == rows[j + 1..];
      var row := TryMembers(lib, at, m, ts, 0, rows[j], 0);
      if row.thrown.None? {
        RowsRight(lib, at, row.memo, ts, rows, j + 1);
      }
    }
  }

  /** The lookups that writing the rows makes, and when they see one Map type per address: always,
      if different Map types never lie at one address, or if no column has a Map. */
  lemma {:induction false} LookupsOfInsert(lib: Lib, at: Allocator, ts: seq<Type>, rows: seq<Value>)
    ensures Founded(at, TryInsert(lib, at, ts, rows).memo.asks)
    ensures MapTypesApart(at) ==> OneTypePerAddress(TryInsert(lib, at, ts, rows).memo.asks)
    ensures (forall i :: 0 <= i < |ts| ==> !HasMap(ts[i])) ==> TryInsert(lib, at, ts, rows).memo.asks == []
  {
    var m := Memo(ObjectsTo(ts, |ts|), []);
    RowsRight(lib, at, m, ts, rows, 0);
    if MapTypesApart(at) {
      ApartSeesOneType(at, TryInsert(lib, at, ts, rows).memo.asks);
    }
    if forall i :: 0 <= i < |ts| ==> !HasMap(ts[i]) {
      NoMapInRows(lib, at, m, ts, rows, 0);
    }
  }

  lemma {:induction false} NoMapInRows(lib: Lib, at: Allocator, m: Memo, ts: seq<Type>, rows: seq<Value>, j: nat)
    requires j <= |rows| && forall i :: 0 <= i < |ts| ==> !HasMap(ts[i])
    ensures TryRows(lib, at, m, ts, rows, j).memo.asks == m.asks
    decreases |rows| - j
  {
    if j < |rows| && rows[j].Arr? {
      NoMapInMembers(lib, at, m, ts, 0, rows[j], 0);
      var row := TryMembers(lib, at, m, ts, 0, rows[j], 0);
      if row.thrown.None? {
        NoMapInRows(lib, at, row.memo, ts, rows, j + 1);
      }
    }
  }

  /** The shared table is invisible to an insert whose rows are acceptable iff its lookups see one
      Map type per address; otherwise the rows are refused. While they do, unacceptable rows are
      refused with the exception that fresh templates give. */
  lemma {:induction false} TableIsInvisibleIff(lib: Lib, at: Allocator, ts: seq<Type>, rows: seq<Value>)
    ensures var run := TryInsert(lib, at, ts, rows);
            && (run.thrown.None? <==> EncodeRows(lib, ts, rows).Ok? && OneTypePerAddress(run.memo.asks))
            && (OneTypePerAddress(run.memo.asks) ==> run.thrown == Fault(EncodeRows(lib, ts, rows)))
  {
    RowsRight(lib, at, Memo(ObjectsTo(ts, |ts|), []), ts, rows, 0);
    assert rows[0..] == rows;
  }

  /* ---- the conversation ---- */

  /** How the network answers one insert: the sample block's column types, the send, and each
      EndInsert in turn. */
  datatype Script = Script(sample: Result<seq<Type>>, send: Option<Exc>, end: nat -> Option<Exc>)

  /** What a block of live columns holds at this moment. */
  ghost function Snapshot(columns: seq<(string, HColumn)>): (block: Block)
    requires forall i :: 0 <= i < |columns| ==> columns[i].1.Tree()
    reads set i, o | 0 <= i < |columns| && o in columns[i].1.repr :: o
    ensures |block| == |columns|
    ensures forall i :: 0 <= i < |columns| ==> block[i] == (columns[i].0, columns[i].1.Abs())
  {
    if columns == [] then []
    else
      var last := |columns| - 1;
      Snapshot(columns[..last]) + [(columns[last].0, columns[last].1.Abs())]
  }

  class InsertWire {
    const script: Script
    ghost var sent: seq<Block>   // insert blocks handed to the wire
    var ends: nat                // EndInsert calls so far

    constructor (script: Script)
      ensures this.script == script && sent == [] && ends == 0
    {
      this.script := script;
      sent, ends := [], 0;
    }

    method SendInsertBlock(block: seq<(string, HColumn)>) returns (thrown: Option<Exc>)
      requires forall i :: 0 <= i < |block| ==> block[i].1.Tree()
      modifies `sent
      ensures sent == old(sent) + [Snapshot(block)] && thrown == script.send
    {
      sent := sent + [Snapshot(block)];
      thrown := script.send;
    }

    method EndInsert() returns (thrown: Option<Exc>)
      modifies `ends
      ensures ends == old(ends) + 1 && thrown == script.end(old(ends))
    {
      thrown := script.end(ends);
      ends := ends + 1;
    }
  }

  /** Why the insert fails, if it does; no column is needed to say it. */
  function Failure(lib: Lib, script: Script, width: nat, rows: seq<Value>): Option<Exc> {
    match script.sample
    case Err(e) => Some(e)
    case Ok(ts) =>
      if |ts| != width then Some(ValidationError)
      else match EncodeRows(lib, ts, rows)
           case Err(e) => Some(e)
           case Ok(_) => if script.send.Some? then script.send else script.end(0)
  }

  /** A block is sent: the shapes agree and every cell is accepted. */
  predicate Sends(lib: Lib, script: Script, width: nat, rows: seq<Value>) {
    script.sample.Ok? && |script.sample.value| == width && EncodeRows(lib, script.sample.value, rows).Ok?
  }

  /** The failure fits the answers: no sample, no block; a block was sent, and the rest is the
      network's answer; no block, and there is a reason. */
  predicate Told(script: Script, failure: Option<Exc>, wired: bool) {
    && (script.sample.Err? ==> !wired && failure == Some(script.sample.error))
    && (if wired then failure == if script.send.Some? then script.send else script.end(0) else failure.Some?)
  }

  /** The connection is given up: a poisoning failure, or the best-effort EndInsert fails. */
  predicate Abandons(script: Script, failure: Option<Exc>, wired: bool) {
    && failure.Some?
    && (Poisons(failure.value) || script.end(if wired && script.send.None? then 1 else 0).Some?)
  }

  predicate Breaks(lib: Lib, script: Script, width: nat, rows: seq<Value>) {
    Abandons(script, Failure(lib, script, width, rows), Sends(lib, script, width, rows))
  }

  /** The block that carries the rows: named columns of one size, the transpose of the rows. */
  ghost predicate Carries(lib: Lib, block: Block, names: seq<string>, ts: seq<Type>, rows: seq<Value>) {
    && |block| == |names| == |ts| && EncodeRows(lib, ts, rows).Ok?
    && forall i :: 0 <= i < |ts| ==>
         && block[i].0 == names[i] && Typed(block[i].1, ts[i])
         && Rows(block[i].1) == Nth(EncodeRows(lib, ts, rows).value, i)
  }

  lemma {:induction false} FilledIsCarried(lib: Lib, names: seq<string>, ts: seq<Type>, rows: seq<Value>)
    requires TypesOk(ts) && AllTyped(NewAll(ts), ts) && |names| == |ts|
    ensures match (FillRows(lib, NewAll(ts), ts, rows), EncodeRows(lib, ts, rows))
            case (Ok(cs), Ok(_)) =>
              Carries(lib, seq(|ts|, i requires 0 <= i < |ts| => (names[i], cs[i])), names, ts, rows)
            case (Err(e), Err(f)) => e == f
            case _ => false
  {
    NewAllTyped(ts);
    FillRowsTransposes(lib, NewAll(ts), ts, rows);
    var filled := FillRows(lib, NewAll(ts), ts, rows);
    if filled.Ok? {
      var table := EncodeRows(lib, ts, rows).value;
      assert forall i :: 0 <= i < |ts| ==> Rows(NewAll(ts)[i]) + Nth(table, i) == Nth(table, i);
    }
  }

  /** Empty columns of the sample block's types, side by side. */
  method CloneSample(ctx: SendContext, ts: seq<Type>) returns (data: HColumn)
    requires TypesOk(ts) && ctx.Valid()
    modifies ctx`created
    ensures fresh(data.repr) && MembersReady(ctx, data, old(ctx.created))
    ensures data.typ == Tuple(ts) && |data.kids| == |ts|
    ensures data.Abs().columns == NewAll(ts) && ctx.created == old(ctx.created) + ObjectsTo(ts, |ts|)
  {
    hide ObjectsTo, Objects;
    NewAllTyped(ts);
    var members := ctx.NewMembers(ts);
    data := new HColumn(Tuple(ts), ctx.created, members);
    assert data.Abs().columns == NewAll(ts);
  }

  /** The row loop over live columns. */
  method FillBlock(lib: Lib, ctx: SendContext, data: HColumn, rows: seq<Value>) returns (thrown: Option<Exc>)
    requires MembersReady(ctx, data, 0)
    modifies ctx, data.repr
    ensures Tried(ctx.Now(), thrown) == TryRows(lib, ctx.address, old(ctx.Now()), data.typ.members, rows, 0)
    ensures thrown.None? ==> FillRows(lib, old(data.Abs().columns), data.typ.members, rows) == Ok(data.Abs().columns)
  {
    hide TableAfter, TryMembers, AppendMembers, ObjectsTo;
    ghost var ts := data.typ.members;
    ghost var whole := FillRows(lib, data.Abs().columns, ts, rows);
    ghost var run := TryRows(lib, ctx.address, ctx.Now(), ts, rows, 0);
    var j := 0;
    while j < |rows|
      invariant j <= |rows| && MembersReady(ctx, data, 0)
      invariant fresh(ctx.footprint - old(ctx.footprint))
      invariant TryRows(lib, ctx.address, ctx.Now(), ts, rows, j) == run
      invariant FillRows(lib, data.Abs().columns, ts, rows[j..]) == whole
    {
      if !rows[j].Arr? {
        return Some(ValidationError);
      }
      thrown := AppendMemberValues(lib, ctx, data, 0, rows[j]);
      if thrown.Some? {
        return;
      }
      assert rows[j..][1..] == rows[j + 1..];
      j := j + 1;
    }
    thrown := None;
  }

  /** Block::AppendColumn for every name. */
  method NamedColumns(names: seq<string>, data: HColumn) returns (block: seq<(string, HColumn)>)
    requires data.Tree() && data.typ.Tuple? && |data.kids| == |names|
    ensures |block| == |names| && forall i :: 0 <= i < |names| ==> block[i] == (names[i], data.kids[i])
  {
    block := [];
    var i := 0;
    while i < |names|
      invariant i <= |names| && |block| == i
      invariant forall k :: 0 <= k < i ==> block[k] == (names[k], data.kids[k])
    {
      block := block + [(names[i], data.kids[i])];
      i := i + 1;
    }
  }

  /** Name the filled columns, send them as the one block, and close the session. */
  method SendColumns(wire: InsertWire, names: seq<string>, data: HColumn) returns (thrown: Option<Exc>)
    requires data.Tree() && data.typ.Tuple? && |data.kids| == |names| && wire.ends == 0
    modifies wire
    ensures var cs := data.Abs().columns;
            wire.sent == old(wire.sent) + [seq(|names|, i requires 0 <= i < |names| => (names[i], cs[i]))]
    ensures wire.ends == if wire.script.send.None? then 1 else 0
    ensures thrown == if wire.script.send.Some? then wire.script.send else wire.script.end(0)
  {
    hide Snapshot;
    var block := NamedColumns(names, data);
    ghost var cs := data.Abs().columns;
    assert Snapshot(block) == seq(|names|, i requires 0 <= i < |names| => (names[i], cs[i]));
    thrown := wire.SendInsertBlock(block);
    if thrown.None? {
      thrown := wire.EndInsert();
    }
  }

  /** A block is sent: the shapes agree and the run over the rows refuses nothing. */
  predicate MemoSends(lib: Lib, at: Allocator, script: Script, width: nat, rows: seq<Value>) {
    && script.sample.Ok? && |script.sample.value| == width
    && TryInsert(lib, at, script.sample.value, rows).thrown.None?
  }

  /** Why the insert fails, if it does, given the allocator too. */
  function MemoFailure(lib: Lib, at: Allocator, script: Script, width: nat, rows: seq<Value>): Option<Exc> {
    match script.sample
    case Err(e) => Some(e)
    case Ok(ts) =>
      if |ts| != width then Some(ValidationError)
      else
        var refusal := TryInsert(lib, at, ts, rows).thrown;
        if refusal.Some? then refusal else if script.send.Some? then script.send else script.end(0)
  }

  /** The lookups of the insert see one Map type per address. */
  predicate SeesOneType(lib: Lib, at: Allocator, script: Script, rows: seq<Value>) {
    script.sample.Ok? ==> OneTypePerAddress(TryInsert(lib, at, script.sample.value, rows).memo.asks)
  }

  /** The allocator cannot be at fault: it keeps Map types apart, or no column has a Map. */
  ghost predicate Faultless(at: Allocator, script: Script) {
    MapTypesApart(at) ||
    (script.sample.Ok? ==> forall i :: 0 <= i < |script.sample.value| ==> !HasMap(script.sample.value[i]))
  }

  /** The shared table decides nothing but this: acceptable rows are sent iff the lookups see one
      Map type per address; and while they do the failure is the meaning's and the network's. */
  lemma {:induction false} MemoInsertIff(lib: Lib, at: Allocator, script: Script, width: nat, rows: seq<Value>)
    ensures script.sample.Ok? && |script.sample.value| == width ==>
              (MemoSends(lib, at, script, width, rows)
               <==> Sends(lib, script, width, rows) && SeesOneType(lib, at, script, rows))
    ensures MemoSends(lib, at, script, width, rows) ==> Sends(lib, script, width, rows)
    ensures SeesOneType(lib, at, script, rows) ==>
              && MemoFailure(lib, at, script, width, rows) == Failure(lib, script, width, rows)
              && (MemoSends(lib, at, script, width, rows) <==> Sends(lib, script, width, rows))
    ensures Faultless(at, script) ==> SeesOneType(lib, at, script, rows)
    ensures Told(script, MemoFailure(lib, at, script, width, rows), MemoSends(lib, at, script, width, rows))
  {
    hide TryInsert, EncodeRows, OneTypePerAddress, MapTypesApart, HasMap;
    if script.sample.Ok? {
      TableIsInvisibleIff(lib, at, script.sample.value, rows);
      LookupsOfInsert(lib, at, script.sample.value, rows);
      NoLookups();
    }
  }

  lemma {:induction false} NoLookups()
    ensures OneTypePerAddress([])
  {
  }

  const TEXT := Sc(StringT)
  const NUMBER := Sc(IntT(64, true))

  /** The value [[]]: an array of one empty map. */
  const ONE_EMPTY_MAP := Arr([(IntKey(0), Arr([]))])

  /** Writing it to a column of arrays of scalar Maps: one lookup, at the address of the first Type
      object made, and a refusal iff that serves other types. */
  lemma {:induction false} EmptyMapRun(lib: Lib, at: Allocator, m: Memo, t: Type, base: nat)
    requires t.Map? && t.key.Sc? && t.val.Sc? && Creatable(t.key) && Creatable(t.val)
    ensures var ask, r := Ask(at(m.created, t), t.key, t.val), Try(lib, at, m, Array(t), base, ONE_EMPTY_MAP);
            if ask.address !in TableAfter(m.asks) then r == Tried(Memo(m.created + 10, m.asks + [ask]), None)
            else TableAfter(m.asks)[ask.address] != (t.key, t.val) ==> r.thrown == Some(ValidationError)
  {
    hide TableAfter;
    var ask, cell := Ask(at(m.created, t), t.key, t.val), Create(m, 3);
    TableGrows(m.asks, ask);
    assert Objects(t.key) == Objects(t.val) == 1 && Objects(t) == 3;
    if Servable(cell, ask) {
      var looked, served := LookUp(cell, ask), Served(cell, ask);
      var n := Objects(served.0) + Objects(served.1);
      assert TryEntries(lib, at, Create(looked, n), served, looked.created, Arr([]), 0).thrown.None?;
      var one := Try(lib, at, cell, t, m.created, Arr([]));
      assert one == TryPair(lib, at, looked, served, (t.key, t.val), Arr([]));
      if one.thrown.None? {
        assert TryElements(lib, at, one.memo, t, m.created, ONE_EMPTY_MAP, 1) == Tried(one.memo, None);
      }
    }
    assert Try(lib, at, m, Array(t), base, ONE_EMPTY_MAP)
        == TryElements(lib, at, cell, t, m.created, ONE_EMPTY_MAP, 0);
  }

  lemma {:induction false} EmptyMapMeans(lib: Lib, t: Type)
    requires t.Map? && Creatable(t.key) && Creatable(t.val)
    ensures Encode(lib, Array(t), ONE_EMPTY_MAP).Ok?
  {
    var vs := EntryValues(ONE_EMPTY_MAP.entries);
    assert vs == [Arr([])] && Encode(lib, t, Arr([])) == Ok(List([]));
    assert EncodeAll(lib, t, vs[1..]) == Ok([]);
  }

  /** The failing case: one row of two such cells. The Map behind the first array, object 8, is
      freed before that behind the second, object 18, is made. If the allocator gives the second
      one its address, the acceptable row is refused and nothing is sent. */
  lemma {:induction false} ReusedAddressRefusesInsert(lib: Lib, at: Allocator)
    requires at(8, Map(TEXT, NUMBER)) == at(18, Map(NUMBER, TEXT))
    ensures var rows := [Arr([(IntKey(0), ONE_EMPTY_MAP), (IntKey(1), ONE_EMPTY_MAP)])];
            var script := Script(Ok([Array(Map(TEXT, NUMBER)), Array(Map(NUMBER, TEXT))]), None, k => None);
            && Failure(lib, script, 2, rows).None? && Sends(lib, script, 2, rows)
            && MemoFailure(lib, at, script, 2, rows) == Some(ValidationError) && !MemoSends(lib, at, script, 2, rows)
  {
    hide Try, Encode;
    var row := Arr([(IntKey(0), ONE_EMPTY_MAP), (IntKey(1), ONE_EMPTY_MAP)]);
    var first, second := Map(TEXT, NUMBER), Map(NUMBER, TEXT);
    var ts, ask := [Array(first), Array(second)], Ask(at(8, first), TEXT, NUMBER);
    EmptyMapMeans(lib, first);
    EmptyMapMeans(lib, second);
    AcceptedIff(lib, ts, [row]);
    assert RowAccepted(lib, ts, row);
    assert Objects(first) == Objects(second) == 3 && Objects(ts[0]) == Objects(ts[1]) == 4;
    NoObjects(ts);
    ObjectsStep(ts, 0);
    ObjectsStep(ts, 1);
    assert ObjectsTo(ts, 1) == 4 && ObjectsTo(ts, 2) == 8;
    TableGrows([], ask);
    EmptyMapRun(lib, at, Memo(8, []), first, 0);
    EmptyMapRun(lib, at, Memo(18, [ask]), second, 4);
    assert [] + [ask] == [ask] && ask.address !in TableAfter([]);
    var last := TryMembers(lib, at, Memo(18, [ask]), ts, 0, row, 1);
    assert last.thrown == Some(ValidationError);
    assert TryMembers(lib, at, Memo(8, []), ts, 0, row, 0) == last;
  }

  /** Build and send the block: the body of the try, from the sample on. */
  method BuildAndSend(lib: Lib, at: Allocator, wire: InsertWire, names: seq<string>, rows: seq<Value>)
    returns (thrown: Option<Exc>)
    requires wire.script.sample.Ok? && TypesOk(wire.script.sample.value)
    requires wire.sent == [] && wire.ends == 0
    modifies wire
    ensures thrown == MemoFailure(lib, at, wire.script, |names|, rows)
    ensures if MemoSends(lib, at, wire.script, |names|, rows)
            then |wire.sent| == 1 && Carries(lib, wire.sent[0], names, wire.script.sample.value, rows)
            else wire.sent == []
    ensures wire.ends == if wire.sent != [] && wire.script.send.None? then 1 else 0
  {
    hide TryRows, ObjectsTo, FillRows, EncodeRows, Carries, HColumn.Tree, HColumn.Abs;
    var ts := wire.script.sample.value;
    if |ts| != |names| {
      return Some(ValidationError);
    }
    var ctx := new SendContext(at);
    var data := CloneSample(ctx, ts);
    NewAllTyped(ts);
    FilledIsCarried(lib, names, ts, rows);
    thrown := FillBlock(lib, ctx, data, rows);
    if thrown.Some? {
      return;
    }
    thrown := SendColumns(wire, names, data);
  }

  /** Send rows as one insert. The exception, what reaches the wire, the calls of EndInsert and
      whether the connection is lost are fixed by the rows, the network and the allocator; and by
      the rows' meaning and the network alone, unless two Map types come to lie at one address. */
  method SendBlock(lib: Lib, at: Allocator, wire: InsertWire, executor: Executor, names: seq<string>, rows: seq<Value>)
    returns (ok: bool, broke: bool)
    requires wire.script.sample.Ok? ==> TypesOk(wire.script.sample.value)
    requires wire.sent == [] && wire.ends == 0
    modifies wire, executor
    ensures var failure := MemoFailure(lib, at, wire.script, |names|, rows);
            && (ok <==> failure.None?)
            && (broke <==> Abandons(wire.script, failure, MemoSends(lib, at, wire.script, |names|, rows)))
            && executor.exception == (if ok || old(executor.exception).Some? then old(executor.exception)
                                      else Some(Translated(failure.value)))
            && wire.ends == (if wire.sent != [] && wire.script.send.None? then 1 else 0)
                            + (if failure.Some? && !Poisons(failure.value) then 1 else 0)
    ensures if MemoSends(lib, at, wire.script, |names|, rows)
            then |wire.sent| == 1 && Carries(lib, wire.sent[0], names, wire.script.sample.value, rows)
            else wire.sent == []
    ensures SeesOneType(lib, at, wire.script, rows) || Faultless(at, wire.script) ==>
              && MemoFailure(lib, at, wire.script, |names|, rows) == Failure(lib, wire.script, |names|, rows)
              && (wire.sent != [] <==> Sends(lib, wire.script, |names|, rows))
              && (broke <==> Breaks(lib, wire.script, |names|, rows))
  {
    hide TryInsert, EncodeRows, Faultless, SeesOneType, Carries;
    MemoInsertIff(lib, at, wire.script, |names|, rows);
    var thrown;
    if wire.script.sample.Err? {
      thrown := Some(wire.script.sample.error);
    } else {
      thrown := BuildAndSend(lib, at, wire, names, rows);
    }
    ok, broke := true, false;
    if thrown.Some? {
      if Poisons(thrown.value) {
        broke := true;
      } else {
        var closing := wire.EndInsert();
        broke := closing.Some?;
      }
      executor.TranslateAndThrow(thrown.value);
      ok := false;
    }
  }

  /* ---- which fault is reported, and when the connection is given up ---- */

  /** The fault of row j: it is no array, one of its cells is refused, or it has too few or too many. */
  ghost predicate RowFault(lib: Lib, ts: seq<Type>, row: Value, e: Exc) {
    if !row.Arr? then e == ValidationError
    else exists i :: CellFault(lib, ts, row.entries, i, e)
  }

  /** All cells before i are accepted; cell i is refused with e, or missing on one side only. */
  ghost predicate CellFault(lib: Lib, ts: seq<Type>, es: Entries, i: int, e: Exc) {
    && 0 <= i <= |es| && i <= |ts| && (forall k :: 0 <= k < i ==> Encode(lib, ts[k], es[k].1).Ok?)
    && if i < |es| && i < |ts| then Encode(lib, ts[i], es[i].1) == Err(e) else |ts| != |es| && e == ValidationError
  }

  lemma {:induction false} MembersFault(lib: Lib, ts: seq<Type>, es: Entries, i: nat)
    requires i <= |ts| && i <= |es| && forall k :: 0 <= k < i ==> Encode(lib, ts[k], es[k].1).Ok?
    requires EncodeMembers(lib, ts[i..], EntryValues(es)[i..]).Err?
    ensures exists j :: CellFault(lib, ts, es, j, EncodeMembers(lib, ts[i..], EntryValues(es)[i..]).error)
    decreases |es| - i
  {
    hide Encode;
    var e := EncodeMembers(lib, ts[i..], EntryValues(es)[i..]).error;
    assert i < |ts| ==> ts[i..][0] == ts[i] && ts[i..][1..] == ts[i + 1..];
    assert i < |es| ==> EntryValues(es)[i..][0] == es[i].1 && EntryValues(es)[i..][1..] == EntryValues(es)[i + 1..];
    if i < |es| && i < |ts| && Encode(lib, ts[i], es[i].1).Ok? {
      MembersFault(lib, ts, es, i + 1);
    } else {
      assert CellFault(lib, ts, es, i, e);
    }
  }

  /** Refused rows are refused for the first fault of the first row that has one. */
  lemma {:induction false} FirstFaultIsReported(lib: Lib, ts: seq<Type>, rows: seq<Value>) returns (j: nat)
    requires EncodeRows(lib, ts, rows).Err?
    ensures j < |rows| && RowFault(lib, ts, rows[j], EncodeRows(lib, ts, rows).error)
    ensures forall k :: 0 <= k < j ==> RowAccepted(lib, ts, rows[k])
    decreases |rows|
  {
    hide Encode;
    var row := rows[0];
    if row.Arr? && EncodeMembers(lib, ts, EntryValues(row.entries)).Ok? {
      var k := FirstFaultIsReported(lib, ts, rows[1..]);
      j := k + 1;
      EncodeMembersPointwise(lib, ts, EntryValues(row.entries));
      assert forall i :: 0 <= i < |row.entries| ==> EntryValues(row.entries)[i] == row.entries[i].1;
      assert forall i :: 1 <= i < |rows| ==> rows[i] == rows[1..][i - 1];
    } else {
      j := 0;
      if row.Arr? {
        assert ts[0..] == ts && EntryValues(row.entries)[0..] == EntryValues(row.entries);
        MembersFault(lib, ts, row.entries, 0);
      }
    }
  }

  /** A sample with another number of columns than names is the caller's mistake, whatever the rows. */
  lemma {:induction false} WidthMismatchIsValueError(lib: Lib, at: Allocator, script: Script, width: nat,
                                                     rows: seq<Value>)
    requires script.sample.Ok? && |script.sample.value| != width
    ensures MemoFailure(lib, at, script, width, rows) == Some(ValidationError) == Failure(lib, script, width, rows)
    ensures !MemoSends(lib, at, script, width, rows) && Translated(ValidationError) == PhpValueError
  {
  }

  /** When the connection is given up, by what the network answers: never without a failure; at once if
      the failure poisons; else iff the closing EndInsert, the first or the second, fails too. */
  lemma {:induction false} AbandonedIff(script: Script, failure: Option<Exc>, wired: bool)
    requires Told(script, failure, wired)
    ensures wired && script.send.None? && script.end(0).None? ==> !Abandons(script, failure, wired)
    ensures wired && script.send.None? && script.end(0).Some? ==>
              (Abandons(script, failure, wired) <==> Poisons(script.end(0).value) || script.end(1).Some?)
    ensures wired && script.send.Some? ==>
              (Abandons(script, failure, wired) <==> Poisons(script.send.value) || script.end(0).Some?)
    ensures script.sample.Err? ==>
              (Abandons(script, failure, wired) <==> Poisons(script.sample.error) || script.end(0).Some?)
    ensures script.sample.Ok? && !wired && !Poisons(failure.value) ==>
              (Abandons(script, failure, wired) <==> script.end(0).Some?)
  {
  }
}
