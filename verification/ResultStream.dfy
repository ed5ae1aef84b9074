/** A streamed query result: blocks pulled one at a time, rows handed out one at a time, and
    the connection given back as soon as the stream is over. */
module ResultStream {
  import opened CellReader
  import opened Columns
  import opened Exceptions
  import opened PhpValues
  import opened ScalarCodec

  /** A block as the library delivers it. `faults(c, r)` is the exception, if any, that reading
      cell (c, r) out of a library column raises. */
  datatype Block = Block(names: seq<string>, types: seq<Type>, columns: seq<Column>, faults: (nat, nat) -> Option<Exc>)

  function RowCount(b: Block): nat {
    if b.columns == [] then 0 else Size(b.columns[0])
  }

  predicate BlockOk(b: Block) {
    && |b.names| == |b.types| == |b.columns|
    && forall c :: 0 <= c < |b.columns| ==> Typed(b.columns[c], b.types[c]) && Size(b.columns[c]) == RowCount(b)
  }

  function CellOf(lib: Lib, b: Block, c: nat, r: nat): Result<Value>
    requires BlockOk(b) && c < |b.columns| && r < RowCount(b)
  {
    if b.faults(c, r).Some? then Err(b.faults(c, r).value) else Ok(Decode(lib, b.types[c], Rows(b.columns[c])[r]))
  }

  /** The first n cells of a row under their column names, or the first exception. */
  function NamedCells(lib: Lib, b: Block, r: nat, n: nat): (cells: Result<Entries>)
    requires BlockOk(b) && n <= |b.columns| && r < RowCount(b)
    ensures cells.Ok? ==> |cells.value| == n && forall c :: 0 <= c < n ==> cells.value[c].0 == StrKey(b.names[c])
  {
    if n == 0 then Ok([])
    else
      match NamedCells(lib, b, r, n - 1)
      case Err(e) => Err(e)
      case Ok(cells) =>
        match CellOf(lib, b, n - 1, r)
        case Err(e) => Err(e)
        case Ok(v) => Ok(cells + [(StrKey(b.names[n - 1]), v)])
  }

  lemma {:induction false} NamedCellsStop(lib: Lib, b: Block, r: nat, n: nat, m: nat)
    requires BlockOk(b) && n <= m <= |b.columns| && r < RowCount(b)
    ensures NamedCells(lib, b, r, n).Err? ==> NamedCells(lib, b, r, m) == NamedCells(lib, b, r, n)
    decreases m
  {
    if n < m {
      NamedCellsStop(lib, b, r, n, m - 1);
    }
  }

  /** The array that the first n cells make; names that repeat share an entry. */
  function PartialRow(lib: Lib, b: Block, r: nat, n: nat): Result<Entries>
    requires BlockOk(b) && n <= |b.columns| && r < RowCount(b)
  {
    match NamedCells(lib, b, r, n)
    case Ok(cells) => Ok(Build(cells))
    case Err(e) => Err(e)
  }

  lemma {:induction false} PartialRowStep(lib: Lib, b: Block, r: nat, n: nat)
    requires BlockOk(b) && n < |b.columns| && r < RowCount(b) && PartialRow(lib, b, r, n).Ok?
    ensures match CellOf(lib, b, n, r)
            case Err(e) => PartialRow(lib, b, r, |b.columns|) == Err(e)
            case Ok(v) =>
              PartialRow(lib, b, r, n + 1) == Ok(Update(PartialRow(lib, b, r, n).value, StrKey(b.names[n]), v))
  {
    NamedCellsStop(lib, b, r, n + 1, |b.columns|);
    if CellOf(lib, b, n, r).Ok? {
      var cells := NamedCells(lib, b, r, n + 1).value;
      BuildStep(cells, n);
      assert cells[..n + 1] == cells && cells[..n] == NamedCells(lib, b, r, n).value;
    }
  }

  /** What fetching row r yields: an associative array, or an exception. */
  function RowOf(lib: Lib, b: Block, r: nat): Result<Entries>
    requires BlockOk(b) && r < RowCount(b)
  {
    PartialRow(lib, b, r, |b.columns|)
  }

  lemma {:induction false} PartialRowEnds(lib: Lib, b: Block, r: nat)
    requires BlockOk(b) && r < RowCount(b)
    ensures PartialRow(lib, b, r, 0) == Ok([]) && RowOf(lib, b, r) == PartialRow(lib, b, r, |b.columns|)
  {
  }

  /** The rows of a block from row r on. */
  function RowsFrom(lib: Lib, b: Block, r: nat): (items: seq<Result<Entries>>)
    requires BlockOk(b) && r <= RowCount(b)
    ensures |items| == RowCount(b) - r
  {
    seq(RowCount(b) - r, k requires 0 <= k < RowCount(b) - r => RowOf(lib, b, r + k))
  }

  lemma {:induction false} RowsFromStep(lib: Lib, b: Block, r: nat, onWire: seq<Result<Entries>>)
    requires BlockOk(b) && r < RowCount(b)
    ensures var items := RowsFrom(lib, b, r) + onWire;
            items != [] && items[0] == RowOf(lib, b, r) && items[1..] == RowsFrom(lib, b, r + 1) + onWire
  {
    assert RowsFrom(lib, b, r)[1..] == RowsFrom(lib, b, r + 1);
  }

  /** The pairs of row k of a block: under each column's name the value of that column's row k. */
  function RowPairs(lib: Lib, b: Block, k: nat): (pairs: Entries)
    requires BlockOk(b) && k < RowCount(b)
    ensures |pairs| == |b.columns|
  {
    seq(|b.columns|, c requires 0 <= c < |b.columns| =>
      (StrKey(b.names[c]), Decode(lib, b.types[c], Rows(b.columns[c])[k])))
  }

  /** Column c is the first whose cell in row k cannot be read, for reason e. */
  predicate FaultsFirst(b: Block, k: nat, c: int, e: Exc) {
    0 <= c < |b.columns| && b.faults(c, k) == Some(e) && forall d :: 0 <= d < c ==> b.faults(d, k).None?
  }

  ghost predicate CutShort(b: Block, k: nat, e: Exc) {
    exists c :: FaultsFirst(b, k, c, e)
  }

  /** What row k of a block is for a consumer: the array of its pairs if every cell can be read, else
      the exception of the first that cannot. */
  ghost predicate IsRow(lib: Lib, b: Block, k: nat, row: Result<Entries>)
    requires BlockOk(b) && k < RowCount(b)
  {
    match row
    case Ok(entries) =>
      && (forall c :: 0 <= c < |b.columns| ==> b.faults(c, k).None?)
      && entries == Build(RowPairs(lib, b, k))
    case Err(e) => CutShort(b, k, e)
  }

  predicate DistinctNames(b: Block) {
    forall c, d :: 0 <= c < d < |b.names| ==> b.names[c] != b.names[d]
  }

  /** Where no name repeats the array has exactly those entries, in column order. */
  lemma {:induction false} RowOfDistinctNames(lib: Lib, b: Block, k: nat, entries: Entries)
    requires BlockOk(b) && k < RowCount(b) && DistinctNames(b) && IsRow(lib, b, k, Ok(entries))
    ensures |entries| == |b.columns|
    ensures forall c :: 0 <= c < |entries| ==>
              entries[c] == (StrKey(b.names[c]), Decode(lib, b.types[c], Rows(b.columns[c])[k]))
  {
    var pairs := RowPairs(lib, b, k);
    assert DistinctKeys(pairs);
    BuildKeepsAllIff(pairs);
  }

  lemma {:induction false} NamedCellsMean(lib: Lib, b: Block, r: nat, n: nat)
    requires BlockOk(b) && n <= |b.columns| && r < RowCount(b)
    ensures match NamedCells(lib, b, r, n)
            case Ok(cells) =>
              (forall c :: 0 <= c < n ==> b.faults(c, r).None?) && cells == RowPairs(lib, b, r)[..n]
            case Err(e) => CutShort(b, r, e)
  {
    hide Decode, Rows, Typed;
    if n > 0 {
      NamedCellsMean(lib, b, r, n - 1);
      var before, pairs := NamedCells(lib, b, r, n - 1), RowPairs(lib, b, r);
      if before.Ok? {
        if b.faults(n - 1, r).Some? {
          assert FaultsFirst(b, r, n - 1, b.faults(n - 1, r).value);
          assert NamedCells(lib, b, r, n) == Err(b.faults(n - 1, r).value);
        } else {
          assert pairs[..n] == pairs[..n - 1] + [pairs[n - 1]];
        }
      }
    }
  }

  lemma {:induction false} RowOfIsRow(lib: Lib, b: Block, r: nat)
    requires BlockOk(b) && r < RowCount(b)
    ensures IsRow(lib, b, r, RowOf(lib, b, r))
  {
    NamedCellsMean(lib, b, r, |b.columns|);
    assert RowPairs(lib, b, r)[..|b.columns|] == RowPairs(lib, b, r);
  }

  predicate BlocksOk(bs: seq<Block>) {
    forall i :: 0 <= i < |bs| ==> BlockOk(bs[i])
  }

  /** All rows of all blocks: the result set, whatever its split into blocks. */
  function Flatten(lib: Lib, bs: seq<Block>): seq<Result<Entries>>
    requires BlocksOk(bs)
  {
    if bs == [] then [] else RowsFrom(lib, bs[0], 0) + Flatten(lib, bs[1..])
  }

  lemma {:induction false} FlattenStep(lib: Lib, bs: seq<Block>)
    requires BlocksOk(bs) && bs != []
    ensures Flatten(lib, bs) == RowsFrom(lib, bs[0], 0) + Flatten(lib, bs[1..])
    ensures RowCount(bs[0]) == 0 ==> Flatten(lib, bs) == Flatten(lib, bs[1..])
  {
  }

  lemma {:induction false} FlattenNothing(lib: Lib)
    ensures Flatten(lib, []) == []
  {
  }

  /** The items of several blocks are those of each block in turn. */
  lemma {:induction false} FlattenAppend(lib: Lib, a: seq<Block>, b: seq<Block>)
    requires BlocksOk(a) && BlocksOk(b)
    ensures Flatten(lib, a + b) == Flatten(lib, a) + Flatten(lib, b)
    decreases |a|
  {
    hide RowsFrom;
    if a == [] {
      assert a + b == b && [] + Flatten(lib, b) == Flatten(lib, b);
    } else {
      FlattenAppend(lib, a[1..], b);
      assert (a + b)[1..] == a[1..] + b;
      assert RowsFrom(lib, a[0], 0) + (Flatten(lib, a[1..]) + Flatten(lib, b))
          == RowsFrom(lib, a[0], 0) + Flatten(lib, a[1..]) + Flatten(lib, b);
    }
  }

  /** One item for each row of a block, in the order of the rows: what the row is. */
  lemma {:induction false} ItemsAreRows(lib: Lib, b: Block, k: nat)
    requires BlockOk(b) && k < RowCount(b)
    ensures |Flatten(lib, [b])| == RowCount(b) && IsRow(lib, b, k, Flatten(lib, [b])[k])
    ensures Flatten(lib, [b])[k].Ok? <==> forall c :: 0 <= c < |b.columns| ==> b.faults(c, k).None?
  {
    RowOfIsRow(lib, b, k);
    assert [b][1..] == [] && Flatten(lib, [b]) == RowsFrom(lib, b, 0) + Flatten(lib, []);
  }

  /** The result set of any blocks, at row k of block i: what that row of that block is. */
  lemma {:induction false} ResultSetIsTheBlocks(lib: Lib, bs: seq<Block>, i: nat, k: nat)
    requires BlocksOk(bs) && i < |bs| && k < RowCount(bs[i])
    ensures var before := |Flatten(lib, bs[..i])|;
            && before + k < |Flatten(lib, bs)| && IsRow(lib, bs[i], k, Flatten(lib, bs)[before + k])
    ensures |Flatten(lib, bs[..i + 1])| == |Flatten(lib, bs[..i])| + RowCount(bs[i])
  {
    hide Flatten, IsRow;
    ItemsAreRows(lib, bs[i], k);
    FlattenAppend(lib, bs[..i], [bs[i]]);
    assert bs[..i] + [bs[i]] == bs[..i + 1];
    FlattenAppend(lib, bs[..i + 1], bs[i + 1..]);
    assert bs[..i + 1] + bs[i + 1..] == bs;
  }

  /** The first n blocks, all without rows, have been pulled. */
  ghost predicate Skipped(blocks: seq<Block>, unread: seq<Block>, n: nat) {
    n <= |blocks| && unread == blocks[n..] && forall i :: 0 <= i < n ==> RowCount(blocks[i]) == 0
  }

  lemma {:induction false} SkipOne(blocks: seq<Block>, unread: seq<Block>, n: nat)
    requires Skipped(blocks, unread, n) && unread != []
    ensures n < |blocks| && unread[0] == blocks[n] && |unread[1..]| + n + 1 == |blocks|
    ensures RowCount(unread[0]) == 0 ==> Skipped(blocks, unread[1..], n + 1)
  {
  }

  /** A block without rows changes nothing, wherever in the stream it comes. */
  lemma {:induction false} EmptyBlocksVanish(lib: Lib, before: seq<Block>, empty: Block, after: seq<Block>)
    requires BlocksOk(before) && BlockOk(empty) && RowCount(empty) == 0 && BlocksOk(after)
    ensures Flatten(lib, before + [empty] + after) == Flatten(lib, before + after)
    decreases |before|
  {
    if before == [] {
      FlattenStep(lib, [empty] + after);
      assert ([empty] + after)[1..] == after;
      assert [] + [empty] + after == [empty] + after && [] + after == after;
    } else {
      EmptyBlocksVanish(lib, before[1..], empty, after);
      assert (before + [empty] + after)[1..] == before[1..] + [empty] + after;
      assert (before + after)[1..] == before[1..] + after;
    }
  }

  /** The rows a consumer can get out of a stream: those before the first that cannot be read. */
  function Readable(items: seq<Result<Entries>>): (rows: seq<Entries>)
    ensures |rows| <= |items|
  {
    if items == [] || items[0].Err? then [] else [items[0].value] + Readable(items[1..])
  }

  lemma {:induction false} NothingReadable(items: seq<Result<Entries>>)
    requires items == [] || items[0].Err?
    ensures Readable(items) == []
  {
  }

  /** Rows come one for one from the front, and stop for good at the first unreadable row. */
  lemma {:induction false} ReadableIsLongestPrefix(items: seq<Result<Entries>>)
    ensures forall i :: 0 <= i < |Readable(items)| ==> items[i] == Ok(Readable(items)[i])
    ensures |Readable(items)| < |items| ==> items[|Readable(items)|].Err?
  {
    if items != [] && items[0].Ok? {
      ReadableIsLongestPrefix(items[1..]);
    }
  }

  /** The exception that ends a stream for a consumer who takes all it can: that of the first row
      that cannot be read, else the network's if the stream is not over yet. */
  function Cause(items: seq<Result<Entries>>, done: bool, fin: Option<Exc>): Option<Exc> {
    if items == [] then (if done then None else fin)
    else if items[0].Err? then Some(items[0].error)
    else Cause(items[1..], done, fin)
  }

  lemma {:induction false} CauseIsFirstUnreadable(items: seq<Result<Entries>>, done: bool, fin: Option<Exc>)
    ensures var n := |Readable(items)|;
            n <= |items| && Cause(items, done, fin) ==
              if n < |items| && items[n].Err? then Some(items[n].error) else if done then None else fin
  {
    if items != [] && items[0].Ok? {
      CauseIsFirstUnreadable(items[1..], done, fin);
    }
  }

  /** How the network answers one query. */
  datatype Script = Script(begin: Option<Exc>, blocks: seq<Block>, fin: Option<Exc>)

  /** The connection as this query sees it; `ended` once end-of-stream or an error came. */
  class Connection {
    const script: Script
    var unread: seq<Block>
    var ended: bool
    var broken: bool
    var returned: bool

    constructor (script: Script)
      ensures this.script == script && unread == script.blocks && !ended && !broken && !returned
    {
      this.script := script;
      unread := script.blocks;
      ended, broken, returned := false, false, false;
    }

    /** Only the owner may pull, and never past the end of the response. */
    method NextBlock() returns (next: Result<Option<Block>>)
      requires !returned && !ended
      modifies `unread, `ended
      ensures if old(unread) != []
              then next == Ok(Some(old(unread)[0])) && unread == old(unread)[1..] && !ended
              else unread == [] && ended
                   && next == if script.fin.Some? then Err(script.fin.value) else Ok(None)
    {
      if unread != [] {
        next := Ok(Some(unread[0]));
        unread := unread[1..];
      } else {
        ended := true;
        next := if script.fin.Some? then Err(script.fin.value) else Ok(None);
      }
    }

    /** Give the connection back to the pool; once only. */
    method Return()
      requires !returned
      modifies `returned
      ensures returned
    {
      returned := true;
    }
  }

  datatype Outcome = Row(row: Entries) | Ended | Threw(error: Exc)

  /** What one fetch does to the rows to come. Row: it is the front of them. Ended: there are
      none, and the stream was over or ends now. Threw: the front cannot be read, and stays in
      front; or nothing is left and the network fails. */
  predicate Fetched(outcome: Outcome, before: seq<Result<Entries>>, after: seq<Result<Entries>>, done: bool,
                    fin: Option<Exc>) {
    match outcome
    case Row(r) => before != [] && before[0] == Ok(r) && after == before[1..]
    case Ended => before == after == [] && (done || fin.None?)
    case Threw(e) =>
      if before == [] then !done && fin == Some(e) && after == []
      else before[0] == Err(e) && after != [] && after[0] == Err(e)
  }

  lemma {:induction false} Associative(a: seq<Entries>, b: seq<Entries>, c: seq<Entries>)
    ensures a + (b + c) == a + b + c
  {
  }

  /** The row that a fetch hands out, if any. */
  function Given(outcome: Outcome): seq<Entries> {
    if outcome.Row? then [outcome.row] else []
  }

  function Thrown(outcome: Outcome): Option<Exc> {
    if outcome.Threw? then Some(outcome.error) else None
  }

  lemma {:induction false} FetchKeepsReadable(outcome: Outcome, before: seq<Result<Entries>>,
                                              after: seq<Result<Entries>>, done: bool, fin: Option<Exc>)
    requires Fetched(outcome, before, after, done, fin)
    ensures Readable(before) == Given(outcome) + Readable(after)
  {
  }

  class ChResult {
    const lib: Lib
    const conn: Connection
    var block: Block
    var row: nat
    var rows: nat
    var done: bool
    var broken: bool
    var released: bool
    ghost var delivered: seq<Entries>

    ghost predicate Valid()
      reads this, conn
    {
      && BlockOk(block) && BlocksOk(conn.unread) && BlocksOk(conn.script.blocks)
      && row <= rows == RowCount(block)
      && (done <==> released) && (released <==> conn.returned)
      && (conn.ended ==> done) && (!done ==> !broken)
    }

    /** What is still to come: the rest of this block, and of the blocks on the wire. */
    ghost function Pending(): seq<Result<Entries>>
      requires Valid()
      reads this, conn
    {
      RowsFrom(lib, block, row) + if done then [] else Flatten(lib, conn.unread)
    }

    /** Rows handed out and rows to come make up the result set, at every moment. */
    ghost predicate Faithful()
      requires Valid()
      reads this, conn
    {
      delivered + Readable(Pending()) == Readable(Flatten(lib, conn.script.blocks))
    }

    constructor (lib: Lib, conn: Connection)
      requires BlocksOk(conn.script.blocks) && conn.unread == conn.script.blocks
      requires !conn.ended && !conn.returned
      ensures this.lib == lib && this.conn == conn && !done && !broken && delivered == []
      ensures Valid() && Faithful() && Pending() == Flatten(lib, conn.script.blocks) && row == rows
    {
      this.lib, this.conn := lib, conn;
      block := Block([], [], [], (c, r) => None);
      row, rows := 0, 0;
      done, broken, released := false, false, false;
      delivered := [];
      new;
      assert Pending() == Flatten(lib, conn.script.blocks);
    }

    method Release()
      requires released <==> conn.returned
      modifies `released, conn`broken, conn`returned
      ensures released && conn.returned
      ensures conn.broken == (old(conn.broken) || (!old(released) && broken))
    {
      if released {
        return;
      }
      if broken {
        conn.broken := true;
      }
      conn.Return();
      released := true;
    }

    /** End of stream: the connection goes back to the pool, once. */
    method Finish()
      requires released <==> conn.returned
      modifies `done, `released, conn`broken, conn`returned
      ensures done && released && conn.returned
      ensures conn.broken == (old(conn.broken) || (!old(released) && broken))
    {
      done := true;
      Release();
    }

    method LoadBlock(next: Block)
      requires BlockOk(next)
      modifies `block, `row, `rows
      ensures block == next && row == 0 && rows == RowCount(next)
    {
      block, row, rows := next, 0, RowCount(next);
    }

    /** What the catch clauses do before the exception is translated. */
    method Caught(e: Exc)
      requires released <==> conn.returned
      modifies `broken, `done, `released, conn`broken, conn`returned
      ensures broken == Poisons(e) && done && released && conn.returned
      ensures conn.broken == (old(conn.broken) || (!old(released) && Poisons(e)))
    {
      broken := Poisons(e);
      Finish();
    }

    /** Begin the query and pull up to the first block that has rows. */
    method Start() returns (thrown: Option<Exc>, ghost skipped: nat)
      requires Valid() && Faithful() && !done && delivered == [] && row == rows && conn.unread == conn.script.blocks
      modifies this, conn
      ensures Valid() && delivered == []
      ensures thrown.None? ==> Faithful() && Pending() == old(Pending()) && conn.broken == old(conn.broken)
      ensures thrown.None? ==> conn.script.begin.None? && (done <==> Pending() == [])
      ensures thrown.Some? ==> done && conn.broken == (old(conn.broken) || Poisons(thrown.value))
      ensures thrown.Some? ==> thrown == conn.script.begin || (thrown == conn.script.fin && old(Pending()) == [])
      ensures if conn.script.begin.Some?
              then thrown == conn.script.begin && broken == Poisons(thrown.value)
              else Primed(thrown, old(conn.unread), skipped)
                   && thrown == if old(Pending()) == [] then conn.script.fin else None
    {
      skipped := 0;
      if conn.script.begin.Some? {
        Caught(conn.script.begin.value);
        return conn.script.begin, skipped;
      }
      thrown, skipped := Prime();
    }

    /** Where priming has come to in the blocks: behind `skipped` empty ones, at the first that has
        rows, or at the end. */
    ghost predicate Primed(thrown: Option<Exc>, blocks: seq<Block>, skipped: nat)
      reads this, conn
    {
      && skipped <= |blocks| && (forall i :: 0 <= i < skipped ==> RowCount(blocks[i]) == 0)
      && match thrown
         case None =>
           if done then !broken && skipped == |blocks| && row == rows
           else !broken && skipped < |blocks| && |conn.unread| + skipped + 1 == |blocks| && row == 0 < rows
         case Some(e) => broken == Poisons(e) && skipped == |blocks| && thrown == conn.script.fin
    }

    /** The priming loop: empty blocks are skipped, no data at all is a result without rows. */
    method Prime() returns (thrown: Option<Exc>, ghost skipped: nat)
      requires Valid() && !done && row == rows
      modifies `block, `row, `rows, `broken, `done, `released, conn
      ensures Valid()
      ensures thrown.None? ==> Pending() == old(Pending()) && conn.broken == old(conn.broken)
      ensures thrown.None? ==> (done <==> Pending() == [])
      ensures thrown.Some? ==> done && conn.broken == (old(conn.broken) || Poisons(thrown.value))
      ensures thrown == if old(Pending()) == [] then conn.script.fin else None
      ensures Primed(thrown, old(conn.unread), skipped)
    {
      hide Flatten, RowsFrom, RowOf, Readable, Cause;
      FlattenNothing(lib);
      ghost var blocks := conn.unread;
      skipped := 0;
      while true
        invariant Valid() && !done && row == rows
        invariant conn.broken == old(conn.broken)
        invariant Flatten(lib, conn.unread) == old(Pending())
        invariant Skipped(blocks, conn.unread, skipped)
        decreases |conn.unread|
      {
        ghost var unread := conn.unread;
        var next := conn.NextBlock();
        if next.Err? {
          Caught(next.error);
          return Some(next.error), skipped;
        }
        if next.value.None? {
          Finish();
          return None, skipped;
        }
        FlattenStep(lib, unread);
        SkipOne(blocks, unread, skipped);
        if RowCount(next.value.value) > 0 {
          LoadBlock(next.value.value);
          return None, skipped;
        }
        skipped := skipped + 1;
      }
    }

    /** The cells of the current row, each read and entered under its column's name. */
    method ReadRow() returns (r: Result<Entries>)
      requires Valid() && row < rows
      ensures r == RowOf(lib, block, row) && IsRow(lib, block, row, r)
    {
      hide RowOf, IsRow, Decode, NamedCells;
      RowOfIsRow(lib, block, row);
      PartialRowEnds(lib, block, row);
      var acc: Entries := [];
      var c := 0;
      while c < |block.columns|
        invariant c <= |block.columns|
        invariant PartialRow(lib, block, row, c) == Ok(acc)
      {
        PartialRowStep(lib, block, row, c);
        if block.faults(c, row).Some? {
          return Err(block.faults(c, row).value);
        }
        var value := ColumnValueToZval(lib, block.columns[c], block.types[c], row);
        acc := Update(acc, StrKey(block.names[c]), value);
        c := c + 1;
      }
      r := Ok(acc);
    }

    /** The row at hand, or the exception that reading it raises. */
    method TakeRow() returns (outcome: Outcome)
      requires Valid() && row < rows
      modifies `row, `broken, `done, `released, conn`broken, conn`returned
      ensures Valid() && old(Pending()) != []
      ensures match outcome
              case Row(r) =>
                && old(Pending())[0] == Ok(r) && Pending() == old(Pending())[1..]
                && done == old(done) && conn.broken == old(conn.broken)
              case Ended => false
              case Threw(e) =>
                && old(Pending())[0] == Err(e) && Pending() != [] && Pending()[0] == Err(e) && done
                && broken == Poisons(e) && conn.broken == (old(conn.broken) || (!old(done) && Poisons(e)))
      ensures rows == old(rows) && row == old(row) + if outcome.Row? then 1 else 0
      ensures outcome.Row? ==> broken == old(broken)
    {
      hide RowsFrom, Flatten, RowOf;
      RowsFromStep(lib, block, row, if done then [] else Flatten(lib, conn.unread));
      RowsFromStep(lib, block, row, []);
      var r := ReadRow();
      if r.Err? {
        Caught(r.error);
        return Threw(r.error);
      }
      row := row + 1;
      outcome := Row(r.value);
    }

    /** One NextBlock: the next block is loaded, or the stream is over. */
    method Pull() returns (outcome: Option<Outcome>)
      requires Valid() && row == rows && !done
      modifies `block, `row, `rows, `broken, `done, `released, conn
      ensures Valid() && old(Pending()) == Pending() && conn.broken == (old(conn.broken) || (done && broken))
      ensures match outcome
              case None => !done && row == 0 && |conn.unread| + 1 == |old(conn.unread)|
              case Some(Ended) => Pending() == [] && done && conn.script.fin.None? && !broken
              case Some(Threw(e)) => Pending() == [] && done && conn.script.fin == Some(e) && broken == Poisons(e)
              case Some(Row(_)) => false
      ensures outcome.Some? ==> row == rows == old(rows) && old(conn.unread) == []
    {
      ghost var unread := conn.unread;
      var next := conn.NextBlock();
      if next.Err? {
        Caught(next.error);
        return Some(Threw(next.error));
      }
      if next.value.None? {
        Finish();
        return Some(Ended);
      }
      FlattenStep(lib, unread);
      LoadBlock(next.value.value);
      outcome := None;
    }

    /** The fetch loop: hand out the row at hand, else stop if done, else pull. */
    method Advance() returns (outcome: Outcome)
      requires Valid()
      modifies `block, `row, `rows, `broken, `done, `released, conn
      ensures Valid() && Fetched(outcome, old(Pending()), Pending(), old(done), conn.script.fin)
      ensures done <==> old(done) || !outcome.Row?
      ensures old(done) ==> conn.unread == old(conn.unread) && conn.broken == old(conn.broken)
      ensures !old(done) ==> conn.broken == (old(conn.broken) || (outcome.Threw? && Poisons(outcome.error)))
    {
      while true
        invariant Valid() && Pending() == old(Pending())
        invariant done == old(done) && conn.broken == old(conn.broken)
        invariant done ==> conn.unread == old(conn.unread)
        decreases |conn.unread|
      {
        if row < rows {
          outcome := TakeRow();
          return;
        }
        if done {
          return Ended;
        }
        var last := Pull();
        if last.Some? {
          return last.value;
        }
      }
    }

    /** Fetch the next row; see Fetched. Between calls the rows delivered and those to come make
        up the result set, and a released connection is not touched again. */
    method Next() returns (outcome: Outcome)
      requires Valid() && Faithful()
      modifies this, conn
      ensures Valid() && Faithful() && Fetched(outcome, old(Pending()), Pending(), old(done), conn.script.fin)
      ensures delivered == old(delivered) + Given(outcome)
      ensures Readable(old(Pending())) == Given(outcome) + Readable(Pending())
      ensures Thrown(outcome) == if outcome.Row? then None else Cause(old(Pending()), old(done), conn.script.fin)
      ensures outcome.Row? ==>
                Cause(old(Pending()), old(done), conn.script.fin) == Cause(Pending(), done, conn.script.fin)
      ensures done <==> old(done) || !outcome.Row?
      ensures old(done) ==> conn.unread == old(conn.unread) && conn.broken == old(conn.broken)
      ensures !old(done) ==> conn.broken == (old(conn.broken) || (outcome.Threw? && Poisons(outcome.error)))
    {
      ghost var before := Pending();
      outcome := Advance();
      FetchKeepsReadable(outcome, before, Pending(), old(done), conn.script.fin);
      Associative(delivered, Given(outcome), Readable(Pending()));
      delivered := delivered + Given(outcome);
    }

    /** Drop the result. An unfinished stream leaves a half-read connection, which is broken. */
    method Free()
      requires Valid()
      modifies this, conn
      ensures released && conn.returned
      ensures conn.broken == (old(conn.broken) || !old(done))
    {
      if !released {
        if !done {
          broken := true;
        }
        Release();
      }
    }
  }

  /* ---- the Result object: fetch, fetchAll, fetchOne, and the iterator ---- */

  function Enumerate(base: int, rows: seq<Entries>): (pairs: seq<(int, Entries)>)
    ensures |pairs| == |rows| && forall i :: 0 <= i < |rows| ==> pairs[i] == (base + i, rows[i])
    decreases |rows|
  {
    if rows == [] then [] else [(base, rows[0])] + Enumerate(base + 1, rows[1..])
  }

  /** The value under a key, if any. */
  function Find(es: Entries, k: Key): Option<Value> {
    if es == [] then None else if es[0].0 == k then Some(es[0].1) else Find(es[1..], k)
  }

  /** What fetchOne picks from a row: index 0, else the element the array cursor is on. */
  function FirstOf(row: Entries): Value {
    if Find(row, IntKey(0)).Some? then Find(row, IntKey(0)).value
    else if row != [] then row[0].1
    else Null
  }

  class ResultObject {
    const result: ChResult
    var current: Option<Entries>
    var pos: int
    var valid: bool
    var started: bool

    ghost predicate Valid()
      reads this, result, result.conn
    {
      && result.Valid() && result.Faithful()
      && (valid <==> current.Some?) && pos >= (if valid then 0 else -1)
      && (started && !valid ==> Readable(result.Pending()) == [])
    }

    /** The rows a foreach over this object still has to visit. */
    ghost function Ahead(): seq<Entries>
      requires Valid()
      reads this, result, result.conn
    {
      (if started && valid then [current.value] else []) + Readable(result.Pending())
    }

    /** The key that the first of them will have. */
    function NextKey(): int
      reads this
    {
      if started && valid then pos else pos + 1
    }

    constructor (result: ChResult)
      requires result.Valid() && result.Faithful()
      ensures Valid() && this.result == result && !started && NextKey() == 0 && Ahead() == Readable(result.Pending())
    {
      this.result := result;
      current, pos, valid, started := None, -1, false, false;
      new;
      assert [] + Readable(result.Pending()) == Readable(result.Pending());
    }

    /** What cuts the stream short, if anything does. */
    ghost function Ending(): Option<Exc>
      requires result.Valid()
      reads this, result, result.conn
    {
      Cause(result.Pending(), result.done, result.conn.script.fin)
    }

    /** Every remaining row, once and in order; or an exception, and then the engine drops them. */
    method FetchAll() returns (all: seq<Entries>, thrown: Option<Exc>)
      requires Valid()
      modifies result, result.conn
      ensures Valid() && result.done && Readable(result.Pending()) == []
      ensures all == Readable(old(result.Pending())) && result.delivered == old(result.delivered) + all
      ensures thrown == old(Ending())
    {
      all, thrown := [], None;
      while true
        invariant result.Valid() && result.Faithful() && thrown.None?
        invariant all + Readable(result.Pending()) == Readable(old(result.Pending()))
        invariant result.delivered == old(result.delivered) + all
        invariant Ending() == old(Ending())
        decreases |result.Pending()|
      {
        var outcome := result.Next();
        Associative(all, Given(outcome), Readable(result.Pending()));
        Associative(old(result.delivered), all, Given(outcome));
        all := all + Given(outcome);
        if !outcome.Row? {
          thrown := Thrown(outcome);
          return;
        }
      }
    }

    /** One value: of the next row, the element that FirstOf picks. */
    method FetchOne() returns (value: Value, thrown: Option<Exc>)
      requires Valid()
      modifies result, result.conn
      ensures Valid()
      ensures var rows := Readable(old(result.Pending()));
              && value == (if rows != [] then FirstOf(rows[0]) else Null)
              && Readable(result.Pending()) == (if rows != [] then rows[1..] else [])
              && thrown == (if rows != [] then None else old(Ending()))
    {
      var outcome := result.Next();
      match outcome
      case Row(r) => value, thrown := FirstOf(r), None;
      case Ended => value, thrown := Null, None;
      case Threw(e) => value, thrown := Null, Some(e);
    }

    /** Move the iterator's lookahead to the next row. */
    method Advance() returns (thrown: Option<Exc>)
      requires result.Valid() && result.Faithful() && pos >= -1
      modifies this, result, result.conn
      ensures Valid() && started == old(started)
      ensures var rows := Readable(old(result.Pending()));
              if rows == [] then
                !valid && pos == old(pos) && Readable(result.Pending()) == [] && thrown == old(Ending())
              else
                && valid && current == Some(rows[0]) && pos == old(pos) + 1
                && Readable(result.Pending()) == rows[1..] && thrown.None? && Ending() == old(Ending())
    {
      hide Cause, Flatten, RowsFrom, Readable;
      current := None;
      var outcome := result.Next();
      if !outcome.Row? {
        NothingReadable(result.Pending());
      }
      thrown := None;
      match outcome {
        case Row(r) =>
          current, valid, pos := Some(r), true, pos + 1;
        case Ended =>
          valid := false;
        case Threw(e) =>
          valid, thrown := false, Some(e);
      }
    }

    /** Single pass: only the first rewind fetches a row. */
    method Rewind() returns (thrown: Option<Exc>)
      requires Valid()
      modifies this, result, result.conn
      ensures Valid() && started && Ahead() == old(Ahead())
      ensures (valid <==> Ahead() != []) && (valid ==> NextKey() == old(NextKey()))
      ensures old(started) ==> current == old(current) && pos == old(pos) && valid == old(valid)
      ensures thrown == if old(started) || Ahead() != [] then None else old(Ending())
      ensures valid ==> Ending() == old(Ending())
    {
      thrown := None;
      if !started {
        started := true;
        thrown := Advance();
      }
    }

    /** The step a foreach makes: on to the next row still ahead, under the next key. */
    method Step() returns (thrown: Option<Exc>)
      requires Valid() && started && valid
      modifies this, result, result.conn
      ensures Valid() && started && old(Ahead()) != [] && Ahead() == old(Ahead())[1..]
      ensures valid <==> Ahead() != []
      ensures valid ==> NextKey() == old(NextKey()) + 1 && thrown.None? && Ending() == old(Ending())
      ensures !valid ==> thrown == old(Ending())
    {
      ghost var ahead := Ahead();
      thrown := Advance();
      assert Ahead() == ahead[1..];
    }

    /** What the engine does with the object in a foreach; the exception that cut it short, if any. */
    method Foreach() returns (visited: seq<(int, Entries)>, thrown: Option<Exc>)
      requires Valid()
      modifies this, result, result.conn
      ensures Valid() && started && !valid && Ahead() == []
      ensures visited == Enumerate(old(NextKey()), old(Ahead()))
      ensures thrown == if old(started) && !old(valid) then None else old(Ending())
    {
      hide Readable, Cause, Enumerate, ChResult.Valid, ChResult.Faithful, ChResult.Pending;
      ghost var key, ahead := NextKey(), Ahead();
      ghost var whole := Enumerate(key, ahead);
      visited := [];
      assert visited + whole == whole;
      thrown := Rewind();
      while valid
        invariant Valid() && started && ahead == Ahead() && (valid <==> ahead != [])
        invariant valid ==> key == NextKey()
        invariant visited + Enumerate(key, ahead) == whole
        invariant valid ==> thrown.None? && Ending() == old(Ending())
        invariant !valid ==> thrown == if old(started) && !old(valid) then None else old(Ending())
        decreases |ahead|
      {
        EnumerateStep(visited, key, ahead);
        visited := visited + [(pos, current.value)];
        thrown := Step();
        key, ahead := key + 1, ahead[1..];
      }
      assert visited + [] == visited;
    }
  }

  lemma {:induction false} EnumerateStep(before: seq<(int, Entries)>, base: int, rows: seq<Entries>)
    requires rows != []
    ensures before + Enumerate(base, rows) == before + [(base, rows[0])] + Enumerate(base + 1, rows[1..])
  {
    var first, rest := [(base, rows[0])], Enumerate(base + 1, rows[1..]);
    assert before + (first + rest) == before + first + rest;
  }

  /* ---- duplicate column names ---- */

  /** The last of the first n pairs that has the key of pair 0. */
  function LastLikeFirst(pairs: Entries, n: nat): (k: nat)
    requires 0 < n <= |pairs|
    ensures k < n && pairs[k].0 == pairs[0].0
    ensures forall i :: k < i < n ==> pairs[i].0 != pairs[0].0
  {
    if pairs[n - 1].0 == pairs[0].0 then n - 1 else LastLikeFirst(pairs, n - 1)
  }

  lemma {:induction false} BuildFirst(pairs: Entries, n: nat)
    requires 0 < n <= |pairs|
    ensures Build(pairs[..n]) != [] && Build(pairs[..n])[0] == (pairs[0].0, pairs[LastLikeFirst(pairs, n)].1)
    ensures (forall i :: 0 <= i < n ==> pairs[i].0.StrKey?) ==> Find(Build(pairs[..n]), IntKey(0)).None?
  {
    BuildStep(pairs, n - 1);
    if n == 1 {
      assert pairs[..0] == [];
    } else {
      BuildFirst(pairs, n - 1);
    }
    if pairs[n - 1].0.StrKey? {
      FindUpdate(Build(pairs[..n - 1]), pairs[n - 1].0, pairs[n - 1].1, IntKey(0));
    }
  }

  lemma {:induction false} FindUpdate(es: Entries, k: Key, v: Value, other: Key)
    requires k != other
    ensures Find(Update(es, k, v), other) == Find(es, other)
  {
    if es != [] && es[0].0 != k {
      FindUpdate(es[1..], k, v, other);
    }
  }

  lemma {:induction false} NamedCellsAre(lib: Lib, b: Block, r: nat, n: nat)
    requires BlockOk(b) && n <= |b.columns| && r < RowCount(b) && NamedCells(lib, b, r, n).Ok?
    ensures forall c :: 0 <= c < n ==> CellOf(lib, b, c, r) == Ok(NamedCells(lib, b, r, n).value[c].1)
  {
    if n > 0 {
      NamedCellsAre(lib, b, r, n - 1);
    }
  }

  /** Column c is the last one that has column 0's name. */
  predicate LastNamesake(b: Block, c: nat) {
    c < |b.names| && b.names[c] == b.names[0] && forall i :: c < i < |b.names| ==> b.names[i] != b.names[0]
  }

  /** fetchOne reads, at the place of column 0, the last column that has its name; so it gives
      column 0 of the row iff that one holds the same value there. */
  lemma {:induction false} FetchOnePicksLastNamesake(lib: Lib, b: Block, r: nat, c: nat)
    requires BlockOk(b) && r < RowCount(b) && RowOf(lib, b, r).Ok? && LastNamesake(b, c)
    ensures FirstOf(RowOf(lib, b, r).value) == Decode(lib, b.types[c], Rows(b.columns[c])[r])
    ensures FirstOf(RowOf(lib, b, r).value) == Decode(lib, b.types[0], Rows(b.columns[0])[r])
            <==> Decode(lib, b.types[0], Rows(b.columns[0])[r]) == Decode(lib, b.types[c], Rows(b.columns[c])[r])
  {
    var n := |b.columns|;
    var cells := NamedCells(lib, b, r, n).value;
    assert cells[..n] == cells;
    BuildFirst(cells, n);
    NamedCellsAre(lib, b, r, n);
    var k := LastLikeFirst(cells, n);
    assert cells[k].0 == StrKey(b.names[k]) && cells[c].0 == StrKey(b.names[c]);
    assert k == c;
  }

  /** The failing case: two columns of one name. fetchOne gives the second. */
  lemma {:induction false} FetchOneMissesColumn0(lib: Lib)
    ensures var b := Block(["n", "n"], [Sc(BoolT), Sc(BoolT)],
                           [Flat(BoolT, [BoolCell(true)]), Flat(BoolT, [BoolCell(false)])], (c, r) => None);
            && BlockOk(b) && RowCount(b) == 1 && CellOf(lib, b, 0, 0) == Ok(Bool(true))
            && RowOf(lib, b, 0).Ok? && FirstOf(RowOf(lib, b, 0).value) == Bool(false)
  {
    var b := Block(["n", "n"], [Sc(BoolT), Sc(BoolT)],
                   [Flat(BoolT, [BoolCell(true)]), Flat(BoolT, [BoolCell(false)])], (c, r) => None);
    assert BlockOk(b);
    assert CellOf(lib, b, 0, 0) == Ok(Bool(true)) && CellOf(lib, b, 1, 0) == Ok(Bool(false));
    assert NamedCells(lib, b, 0, 0) == Ok([]) && NamedCells(lib, b, 0, 1).Ok?;
    assert NamedCells(lib, b, 0, 2).Ok?;
    FetchOnePicksLastNamesake(lib, b, 0, 1);
  }
}
