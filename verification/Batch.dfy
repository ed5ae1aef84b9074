/** A batch: rows gathered on one pinned connection, each flush a complete insert of its own. */
module Batch {
  import opened Columns
  import opened Exceptions
  import opened Insert
  import opened MemoRun
  import opened PhpValues
  import opened ScalarCodec

  /* ---- the batch as a value, and its runs ---- */

  /** `acked` are the rows of each acknowledged flush, `sent` those of each block on the wire. */
  datatype State = State(width: nat, pending: seq<Value>, acked: seq<seq<Value>>, sent: seq<seq<Value>>, broken: bool)

  function Empty(width: nat): State {
    State(width, [], [], [], false)
  }

  /** What became of a flush: it failed before its block was sent, after it, or not at all. */
  datatype Fate = Unsent | Lost | Acked

  /** One call: a row offered, or a flush with the fate that the insert had. */
  datatype Op = AppendRow(row: Value) | Flush(fate: Fate, broke: bool)

  predicate WellShaped(width: nat, row: Value) {
    row.Arr? && |row.entries| == width
  }

  function Step(s: State, op: Op): State {
    match op
    case AppendRow(row) => if WellShaped(s.width, row) then s.(pending := s.pending + [row]) else s
    case Flush(fate, broke) =>
      if s.pending == [] then s
      else
        s.(pending := if fate.Acked? then [] else s.pending,
           acked := if fate.Acked? then s.acked + [s.pending] else s.acked,
           sent := if fate.Unsent? then s.sent else s.sent + [s.pending],
           broken := s.broken || broke)
  }

  function Run(s: State, ops: seq<Op>): State
    decreases |ops|
  {
    if ops == [] then s else Run(Step(s, ops[0]), ops[1..])
  }

  /** The rows that a run's appends offered in the right shape. */
  function Offered(width: nat, ops: seq<Op>): seq<Value> {
    if ops == [] then []
    else (if ops[0].AppendRow? && WellShaped(width, ops[0].row) then [ops[0].row] else []) + Offered(width, ops[1..])
  }

  function Concat(blocks: seq<seq<Value>>): seq<Value> {
    if blocks == [] then [] else Concat(blocks[..|blocks| - 1]) + blocks[|blocks| - 1]
  }

  /** All rows the batch has taken: those acknowledged by flushes, then those pending. */
  function Taken(s: State): seq<Value> {
    Concat(s.acked) + s.pending
  }

  lemma {:induction false} StepTakes(s: State, op: Op)
    ensures Taken(Step(s, op))
            == Taken(s) + if op.AppendRow? && WellShaped(s.width, op.row) then [op.row] else []
  {
    match op
    case AppendRow(row) =>
      assert Concat(s.acked) + (s.pending + [row]) == Concat(s.acked) + s.pending + [row];
    case Flush(fate, _) =>
      if fate.Acked? && s.pending != [] {
        assert (s.acked + [s.pending])[..|s.acked|] == s.acked;
        assert Concat(s.acked + [s.pending]) + [] == Concat(s.acked) + s.pending;
      }
      assert Taken(s) + [] == Taken(s);
  }

  /** Conservation over every run: nothing offered in shape is lost, repeated or reordered,
      whatever mixture of flushes succeeds and fails. */
  lemma {:induction false} RunConserves(s: State, ops: seq<Op>)
    ensures Taken(Run(s, ops)) == Taken(s) + Offered(s.width, ops)
    ensures s.acked <= Run(s, ops).acked
    ensures s.broken ==> Run(s, ops).broken
    decreases |ops|
  {
    if ops == [] {
      assert Taken(s) + [] == Taken(s);
    } else {
      var op, s' := ops[0], Step(s, ops[0]);
      StepTakes(s, op);
      RunConserves(s', ops[1..]);
      var taken := if op.AppendRow? && WellShaped(s.width, op.row) then [op.row] else [];
      assert Taken(s) + taken + Offered(s.width, ops[1..]) == Taken(s) + (taken + Offered(s.width, ops[1..]));
    }
  }

  /** A flush that has something to send breaks the connection. */
  predicate BreaksAt(s: State, ops: seq<Op>, i: nat)
    requires i < |ops|
  {
    ops[i].Flush? && ops[i].broke && Run(s, ops[..i]).pending != []
  }

  lemma {:induction false} RunStep(s: State, ops: seq<Op>, n: nat)
    requires n < |ops|
    ensures Run(s, ops[..n + 1]) == Step(Run(s, ops[..n]), ops[n])
    decreases n
  {
    if n > 0 {
      RunStep(Step(s, ops[0]), ops[1..], n - 1);
      assert ops[1..][..n - 1] == ops[..n][1..] && ops[1..][..n] == ops[..n + 1][1..];
    } else {
      assert ops[..1][1..] == [];
    }
  }

  /** Broken is for good: a batch ends broken iff it began so or any flush on the way broke it. */
  lemma {:induction false} BrokenIff(s: State, ops: seq<Op>, n: nat)
    requires n <= |ops|
    ensures Run(s, ops[..n]).broken <==> s.broken || exists i :: 0 <= i < n && BreaksAt(s, ops, i)
    decreases n
  {
    if n > 0 {
      BrokenIff(s, ops, n - 1);
      RunStep(s, ops, n - 1);
      var before := Run(s, ops[..n - 1]);
      assert Step(before, ops[n - 1]).broken <==> before.broken || BreaksAt(s, ops, n - 1);
    } else {
      assert ops[..0] == [];
    }
  }

  /** A flush with rows to send fails after its block went out. */
  predicate LosesAt(s: State, ops: seq<Op>, i: nat)
    requires i < |ops|
  {
    ops[i].Flush? && ops[i].fate.Lost? && Run(s, ops[..i]).pending != []
  }

  lemma {:induction false} ConcatSnoc(blocks: seq<seq<Value>>, last: seq<Value>)
    ensures Concat(blocks + [last]) == Concat(blocks) + last
  {
    assert (blocks + [last])[..|blocks|] == blocks;
  }

  /** What a step puts behind the acknowledged rows it puts on the wire too, and nothing more,
      unless it is a flush that fails after its block went out. */
  lemma {:induction false} StepSends(s: State, op: Op) returns (more: seq<Value>)
    ensures Concat(Step(s, op).acked) == Concat(s.acked) + more
    ensures Concat(Step(s, op).sent)
            == Concat(s.sent) + if op.Flush? && op.fate.Lost? then s.pending else more
    ensures op.Flush? && op.fate.Lost? ==> more == []
  {
    hide Concat;
    ConcatSnoc(s.sent, s.pending);
    ConcatSnoc(s.acked, s.pending);
    more := if op.Flush? && op.fate.Acked? then s.pending else [];
    assert Concat(s.sent) + [] == Concat(s.sent) && Concat(s.acked) + [] == Concat(s.acked);
  }

  /** The wire has carried exactly the acknowledged rows iff no flush on the way failed after its
      block went out; each that did has rows sent that stay pending and go out again. */
  lemma {:induction false} WireCarriesAckedIff(s: State, ops: seq<Op>, n: nat)
    requires n <= |ops| && Concat(s.sent) == Concat(s.acked)
    ensures var s' := Run(s, ops[..n]);
            && |Concat(s'.acked)| <= |Concat(s'.sent)|
            && (Concat(s'.sent) == Concat(s'.acked) <==> forall i :: 0 <= i < n ==> !LosesAt(s, ops, i))
            && (Concat(s'.sent) == Concat(s'.acked) <==> |Concat(s'.sent)| == |Concat(s'.acked)|)
    decreases n
  {
    hide Concat, Step;
    if n > 0 {
      WireCarriesAckedIff(s, ops, n - 1);
      RunStep(s, ops, n - 1);
      var before := Run(s, ops[..n - 1]);
      var more := StepSends(before, ops[n - 1]);
      assert LosesAt(s, ops, n - 1) <==> ops[n - 1].Flush? && ops[n - 1].fate.Lost? && before.pending != [];
      if forall i :: 0 <= i < n - 1 ==> !LosesAt(s, ops, i) {
        assert (forall i :: 0 <= i < n ==> !LosesAt(s, ops, i)) <==> !LosesAt(s, ops, n - 1);
      }
    } else {
      assert ops[..0] == [];
    }
  }

  function Fated(failure: Option<Exc>, wired: bool): Fate {
    if failure.None? then Acked else if wired then Lost else Unsent
  }

  /** The fate that the rows' meaning and the network give an insert ... */
  function FateOf(lib: Lib, script: Script, width: nat, rows: seq<Value>): Fate {
    Fated(Failure(lib, script, width, rows), Sends(lib, script, width, rows))
  }

  /** ... and the one it has with the shared table of Map templates. */
  function MemoFate(lib: Lib, at: Allocator, script: Script, width: nat, rows: seq<Value>): Fate {
    Fated(MemoFailure(lib, at, script, width, rows), MemoSends(lib, at, script, width, rows))
  }

  predicate MemoBreaks(lib: Lib, at: Allocator, script: Script, width: nat, rows: seq<Value>) {
    Abandons(script, MemoFailure(lib, at, script, width, rows), MemoSends(lib, at, script, width, rows))
  }

  /** The failing case: one row; the block is sent and EndInsert brings a server error; a second
      flush succeeds. The row has been on the wire twice. */
  lemma {:induction false} LostFlushSendsTwice(lib: Lib, code: int)
    ensures var row := Arr([(IntKey(0), Long(5))]);
            var sample := Ok([Sc(IntT(64, true))]);
            var failing := Script(sample, None, k => if k == 0 then Some(ServerException(code)) else None);
            var healthy := Script(sample, None, k => None);
            var first, second := FateOf(lib, failing, 1, [row]), FateOf(lib, healthy, 1, [row]);
            var s := Run(Empty(1), [AppendRow(row), Flush(first, false), Flush(second, false)]);
            s.sent == [[row], [row]] && s.acked == [[row]] && s.pending == []
  {
    var row, ts := Arr([(IntKey(0), Long(5))]), [Sc(IntT(64, true))];
    AcceptedIff(lib, ts, [row]);
    assert RowAccepted(lib, ts, row);
    assert EncodeRows(lib, ts, [row]).Ok?;
    TwoFlushes(row, false, false);
  }

  lemma {:induction false} TwoFlushes(row: Value, broke: bool, brokeAgain: bool)
    requires WellShaped(1, row)
    ensures var s := Run(Empty(1), [AppendRow(row), Flush(Lost, broke), Flush(Acked, brokeAgain)]);
            s.sent == [[row], [row]] && s.acked == [[row]] && s.pending == []
  {
    var s0 := Empty(1);
    var ops := [AppendRow(row), Flush(Lost, broke), Flush(Acked, brokeAgain)];
    var s1 := Step(s0, ops[0]);
    assert s1.pending == [row];
    var s2 := Step(s1, ops[1]);
    assert s2.pending == [row] && s2.sent == [[row]] && s2.acked == [];
    var s3 := Step(s2, ops[2]);
    assert s3.pending == [] && s3.sent == [[row], [row]] && s3.acked == [[row]];
    assert ops[1..][0] == ops[1] && ops[1..][1..][0] == ops[2] && ops[1..][1..][1..] == [];
    assert Run(s2, ops[1..][1..]) == s3;
    assert Run(s1, ops[1..]) == s3;
  }

  /* ---- the object ---- */

  /** The pooled connection a batch pins. */
  class Pinned {
    var broken: bool
    var returned: bool

    constructor ()
      ensures !broken && !returned
    {
      broken, returned := false, false;
    }
  }

  /** A block on the wire, its column types, and the rows it carries. */
  datatype Receipt = Receipt(block: Block, types: seq<Type>, rows: seq<Value>)

  function RowsOf(receipts: seq<Receipt>): (blocks: seq<seq<Value>>)
    ensures |blocks| == |receipts|
  {
    seq(|receipts|, i requires 0 <= i < |receipts| => receipts[i].rows)
  }

  predicate AllShaped(width: nat, rows: seq<Value>) {
    forall i :: 0 <= i < |rows| ==> WellShaped(width, rows[i])
  }

  ghost predicate AllCarried(lib: Lib, names: seq<string>, receipts: seq<Receipt>) {
    forall k :: 0 <= k < |receipts| ==> Carries(lib, receipts[k].block, names, receipts[k].types, receipts[k].rows)
  }

  class ChBatch {
    const lib: Lib
    const conn: Pinned
    const names: seq<string>
    var pending: seq<Value>
    var broken: bool
    var released: bool
    ghost var acked: seq<Receipt>
    ghost var sent: seq<Receipt>

    /** The release flag is the truth about the connection, and every block on the wire carries
        exactly the rows that its flush found pending. */
    ghost predicate Valid()
      reads this, conn
    {
      && (released <==> conn.returned)
      && AllShaped(|names|, pending) && AllCarried(lib, names, acked) && AllCarried(lib, names, sent)
    }

    ghost function Abs(): State
      reads this
    {
      State(|names|, pending, RowsOf(acked), RowsOf(sent), broken)
    }

    constructor (lib: Lib, conn: Pinned, names: seq<string>)
      requires !conn.returned
      ensures this.lib == lib && this.conn == conn && this.names == names && !released
      ensures Valid() && Abs() == Empty(|names|)
    {
      this.lib, this.conn, this.names := lib, conn, names;
      pending, broken, released, acked, sent := [], false, false, [], [];
    }

    /** Refuses what is not an array of one value per column; otherwise buffers it. */
    method Append(row: Value) returns (ok: bool)
      requires Valid()
      modifies `pending
      ensures Valid() && Abs() == Step(old(Abs()), AppendRow(row))
      ensures ok <==> WellShaped(|names|, row)
    {
      if !row.Arr? {
        return false;
      }
      if |row.entries| != |names| {
        return false;
      }
      pending := pending + [row];
      ok := true;
    }

    /** Send what is pending as one insert; on any failure all of it stays pending. Fate, exception
        and broken flag are those of the insert of exactly the pending rows, which their meaning and
        the network decide unless two Map types come to lie at one address. */
    method Flush(at: Allocator, executor: Executor, script: Script) returns (ok: bool)
      requires Valid() && (script.sample.Ok? ==> TypesOk(script.sample.value))
      modifies `pending, `broken, `acked, `sent, executor
      ensures Valid()
      ensures var fate := MemoFate(lib, at, script, |names|, old(pending));
              && Abs() == Step(old(Abs()), Op.Flush(fate, MemoBreaks(lib, at, script, |names|, old(pending))))
              && (ok <==> old(pending) == [] || fate.Acked?)
              && executor.exception
                 == if ok || old(executor.exception).Some? then old(executor.exception)
                    else Some(Translated(MemoFailure(lib, at, script, |names|, old(pending)).value))
      ensures SeesOneType(lib, at, script, old(pending)) || Faultless(at, script) ==>
                && MemoFailure(lib, at, script, |names|, old(pending)) == Failure(lib, script, |names|, old(pending))
                && MemoFate(lib, at, script, |names|, old(pending)) == FateOf(lib, script, |names|, old(pending))
                && (MemoBreaks(lib, at, script, |names|, old(pending)) <==> Breaks(lib, script, |names|, old(pending)))
    {
      hide MemoFailure, MemoSends, SeesOneType, Faultless, Carries, Failure, Sends;
      MemoInsertIff(lib, at, script, |names|, pending);
      if |pending| == 0 {
        return true;
      }
      var wire := new InsertWire(script);
      var gone;
      ok, gone := SendBlock(lib, at, wire, executor, names, pending);
      if wire.sent != [] {
        ghost var receipt := Receipt(wire.sent[0], script.sample.value, pending);
        AnotherReceipt(acked, receipt);
        AnotherReceipt(sent, receipt);
        sent := sent + [receipt];
        acked := if ok then acked + [receipt] else acked;
      }
      if gone {
        broken := true;
      }
      if !ok {
        return;
      }
      pending := [];
    }

    /** The rows that are not acknowledged: whatever calls brought a new batch here, those they
        offered in the right shape less those in acknowledged flushes. */
    method Count() returns (n: nat)
      ensures forall ops ::
                Abs() == Run(Empty(|names|), ops) ==> n == |Offered(|names|, ops)| - |Concat(RowsOf(acked))|
      ensures |Taken(Abs())| == |Concat(RowsOf(acked))| + n
    {
      forall ops | Abs() == Run(Empty(|names|), ops)
        ensures |pending| == |Offered(|names|, ops)| - |Concat(RowsOf(acked))|
      {
        RunConserves(Empty(|names|), ops);
      }
      n := |pending|;
    }

    /** Drop the batch: the connection goes back, once, marked if any flush broke it. */
    method Free()
      requires Valid()
      modifies `pending, `released, conn
      ensures Valid() && released && pending == [] && broken == old(broken)
      ensures conn.broken == (old(conn.broken) || (!old(released) && broken))
    {
      pending := [];
      if released {
        return;
      }
      if broken {
        conn.broken := true;
      }
      conn.returned := true;
      released := true;
    }
  }

  lemma {:induction false} AnotherReceipt(receipts: seq<Receipt>, receipt: Receipt)
    ensures RowsOf(receipts + [receipt]) == RowsOf(receipts) + [receipt.rows]
  {
  }

  function Strings(n: nat): (ts: seq<Type>)
    ensures |ts| == n
  {
    seq(n, i requires 0 <= i < n => Sc(StringT))
  }

  /** What a batch takes is what an insert needs: exactly the rows that an insert into as many String
      columns accepts, and nothing else could be accepted by any columns. */
  lemma {:induction false} ShapeIsWhatInsertNeeds(lib: Lib, width: nat, row: Value, ts: seq<Type>)
    requires |ts| == width
    ensures WellShaped(width, row) <==> EncodeRows(lib, Strings(width), [row]).Ok?
    ensures EncodeRows(lib, ts, [row]).Ok? ==> WellShaped(width, row)
  {
    hide EncodeRows;
    AcceptedIff(lib, Strings(width), [row]);
    AcceptedIff(lib, ts, [row]);
    assert [row][0] == row;
    assert WellShaped(width, row) ==> RowAccepted(lib, Strings(width), row);
    assert EncodeRows(lib, ts, [row]).Ok? ==> RowAccepted(lib, ts, [row][0]);
    assert EncodeRows(lib, Strings(width), [row]).Ok? ==> RowAccepted(lib, Strings(width), [row][0]);
  }
}
