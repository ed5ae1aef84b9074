/** The objects do what the transition system of connections says: what a Result, a Batch and an
    insert do is a run of its events, to the matching state. */
module Simulation {
  import opened Exceptions
  import opened MemoRun
  import opened PhpValues
  import opened ScalarCodec
  import B = Batch
  import C = CleanReuse
  import I = Insert
  import L = Lifecycle
  import R = ResultStream

  /* ---- the insert conversation ---- */

  function Reply(answer: Option<Exc>, w: L.Wire): L.Answer {
    match answer
    case None => L.Fine
    case Some(e) => L.Fails(e, w)
  }

  /** The best-effort EndInsert follows every failure that does not poison. */
  function Closing(e: Exc, answer: Option<Exc>, w: L.Wire): seq<L.Line> {
    if Poisons(e) then [] else [L.Close(Reply(answer, w))]
  }

  /** The calls that one insert makes and their answers, given its failure and whether a block
      went out; w is where a failing call leaves the wire. */
  function Lines(script: I.Script, failure: Option<Exc>, wired: bool, w: L.Wire): (lines: seq<L.Line>)
    requires I.Told(script, failure, wired)
    ensures lines != []
  {
    match script.sample
    case Err(e) => [L.Begin(L.Fails(e, w))] + Closing(e, script.end(0), w)
    case Ok(_) =>
      [L.Begin(L.Fine)] +
      if !wired then [L.Send(failure, L.Fine)] + Closing(failure.value, script.end(0), w)
      else match (script.send, script.end(0))
           case (Some(e), _) => [L.Send(None, L.Fails(e, w))] + Closing(e, script.end(0), w)
           case (None, Some(e)) => [L.Send(None, L.Fine), L.End(L.Fails(e, w))] + Closing(e, script.end(1), w)
           case (None, None) => [L.Send(None, L.Fine), L.End(L.Fine)]
  }

  function Play(pc: L.Pc, w: L.Wire, lines: seq<L.Line>): Option<L.Said>
    requires lines != []
    decreases |lines|
  {
    match L.Converse(pc, w, lines[0])
    case None => None
    case Some(said) => if |lines| == 1 then Some(said) else Play(said.pc, said.wire, lines[1..])
  }

  lemma {:induction false} PlayFirst(pc: L.Pc, w: L.Wire, line: L.Line, rest: seq<L.Line>)
    requires L.Converse(pc, w, line).Some?
    ensures var said := L.Converse(pc, w, line).value;
            Play(pc, w, [line] + rest) == if rest == [] then Some(said) else Play(said.pc, said.wire, rest)
  {
    assert ([line] + rest)[1..] == rest;
  }

  /** Over, and the connection given up or not. */
  predicate Ends(said: Option<L.Said>, broke: bool) {
    said.Some? && said.value.pc.Resting? && said.value.broke == broke
  }

  /** After a caught failure: the closing call, if any, settles whether the connection is kept. */
  lemma {:induction false} PlayFailing(pc: L.Pc, before: L.Wire, line: L.Line, e: Exc, after: L.Wire,
                                       answer: Option<Exc>, w: L.Wire)
    requires L.Converse(pc, before, line) == Some(L.Caught(e, after))
    ensures Ends(Play(pc, before, [line] + Closing(e, answer, w)), Poisons(e) || answer.Some?)
  {
    PlayFirst(pc, before, line, Closing(e, answer, w));
    if !Poisons(e) {
      PlayFirst(L.AtClose, after, L.Close(Reply(answer, w)), []);
      assert [L.Close(Reply(answer, w))] + [] == [L.Close(Reply(answer, w))];
    }
  }

  /** On a connection in any state, an insert is a conversation of the transition system, and it
      gives the connection up in the one exactly when it does in the other. */
  lemma {:induction false} InsertIsConversation(script: I.Script, failure: Option<Exc>, wired: bool, start: L.Wire,
                                                w: L.Wire)
    requires I.Told(script, failure, wired)
    ensures Ends(Play(L.AtBegin, start, Lines(script, failure, wired, w)), I.Abandons(script, failure, wired))
  {
    match script.sample
    case Err(e) => PlayFailing(L.AtBegin, start, L.Begin(L.Fails(e, w)), e, w, script.end(0), w);
    case Ok(_) => FromSampleOn(script, failure, wired, start, w);
  }

  lemma {:induction false} FromSampleOn(script: I.Script, failure: Option<Exc>, wired: bool, start: L.Wire, w: L.Wire)
    requires I.Told(script, failure, wired) && script.sample.Ok?
    ensures Ends(Play(L.AtBegin, start, Lines(script, failure, wired, w)), I.Abandons(script, failure, wired))
  {
    var rest := Lines(script, failure, wired, w)[1..];
    var open := L.Converse(L.AtBegin, start, L.Begin(L.Fine)).value.wire;
    PlayFirst(L.AtBegin, start, L.Begin(L.Fine), rest);
    assert Lines(script, failure, wired, w) == [L.Begin(L.Fine)] + rest;
    if !wired {
      PlayFailing(L.AtSend, open, L.Send(failure, L.Fine), failure.value, open, script.end(0), w);
    } else {
      match (script.send, script.end(0))
      case (Some(e), _) => PlayFailing(L.AtSend, open, L.Send(None, L.Fails(e, w)), e, w, script.end(0), w);
      case (None, Some(e)) =>
        PlayFailing(L.AtEnd, open, L.End(L.Fails(e, w)), e, w, script.end(1), w);
        var last := [L.End(L.Fails(e, w))] + Closing(e, script.end(1), w);
        PlayFirst(L.AtSend, open, L.Send(None, L.Fine), last);
        assert rest == [L.Send(None, L.Fine)] + last;
      case (None, None) =>
        PlayFirst(L.AtSend, open, L.Send(None, L.Fine), [L.End(L.Fine)]);
        assert rest == [L.Send(None, L.Fine)] + [L.End(L.Fine)];
    }
  }

  /* ---- ... as a run of the whole system ---- */

  function Talks(h: nat, lines: seq<L.Line>): (es: seq<L.Event>)
    ensures |es| == |lines|
  {
    seq(|lines|, i requires 0 <= i < |lines| => L.Talk(h, lines[i]))
  }

  predicate Talking(s: L.State, h: nat) {
    L.Live(s, h) && (s.handles[h].Inserting? || s.handles[h].Batch?)
  }

  /** What one call of the conversation does: the handle moves on with its connection; an insert
      call that is over is gone, and its connection idle iff it was not given up (unless the
      client went with the call). */
  ghost predicate TalkedTo(s: L.State, h: nat, said: L.Said, s': L.State)
    requires Talking(s, h)
  {
    var x := s.handles[h];
    && L.Inv(s')
    && if x.Inserting? && said.pc.Resting? then
         && h !in s'.handles
         && (x.conn in s'.idle ==> !said.broke && x.conn in s'.conns && s'.conns[x.conn].wire == said.wire)
         && (s'.refs > 0 && !said.broke ==> x.conn in s'.idle)
       else
         && L.Live(s', h) && L.WireOf(s', x) == said.wire
         && s'.handles[h] == if x.Inserting? then L.Inserting(x.conn, x.lease, said.pc)
                             else L.Batch(x.conn, x.lease, said.pc, x.broken || said.broke, x.released)
  }

  lemma {:induction false} TalkEffect(s: L.State, h: nat, line: L.Line)
    requires L.Inv(s) && Talking(s, h) && L.Converse(s.handles[h].pc, L.WireOf(s, s.handles[h]), line).Some?
    ensures var said := L.Converse(s.handles[h].pc, L.WireOf(s, s.handles[h]), line).value;
            var s' := L.Step(s, L.Talk(h, line));
            s'.Some? && TalkedTo(s, h, said, s'.value)
  {
    L.StepKeeps(s, L.Talk(h, line));
    assert s.handles[h].conn in s.out;
  }

  lemma {:induction false} TalkRun(s: L.State, h: nat, lines: seq<L.Line>)
    requires L.Inv(s) && Talking(s, h) && lines != []
    requires Play(s.handles[h].pc, L.WireOf(s, s.handles[h]), lines).Some?
    ensures var said := Play(s.handles[h].pc, L.WireOf(s, s.handles[h]), lines).value;
            var s' := L.Run(s, Talks(h, lines));
            s'.Some? && (said.pc.Resting? ==> TalkedTo(s, h, said, s'.value))
    decreases |lines|
  {
    hide L.Step, L.Inv;
    TalkEffect(s, h, lines[0]);
    var said := L.Converse(s.handles[h].pc, L.WireOf(s, s.handles[h]), lines[0]).value;
    var s1 := L.Step(s, L.Talk(h, lines[0])).value;
    assert Talks(h, lines) == [L.Talk(h, lines[0])] + Talks(h, lines[1..]);
    C.RunFirst(s, L.Talk(h, lines[0]), Talks(h, lines[1..]));
    if |lines| > 1 {
      TalkRun(s1, h, lines[1..]);
    }
  }

  /** The calls and answers of the insert of these rows. */
  function InsertLines(lib: Lib, at: Allocator, script: I.Script, width: nat, rows: seq<Value>, w: L.Wire):
    (lines: seq<L.Line>)
    ensures lines != []
  {
    I.MemoInsertIff(lib, at, script, width, rows);
    Lines(script, I.MemoFailure(lib, at, script, width, rows), I.MemoSends(lib, at, script, width, rows), w)
  }

  /** Client::insert: the whole call is a run of Talk events. It leaves nothing behind, and its
      connection is idle iff the insert did not give it up (unless the client went with the call). */
  method InsertSimulates(lib: Lib, at: Allocator, wire: I.InsertWire, executor: Executor,
                         names: seq<string>, rows: seq<Value>, ghost s: L.State, ghost h: nat, ghost w: L.Wire)
    returns (ok: bool, broke: bool, ghost s': L.State)
    requires wire.script.sample.Ok? ==> I.TypesOk(wire.script.sample.value)
    requires wire.sent == [] && wire.ends == 0
    requires L.Inv(s) && L.Live(s, h) && s.handles[h].Inserting? && s.handles[h].pc.AtBegin?
    modifies wire, executor
    ensures L.Run(s, Talks(h, InsertLines(lib, at, wire.script, |names|, rows, w))) == Some(s')
    ensures wire.sent != [] <==> I.MemoSends(lib, at, wire.script, |names|, rows)
    ensures ok <==> I.MemoFailure(lib, at, wire.script, |names|, rows).None?
    ensures broke <==> B.MemoBreaks(lib, at, wire.script, |names|, rows)
    ensures L.Inv(s') && h !in s'.handles
    ensures s.handles[h].conn in s'.idle ==> !broke
    ensures s'.refs > 0 && !broke ==> s.handles[h].conn in s'.idle
  {
    hide L.Step, L.Inv, L.Run, I.MemoFailure, I.MemoSends, I.Carries;
    ok, broke := I.SendBlock(lib, at, wire, executor, names, rows);
    ghost var failure := I.MemoFailure(lib, at, wire.script, |names|, rows);
    ghost var wired := I.MemoSends(lib, at, wire.script, |names|, rows);
    I.MemoInsertIff(lib, at, wire.script, |names|, rows);
    InsertIsConversation(wire.script, failure, wired, L.WireOf(s, s.handles[h]), w);
    TalkRun(s, h, Lines(wire.script, failure, wired, w));
    s' := L.Run(s, Talks(h, Lines(wire.script, failure, wired, w))).value;
  }

  /* ---- the batch ---- */

  /** The Batch object and the handle h of the transition system are in the same state. */
  ghost predicate BatchMatches(b: B.ChBatch, s: L.State, h: nat)
    reads b, b.conn
  {
    && b.Valid() && !b.released && L.Inv(s) && L.Live(s, h) && s.handles[h].Batch?
    && s.handles[h] == L.Batch(s.handles[h].conn, s.handles[h].lease, L.Resting, b.broken, false)
  }

  lemma {:induction false} StartFlushEffect(s: L.State, h: nat)
    requires L.Inv(s) && L.Live(s, h) && s.handles[h].Batch? && s.handles[h].pc.Resting?
    ensures var s', x := L.Step(s, L.StartFlush(h)), s.handles[h];
            && s'.Some? && L.Inv(s'.value) && L.Live(s'.value, h)
            && s'.value.handles[h] == L.Batch(x.conn, x.lease, L.AtBegin, x.broken, x.released)
  {
    L.StepKeeps(s, L.StartFlush(h));
  }

  /** A flush of the object is a StartFlush with the conversation of the insert of the pending rows,
      or nothing if nothing is pending. */
  method FlushSimulates(b: B.ChBatch, at: Allocator, executor: Executor, script: I.Script,
                        ghost s: L.State, ghost h: nat, ghost w: L.Wire)
    returns (ok: bool, ghost s': L.State)
    requires BatchMatches(b, s, h) && (script.sample.Ok? ==> I.TypesOk(script.sample.value))
    modifies b`pending, b`broken, b`acked, b`sent, executor
    ensures old(b.pending) == [] ==> s' == s
    ensures old(b.pending) != [] ==>
              var lines := InsertLines(b.lib, at, script, |b.names|, old(b.pending), w);
              L.Run(s, [L.StartFlush(h)] + Talks(h, lines)) == Some(s')
    ensures BatchMatches(b, s', h) && s'.handles[h].conn == s.handles[h].conn
  {
    hide L.Step, L.Inv, L.Converse, L.Run, I.MemoFailure, I.MemoSends;
    s' := s;
    if b.pending != [] {
      ghost var failure := I.MemoFailure(b.lib, at, script, |b.names|, b.pending);
      ghost var wired := I.MemoSends(b.lib, at, script, |b.names|, b.pending);
      I.MemoInsertIff(b.lib, at, script, |b.names|, b.pending);
      s' := FlushRun(s, h, script, failure, wired, w);
    }
    ok := b.Flush(at, executor, script);
  }

  lemma {:induction false} FlushRun(s: L.State, h: nat, script: I.Script, failure: Option<Exc>, wired: bool, w: L.Wire)
    returns (s': L.State)
    requires L.Inv(s) && L.Live(s, h) && s.handles[h].Batch? && s.handles[h].pc.Resting?
    requires I.Told(script, failure, wired)
    ensures L.Run(s, [L.StartFlush(h)] + Talks(h, Lines(script, failure, wired, w))) == Some(s')
    ensures var x := s.handles[h];
            && L.Inv(s') && L.Live(s', h)
            && s'.handles[h]
               == L.Batch(x.conn, x.lease, L.Resting, x.broken || I.Abandons(script, failure, wired), x.released)
  {
    hide L.Step, L.Inv, L.Converse;
    StartFlushEffect(s, h);
    var s1, lines := L.Step(s, L.StartFlush(h)).value, Lines(script, failure, wired, w);
    InsertIsConversation(script, failure, wired, L.WireOf(s1, s1.handles[h]), w);
    TalkRun(s1, h, lines);
    C.RunFirst(s, L.StartFlush(h), Talks(h, lines));
    s' := L.Run(s1, Talks(h, lines)).value;
  }

  /** Destroying the batch is the event Free; the connection is idle iff no flush broke it (unless
      the client goes with the batch). */
  method FreeBatchSimulates(b: B.ChBatch, ghost s: L.State, ghost h: nat) returns (ghost s': L.State)
    requires BatchMatches(b, s, h) && !b.conn.broken
    modifies b`pending, b`released, b.conn
    ensures L.Step(s, L.Free(h)) == Some(s') && L.Inv(s') && h !in s'.handles
    ensures b.conn.returned && b.conn.broken == b.broken == old(b.broken)
    ensures s.handles[h].conn in s'.idle ==> !b.conn.broken
    ensures s'.refs > 0 && !b.conn.broken ==> s.handles[h].conn in s'.idle
  {
    b.Free();
    L.StepKeeps(s, L.Free(h));
    s' := L.Step(s, L.Free(h)).value;
    assert s.handles[h].conn in s.out;
  }

  /* ---- the result ---- */

  /** The Result object and the handle h of the transition system are in the same state. */
  ghost predicate Matches(r: R.ChResult, s: L.State, h: nat)
    reads r, r.conn
  {
    && r.Valid() && L.Inv(s) && L.Live(s, h) && s.handles[h].Stream? && s.handles[h].stage.Object?
    && SameHandle(r, s.handles[h])
    && (!r.done ==> L.WireOf(s, s.handles[h]) == L.Response(|r.conn.unread|) && !r.conn.broken)
  }

  ghost predicate SameHandle(r: R.ChResult, x: L.Handle)
    requires r.Valid() && x.Stream?
    reads r, r.conn
  {
    x.left == r.rows - r.row && x.done == r.done && x.broken == r.broken && x.released == r.released
  }

  /** Where the connection c went when a stream that had it is over. */
  ghost predicate GoneTo(r: R.ChResult, s: L.State, c: nat)
    reads r, r.conn
  {
    r.conn.returned && (c in s.idle <==> !r.conn.broken) && (c in s.conns <==> !r.conn.broken)
  }

  /** The query call has its connection and has not begun. */
  ghost predicate AboutToStart(r: R.ChResult, s: L.State, h: nat)
    reads r, r.conn
  {
    && r.Valid() && r.Faithful() && !r.done && r.delivered == [] && r.row == r.rows
    && r.conn.unread == r.conn.script.blocks && !r.conn.broken
    && L.Inv(s) && L.Live(s, h) && s.handles[h].Stream?
    && s.handles[h] == L.Stream(s.handles[h].conn, s.handles[h].lease, L.Executing, 0, false, false, false)
    && L.WireOf(s, s.handles[h]).Quiet?
  }

  /** A failed query call is gone, its connection idle iff the exception does not poison (unless
      the client went with the call). */
  ghost predicate CalledOff(s: L.State, h: nat, c: nat, e: Exc) {
    && L.Inv(s) && h !in s.handles && (c in s.idle ==> !Poisons(e)) && (s.refs > 0 && !Poisons(e) ==> c in s.idle)
  }

  lemma {:induction false} ExecuteEffect(s: L.State, h: nat, a: L.Answer, blocks: nat)
    requires L.Inv(s) && L.Live(s, h) && s.handles[h].Stream? && s.handles[h].stage.Executing?
    requires L.WireOf(s, s.handles[h]).Quiet?
    ensures var x, s' := s.handles[h], L.Step(s, L.Execute(h, a, blocks));
            && s'.Some?
            && match a
               case Fine =>
                 && L.Inv(s'.value) && L.Live(s'.value, h) && s'.value.handles[h] == x.(stage := L.Priming)
                 && L.WireOf(s'.value, x) == L.Response(blocks)
               case Fails(e, _) => CalledOff(s'.value, h, x.conn, e)
  {
    L.StepKeeps(s, L.Execute(h, a, blocks));
    assert s.handles[h].conn in s.out;
  }

  /** A pull while the call still primes. */
  ghost predicate Primes(s: L.State, h: nat) {
    L.Inv(s) && L.Live(s, h) && s.handles[h].Stream? && s.handles[h].stage.Priming? && s.handles[h].left == 0
  }

  lemma {:induction false} PrimingPullEffect(s: L.State, h: nat, p: L.Pulled)
    requires Primes(s, h)
    requires var w := L.WireOf(s, s.handles[h]);
             match p
             case Rows(_) => w.Response? && w.unread > 0
             case EndOfStream => w == L.Response(0)
             case PullFails(_, _) => true
    ensures L.Step(s, L.Pull(h, p)).Some?
    ensures var x, s' := s.handles[h], L.Step(s, L.Pull(h, p)).value;
            match p
            case Rows(n) =>
              && L.Inv(s') && L.Live(s', h)
              && s'.handles[h] == x.(left := n, stage := if n > 0 then L.Object else L.Priming)
              && L.WireOf(s', x) == L.Response(L.WireOf(s, x).unread - 1)
            case EndOfStream =>
              && L.Inv(s') && L.Live(s', h) && x.conn in s'.idle && x.conn in s'.conns
              && s'.handles[h] == x.(stage := L.Object, done := true, broken := false, released := true)
            case PullFails(e, _) => CalledOff(s', h, x.conn, e)
  {
    L.StepKeeps(s, L.Pull(h, p));
    assert s.handles[h].conn in s.out;
  }

  function EmptyPulls(h: nat, n: nat): (es: seq<L.Event>)
    ensures |es| == n
  {
    if n == 0 then [] else [L.Pull(h, L.Rows(0))] + EmptyPulls(h, n - 1)
  }

  lemma {:induction false} EmptyPullsRun(s: L.State, h: nat, n: nat) returns (s': L.State)
    requires Primes(s, h) && L.WireOf(s, s.handles[h]).Response? && n <= L.WireOf(s, s.handles[h]).unread
    ensures L.Run(s, EmptyPulls(h, n)) == Some(s') && Primes(s', h) && s'.handles[h] == s.handles[h]
    ensures L.WireOf(s', s'.handles[h]) == L.Response(L.WireOf(s, s.handles[h]).unread - n)
    decreases n
  {
    hide L.Step, L.Inv;
    if n == 0 {
      s' := s;
    } else {
      PrimingPullEffect(s, h, L.Rows(0));
      var s1 := L.Step(s, L.Pull(h, L.Rows(0))).value;
      s' := EmptyPullsRun(s1, h, n - 1);
      C.RunFirst(s, L.Pull(h, L.Rows(0)), EmptyPulls(h, n - 1));
    }
  }

  /** The run that starts a query: execute, skip empty blocks, one last pull. */
  lemma {:induction false} StartRun(s: L.State, h: nat, blocks: nat, skipped: nat, last: L.Pulled) returns (s': L.State)
    requires L.Inv(s) && L.Live(s, h) && s.handles[h].Stream? && s.handles[h].stage.Executing?
    requires L.WireOf(s, s.handles[h]).Quiet? && s.handles[h].left == 0 && skipped <= blocks
    requires match last
             case Rows(n) => n > 0 && skipped < blocks
             case EndOfStream => skipped == blocks
             case PullFails(_, _) => true
    ensures L.Run(s, [L.Execute(h, L.Fine, blocks)] + EmptyPulls(h, skipped) + [L.Pull(h, last)]) == Some(s')
    ensures var x := s.handles[h];
            match last
            case Rows(n) =>
              && L.Inv(s') && L.Live(s', h) && s'.handles[h] == x.(left := n, stage := L.Object)
              && L.WireOf(s', x) == L.Response(blocks - skipped - 1)
            case EndOfStream =>
              && L.Inv(s') && L.Live(s', h) && x.conn in s'.idle && x.conn in s'.conns
              && s'.handles[h] == x.(stage := L.Object, done := true, broken := false, released := true)
            case PullFails(e, _) => CalledOff(s', h, x.conn, e)
  {
    hide L.Step, L.Inv;
    ExecuteEffect(s, h, L.Fine, blocks);
    var first := L.Execute(h, L.Fine, blocks);
    var s1 := L.Step(s, first).value;
    var s2 := EmptyPullsRun(s1, h, skipped);
    PrimingPullEffect(s2, h, last);
    s' := L.Step(s2, L.Pull(h, last)).value;
    C.RunFirst(s2, L.Pull(h, last), []);
    assert [L.Pull(h, last)] + [] == [L.Pull(h, last)];
    C.RunAppend(s1, EmptyPulls(h, skipped), [L.Pull(h, last)]);
    C.RunFirst(s, first, EmptyPulls(h, skipped) + [L.Pull(h, last)]);
    var skips := EmptyPulls(h, skipped);
    assert [first] + skips + [L.Pull(h, last)] == [first] + (skips + [L.Pull(h, last)]);
  }

  /** Client::query: beginning and priming is a run to the matching state; on an exception the call
      is gone and its connection released. */
  method StartSimulates(r: R.ChResult, ghost s: L.State, ghost h: nat, ghost w: L.Wire)
    returns (thrown: Option<Exc>, ghost es: seq<L.Event>, ghost s': L.State)
    requires AboutToStart(r, s, h)
    modifies r, r.conn
    ensures L.Run(s, es) == Some(s')
    ensures thrown.None? ==>
              && Matches(r, s', h) && s'.handles[h].conn == s.handles[h].conn
              && (r.done ==> GoneTo(r, s', s.handles[h].conn))
    ensures thrown.Some? ==>
              && r.conn.returned && r.conn.broken == Poisons(thrown.value)
              && CalledOff(s', h, s.handles[h].conn, thrown.value)
  {
    hide L.Step, L.Inv, L.Run, R.Flatten, R.Readable, R.Cause;
    ghost var blocks := |r.conn.unread|;
    ghost var skipped;
    thrown, skipped := r.Start();
    if r.conn.script.begin.Some? {
      ghost var failing := L.Execute(h, L.Fails(thrown.value, w), 0);
      ExecuteEffect(s, h, L.Fails(thrown.value, w), 0);
      es, s' := [failing], L.Step(s, failing).value;
      C.RunFirst(s, failing, []);
      RunNothing(s');
      assert [failing] + [] == [failing];
    } else {
      ghost var last := if thrown.Some? then L.PullFails(thrown.value, w)
                        else if r.done then L.EndOfStream else L.Rows(r.rows);
      es := [L.Execute(h, L.Fine, blocks)] + EmptyPulls(h, skipped) + [L.Pull(h, last)];
      s' := StartRun(s, h, blocks, skipped, last);
    }
  }

  lemma {:induction false} RunNothing(s: L.State)
    ensures L.Run(s, []) == Some(s)
  {
  }

  /** What the three outcomes of a pull do to the handle of a stream that holds a connection. */
  lemma {:induction false} PullEffects(s: L.State, h: nat, p: L.Pulled)
    requires L.Inv(s) && L.Live(s, h) && s.handles[h].Stream? && s.handles[h].stage.Object?
    requires s.handles[h].left == 0 && !s.handles[h].done
    requires var w := L.WireOf(s, s.handles[h]);
             match p
             case Rows(_) => w.Response? && w.unread > 0
             case EndOfStream => w == L.Response(0)
             case PullFails(_, _) => true
    ensures L.Step(s, L.Pull(h, p)).Some?
    ensures var x, s' := s.handles[h], L.Step(s, L.Pull(h, p)).value;
            && L.Inv(s') && L.Live(s', h)
            && match p
               case Rows(n) =>
                 s'.handles[h] == x.(left := n) && L.WireOf(s', x) == L.Response(L.WireOf(s, x).unread - 1)
               case EndOfStream =>
                 && s'.handles[h] == x.(done := true, broken := false, released := true)
                 && x.conn in s'.idle && x.conn in s'.conns
               case PullFails(e, _) =>
                 && s'.handles[h] == x.(done := true, broken := Poisons(e), released := true)
                 && (x.conn in s'.idle <==> !Poisons(e)) && (x.conn in s'.conns <==> !Poisons(e))
  {
    L.StepKeeps(s, L.Pull(h, p));
    assert s.handles[h].conn in s.out;
  }

  method PullSimulates(r: R.ChResult, ghost s: L.State, ghost h: nat, ghost w: L.Wire)
    returns (outcome: Option<R.Outcome>, ghost e: L.Event)
    requires Matches(r, s, h) && r.row == r.rows && !r.done
    modifies r, r.conn
    ensures L.Step(s, e).Some? && Matches(r, L.Step(s, e).value, h)
    ensures outcome.Some? ==> GoneTo(r, L.Step(s, e).value, s.handles[h].conn)
  {
    hide L.Step, L.Inv, R.Flatten, R.RowsFrom;
    outcome := r.Pull();
    ghost var p := match outcome
                   case None => L.Rows(r.rows)
                   case Some(Threw(err)) => L.PullFails(err, w)
                   case Some(_) => L.EndOfStream;
    e := L.Pull(h, p);
    PullEffects(s, h, p);
  }

  /** A released connection: destroyed if it is broken, else idle. */
  lemma {:induction false} GiveBackGoes(s: L.State, h: nat, y: L.Handle, broke: bool)
    requires L.Inv(s) && L.Live(s, h) && L.Holds(s.handles[h])
    ensures var s', c := L.GiveBack(s, h, y, broke), s.handles[h].conn;
            (c in s'.idle <==> !broke) && (c in s'.conns <==> !broke)
  {
    assert s.handles[h].conn in s.out && s.handles[h].conn in s.conns;
  }

  lemma {:induction false} RowEffects(s: L.State, h: nat, thrown: Option<Exc>)
    requires L.Inv(s) && L.Live(s, h) && s.handles[h].Stream? && s.handles[h].stage.Object? && s.handles[h].left > 0
    ensures L.Step(s, L.Row(h, thrown)).Some?
    ensures var x, s' := s.handles[h], L.Step(s, L.Row(h, thrown)).value;
            && L.Inv(s') && L.Live(s', h)
            && match thrown
               case None => s'.handles[h] == x.(left := x.left - 1) && L.WireOf(s', x) == L.WireOf(s, x)
               case Some(e) =>
                 && s'.handles[h] == x.(done := true, broken := Poisons(e), released := true)
                 && (!x.released ==> (x.conn in s'.idle <==> !Poisons(e)) && (x.conn in s'.conns <==> !Poisons(e)))
  {
    hide L.Inv;
    L.StepKeeps(s, L.Row(h, thrown));
    var x := s.handles[h];
    if thrown.Some? && !x.released {
      GiveBackGoes(s, h, x.(done := true, broken := Poisons(thrown.value), released := true), Poisons(thrown.value));
    }
  }

  method TakeRowSimulates(r: R.ChResult, ghost s: L.State, ghost h: nat)
    returns (outcome: R.Outcome, ghost e: L.Event)
    requires Matches(r, s, h) && r.row < r.rows
    modifies r, r.conn
    ensures L.Step(s, e).Some? && Matches(r, L.Step(s, e).value, h)
    ensures !old(r.done) && outcome.Threw? ==> GoneTo(r, L.Step(s, e).value, s.handles[h].conn)
  {
    outcome := r.TakeRow();
    ghost var thrown := if outcome.Threw? then Some(outcome.error) else None;
    e := L.Row(h, thrown);
    RowEffects(s, h, thrown);
  }

  /** Destroying the object is the event Free; an unfinished stream takes its connection along. */
  method FreeSimulates(r: R.ChResult, ghost s: L.State, ghost h: nat) returns (ghost e: L.Event)
    requires Matches(r, s, h)
    modifies r, r.conn
    ensures L.Step(s, e).Some? && L.Inv(L.Step(s, e).value) && h !in L.Step(s, e).value.handles && r.conn.returned
    ensures !old(r.done) ==> r.conn.broken && s.handles[h].conn !in L.Step(s, e).value.conns
    ensures old(r.done) ==> r.conn.broken == old(r.conn.broken)
  {
    r.Free();
    e := L.Free(h);
    L.StepKeeps(s, e);
  }

  /* ---- with events of other handles in between ---- */

  /** The event is one of handle h. */
  predicate Concerns(e: L.Event, h: nat) {
    !e.Reference? && !e.Drop? && e.h == h
  }

  /** Handle h is as it was, and so is its connection, as long as it has one. */
  ghost predicate Spared(s: L.State, s': L.State, h: nat)
    requires h in s.handles
  {
    && h in s'.handles && s'.handles[h] == s.handles[h]
    && (L.Holds(s.handles[h]) ==>
          var c := s.handles[h].conn; c in s.conns && c in s'.conns && s'.conns[c] == s.conns[c])
  }

  /** The connection that h holds is not idle, and not the one of g. */
  ghost predicate Apart(s: L.State, g: nat, h: nat) {
    && g in s.handles && h in s.handles && g != h
    && (L.Holds(s.handles[h]) ==>
          var c := s.handles[h].conn;
          c in s.conns && c !in s.idle && (L.Holds(s.handles[g]) ==> c != s.handles[g].conn))
  }

  lemma {:induction false} InvMeansApart(s: L.State, g: nat, h: nat)
    requires L.Inv(s) && h in s.handles && g in s.handles && g != h
    ensures Apart(s, g, h)
  {
  }

  lemma {:induction false} RewireSpares(s: L.State, g: nat, w: L.Wire, y: L.Handle, h: nat)
    requires Apart(s, g, h) && L.Holds(s.handles[g]) && L.HasConn(y) && y.conn == s.handles[g].conn
    ensures Spared(s, L.Rewire(s, g, w, y), h) && Apart(L.Rewire(s, g, w, y), g, h)
  {
  }

  lemma {:induction false} GiveBackSpares(s: L.State, g: nat, y: L.Handle, broke: bool, h: nat)
    requires Apart(s, g, h) && L.Holds(s.handles[g]) && (L.HasConn(y) ==> y.conn == s.handles[g].conn)
    ensures Spared(s, L.GiveBack(s, g, y, broke), h) && Apart(L.GiveBack(s, g, y, broke), g, h)
  {
  }

  lemma {:induction false} LeaveSpares(s: L.State, g: nat, h: nat)
    requires Apart(s, g, h) && s.refs > 0
    ensures Spared(s, L.Leave(s, g), h)
  {
  }

  lemma {:induction false} CatchSpares(s: L.State, g: nat, e: Exc, h: nat)
    requires Apart(s, g, h) && s.handles[g].Stream? && s.refs > 0
    ensures Spared(s, L.CatchStream(s, g, e), h)
  {
    FinishSpares(s, g, Poisons(e), h);
    if !s.handles[g].stage.Object? {
      LeaveSpares(L.FinishStream(s, g, Poisons(e)), g, h);
    }
  }

  lemma {:induction false} FinishSpares(s: L.State, g: nat, broken: bool, h: nat)
    requires Apart(s, g, h) && s.handles[g].Stream?
    ensures Spared(s, L.FinishStream(s, g, broken), h) && Apart(L.FinishStream(s, g, broken), g, h)
  {
    if !s.handles[g].released {
      GiveBackSpares(s, g, s.handles[g].(done := true, broken := broken, released := true), broken, h);
    }
  }

  lemma {:induction false} StreamSpares(s: L.State, g: nat, e: L.Event, h: nat)
    requires L.Inv(s) && L.Live(s, h) && L.Live(s, g) && g != h && s.handles[g].Stream? && L.StreamStep(s, g, e).Some?
    ensures Spared(s, L.StreamStep(s, g, e).value, h)
  {
    var x := s.handles[g];
    InvMeansApart(s, g, h);
    match e
    case Execute(_, Fine, blocks) =>
      RewireSpares(s, g, if L.WireOf(s, x).Quiet? then L.Response(blocks) else L.Desynced, x.(stage := L.Priming), h);
    case Execute(_, Fails(err, w), _) =>
      RewireSpares(s, g, w, x, h);
      CatchSpares(L.Rewire(s, g, w, x), g, err, h);
    case Pull(_, Rows(n)) =>
      var y := x.(left := n, stage := if n > 0 then L.Object else x.stage);
      RewireSpares(s, g, L.Response(L.WireOf(s, x).unread - 1), y, h);
    case Pull(_, EndOfStream) =>
      RewireSpares(s, g, L.Quiet, x.(stage := L.Object), h);
      FinishSpares(L.Rewire(s, g, L.Quiet, x.(stage := L.Object)), g, false, h);
    case Pull(_, PullFails(err, w)) =>
      RewireSpares(s, g, w, x, h);
      CatchSpares(L.Rewire(s, g, w, x), g, err, h);
    case Row(_, None) =>
    case Row(_, Some(err)) => CatchSpares(s, g, err, h);
  }

  lemma {:induction false} TalkSpares(s: L.State, g: nat, said: L.Said, h: nat)
    requires L.Inv(s) && L.Live(s, h) && Talking(s, g) && g != h
    ensures Spared(s, L.TalkStep(s, g, said), h)
  {
    InvMeansApart(s, g, h);
    match s.handles[g]
    case Batch(c, l, _, broken, released) =>
      RewireSpares(s, g, said.wire, L.Batch(c, l, said.pc, broken || said.broke, released), h);
    case Inserting(c, l, _) =>
      var y := L.Inserting(c, l, said.pc);
      RewireSpares(s, g, said.wire, y, h);
      if said.pc.Resting? {
        var s' := L.Rewire(s, g, said.wire, y);
        GiveBackSpares(s', g, L.Returning, said.broke, h);
        LeaveSpares(L.GiveBack(s', g, L.Returning, said.broke), g, h);
      }
  }

  lemma {:induction false} FreeSpares(s: L.State, g: nat, h: nat)
    requires L.Inv(s) && L.Live(s, h) && g in s.handles && (s.handles[g].Stream? || s.handles[g].Batch?) && g != h
    ensures Spared(s, L.FreeStep(s, g), h)
  {
    InvMeansApart(s, g, h);
    var x := s.handles[g];
    if x.released {
      LeaveSpares(s, g, h);
    } else {
      var broke := x.broken || (x.Stream? && !x.done);
      GiveBackSpares(s, g, L.Returning, broke, h);
      LeaveSpares(L.GiveBack(s, g, L.Returning, broke), g, h);
    }
  }

  lemma {:induction false} AcquireSpares(s: L.State, g: nat, e: L.Event, h: nat)
    requires L.Inv(s) && L.Live(s, h) && g in s.handles && g != h && L.AcquireStep(s, g, e).Some?
    ensures Spared(s, L.AcquireStep(s, g, e).value, h)
  {
    hide L.Inv, L.Leave;
    InvMeansApart(s, g, h);
    match (s.handles[g], e)
    case (Waiting(_), AcquireFails(_)) => LeaveSpares(s, g, h);
    case (Dialing(_), AcquireFails(_)) => LeaveSpares(s.(dialing := s.dialing - {g}), g, h);
    case _ =>
  }

  /** An event of another handle, or none, spares the handle h and its connection. */
  lemma {:induction false} OthersSpare(s: L.State, e: L.Event, h: nat)
    requires L.Inv(s) && L.Live(s, h) && L.Step(s, e).Some? && !Concerns(e, h)
    ensures Spared(s, L.Step(s, e).value, h)
  {
    hide L.AcquireStep, L.StreamStep, L.TalkStep, L.FreeStep, L.Inv;
    match e
    case TakeIdle(g, _) => AcquireSpares(s, g, e, h);
    case Dial(g) => AcquireSpares(s, g, e, h);
    case Dialed(g, _) => AcquireSpares(s, g, e, h);
    case AcquireFails(g) => AcquireSpares(s, g, e, h);
    case Execute(g, _, _) => StreamSpares(s, g, e, h);
    case Pull(g, _) => StreamSpares(s, g, e, h);
    case Row(g, _) => StreamSpares(s, g, e, h);
    case Talk(g, line) => TalkSpares(s, g, L.Converse(s.handles[g].pc, L.WireOf(s, s.handles[g]), line).value, h);
    case Free(g) => FreeSpares(s, g, h);
    case _ => IdlersSpare(s, e, h);
  }

  lemma {:induction false} IdlersSpare(s: L.State, e: L.Event, h: nat)
    requires L.Inv(s) && L.Live(s, h) && L.Step(s, e).Some? && !Concerns(e, h)
    requires e.Reference? || e.Drop? || e.Call? || e.StartFlush?
    ensures Spared(s, L.Step(s, e).value, h)
  {
    HeldIsThere(s, h);
  }

  /** ... and so does any run of such events, in which the handle also stays alive. */
  lemma {:induction false} RunOfOthersSpares(s: L.State, es: seq<L.Event>, h: nat)
    requires L.Inv(s) && L.Live(s, h) && L.Run(s, es).Some? && forall i :: 0 <= i < |es| ==> !Concerns(es[i], h)
    ensures var s' := L.Run(s, es).value;
            L.Inv(s') && L.Live(s', h) && (L.Holds(s.handles[h]) ==> s.handles[h].conn in s.conns) && Spared(s, s', h)
    decreases |es|
  {
    hide L.Step, L.Inv;
    HeldIsThere(s, h);
    if es != [] {
      var s1 := L.Step(s, es[0]).value;
      L.StepKeeps(s, es[0]);
      OthersSpare(s, es[0], h);
      AliveWithHandle(s1, h);
      RunOfOthersSpares(s1, es[1..], h);
    }
  }

  lemma {:induction false} HeldIsThere(s: L.State, h: nat)
    requires L.Inv(s) && h in s.handles
    ensures L.Holds(s.handles[h]) ==> s.handles[h].conn in s.conns
  {
    assert L.Holds(s.handles[h]) ==> s.handles[h].conn in s.out;
  }

  lemma {:induction false} AliveWithHandle(s: L.State, h: nat)
    requires L.Inv(s) && h in s.handles
    ensures s.refs > 0
  {
  }

  /** Whatever other calls, Results and Batches do in between, a Result and a Batch still match
      their handles: the runs of one object may be interleaved with those of all others. */
  lemma {:induction false} MatchingSurvivesOthers(r: R.ChResult, b: B.ChBatch, s: L.State, es: seq<L.Event>, h: nat)
    requires L.Inv(s) && L.Live(s, h) && L.Run(s, es).Some? && forall i :: 0 <= i < |es| ==> !Concerns(es[i], h)
    ensures Matches(r, s, h) ==> Matches(r, L.Run(s, es).value, h)
    ensures BatchMatches(b, s, h) ==> BatchMatches(b, L.Run(s, es).value, h)
  {
    hide L.Run, R.ChResult.Valid, B.ChBatch.Valid;
    RunOfOthersSpares(s, es, h);
  }
}
