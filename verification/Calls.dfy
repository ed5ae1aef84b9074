/** Whole calls of the client as runs of the transition system: from the call, by either way to a
    connection, to the object or to nothing. */
module Calls {
  import opened Exceptions
  import opened MemoRun
  import opened PhpValues
  import opened ScalarCodec
  import B = Batch
  import C = CleanReuse
  import I = Insert
  import L = Lifecycle
  import R = ResultStream
  import S = Simulation

  /* ---- when a call gets its connection ---- */

  /** A waiting call may take any idle connection, and no other; it may have one dialled exactly when
      none is idle and the pool is not full. */
  lemma {:induction false} AcquireIsEnabledIff(s: L.State, h: nat, c: nat)
    requires L.Inv(s) && L.Live(s, h) && s.handles[h].Waiting?
    ensures L.Step(s, L.TakeIdle(h, c)).Some? <==> c in s.idle
    ensures L.Step(s, L.Dial(h)).Some? <==> s.idle == {} && |s.out| + |s.dialing| < s.max
  {
    PoolCount(s);
  }

  lemma {:induction false} PoolCount(s: L.State)
    requires L.Inv(s)
    ensures |s.conns| == |s.idle| + |s.out| && |s.idle| + |s.out| + |s.dialing| <= s.max
  {
    hide L.RefsOk, L.BookOk, L.LeasesOk, L.FlagsOk;
    UnionCount(s.conns, s.idle, s.out);
  }

  lemma {:induction false} UnionCount(conns: map<nat, L.Conn>, idle: set<nat>, out: map<nat, nat>)
    requires forall c :: c in conns <==> c in idle || c in out
    requires forall c :: c in idle ==> c !in out
    ensures |conns| == |idle| + |out|
  {
    assert conns.Keys == idle + out.Keys && idle !! out.Keys;
    assert |conns| == |conns.Keys| && |out| == |out.Keys|;
  }

  /** A waiting call can get no connection. */
  ghost predicate Stuck(s: L.State, h: nat) {
    (forall c: nat :: L.Step(s, L.TakeIdle(h, c)).None?) && L.Step(s, L.Dial(h)).None?
  }

  /** It is stuck exactly while every connection that the pool may have is in use or being dialled. */
  lemma {:induction false} StuckIffFull(s: L.State, h: nat)
    requires L.Inv(s) && L.Live(s, h) && s.handles[h].Waiting?
    ensures Stuck(s, h) <==> |s.out| + |s.dialing| == s.max
  {
    hide L.Step, L.Inv;
    PoolCount(s);
    AcquireIsEnabledIff(s, h, 0);
    forall c: nat ensures L.Step(s, L.TakeIdle(h, c)).Some? <==> c in s.idle {
      AcquireIsEnabledIff(s, h, c);
    }
    if s.idle != {} {
      var c :| c in s.idle;
      assert L.Step(s, L.TakeIdle(h, c)).Some? && |s.idle| > 0;
    }
  }

  /** What a call becomes with connection c: an insert about to begin, a batch at rest, or a query
      about to be executed. */
  ghost predicate Started(s: L.State, h: nat, kind: L.Kind, c: nat) {
    && L.Inv(s) && L.Live(s, h) && c in s.conns && c in s.out && s.out[c] == h
    && match kind
       case InsertCall => s.handles[h].Inserting? && s.handles[h].conn == c && s.handles[h].pc.AtBegin?
       case BatchCall =>
         && s.handles[h].Batch? && s.handles[h].conn == c && s.handles[h].pc.Resting?
         && !s.handles[h].broken && !s.handles[h].released
       case QueryCall =>
         && s.handles[h].Stream? && s.handles[h].conn == c && s.handles[h].stage.Executing? && s.handles[h].left == 0
         && !s.handles[h].done && !s.handles[h].broken && !s.handles[h].released
  }

  /** Taking an idle connection starts the call on the wire as it is. */
  lemma {:induction false} TakeIdleStarts(s: L.State, h: nat, kind: L.Kind, c: nat)
    requires L.Inv(s) && L.Live(s, h) && s.handles[h] == L.Waiting(kind) && c in s.idle
    ensures var s' := L.Step(s, L.TakeIdle(h, c));
            && s'.Some? && Started(s'.value, h, kind, c) && c !in s'.value.idle && c in s.conns
            && s'.value.conns[c] == s.conns[c] && s'.value.external == s.external
  {
    L.StepKeeps(s, L.TakeIdle(h, c));
  }

  /** A dialled one starts it on a quiet wire. */
  lemma {:induction false} DialedStarts(s: L.State, h: nat, kind: L.Kind, c: nat)
    requires L.Inv(s) && L.Live(s, h) && s.handles[h] == L.Dialing(kind) && c !in s.conns
    ensures var s' := L.Step(s, L.Dialed(h, c));
            && s'.Some? && Started(s'.value, h, kind, c)
            && s'.value.conns[c].wire == L.Quiet && s'.value.external == s.external
  {
    L.StepKeeps(s, L.Dialed(h, c));
  }

  /* ---- from the call to the connection ---- */

  /** The pool's two ways to connection c, in a state in which nobody else interferes. */
  predicate Offers(s: L.State, c: nat, dials: bool) {
    if dials then L.Dialable(s) && c !in s.conns else c in s.idle
  }

  function Opening(h: nat, kind: L.Kind, c: nat, dials: bool): seq<L.Event> {
    [L.Call(h, kind)] + if dials then [L.Dial(h), L.Dialed(h, c)] else [L.TakeIdle(h, c)]
  }

  lemma {:induction false} CallWaits(s: L.State, h: nat, kind: L.Kind)
    requires L.Inv(s) && s.external > 0 && h !in s.handles
    ensures var s' := L.Step(s, L.Call(h, kind));
            && s'.Some? && L.Inv(s'.value) && L.Live(s'.value, h) && s'.value.handles[h] == L.Waiting(kind)
            && s'.value.conns == s.conns && s'.value.idle == s.idle && s'.value.dialing == s.dialing
            && s'.value.max == s.max && s'.value.external == s.external
  {
    L.StepKeeps(s, L.Call(h, kind));
  }

  lemma {:induction false} DialWaits(s: L.State, h: nat, kind: L.Kind)
    requires L.Inv(s) && L.Live(s, h) && s.handles[h] == L.Waiting(kind) && L.Dialable(s)
    ensures var s' := L.Step(s, L.Dial(h));
            && s'.Some? && L.Inv(s'.value) && L.Live(s'.value, h) && s'.value.handles[h] == L.Dialing(kind)
            && s'.value.conns == s.conns && s'.value.external == s.external
  {
    L.StepKeeps(s, L.Dial(h));
  }

  /** A call on a client that offers connection c is a run to the call started on it. */
  lemma {:induction false} CallStarts(s: L.State, h: nat, kind: L.Kind, c: nat, dials: bool) returns (s': L.State)
    requires L.Inv(s) && s.external > 0 && h !in s.handles && Offers(s, c, dials)
    ensures L.Run(s, Opening(h, kind, c, dials)) == Some(s') && Started(s', h, kind, c)
    ensures s'.external == s.external
    ensures if dials then s'.conns[c].wire == L.Quiet else c in s.conns && s'.conns[c] == s.conns[c]
  {
    hide L.Step, L.Inv, L.Run;
    CallWaits(s, h, kind);
    var s1 := L.Step(s, L.Call(h, kind)).value;
    if dials {
      DialWaits(s1, h, kind);
      var s2 := L.Step(s1, L.Dial(h)).value;
      DialedStarts(s2, h, kind, c);
      s' := L.Step(s2, L.Dialed(h, c)).value;
      C.RunOfThree(s, L.Call(h, kind), L.Dial(h), L.Dialed(h, c));
      assert Opening(h, kind, c, dials) == [L.Call(h, kind), L.Dial(h), L.Dialed(h, c)];
    } else {
      TakeIdleStarts(s1, h, kind, c);
      s' := L.Step(s1, L.TakeIdle(h, c)).value;
      RunOfOne(s1, L.TakeIdle(h, c));
      C.RunFirst(s, L.Call(h, kind), [L.TakeIdle(h, c)]);
    }
  }

  lemma {:induction false} RunOfOne(s: L.State, e: L.Event)
    requires L.Step(s, e).Some?
    ensures L.Run(s, [e]) == L.Step(s, e)
  {
    assert [e][1..] == [];
  }

  /** A call that gets no connection leaves nothing behind, and neither does a reference dropped. */
  lemma {:induction false} FailedCallLeavesNothing(s: L.State, h: nat, kind: L.Kind)
    requires L.Inv(s) && s.external > 0 && h !in s.handles
    ensures L.Run(s, [L.Call(h, kind), L.AcquireFails(h)]) == Some(s)
    ensures L.Dialable(s) ==> L.Run(s, [L.Call(h, kind), L.Dial(h), L.AcquireFails(h)]) == Some(s)
    ensures L.Run(s, [L.Reference, L.Drop]) == Some(s)
  {
    hide L.Run, L.Step, L.Dialable;
    NobodyDialsFor(s, h);
    CallGivesUp(s, h, kind);
    RunOfTwo(s, L.Call(h, kind), L.AcquireFails(h));
    if L.Dialable(s) {
      DialGivesUp(s, h, kind);
      C.RunOfThree(s, L.Call(h, kind), L.Dial(h), L.AcquireFails(h));
    }
    ReferenceDrops(s);
    RunOfTwo(s, L.Reference, L.Drop);
  }

  lemma {:induction false} RunOfTwo(s: L.State, a: L.Event, b: L.Event)
    requires L.Step(s, a).Some? && L.Step(L.Step(s, a).value, b).Some?
    ensures L.Run(s, [a, b]) == L.Step(L.Step(s, a).value, b)
  {
    hide L.Step;
    RunOfOne(L.Step(s, a).value, b);
    C.RunFirst(s, a, [b]);
    assert [a] + [b] == [a, b];
  }

  lemma {:induction false} CallGivesUp(s: L.State, h: nat, kind: L.Kind)
    requires s.external > 0 && s.refs > 0 && h !in s.handles
    ensures L.Step(s, L.Call(h, kind)).Some?
    ensures L.Step(L.Step(s, L.Call(h, kind)).value, L.AcquireFails(h)) == Some(s)
  {
    hide L.Leave;
    LeaveUndoesEnter(s, h, L.Waiting(kind));
  }

  lemma {:induction false} DialGivesUp(s: L.State, h: nat, kind: L.Kind)
    requires s.external > 0 && s.refs > 0 && h !in s.handles && h !in s.dialing && L.Dialable(s)
    ensures L.Step(s, L.Call(h, kind)).Some?
    ensures var s1 := L.Step(s, L.Call(h, kind)).value;
            L.Step(s1, L.Dial(h)).Some? && L.Step(L.Step(s1, L.Dial(h)).value, L.AcquireFails(h)) == Some(s)
  {
    hide L.Leave;
    var s1 := L.Enter(s, h, L.Waiting(kind));
    var s2 := s1.(handles := s1.handles[h := L.Dialing(kind)], dialing := s1.dialing + {h});
    assert L.Step(s, L.Call(h, kind)) == Some(s1) && L.Step(s1, L.Dial(h)) == Some(s2);
    assert s1.handles[h := L.Dialing(kind)] == s.handles[h := L.Dialing(kind)] && s.dialing + {h} - {h} == s.dialing;
    assert s2.(dialing := s2.dialing - {h}) == L.Enter(s, h, L.Dialing(kind));
    LeaveUndoesEnter(s, h, L.Dialing(kind));
  }

  lemma {:induction false} ReferenceDrops(s: L.State)
    requires s.external > 0 && s.refs > 0
    ensures L.Step(s, L.Reference).Some? && L.Step(L.Step(s, L.Reference).value, L.Drop) == Some(s)
  {
  }

  lemma {:induction false} LeaveUndoesEnter(s: L.State, h: nat, x: L.Handle)
    requires s.refs > 0 && h !in s.handles
    ensures L.Leave(L.Enter(s, h, x), h) == s
  {
    assert s.handles[h := x] - {h} == s.handles;
  }

  lemma {:induction false} NobodyDialsFor(s: L.State, h: nat)
    requires L.Inv(s) && h !in s.handles
    ensures h !in s.dialing && (s.external > 0 ==> s.refs > 0)
  {
  }

  /* ---- insert ---- */

  lemma {:induction false} TalksKeepReferences(s: L.State, h: nat, lines: seq<L.Line>)
    requires L.Run(s, S.Talks(h, lines)).Some?
    ensures L.Run(s, S.Talks(h, lines)).value.external == s.external
    decreases |lines|
  {
    if lines != [] {
      TalkKeepsReferences(s, h, lines[0]);
      assert S.Talks(h, lines)[1..] == S.Talks(h, lines[1..]);
      hide L.Step;
      TalksKeepReferences(L.Step(s, L.Talk(h, lines[0])).value, h, lines[1..]);
    }
  }

  lemma {:induction false} TalkKeepsReferences(s: L.State, h: nat, line: L.Line)
    requires L.Step(s, L.Talk(h, line)).Some?
    ensures L.Step(s, L.Talk(h, line)).value.external == s.external
  {
  }

  lemma {:induction false} StillReferenced(s: L.State)
    requires L.Inv(s) && s.external > 0
    ensures s.refs > 0
  {
  }

  /** Client::insert, the whole call: it gets a connection, talks, and is gone; the connection is idle
      iff the insert did not break it. */
  method InsertCall(lib: Lib, at: Allocator, wire: I.InsertWire, executor: Executor, names: seq<string>,
                    rows: seq<Value>, ghost s: L.State, ghost h: nat, ghost c: nat, ghost dials: bool, ghost w: L.Wire)
    returns (ok: bool, broke: bool, ghost s': L.State)
    requires wire.script.sample.Ok? ==> I.TypesOk(wire.script.sample.value)
    requires wire.sent == [] && wire.ends == 0
    requires L.Inv(s) && s.external > 0 && h !in s.handles && Offers(s, c, dials)
    modifies wire, executor
    ensures var lines := S.InsertLines(lib, at, wire.script, |names|, rows, w);
            L.Run(s, Opening(h, L.InsertCall, c, dials) + S.Talks(h, lines)) == Some(s')
    ensures L.Inv(s') && h !in s'.handles && (c in s'.idle <==> !broke)
    ensures ok <==> I.MemoFailure(lib, at, wire.script, |names|, rows).None?
    ensures broke <==> B.MemoBreaks(lib, at, wire.script, |names|, rows)
    ensures wire.sent != [] <==> I.MemoSends(lib, at, wire.script, |names|, rows)
  {
    hide L.Step, L.Inv, L.Run, I.MemoFailure, I.MemoSends;
    ghost var lines := S.InsertLines(lib, at, wire.script, |names|, rows, w);
    ghost var s1 := CallStarts(s, h, L.InsertCall, c, dials);
    ok, broke, s' := S.InsertSimulates(lib, at, wire, executor, names, rows, s1, h, w);
    C.RunAppend(s, Opening(h, L.InsertCall, c, dials), S.Talks(h, lines));
    TalksKeepReferences(s1, h, lines);
    StillReferenced(s');
  }

  /* ---- insertBatch ---- */

  /** Client::insertBatch: the new object matches its handle. */
  method BatchCall(lib: Lib, names: seq<string>, ghost s: L.State, ghost h: nat, ghost c: nat, ghost dials: bool)
    returns (b: B.ChBatch, ghost s': L.State)
    requires L.Inv(s) && s.external > 0 && h !in s.handles && Offers(s, c, dials)
    ensures L.Run(s, Opening(h, L.BatchCall, c, dials)) == Some(s')
    ensures fresh(b) && fresh(b.conn) && S.BatchMatches(b, s', h) && s'.handles[h].conn == c
    ensures b.names == names && b.Abs() == B.Empty(|names|) && !b.conn.broken
  {
    hide L.Step, L.Inv, L.Run;
    s' := CallStarts(s, h, L.BatchCall, c, dials);
    var conn := new B.Pinned();
    b := new B.ChBatch(lib, conn, names);
  }

  /* ---- query ---- */

  /** Client::query on a pool that offers quiet connections: it executes and primes; then the Result
      matches its handle, or the call is gone with its exception. */
  method QueryCall(lib: Lib, conn: R.Connection, ghost s: L.State, ghost h: nat, ghost c: nat, ghost dials: bool,
                   ghost w: L.Wire)
    returns (r: R.ChResult, thrown: Option<Exc>, ghost es: seq<L.Event>, ghost s': L.State)
    requires R.BlocksOk(conn.script.blocks) && conn.unread == conn.script.blocks
    requires !conn.ended && !conn.returned && !conn.broken
    requires L.Inv(s) && C.IdleClean(s) && s.external > 0 && h !in s.handles && Offers(s, c, dials)
    modifies conn
    ensures fresh(r) && r.conn == conn
    ensures L.Run(s, Opening(h, L.QueryCall, c, dials) + es) == Some(s')
    ensures thrown.None? ==> S.Matches(r, s', h) && s'.handles[h].conn == c
    ensures thrown.Some? ==>
              && r.conn.returned && r.conn.broken == Poisons(thrown.value)
              && S.CalledOff(s', h, c, thrown.value)
  {
    hide L.Step, L.Inv, L.Run;
    ghost var s1 := CallStarts(s, h, L.QueryCall, c, dials);
    assert s1.conns[c].wire.Quiet?;
    r := new R.ChResult(lib, conn);
    thrown, es, s' := S.StartSimulates(r, s1, h, w);
    C.RunAppend(s, Opening(h, L.QueryCall, c, dials), es);
  }
}
