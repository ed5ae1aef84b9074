/** When a connection that the pool hands out again is fit for use: nothing unread, no open
    insert session, no partly sent packet. */
module CleanReuse {
  import opened Exceptions
  import opened Lifecycle

  ghost predicate IdleClean(s: State) {
    forall c :: c in s.idle && c in s.conns ==> s.conns[c].wire.Quiet?
  }

  /* ---- step by step, whatever the network does ---- */

  predicate Spoiled(e: Exc, w: Wire) {
    !Poisons(e) && !w.Quiet?
  }

  /** The events that put an unfit connection back. A stream: an exception that does not poison
      comes while the response is not over. An insert: EndInsert returns on a wire that is in no
      insert session. A batch: it is destroyed unbroken on such a wire. */
  predicate Dirties(s: State, e: Event)
    requires Step(s, e).Some?
  {
    match e
    case Row(h, Some(err)) => !s.handles[h].released && Spoiled(err, WireOf(s, s.handles[h]))
    case Pull(_, PullFails(err, w)) => Spoiled(err, w)
    case Execute(_, Fails(err, w), _) => Spoiled(err, w)
    case Talk(h, End(Fine)) => s.handles[h].Inserting? && !Closed(WireOf(s, s.handles[h])).Quiet?
    case Talk(h, Close(Fine)) => s.handles[h].Inserting? && !Closed(WireOf(s, s.handles[h])).Quiet?
    case Free(h) => s.handles[h].Batch? && !s.handles[h].broken && !WireOf(s, s.handles[h]).Quiet?
    case _ => false
  }

  lemma {:induction false} GiveBackCleanIff(s: State, h: nat, y: Handle, broke: bool)
    requires s.open && PoolOk(s) && BookOk(s) && IdleClean(s) && h in s.handles && Holds(s.handles[h])
    ensures IdleClean(GiveBack(s, h, y, broke)) <==> broke || WireOf(s, s.handles[h]).Quiet?
  {
    var c := s.handles[h].conn;
    assert c in s.out && c in s.conns && c !in s.idle;
    if !broke {
      assert c in GiveBack(s, h, y, broke).idle;
    }
  }

  lemma {:induction false} RewireKeepsClean(s: State, h: nat, w: Wire, y: Handle)
    requires Inv(s) && IdleClean(s) && h in s.handles && Holds(s.handles[h])
    requires Holds(y) && y.conn == s.handles[h].conn && y.lease == s.handles[h].lease
    ensures var s' := Rewire(s, h, w, y);
            && InvButFlags(s', h) && IdleClean(s') && WireOf(s', y) == w && s'.refs == s.refs > 0 && s'.handles[h] == y
  {
    RewireKeeps(s, h, w, y);
  }

  /** The last reference closes the pool and destroys what is idle. */
  lemma {:induction false} LeaveCleanIff(s: State, h: nat)
    requires s.refs > 0
    ensures IdleClean(Leave(s, h)) <==> IdleClean(s) || Leave(s, h).refs == 0
  {
  }

  lemma {:induction false} FinishStreamCleanIff(s: State, h: nat, broken: bool)
    requires InvButFlags(s, h) && IdleClean(s) && h in s.handles && s.handles[h].Stream?
    ensures IdleClean(FinishStream(s, h, broken))
            <==> s.handles[h].released || broken || WireOf(s, s.handles[h]).Quiet?
  {
    var x := s.handles[h];
    if !x.released {
      GiveBackCleanIff(s, h, x.(done := true, broken := broken, released := true), broken);
    }
  }

  lemma {:induction false} CatchStreamCleanIff(s: State, h: nat, e: Exc)
    requires InvButFlags(s, h) && IdleClean(s) && h in s.handles && s.handles[h].Stream? && s.refs > 0
    ensures var s' := CatchStream(s, h, e);
            IdleClean(s') <==> s.handles[h].released || !Spoiled(e, WireOf(s, s.handles[h])) || s'.refs == 0
  {
    FinishStreamCleanIff(s, h, Poisons(e));
    if !s.handles[h].stage.Object? {
      LeaveCleanIff(FinishStream(s, h, Poisons(e)), h);
    }
  }

  lemma {:induction false} ExecuteCleanIff(s: State, h: nat, a: Answer, blocks: nat)
    requires Inv(s) && IdleClean(s) && Live(s, h) && s.handles[h].Stream? && s.handles[h].stage.Executing?
    ensures var s' := ExecuteStep(s, h, a, blocks);
            IdleClean(s') <==> a.Fine? || !Spoiled(a.error, a.wire) || s'.refs == 0
  {
    var x := s.handles[h];
    match a
    case Fine =>
      RewireKeepsClean(s, h, if WireOf(s, x).Quiet? then Response(blocks) else Desynced, x.(stage := Priming));
    case Fails(err, w) =>
      RewireKeepsClean(s, h, w, x);
      CatchStreamCleanIff(Rewire(s, h, w, x), h, err);
  }

  lemma {:induction false} PullCleanIff(s: State, h: nat, p: Pulled)
    requires Inv(s) && IdleClean(s) && Live(s, h) && s.handles[h].Stream? && Holds(s.handles[h])
    requires PullStep(s, h, p).Some?
    ensures var s' := PullStep(s, h, p).value;
            IdleClean(s') <==> !p.PullFails? || !Spoiled(p.error, p.wire) || s'.refs == 0
  {
    hide IdleClean, Inv, InvButFlags, FinishStream, CatchStream;
    var x := s.handles[h];
    match p
    case Rows(n) =>
      var y := x.(left := n, stage := if n > 0 then Object else x.stage);
      RewireKeepsClean(s, h, Response(WireOf(s, x).unread - 1), y);
    case EndOfStream =>
      var y := x.(stage := Object);
      RewireKeepsClean(s, h, Quiet, y);
      FinishStreamCleanIff(Rewire(s, h, Quiet, y), h, false);
    case PullFails(err, w) =>
      RewireKeepsClean(s, h, w, x);
      CatchStreamCleanIff(Rewire(s, h, w, x), h, err);
  }

  lemma {:induction false} RowCleanIff(s: State, h: nat, thrown: Option<Exc>)
    requires Inv(s) && IdleClean(s) && Live(s, h) && s.handles[h].Stream? && s.handles[h].left > 0
    ensures var s' := RowStep(s, h, thrown);
            IdleClean(s') <==>
            thrown.None? || s.handles[h].released || !Spoiled(thrown.value, WireOf(s, s.handles[h])) || s'.refs == 0
  {
    if thrown.Some? {
      CatchStreamCleanIff(s, h, thrown.value);
    }
  }

  lemma {:induction false} TalkStepCleanIff(s: State, h: nat, said: Said)
    requires Inv(s) && IdleClean(s) && Live(s, h) && (s.handles[h].Inserting? || s.handles[h].Batch?)
    ensures IdleClean(TalkStep(s, h, said))
            <==> s.handles[h].Batch? || !said.pc.Resting? || said.broke || said.wire.Quiet?
                 || TalkStep(s, h, said).refs == 0
  {
    match s.handles[h]
    case Batch(c, l, _, broken, released) =>
      RewireKeepsClean(s, h, said.wire, Batch(c, l, said.pc, broken || said.broke, released));
    case Inserting(c, l, _) =>
      var y := Inserting(c, l, said.pc);
      RewireKeepsClean(s, h, said.wire, y);
      if said.pc.Resting? {
        var s' := Rewire(s, h, said.wire, y);
        GiveBackCleanIff(s', h, Returning, said.broke);
        LeaveCleanIff(GiveBack(s', h, Returning, said.broke), h);
      }
  }

  lemma {:induction false} ConverseEnds(pc: Pc, w: Wire, line: Line)
    requires Converse(pc, w, line).Some?
    ensures var said := Converse(pc, w, line).value;
            said.pc.Resting? && !said.broke && !said.wire.Quiet?
            <==> (line == End(Fine) || line == Close(Fine)) && !Closed(w).Quiet?
  {
  }

  lemma {:induction false} TalkCleanIff(s: State, h: nat, line: Line)
    requires Inv(s) && IdleClean(s) && Live(s, h) && Step(s, Talk(h, line)).Some?
    ensures IdleClean(Step(s, Talk(h, line)).value)
            <==> !Dirties(s, Talk(h, line)) || Step(s, Talk(h, line)).value.refs == 0
  {
    var pc, w := s.handles[h].pc, WireOf(s, s.handles[h]);
    ConverseEnds(pc, w, line);
    TalkStepCleanIff(s, h, Converse(pc, w, line).value);
  }

  lemma {:induction false} FreeCleanIff(s: State, h: nat)
    requires Inv(s) && IdleClean(s) && Live(s, h) && Step(s, Free(h)).Some?
    ensures IdleClean(Step(s, Free(h)).value) <==> !Dirties(s, Free(h)) || Step(s, Free(h)).value.refs == 0
  {
    var x := s.handles[h];
    if x.released {
      LeaveCleanIff(s, h);
    } else {
      var broke := x.broken || (x.Stream? && !x.done);
      GiveBackCleanIff(s, h, Returning, broke);
      LeaveCleanIff(GiveBack(s, h, Returning, broke), h);
    }
  }

  /** Exactly the dirtying events put an unfit connection into the idle pool (unless the step
      also drops the last reference, which empties the pool). */
  lemma {:induction false} StepCleanIff(s: State, e: Event)
    requires Inv(s) && IdleClean(s) && Step(s, e).Some?
    ensures IdleClean(Step(s, e).value) <==> !Dirties(s, e) || Step(s, e).value.refs == 0
  {
    hide IdleClean, AcquireStep, ExecuteStep, PullStep, RowStep, TalkStep, FreeStep, Converse, WireOf;
    match e
    case Execute(h, a, blocks) => ExecuteCleanIff(s, h, a, blocks);
    case Pull(h, p) => PullCleanIff(s, h, p);
    case Row(h, thrown) => RowCleanIff(s, h, thrown);
    case Talk(h, line) => TalkCleanIff(s, h, line);
    case Free(h) => FreeCleanIff(s, h);
    case _ => OtherStepsKeepClean(s, e);
  }

  lemma {:induction false} OtherStepsKeepClean(s: State, e: Event)
    requires Inv(s) && IdleClean(s) && Step(s, e).Some?
    requires !e.Execute? && !e.Pull? && !e.Row? && !e.Talk? && !e.Free?
    ensures IdleClean(Step(s, e).value)
  {
  }

  /* ---- runs ---- */

  /** Every state on the way has a clean idle pool. */
  ghost predicate AlwaysClean(s: State, es: seq<Event>)
    requires Run(s, es).Some?
    decreases |es|
  {
    IdleClean(s) && (es != [] ==> AlwaysClean(Step(s, es[0]).value, es[1..]))
  }

  predicate NeverDirties(s: State, es: seq<Event>)
    requires Run(s, es).Some?
    decreases |es|
  {
    es == [] || ((!Dirties(s, es[0]) || Step(s, es[0]).value.refs == 0) && NeverDirties(Step(s, es[0]).value, es[1..]))
  }

  /** Over whole runs and whatever the network does: the pool only ever offers clean connections
      iff no event releases an unfit one. */
  lemma {:induction false} AlwaysCleanIff(s: State, es: seq<Event>)
    requires Inv(s) && IdleClean(s) && Run(s, es).Some?
    ensures AlwaysClean(s, es) <==> NeverDirties(s, es)
    decreases |es|
  {
    if es != [] {
      var s' := Step(s, es[0]).value;
      StepCleanIff(s, es[0]);
      StepKeeps(s, es[0]);
      if IdleClean(s') {
        AlwaysCleanIff(s', es[1..]);
      }
    }
  }

  /* ---- the hypotheses under which nothing is dirtied ---- */

  /** The exception of the wire that does not poison is the server's error packet. It ends the
      exchange of a query; within an insert it may leave the session open, but in order. */
  predicate WireHonest(e: Event) {
    match e
    case Execute(_, Fails(err, w), _) => !Spoiled(err, w)
    case Pull(_, PullFails(err, w)) => !Spoiled(err, w)
    case Talk(_, Begin(Fails(err, w))) => Poisons(err) || Closed(w).Quiet?
    case Talk(_, Send(_, Fails(err, w))) => Poisons(err) || Closed(w).Quiet?
    case Talk(_, End(Fails(err, w))) => Poisons(err) || Closed(w).Quiet?
    case _ => true
  }

  /** A row of a stream that is not over cannot be read: the branch of the fetch that releases
      the connection on an exception outside the poison set. */
  predicate Unreadable(s: State, e: Event) {
    match e
    case Row(h, Some(err)) => h in s.handles && s.handles[h].Stream? && !s.handles[h].done && !Poisons(err)
    case _ => false
  }

  predicate Honest(s: State, e: Event) {
    WireHonest(e) && !Unreadable(s, e)
  }

  predicate InStep(pc: Pc, w: Wire) {
    match pc
    case Resting => w.Quiet?
    case AtBegin => w.Quiet?
    case AtSend => w.Session?
    case AtEnd => w.Session?
    case AtClose => w.Quiet? || w.Session?
  }

  /** The wire is where the handle's next call expects it. */
  predicate Orderly(x: Handle, w: Wire) {
    match x
    case Inserting(_, _, pc) => InStep(pc, w)
    case Batch(_, _, pc, broken, _) => broken || InStep(pc, w)
    case Stream(_, _, stage, _, _, _, released) => released || (if stage.Executing? then w.Quiet? else w.Response?)
    case _ => true
  }

  /** ... for every handle that holds a connection, except h. */
  ghost predicate OrderlyBut(s: State, h: nat) {
    forall g :: g in s.handles && g != h && Holds(s.handles[g]) ==> Orderly(s.handles[g], WireOf(s, s.handles[g]))
  }

  ghost predicate AllOrderly(s: State) {
    forall g :: g in s.handles && Holds(s.handles[g]) ==> Orderly(s.handles[g], WireOf(s, s.handles[g]))
  }

  lemma {:induction false} RewireOrderly(s: State, h: nat, w: Wire, y: Handle)
    requires BookOk(s) && PoolOk(s) && AllOrderly(s) && h in s.handles && Holds(s.handles[h])
    requires HasConn(y) && y.conn == s.handles[h].conn
    ensures OrderlyBut(Rewire(s, h, w, y), h)
    ensures Orderly(y, w) ==> AllOrderly(Rewire(s, h, w, y))
  {
    assert s.handles[h].conn in s.conns;
  }

  lemma {:induction false} GiveBackOrderly(s: State, h: nat, y: Handle, broke: bool)
    requires BookOk(s) && PoolOk(s) && OrderlyBut(s, h) && h in s.handles && Holds(s.handles[h]) && !Holds(y)
    ensures AllOrderly(GiveBack(s, h, y, broke))
  {
  }

  lemma {:induction false} LeaveOrderly(s: State, h: nat)
    requires BookOk(s) && AllOrderly(s) && s.refs > 0 && forall c :: c in s.idle ==> c !in s.out
    ensures AllOrderly(Leave(s, h))
  {
  }

  lemma {:induction false} CatchOrderly(s: State, h: nat, e: Exc)
    requires InvButFlags(s, h) && OrderlyBut(s, h) && h in s.handles && s.handles[h].Stream? && s.refs > 0
    ensures AllOrderly(CatchStream(s, h, e))
  {
    FinishOrderly(s, h, Poisons(e));
    FinishStreamKeeps(s, h, Poisons(e));
    if !s.handles[h].stage.Object? {
      LeaveOrderly(FinishStream(s, h, Poisons(e)), h);
    }
  }

  lemma {:induction false} FinishOrderly(s: State, h: nat, broken: bool)
    requires InvButFlags(s, h) && OrderlyBut(s, h) && h in s.handles && s.handles[h].Stream?
    ensures AllOrderly(FinishStream(s, h, broken))
  {
    var x := s.handles[h];
    if !x.released {
      GiveBackOrderly(s, h, x.(done := true, broken := broken, released := true), broken);
    }
  }

  lemma {:induction false} ExecuteOrderly(s: State, h: nat, a: Answer, blocks: nat)
    requires Inv(s) && AllOrderly(s) && Live(s, h) && s.handles[h].Stream? && s.handles[h].stage.Executing?
    ensures AllOrderly(ExecuteStep(s, h, a, blocks))
  {
    var x := s.handles[h];
    match a
    case Fine => RewireOrderly(s, h, Response(blocks), x.(stage := Priming));
    case Fails(err, w) =>
      RewireOrderly(s, h, w, x);
      RewireKeeps(s, h, w, x);
      CatchOrderly(Rewire(s, h, w, x), h, err);
  }

  lemma {:induction false} PullOrderly(s: State, h: nat, p: Pulled)
    requires Inv(s) && AllOrderly(s) && Live(s, h) && s.handles[h].Stream? && Holds(s.handles[h])
    requires !s.handles[h].stage.Executing? && PullStep(s, h, p).Some?
    ensures AllOrderly(PullStep(s, h, p).value)
  {
    hide AllOrderly, OrderlyBut, FinishStream, CatchStream;
    var x := s.handles[h];
    match p
    case Rows(n) =>
      RewireOrderly(s, h, Response(WireOf(s, x).unread - 1), x.(left := n, stage := if n > 0 then Object else x.stage));
    case EndOfStream =>
      var y := x.(stage := Object);
      RewireOrderly(s, h, Quiet, y);
      RewireKeeps(s, h, Quiet, y);
      FinishOrderly(Rewire(s, h, Quiet, y), h, false);
    case PullFails(err, w) =>
      RewireOrderly(s, h, w, x);
      RewireKeeps(s, h, w, x);
      CatchOrderly(Rewire(s, h, w, x), h, err);
  }

  lemma {:induction false} RowOrderly(s: State, h: nat, thrown: Option<Exc>)
    requires Inv(s) && AllOrderly(s) && Live(s, h) && s.handles[h].Stream? && s.handles[h].left > 0
    ensures AllOrderly(RowStep(s, h, thrown))
  {
    if thrown.Some? {
      CatchOrderly(s, h, thrown.value);
    }
  }

  /** The conversation keeps step with the wire: given honest answers it stays in step or gives
      the connection up. */
  lemma {:induction false} ConverseInStep(pc: Pc, w: Wire, line: Line)
    requires InStep(pc, w) && Converse(pc, w, line).Some?
    requires match line
             case Begin(Fails(e, w')) => Poisons(e) || Closed(w').Quiet?
             case Send(_, Fails(e, w')) => Poisons(e) || Closed(w').Quiet?
             case End(Fails(e, w')) => Poisons(e) || Closed(w').Quiet?
             case _ => true
    ensures var said := Converse(pc, w, line).value; said.broke || InStep(said.pc, said.wire)
  {
  }

  lemma {:induction false} TalkOrderly(s: State, h: nat, said: Said)
    requires Inv(s) && AllOrderly(s) && Live(s, h) && (s.handles[h].Inserting? || s.handles[h].Batch?)
    requires (s.handles[h].Batch? && s.handles[h].broken) || said.broke || InStep(said.pc, said.wire)
    requires s.handles[h].Inserting? && said.broke ==> said.pc.Resting?
    ensures AllOrderly(TalkStep(s, h, said))
  {
    match s.handles[h]
    case Batch(c, l, _, broken, released) =>
      RewireOrderly(s, h, said.wire, Batch(c, l, said.pc, broken || said.broke, released));
    case Inserting(c, l, _) =>
      var y := Inserting(c, l, said.pc);
      RewireOrderly(s, h, said.wire, y);
      if said.pc.Resting? {
        RewireKeeps(s, h, said.wire, y);
        var s' := Rewire(s, h, said.wire, y);
        GiveBackOrderly(s', h, Returning, said.broke);
        GiveBackKeeps(s', h, Returning, said.broke);
        LeaveOrderly(GiveBack(s', h, Returning, said.broke), h);
      }
  }

  lemma {:induction false} FreeOrderly(s: State, h: nat)
    requires Inv(s) && AllOrderly(s) && Live(s, h) && (s.handles[h].Stream? || s.handles[h].Batch?)
    ensures AllOrderly(FreeStep(s, h))
  {
    var x := s.handles[h];
    if x.released {
      LeaveOrderly(s, h);
    } else {
      var broke := x.broken || (x.Stream? && !x.done);
      GiveBackOrderly(s, h, Returning, broke);
      GiveBackKeeps(s, h, Returning, broke);
      LeaveOrderly(GiveBack(s, h, Returning, broke), h);
    }
  }

  lemma {:induction false} GrantOrderly(s: State, h: nat, c: nat, kind: Kind)
    requires AllOrderly(s) && c in s.conns && s.conns[c].wire.Quiet?
    ensures AllOrderly(Grant(s, h, c, Granted(kind, c, s.leases)))
  {
  }

  lemma {:induction false} DialOrderly(s: State, h: nat, kind: Kind)
    requires AllOrderly(s)
    ensures AllOrderly(s.(handles := s.handles[h := Dialing(kind)], dialing := s.dialing + {h}))
  {
    hide Orderly;
  }

  lemma {:induction false} DialedOrderly(s: State, h: nat, c: nat, kind: Kind)
    requires PoolOk(s) && BookOk(s) && AllOrderly(s) && c !in s.conns
    ensures var s' := s.(dialing := s.dialing - {h}, conns := s.conns[c := Conn(Quiet, false)]);
            AllOrderly(Grant(s', h, c, Granted(kind, c, s.leases)))
  {
    var s' := s.(dialing := s.dialing - {h}, conns := s.conns[c := Conn(Quiet, false)]);
    assert AllOrderly(s');
    GrantOrderly(s', h, c, kind);
  }

  lemma {:induction false} AcquireOrderly(s: State, h: nat, e: Event)
    requires Inv(s) && IdleClean(s) && AllOrderly(s) && Live(s, h) && AcquireStep(s, h, e).Some?
    ensures AllOrderly(AcquireStep(s, h, e).value)
  {
    hide RefsOk, LeasesOk, Grant, Leave, AllOrderly;
    match (s.handles[h], e)
    case (Waiting(kind), TakeIdle(_, c)) => GrantOrderly(s, h, c, kind);
    case (Waiting(kind), Dial(_)) => DialOrderly(s, h, kind);
    case (Dialing(kind), Dialed(_, c)) => DialedOrderly(s, h, c, kind);
    case (Waiting(_), AcquireFails(_)) => LeaveOrderly(s, h);
    case (Dialing(_), AcquireFails(_)) => UndialOrderly(s, h);
    case _ =>
  }

  lemma {:induction false} UndialOrderly(s: State, h: nat)
    requires PoolOk(s) && BookOk(s) && AllOrderly(s) && s.refs > 0
    ensures AllOrderly(Leave(s.(dialing := s.dialing - {h}), h))
  {
    hide Leave, Orderly;
    LeaveOrderly(s.(dialing := s.dialing - {h}), h);
  }

  lemma {:induction false} OthersOrderly(s: State, e: Event)
    requires Inv(s) && IdleClean(s) && AllOrderly(s) && Step(s, e).Some?
    requires !e.Execute? && !e.Pull? && !e.Row? && !e.Talk? && !e.Free?
    ensures AllOrderly(Step(s, e).value)
  {
    match e
    case TakeIdle(h, _) => AcquireOrderly(s, h, e);
    case Dial(h) => AcquireOrderly(s, h, e);
    case Dialed(h, _) => AcquireOrderly(s, h, e);
    case AcquireFails(h) => AcquireOrderly(s, h, e);
    case _ =>
  }

  lemma {:induction false} HonestStepOrderly(s: State, e: Event)
    requires Inv(s) && IdleClean(s) && AllOrderly(s) && Step(s, e).Some? && Honest(s, e)
    ensures AllOrderly(Step(s, e).value)
  {
    hide IdleClean, AcquireStep, ExecuteStep, PullStep, RowStep, TalkStep, FreeStep;
    match e
    case Execute(h, a, blocks) => ExecuteOrderly(s, h, a, blocks);
    case Pull(h, p) => PullOrderly(s, h, p);
    case Row(h, thrown) => RowOrderly(s, h, thrown);
    case Talk(h, line) =>
      var x := s.handles[h];
      var said := Converse(x.pc, WireOf(s, x), line).value;
      if !(x.Batch? && x.broken) {
        ConverseInStep(x.pc, WireOf(s, x), line);
      }
      TalkOrderly(s, h, said);
    case Free(h) => FreeOrderly(s, h);
    case _ => OthersOrderly(s, e);
  }

  lemma {:induction false} HonestStepIsNotDirty(s: State, e: Event)
    requires Inv(s) && AllOrderly(s) && Step(s, e).Some? && Honest(s, e)
    ensures !Dirties(s, e)
  {
  }

  /* ---- the exact condition ---- */

  predicate WireHonestRun(es: seq<Event>) {
    forall i :: 0 <= i < |es| ==> WireHonest(es[i])
  }

  /** No row of an unfinished stream is unreadable, all along the run. */
  predicate AllRowsRead(s: State, es: seq<Event>)
    requires Run(s, es).Some?
    decreases |es|
  {
    es == [] || (!Unreadable(s, es[0]) && AllRowsRead(Step(s, es[0]).value, es[1..]))
  }

  /** The exact condition. While the wire keeps its part, the pool only ever offers clean
      connections iff no exception outside the poison set comes out of a row of an unfinished
      stream; what batches and inserts do plays no part. */
  lemma {:induction false} CleanReuseIff(s: State, es: seq<Event>)
    requires Inv(s) && IdleClean(s) && AllOrderly(s) && Run(s, es).Some? && WireHonestRun(es)
    ensures AlwaysClean(s, es) <==> AllRowsRead(s, es)
    decreases |es|
  {
    if es != [] {
      var e := es[0];
      var s' := Step(s, e).value;
      StepKeeps(s, e);
      if Unreadable(s, e) {
        ConversionThrowLeaks(s, e.h, e.thrown.value);
        assert !IdleClean(s');
      } else {
        HonestStepOrderly(s, e);
        HonestStepIsNotDirty(s, e);
        StepCleanIff(s, e);
        assert forall i :: 0 <= i < |es[1..]| ==> es[1..][i] == es[i + 1];
        CleanReuseIff(s', es[1..]);
      }
    }
  }

  /** Clean reuse, from a new client on: in every run of any number of handles, with any failures
      of any calls on an honest wire, every connection that is ever idle is quiet iff every row of
      an unfinished stream could be read or its exception poisoned. */
  lemma {:induction false} CleanReuse(max: nat, es: seq<Event>)
    requires Run(Initial(max), es).Some? && WireHonestRun(es)
    ensures AlwaysClean(Initial(max), es) <==> AllRowsRead(Initial(max), es)
  {
    InitialInv(max);
    CleanReuseIff(Initial(max), es);
  }

  /* ---- the failing case ---- */

  /** Wherever a run has come to: an exception that does not poison, out of a cell of a stream
      that is not over, puts a connection with an unread response into the idle pool. */
  lemma {:induction false} ConversionThrowLeaks(s: State, h: nat, e: Exc)
    requires Inv(s) && AllOrderly(s) && Step(s, Row(h, Some(e))).Some? && !s.handles[h].done && !Poisons(e)
    ensures var s', c := Step(s, Row(h, Some(e))).value, s.handles[h].conn;
            c in s'.idle && c in s'.conns && s'.conns[c].wire.Response?
  {
    assert s.handles[h].conn in s.conns;
  }

  lemma {:induction false} RunFirst(s: State, e: Event, es: seq<Event>)
    requires Step(s, e).Some?
    ensures Run(s, [e] + es) == Run(Step(s, e).value, es)
  {
    assert ([e] + es)[1..] == es;
  }

  lemma {:induction false} RunOfThree(s: State, a: Event, b: Event, c: Event)
    requires Step(s, a).Some? && Step(Step(s, a).value, b).Some?
    requires Step(Step(Step(s, a).value, b).value, c).Some?
    ensures Run(s, [a, b, c]) == Step(Step(Step(s, a).value, b).value, c)
  {
    hide Step;
    var s1 := Step(s, a).value;
    var s2 := Step(s1, b).value;
    var s3 := Step(s2, c).value;
    assert Run(s3, []) == Some(s3) && Run(s2, [c]) == Some(s3);
    RunFirst(s1, b, [c]);
    RunFirst(s, a, [b, c]);
    assert [b] + [c] == [b, c] && [a] + [b, c] == [a, b, c];
  }

  /** A query on a client of one connection has its connection, fresh. */
  lemma {:induction false} LeakBegins() returns (s: State)
    ensures Run(Initial(1), [Call(0, QueryCall), Dial(0), Dialed(0, 7)]) == Some(s)
    ensures Live(s, 0) && s.handles[0] == Granted(QueryCall, 7, 0) && s.open
    ensures 7 in s.conns && s.conns[7] == Conn(Quiet, false)
  {
    hide Run;
    var s0 := Initial(1);
    var s1 := Step(s0, Call(0, QueryCall)).value;
    assert Live(s1, 0) && Dialable(s1) && s1.handles[0] == Waiting(QueryCall);
    var s2 := Step(s1, Dial(0)).value;
    assert Live(s2, 0) && s2.handles[0] == Dialing(QueryCall) && 7 !in s2.conns;
    s := Step(s2, Dialed(0, 7)).value;
    RunOfThree(s0, Call(0, QueryCall), Dial(0), Dialed(0, 7));
  }

  /** Its response has two blocks; the only row of the first cannot be read. */
  lemma {:induction false} LeakEnds(s: State) returns (s': State)
    requires Live(s, 0) && s.handles[0] == Granted(QueryCall, 7, 0) && s.open
    requires 7 in s.conns && s.conns[7] == Conn(Quiet, false)
    ensures Run(s, [Execute(0, Fine, 2), Pull(0, Rows(1)), Row(0, Some(OtherError))]) == Some(s')
    ensures 7 in s'.idle && 7 in s'.conns && s'.conns[7].wire == Response(1)
  {
    hide Run;
    var s4 := Step(s, Execute(0, Fine, 2)).value;
    assert Live(s4, 0) && s4.handles[0] == Stream(7, 0, Priming, 0, false, false, false);
    assert WireOf(s4, s4.handles[0]) == Response(2);
    var s5 := Step(s4, Pull(0, Rows(1))).value;
    assert Live(s5, 0) && s5.handles[0] == Stream(7, 0, Object, 1, false, false, false);
    assert s5.open && s5.conns[7] == Conn(Response(1), false);
    s' := Step(s5, Row(0, Some(OtherError))).value;
    RunOfThree(s, Execute(0, Fine, 2), Pull(0, Rows(1)), Row(0, Some(OtherError)));
  }

  lemma {:induction false} RunAppend(s: State, a: seq<Event>, b: seq<Event>)
    requires Run(s, a).Some?
    ensures Run(s, a + b) == Run(Run(s, a).value, b)
    decreases |a|
  {
    if a == [] {
      assert a + b == b;
    } else {
      RunAppend(Step(s, a[0]).value, a[1..], b);
      assert (a + b)[1..] == a[1..] + b;
    }
  }

  /** The leak is reachable: a new client, one query, one unreadable row; then connection 7 lies
      idle with the second block of the response unread. */
  lemma {:induction false} LeakIsReachable()
    ensures exists es :: Run(Initial(1), es).Some? &&
              var s := Run(Initial(1), es).value; 7 in s.idle && 7 in s.conns && s.conns[7].wire == Response(1)
  {
    var a := [Call(0, QueryCall), Dial(0), Dialed(0, 7)];
    var b := [Execute(0, Fine, 2), Pull(0, Rows(1)), Row(0, Some(OtherError))];
    var s := LeakBegins();
    var s' := LeakEnds(s);
    RunAppend(Initial(1), a, b);
    assert Run(Initial(1), a + b) == Some(s');
  }
}
