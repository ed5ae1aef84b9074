/** The life of pooled connections as a transition system. Operations of any number of handles
    interleave; every network call may fail with any exception and leave the wire in any state.
    An event holds all that is not determined, so the runs are exactly the sequences of events. */
module Lifecycle {
  import opened Exceptions

  /** What the bytes on a connection mean next. */
  datatype Wire =
    | Quiet                    // nothing unread, no session, no partly sent packet
    | Response(unread: nat)    // a query's response; the terminator comes after the blocks
    | Session                  // an insert session is open
    | Desynced                 // anything else

  datatype Conn = Conn(wire: Wire, broken: bool)

  datatype Kind = QueryCall | InsertCall | BatchCall

  /** Where an insert conversation stands: the next call it makes. */
  datatype Pc = Resting | AtBegin | AtSend | AtEnd | AtClose

  datatype Stage = Executing | Priming | Object

  /** A call in progress, a Result or a Batch. `released` is the source's own flag; `lease`
      numbers the acquires. */
  datatype Handle =
    | Waiting(kind: Kind)
    | Dialing(kind: Kind)
    | Inserting(conn: nat, lease: nat, pc: Pc)
    | Stream(conn: nat, lease: nat, stage: Stage, left: nat, done: bool, broken: bool, released: bool)
    | Batch(conn: nat, lease: nat, pc: Pc, broken: bool, released: bool)
    | Returning

  /** `out` is the pool's book of connections handed out, `holder` the same by lease. The last
      two fields count what must never happen: a release into a closed pool, and a network call
      on a connection that is not the caller's. */
  datatype State = State(
    max: nat, conns: map<nat, Conn>, idle: set<nat>, dialing: set<nat>, out: map<nat, nat>,
    handles: map<nat, Handle>, external: nat, refs: nat, open: bool,
    leases: nat, holder: map<nat, nat>, returned: multiset<nat>,
    late: nat, strays: nat)

  datatype Answer = Fine | Fails(error: Exc, wire: Wire)

  datatype Line = Begin(a: Answer) | Send(filled: Option<Exc>, a: Answer) | End(a: Answer) | Close(a: Answer)

  datatype Pulled = Rows(n: nat) | EndOfStream | PullFails(error: Exc, wire: Wire)

  datatype Event =
    | Reference                                // user code copies a client reference
    | Drop                                     // ... or drops one
    | Call(h: nat, kind: Kind)                 // query, insert or insertBatch
    | TakeIdle(h: nat, c: nat)
    | Dial(h: nat)                             // the pool calls the factory
    | Dialed(h: nat, c: nat)
    | AcquireFails(h: nat)
    | Execute(h: nat, a: Answer, blocks: nat)  // BeginExecute
    | Pull(h: nat, p: Pulled)                  // NextBlock
    | Row(h: nat, thrown: Option<Exc>)         // convert a row of the current block
    | Talk(h: nat, line: Line)                 // a call of the insert conversation
    | StartFlush(h: nat)
    | Free(h: nat)

  predicate Holds(x: Handle) {
    x.Inserting? || (x.Stream? && !x.released) || (x.Batch? && !x.released)
  }

  /* ---- the moves that events are made of ---- */

  /** A new handle comes with a reference to the client. */
  function Enter(s: State, h: nat, x: Handle): State {
    s.(handles := s.handles[h := x], refs := s.refs + 1)
  }

  /** A reference to the client goes; the last one closes the pool with its idle connections. */
  function DropRef(s: State): State
    requires s.refs > 0
  {
    if s.refs == 1 then s.(refs := 0, open := false, conns := s.conns - s.idle, idle := {})
    else s.(refs := s.refs - 1)
  }

  function Leave(s: State, h: nat): State
    requires s.refs > 0
  {
    DropRef(s.(handles := s.handles - {h}))
  }

  /** The handle x of h gets connection c on a new lease. */
  function Grant(s: State, h: nat, c: nat, x: Handle): State {
    s.(idle := s.idle - {c}, out := s.out[c := h], handles := s.handles[h := x],
       leases := s.leases + 1, holder := s.holder[s.leases := h])
  }

  function Granted(kind: Kind, c: nat, lease: nat): Handle {
    match kind
    case QueryCall => Stream(c, lease, Executing, 0, false, false, false)
    case InsertCall => Inserting(c, lease, AtBegin)
    case BatchCall => Batch(c, lease, Resting, false, false)
  }

  predicate HasConn(x: Handle) {
    x.Inserting? || x.Stream? || x.Batch?
  }

  function WireOf(s: State, x: Handle): Wire
    requires HasConn(x)
  {
    if x.conn in s.conns then s.conns[x.conn].wire else Desynced
  }

  predicate Owns(s: State, h: nat, c: nat) {
    c in s.conns && c in s.out && s.out[c] == h
  }

  /** One network call of h: it touches the connection, and leaves wire w and handle y. */
  function Rewire(s: State, h: nat, w: Wire, y: Handle): State
    requires h in s.handles && HasConn(s.handles[h])
  {
    var c := s.handles[h].conn;
    s.(conns := if c in s.conns then s.conns[c := s.conns[c].(wire := w)] else s.conns,
       handles := s.handles[h := y],
       strays := s.strays + if Owns(s, h, c) then 0 else 1)
  }

  /** Release: before_release refuses a broken connection, which the pool then destroys. */
  function GiveBack(s: State, h: nat, y: Handle, broke: bool): State
    requires h in s.handles && HasConn(s.handles[h])
  {
    var x := s.handles[h];
    var broken := broke || (x.conn in s.conns && s.conns[x.conn].broken);
    s.(handles := s.handles[h := y],
       conns := if broken || !s.open then s.conns - {x.conn} else s.conns,
       idle := if broken || !s.open then s.idle - {x.conn} else s.idle + {x.conn},
       out := s.out - {x.conn}, holder := s.holder - {x.lease},
       returned := s.returned + multiset{x.lease},
       late := s.late + if s.open then 0 else 1)
  }

  /* ---- the insert conversation ---- */

  datatype Said = Said(pc: Pc, wire: Wire, broke: bool)

  /** EndInsert that returns has closed the session, if the wire was in order. */
  function Closed(w: Wire): Wire {
    if w.Session? || w.Quiet? then Quiet else w
  }

  /** The catch clause: poison gives up, anything else goes on to the best-effort EndInsert. */
  function Caught(e: Exc, w: Wire): Said {
    if Poisons(e) then Said(Resting, w, true) else Said(AtClose, w, false)
  }

  /** One call of the conversation; pc Resting means that it is over. */
  function Converse(pc: Pc, w: Wire, line: Line): Option<Said> {
    match (pc, line)
    case (AtBegin, Begin(Fine)) => Some(Said(AtSend, if w.Quiet? then Session else Desynced, false))
    case (AtBegin, Begin(Fails(e, w'))) => Some(Caught(e, w'))
    case (AtSend, Send(Some(e), _)) => Some(Caught(e, w))
    case (AtSend, Send(None, Fine)) => Some(Said(AtEnd, w, false))
    case (AtSend, Send(None, Fails(e, w'))) => Some(Caught(e, w'))
    case (AtEnd, End(Fine)) => Some(Said(Resting, Closed(w), false))
    case (AtEnd, End(Fails(e, w'))) => Some(Caught(e, w'))
    case (AtClose, Close(Fine)) => Some(Said(Resting, Closed(w), false))
    case (AtClose, Close(Fails(_, w'))) => Some(Said(Resting, w', true))
    case _ => None
  }

  /* ---- the events ---- */

  /** The stream of h is over: flags, then the release, then (for a query call) the exception. */
  function FinishStream(s: State, h: nat, broken: bool): State
    requires h in s.handles && s.handles[h].Stream?
  {
    var x := s.handles[h];
    var y := x.(done := true, broken := broken, released := true);
    if x.released then s.(handles := s.handles[h := y]) else GiveBack(s, h, y, broken)
  }

  /** An exception in a stream: the query call deletes its half-made result and throws. */
  function CatchStream(s: State, h: nat, e: Exc): State
    requires h in s.handles && s.handles[h].Stream? && s.refs > 0
  {
    var s' := FinishStream(s, h, Poisons(e));
    if s.handles[h].stage.Object? then s' else Leave(s', h)
  }

  function PullStep(s: State, h: nat, p: Pulled): Option<State>
    requires h in s.handles && s.handles[h].Stream? && s.refs > 0
  {
    var x := s.handles[h];
    var w := WireOf(s, x);
    match p
    case Rows(n) =>
      if w.Response? && w.unread > 0 then
        Some(Rewire(s, h, Response(w.unread - 1), x.(left := n, stage := if n > 0 then Object else x.stage)))
      else None
    case EndOfStream =>
      if w == Response(0) then Some(FinishStream(Rewire(s, h, Quiet, x.(stage := Object)), h, false)) else None
    case PullFails(e, w') => Some(CatchStream(Rewire(s, h, w', x), h, e))
  }

  function TalkStep(s: State, h: nat, said: Said): State
    requires h in s.handles && (s.handles[h].Inserting? || s.handles[h].Batch?) && s.refs > 0
  {
    match s.handles[h]
    case Batch(c, l, _, broken, released) =>
      Rewire(s, h, said.wire, Batch(c, l, said.pc, broken || said.broke, released))
    case Inserting(c, l, _) =>
      var s' := Rewire(s, h, said.wire, Inserting(c, l, said.pc));
      if said.pc.Resting? then Leave(GiveBack(s', h, Returning, said.broke), h) else s'
  }

  /** Destroy a Result or a Batch: release the connection, then drop the client. */
  function FreeStep(s: State, h: nat): State
    requires h in s.handles && (s.handles[h].Stream? || s.handles[h].Batch?) && s.refs > 0
  {
    var x := s.handles[h];
    if x.released then Leave(s, h)
    else Leave(GiveBack(s, h, Returning, x.broken || (x.Stream? && !x.done)), h)
  }

  predicate Dialable(s: State) {
    s.idle == {} && |s.conns| + |s.dialing| < s.max
  }

  /** The handle exists, and so does its client. */
  predicate Live(s: State, h: nat) {
    h in s.handles && s.refs > 0
  }

  function AcquireStep(s: State, h: nat, e: Event): Option<State>
    requires Live(s, h)
  {
    var x := s.handles[h];
    match (x, e)
    case (Waiting(kind), TakeIdle(_, c)) =>
      if c in s.idle then Some(Grant(s, h, c, Granted(kind, c, s.leases))) else None
    case (Waiting(kind), Dial(_)) =>
      if Dialable(s) then Some(s.(handles := s.handles[h := Dialing(kind)], dialing := s.dialing + {h})) else None
    case (Dialing(kind), Dialed(_, c)) =>
      if c in s.conns then None
      else
        var s' := s.(dialing := s.dialing - {h}, conns := s.conns[c := Conn(Quiet, false)]);
        Some(Grant(s', h, c, Granted(kind, c, s.leases)))
    case (Waiting(_), AcquireFails(_)) => Some(Leave(s, h))
    case (Dialing(_), AcquireFails(_)) => Some(Leave(s.(dialing := s.dialing - {h}), h))
    case _ => None
  }

  function ExecuteStep(s: State, h: nat, a: Answer, blocks: nat): State
    requires Live(s, h) && s.handles[h].Stream?
  {
    var x := s.handles[h];
    match a
    case Fine => Rewire(s, h, if WireOf(s, x).Quiet? then Response(blocks) else Desynced, x.(stage := Priming))
    case Fails(e, w) => CatchStream(Rewire(s, h, w, x), h, e)
  }

  function RowStep(s: State, h: nat, thrown: Option<Exc>): State
    requires Live(s, h) && s.handles[h].Stream? && s.handles[h].left > 0
  {
    var x := s.handles[h];
    match thrown
    case None => s.(handles := s.handles[h := x.(left := x.left - 1)])
    case Some(e) => CatchStream(s, h, e)
  }

  function StreamStep(s: State, h: nat, e: Event): Option<State>
    requires Live(s, h) && s.handles[h].Stream?
  {
    var x := s.handles[h];
    match e
    case Execute(_, a, blocks) => if x.stage.Executing? then Some(ExecuteStep(s, h, a, blocks)) else None
    case Pull(_, p) => if !x.stage.Executing? && x.left == 0 && !x.done then PullStep(s, h, p) else None
    case Row(_, thrown) => if x.stage.Object? && x.left > 0 then Some(RowStep(s, h, thrown)) else None
    case _ => None
  }

  /** The state after an event, if the event can happen. */
  function Step(s: State, e: Event): Option<State> {
    match e
    case Reference => if s.external > 0 then Some(s.(external := s.external + 1, refs := s.refs + 1)) else None
    case Drop => if s.external > 0 && s.refs > 0 then Some(DropRef(s.(external := s.external - 1))) else None
    case Call(h, kind) => if s.external > 0 && h !in s.handles then Some(Enter(s, h, Waiting(kind))) else None
    case TakeIdle(h, _) => if Live(s, h) then AcquireStep(s, h, e) else None
    case Dial(h) => if Live(s, h) then AcquireStep(s, h, e) else None
    case Dialed(h, _) => if Live(s, h) then AcquireStep(s, h, e) else None
    case AcquireFails(h) => if Live(s, h) then AcquireStep(s, h, e) else None
    case Execute(h, _, _) => if Live(s, h) && s.handles[h].Stream? then StreamStep(s, h, e) else None
    case Pull(h, _) => if Live(s, h) && s.handles[h].Stream? then StreamStep(s, h, e) else None
    case Row(h, _) => if Live(s, h) && s.handles[h].Stream? then StreamStep(s, h, e) else None
    case Talk(h, line) =>
      if !Live(s, h) || !(s.handles[h].Inserting? || s.handles[h].Batch?) then None
      else (match Converse(s.handles[h].pc, WireOf(s, s.handles[h]), line)
            case None => None
            case Some(said) => Some(TalkStep(s, h, said)))
    case StartFlush(h) =>
      if Live(s, h) && s.handles[h].Batch? && s.handles[h].pc.Resting? then
        Some(s.(handles := s.handles[h := s.handles[h].(pc := AtBegin)]))
      else None
    case Free(h) =>
      if Live(s, h) && ((s.handles[h].Stream? && s.handles[h].stage.Object?)
                        || (s.handles[h].Batch? && s.handles[h].pc.Resting?))
      then Some(FreeStep(s, h))
      else None
  }

  function Run(s: State, es: seq<Event>): Option<State>
    decreases |es|
  {
    if es == [] then Some(s)
    else match Step(s, es[0])
         case None => None
         case Some(s') => Run(s', es[1..])
  }

  /** A client just constructed: one reference, an empty pool. */
  function Initial(max: nat): State {
    State(max, map[], {}, {}, map[], map[], 1, 1, true, 0, map[], multiset{}, 0, 0)
  }

  /* ---- the invariant ---- */

  /** References: the external ones, and one for every call, Result and Batch. */
  ghost predicate RefsOk(s: State) {
    s.refs == s.external + |s.handles| && (s.open <==> s.refs > 0) && s.late == 0 && s.strays == 0
  }

  /** Every live connection is idle or out, never both, never more than the pool allows. */
  ghost predicate PoolOk(s: State) {
    && (forall c :: c in s.idle ==> c !in s.out)
    && (forall c :: c in s.conns <==> c in s.idle || c in s.out)
    && (forall c :: c in s.conns ==> !s.conns[c].broken)
    && |s.conns| + |s.dialing| <= s.max
    && (forall h :: h in s.dialing <==> h in s.handles && s.handles[h].Dialing?)
    && (!s.open ==> s.idle == {})
  }

  /** The book is right: who holds a connection has it out in its name, and conversely. */
  ghost predicate BookOk(s: State) {
    && (forall h :: h in s.handles && Holds(s.handles[h]) ==>
          && s.handles[h].conn in s.out && s.out[s.handles[h].conn] == h
          && s.handles[h].lease in s.holder && s.holder[s.handles[h].lease] == h)
    && (forall c :: c in s.out ==>
          s.out[c] in s.handles && Holds(s.handles[s.out[c]]) && s.handles[s.out[c]].conn == c)
    && (forall l :: l in s.holder ==>
          s.holder[l] in s.handles && Holds(s.handles[s.holder[l]]) && s.handles[s.holder[l]].lease == l)
  }

  /** Each acquire so far is held or has been released once. */
  ghost predicate LeasesOk(s: State) {
    && (forall l :: l in s.holder ==> l < s.leases)
    && (forall l: nat :: s.returned[l] == if l < s.leases && l !in s.holder then 1 else 0)
  }

  /** Each object's own flags: a Result is done exactly when it has released. */
  predicate FlagsOk(x: Handle) {
    match x
    case Stream(_, _, stage, left, done, broken, released) =>
      && (done <==> released) && (!done ==> !broken) && (!stage.Object? ==> !done && left == 0)
    case Batch(_, _, _, _, released) => !released
    case Inserting(_, _, pc) => !pc.Resting?
    case Returning => false
    case _ => true
  }

  ghost predicate Inv(s: State) {
    RefsOk(s) && PoolOk(s) && BookOk(s) && LeasesOk(s) && forall h :: h in s.handles ==> FlagsOk(s.handles[h])
  }

  /** What is left of Inv when the flags of handle h are in between. */
  ghost predicate InvButFlags(s: State, h: nat) {
    && RefsOk(s) && PoolOk(s) && BookOk(s) && LeasesOk(s)
    && forall g :: g in s.handles && g != h ==> FlagsOk(s.handles[g])
  }

  /* ---- every move keeps it ---- */

  lemma {:induction false} DropRefKeeps(s: State)
    requires PoolOk(s) && BookOk(s) && LeasesOk(s) && s.refs > 0 && s.open && s.late == 0 && s.strays == 0
    requires forall g :: g in s.handles ==> FlagsOk(s.handles[g])
    requires s.refs == s.external + |s.handles| + 1
    ensures Inv(DropRef(s))
  {
    var s' := DropRef(s);
    if s.refs == 1 {
      assert s'.conns.Keys == s.out.Keys;
      assert s'.conns.Keys <= s.conns.Keys;
      SubMap(s'.conns, s.conns);
    }
  }

  lemma {:induction false} SubMap<T>(a: map<nat, T>, b: map<nat, T>)
    requires a.Keys <= b.Keys
    ensures |a| <= |b|
  {
    SubSet(a.Keys, b.Keys);
    assert |a| == |a.Keys| && |b| == |b.Keys|;
  }

  lemma {:induction false} SubSet(a: set<nat>, b: set<nat>)
    requires a <= b
    ensures |a| <= |b|
  {
    assert b == a + (b - a);
  }

  lemma {:induction false} RemoveKey<T>(m: map<nat, T>, k: nat)
    requires k in m
    ensures |m - {k}| == |m| - 1
  {
    assert (m - {k}).Keys == m.Keys - {k};
    assert |m| == |m.Keys| && |m - {k}| == |(m - {k}).Keys|;
  }

  lemma {:induction false} AddKey<T>(m: map<nat, T>, k: nat, x: T)
    requires k !in m
    ensures |m[k := x]| == |m| + 1
  {
    assert m[k := x].Keys == m.Keys + {k};
    assert |m| == |m.Keys| && |m[k := x]| == |m[k := x].Keys|;
  }

  lemma {:induction false} LeaveKeeps(s: State, h: nat)
    requires InvButFlags(s, h) && h in s.handles && !Holds(s.handles[h]) && !s.handles[h].Dialing?
    ensures s.refs > 0 && Inv(Leave(s, h))
  {
    RemoveKey(s.handles, h);
    DropRefKeeps(s.(handles := s.handles - {h}));
  }

  /** Connection c, idle or new, is about to be handed to h; all else is as Inv has it. */
  ghost predicate Offered(s: State, h: nat, c: nat) {
    && (forall k :: k in s.idle ==> k !in s.out) && c !in s.out
    && (forall k :: k in s.conns <==> k == c || k in s.idle || k in s.out)
    && (forall k :: k in s.conns ==> !s.conns[k].broken)
    && |s.conns| + |s.dialing| <= s.max && s.open
    && (forall g :: g in s.dialing <==> g != h && g in s.handles && s.handles[g].Dialing?)
  }

  lemma {:induction false} GrantKeepsPool(s: State, h: nat, c: nat, x: Handle)
    requires Offered(s, h, c) && h in s.handles && Holds(x)
    ensures PoolOk(Grant(s, h, c, x))
  {
  }

  lemma {:induction false} GrantKeepsBook(s: State, h: nat, c: nat, x: Handle)
    requires BookOk(s) && h in s.handles && !Holds(s.handles[h]) && c !in s.out && s.leases !in s.holder
    requires Holds(x) && x.conn == c && x.lease == s.leases
    ensures BookOk(Grant(s, h, c, x))
  {
  }

  lemma {:induction false} GrantKeepsLeases(s: State, h: nat, c: nat, x: Handle)
    requires LeasesOk(s)
    ensures LeasesOk(Grant(s, h, c, x))
  {
    var s' := Grant(s, h, c, x);
    assert s.returned[s.leases] == 0;
  }

  lemma {:induction false} GrantKeeps(s: State, h: nat, c: nat, kind: Kind)
    requires RefsOk(s) && BookOk(s) && LeasesOk(s) && h in s.handles && !Holds(s.handles[h])
    requires forall g :: g in s.handles ==> FlagsOk(s.handles[g])
    requires Offered(s, h, c)
    ensures Inv(Grant(s, h, c, Granted(kind, c, s.leases)))
  {
    var x := Granted(kind, c, s.leases);
    GrantKeepsPool(s, h, c, x);
    GrantKeepsBook(s, h, c, x);
    GrantKeepsLeases(s, h, c, x);
  }

  lemma {:induction false} RewireKeepsBook(s: State, h: nat, w: Wire, y: Handle)
    requires BookOk(s) && h in s.handles && Holds(s.handles[h])
    requires Holds(y) && y.conn == s.handles[h].conn && y.lease == s.handles[h].lease
    ensures BookOk(Rewire(s, h, w, y))
  {
  }

  lemma {:induction false} RewireKeepsRest(s: State, h: nat, w: Wire, y: Handle)
    requires Inv(s) && h in s.handles && Holds(s.handles[h]) && Holds(y)
    ensures var s' := Rewire(s, h, w, y); RefsOk(s') && PoolOk(s') && LeasesOk(s')
  {
    var c := s.handles[h].conn;
    assert c in s.conns && Owns(s, h, c);
    assert Rewire(s, h, w, y).conns.Keys == s.conns.Keys;
  }

  lemma {:induction false} RewireKeeps(s: State, h: nat, w: Wire, y: Handle)
    requires Inv(s) && h in s.handles && Holds(s.handles[h])
    requires Holds(y) && y.conn == s.handles[h].conn && y.lease == s.handles[h].lease
    ensures InvButFlags(Rewire(s, h, w, y), h)
    ensures FlagsOk(y) ==> Inv(Rewire(s, h, w, y))
  {
    RewireKeepsBook(s, h, w, y);
    RewireKeepsRest(s, h, w, y);
  }

  lemma {:induction false} GiveBackKeepsBook(s: State, h: nat, y: Handle, broke: bool)
    requires BookOk(s) && h in s.handles && Holds(s.handles[h]) && !Holds(y)
    ensures BookOk(GiveBack(s, h, y, broke))
  {
  }

  lemma {:induction false} GiveBackKeepsLeases(s: State, h: nat, y: Handle, broke: bool)
    requires BookOk(s) && LeasesOk(s) && h in s.handles && Holds(s.handles[h])
    ensures LeasesOk(GiveBack(s, h, y, broke))
  {
    assert s.handles[h].lease in s.holder;
  }

  lemma {:induction false} GiveBackKeepsPool(s: State, h: nat, y: Handle, broke: bool)
    requires s.open && PoolOk(s) && h in s.handles && HasConn(s.handles[h]) && !y.Dialing?
    requires s.handles[h].conn in s.out
    ensures PoolOk(GiveBack(s, h, y, broke))
  {
    SubMap(GiveBack(s, h, y, broke).conns, s.conns);
  }

  lemma {:induction false} ReplaceKeepsRefs(s: State, h: nat, y: Handle)
    requires h in s.handles
    ensures |s.handles[h := y]| == |s.handles|
  {
    assert s.handles[h := y].Keys == s.handles.Keys;
    assert |s.handles| == |s.handles.Keys| && |s.handles[h := y]| == |s.handles[h := y].Keys|;
  }

  lemma {:induction false} GiveBackKeeps(s: State, h: nat, y: Handle, broke: bool)
    requires InvButFlags(s, h) && h in s.handles && Holds(s.handles[h]) && !Holds(y) && !y.Dialing?
    ensures InvButFlags(GiveBack(s, h, y, broke), h)
    ensures FlagsOk(y) ==> Inv(GiveBack(s, h, y, broke))
  {
    GiveBackKeepsBook(s, h, y, broke);
    GiveBackKeepsLeases(s, h, y, broke);
    GiveBackKeepsPool(s, h, y, broke);
    ReplaceKeepsRefs(s, h, y);
  }

  lemma {:induction false} SettleKeepsBook(s: State, h: nat, y: Handle)
    requires BookOk(s) && h in s.handles && HasConn(s.handles[h]) && HasConn(y)
    requires Holds(y) == Holds(s.handles[h]) && y.conn == s.handles[h].conn && y.lease == s.handles[h].lease
    ensures BookOk(s.(handles := s.handles[h := y]))
  {
  }

  /** Flags and counters of a handle may change as long as it keeps what it holds. */
  lemma {:induction false} SettleKeeps(s: State, h: nat, y: Handle)
    requires InvButFlags(s, h) && h in s.handles && HasConn(s.handles[h]) && HasConn(y)
    requires Holds(y) == Holds(s.handles[h]) && y.conn == s.handles[h].conn && y.lease == s.handles[h].lease
    ensures InvButFlags(s.(handles := s.handles[h := y]), h)
    ensures FlagsOk(y) ==> Inv(s.(handles := s.handles[h := y]))
  {
    hide BookOk;
    SettleKeepsBook(s, h, y);
    ReplaceKeepsRefs(s, h, y);
  }

  lemma {:induction false} FinishStreamKeeps(s: State, h: nat, broken: bool)
    requires InvButFlags(s, h) && h in s.handles && s.handles[h].Stream?
    ensures InvButFlags(FinishStream(s, h, broken), h)
    ensures s.handles[h].stage.Object? ==> Inv(FinishStream(s, h, broken))
    ensures h in FinishStream(s, h, broken).handles && !Holds(FinishStream(s, h, broken).handles[h])
    ensures FinishStream(s, h, broken).handles[h].Stream?
  {
    var x := s.handles[h];
    var y := x.(done := true, broken := broken, released := true);
    if x.released {
      SettleKeeps(s, h, y);
    } else {
      GiveBackKeeps(s, h, y, broken);
    }
  }

  lemma {:induction false} CatchStreamKeeps(s: State, h: nat, e: Exc)
    requires InvButFlags(s, h) && h in s.handles && s.handles[h].Stream? && s.refs > 0
    ensures Inv(CatchStream(s, h, e))
  {
    FinishStreamKeeps(s, h, Poisons(e));
    if !s.handles[h].stage.Object? {
      LeaveKeeps(FinishStream(s, h, Poisons(e)), h);
    }
  }

  lemma {:induction false} FailKeeps(s: State, h: nat, w: Wire, e: Exc)
    requires Inv(s) && Live(s, h) && s.handles[h].Stream? && Holds(s.handles[h])
    ensures Inv(CatchStream(Rewire(s, h, w, s.handles[h]), h, e))
  {
    RewireKeeps(s, h, w, s.handles[h]);
    CatchStreamKeeps(Rewire(s, h, w, s.handles[h]), h, e);
  }

  lemma {:induction false} EndKeeps(s: State, h: nat)
    requires Inv(s) && Live(s, h) && s.handles[h].Stream? && Holds(s.handles[h]) && s.handles[h].left == 0
    ensures var y := s.handles[h].(stage := Object); Inv(FinishStream(Rewire(s, h, Quiet, y), h, false))
  {
    var y := s.handles[h].(stage := Object);
    RewireKeeps(s, h, Quiet, y);
    FinishStreamKeeps(Rewire(s, h, Quiet, y), h, false);
  }

  lemma {:induction false} PullStepKeeps(s: State, h: nat, p: Pulled)
    requires Inv(s) && Live(s, h) && s.handles[h].Stream? && Holds(s.handles[h]) && s.handles[h].left == 0
    requires !s.handles[h].stage.Executing? && PullStep(s, h, p).Some?
    ensures Inv(PullStep(s, h, p).value)
  {
    var x, w := s.handles[h], WireOf(s, s.handles[h]);
    match p
    case Rows(n) =>
      RewireKeeps(s, h, Response(w.unread - 1), x.(left := n, stage := if n > 0 then Object else x.stage));
    case EndOfStream => EndKeeps(s, h);
    case PullFails(e, w') => FailKeeps(s, h, w', e);
  }

  lemma {:induction false} ExecuteStepKeeps(s: State, h: nat, a: Answer, blocks: nat)
    requires Inv(s) && Live(s, h) && s.handles[h].Stream? && s.handles[h].stage.Executing?
    ensures Inv(ExecuteStep(s, h, a, blocks))
  {
    var x := s.handles[h];
    match a
    case Fine => RewireKeeps(s, h, if WireOf(s, x).Quiet? then Response(blocks) else Desynced, x.(stage := Priming));
    case Fails(e, w) => FailKeeps(s, h, w, e);
  }

  lemma {:induction false} RowStepKeeps(s: State, h: nat, thrown: Option<Exc>)
    requires Inv(s) && Live(s, h) && s.handles[h].Stream? && s.handles[h].left > 0
    ensures Inv(RowStep(s, h, thrown))
  {
    var x := s.handles[h];
    match thrown
    case None => SettleKeeps(s, h, x.(left := x.left - 1));
    case Some(e) => CatchStreamKeeps(s, h, e);
  }

  lemma {:induction false} StreamStepKeeps(s: State, h: nat, e: Event)
    requires Inv(s) && Live(s, h) && s.handles[h].Stream? && StreamStep(s, h, e).Some?
    ensures Inv(StreamStep(s, h, e).value)
  {
    match e
    case Execute(_, a, blocks) => ExecuteStepKeeps(s, h, a, blocks);
    case Pull(_, p) => PullStepKeeps(s, h, p);
    case Row(_, thrown) => RowStepKeeps(s, h, thrown);
    case _ =>
  }

  lemma {:induction false} TalkStepKeeps(s: State, h: nat, said: Said)
    requires Inv(s) && Live(s, h) && (s.handles[h].Inserting? || s.handles[h].Batch?)
    ensures Inv(TalkStep(s, h, said))
  {
    match s.handles[h]
    case Batch(c, l, _, broken, released) =>
      RewireKeeps(s, h, said.wire, Batch(c, l, said.pc, broken || said.broke, released));
    case Inserting(c, l, _) =>
      var y := Inserting(c, l, said.pc);
      RewireKeeps(s, h, said.wire, y);
      if said.pc.Resting? {
        var s' := Rewire(s, h, said.wire, y);
        GiveBackKeeps(s', h, Returning, said.broke);
        LeaveKeeps(GiveBack(s', h, Returning, said.broke), h);
      }
  }

  lemma {:induction false} FreeStepKeeps(s: State, h: nat)
    requires Inv(s) && Live(s, h) && (s.handles[h].Stream? || s.handles[h].Batch?)
    ensures Inv(FreeStep(s, h))
  {
    var x := s.handles[h];
    if !x.released {
      var broke := x.broken || (x.Stream? && !x.done);
      GiveBackKeeps(s, h, Returning, broke);
      LeaveKeeps(GiveBack(s, h, Returning, broke), h);
    } else {
      LeaveKeeps(s, h);
    }
  }

  lemma {:induction false} DialKeepsBook(s: State, h: nat, kind: Kind)
    requires BookOk(s) && h in s.handles && s.handles[h].Waiting?
    ensures BookOk(s.(handles := s.handles[h := Dialing(kind)], dialing := s.dialing + {h}))
  {
  }

  lemma {:induction false} DialKeepsPool(s: State, h: nat, kind: Kind)
    requires PoolOk(s) && h in s.handles && s.handles[h].Waiting? && Dialable(s)
    ensures PoolOk(s.(handles := s.handles[h := Dialing(kind)], dialing := s.dialing + {h}))
  {
    var s' := s.(handles := s.handles[h := Dialing(kind)], dialing := s.dialing + {h});
    assert h !in s.dialing && |s'.dialing| == |s.dialing| + 1;
    assert forall g :: g in s'.dialing <==> g in s'.handles && s'.handles[g].Dialing?;
  }

  lemma {:induction false} DialKeeps(s: State, h: nat, kind: Kind)
    requires Inv(s) && h in s.handles && s.handles[h].Waiting? && Dialable(s)
    ensures Inv(s.(handles := s.handles[h := Dialing(kind)], dialing := s.dialing + {h}))
  {
    DialKeepsBook(s, h, kind);
    DialKeepsPool(s, h, kind);
    ReplaceKeepsRefs(s, h, Dialing(kind));
  }

  lemma {:induction false} UndialKeeps(s: State, h: nat)
    requires Inv(s) && h in s.handles && s.handles[h].Dialing? && s.refs > 0
    ensures Inv(Leave(s.(dialing := s.dialing - {h}), h))
  {
    var s' := s.(dialing := s.dialing - {h});
    RemoveKey(s'.handles, h);
    DropRefKeeps(s'.(handles := s'.handles - {h}));
  }

  lemma {:induction false} DialedOffers(s: State, h: nat, c: nat)
    requires PoolOk(s) && s.open && h in s.dialing && c !in s.conns
    ensures Offered(s.(dialing := s.dialing - {h}, conns := s.conns[c := Conn(Quiet, false)]), h, c)
  {
    AddKey(s.conns, c, Conn(Quiet, false));
  }

  lemma {:induction false} DialedKeeps(s: State, h: nat, c: nat, kind: Kind)
    requires Inv(s) && h in s.handles && s.handles[h] == Dialing(kind) && c !in s.conns && s.refs > 0
    ensures var s' := s.(dialing := s.dialing - {h}, conns := s.conns[c := Conn(Quiet, false)]);
            Inv(Grant(s', h, c, Granted(kind, c, s.leases)))
  {
    DialedOffers(s, h, c);
    GrantKeeps(s.(dialing := s.dialing - {h}, conns := s.conns[c := Conn(Quiet, false)]), h, c, kind);
  }

  lemma {:induction false} AcquireStepKeeps(s: State, h: nat, e: Event)
    requires Inv(s) && Live(s, h) && AcquireStep(s, h, e).Some?
    ensures Inv(AcquireStep(s, h, e).value)
  {
    hide RefsOk, LeasesOk, Grant, Leave;
    match (s.handles[h], e)
    case (Waiting(kind), TakeIdle(_, c)) => GrantKeeps(s, h, c, kind);
    case (Waiting(kind), Dial(_)) => DialKeeps(s, h, kind);
    case (Dialing(kind), Dialed(_, c)) => DialedKeeps(s, h, c, kind);
    case (Waiting(_), AcquireFails(_)) => LeaveKeeps(s, h);
    case (Dialing(_), AcquireFails(_)) => UndialKeeps(s, h);
    case _ =>
  }

  lemma {:induction false} EnterKeeps(s: State, h: nat, kind: Kind)
    requires Inv(s) && h !in s.handles && s.external > 0
    ensures Inv(Enter(s, h, Waiting(kind)))
  {
    AddKey(s.handles, h, Waiting(kind));
    EnterKeepsBook(s, h, kind);
  }

  lemma {:induction false} EnterKeepsBook(s: State, h: nat, kind: Kind)
    requires BookOk(s) && h !in s.handles
    ensures BookOk(Enter(s, h, Waiting(kind)))
  {
  }

  lemma {:induction false} ReferenceKeeps(s: State)
    requires Inv(s) && s.external > 0
    ensures Inv(s.(external := s.external + 1, refs := s.refs + 1))
  {
  }

  lemma {:induction false} DropKeeps(s: State)
    requires Inv(s) && s.external > 0 && s.refs > 0
    ensures Inv(DropRef(s.(external := s.external - 1)))
  {
    DropRefKeeps(s.(external := s.external - 1));
  }

  lemma {:induction false} FlushKeeps(s: State, h: nat)
    requires Inv(s) && Live(s, h) && s.handles[h].Batch? && s.handles[h].pc.Resting?
    ensures Inv(Step(s, StartFlush(h)).value)
  {
    var x := s.handles[h];
    SettleKeeps(s, h, Batch(x.conn, x.lease, AtBegin, x.broken, x.released));
  }

  lemma {:induction false} TalkKeeps(s: State, h: nat, line: Line)
    requires Inv(s) && Step(s, Talk(h, line)).Some?
    ensures Inv(Step(s, Talk(h, line)).value)
  {
    TalkStepKeeps(s, h, Converse(s.handles[h].pc, WireOf(s, s.handles[h]), line).value);
  }

  /** Every event, on every handle, in every interleaving, keeps the invariant. */
  lemma {:induction false} StepKeeps(s: State, e: Event)
    requires Inv(s) && Step(s, e).Some?
    ensures Inv(Step(s, e).value)
  {
    hide Inv, AcquireStep, StreamStep, TalkStep, FreeStep, DropRef, Enter;
    match e
    case Reference => ReferenceKeeps(s);
    case Drop => DropKeeps(s);
    case Call(h, kind) => EnterKeeps(s, h, kind);
    case TakeIdle(h, _) => AcquireStepKeeps(s, h, e);
    case Dial(h) => AcquireStepKeeps(s, h, e);
    case Dialed(h, _) => AcquireStepKeeps(s, h, e);
    case AcquireFails(h) => AcquireStepKeeps(s, h, e);
    case Execute(h, _, _) => StreamStepKeeps(s, h, e);
    case Pull(h, _) => StreamStepKeeps(s, h, e);
    case Row(h, _) => StreamStepKeeps(s, h, e);
    case Talk(h, line) => TalkKeeps(s, h, line);
    case StartFlush(h) => FlushKeeps(s, h);
    case Free(h) => FreeStepKeeps(s, h);
  }

  /** ... and so every reachable state has it. */
  lemma {:induction false} RunKeeps(s: State, es: seq<Event>)
    requires Inv(s) && Run(s, es).Some?
    ensures Inv(Run(s, es).value)
    decreases |es|
  {
    if es != [] {
      StepKeeps(s, es[0]);
      RunKeeps(Step(s, es[0]).value, es[1..]);
    }
  }

  /* ---- what it means ---- */

  predicate Owner(s: State, h: nat, c: nat) {
    h in s.handles && Holds(s.handles[h]) && s.handles[h].conn == c
  }

  predicate Leaseholder(s: State, h: nat, l: nat) {
    h in s.handles && Holds(s.handles[h]) && s.handles[h].lease == l
  }

  /** Pool safety, in terms of connections, handles and acquires only. */
  ghost predicate Safe(s: State) {
    // a live connection is idle or has an owner, never both and never two; owners hold live ones
    && (forall c :: c in s.idle ==> c in s.conns && !s.conns[c].broken)
    && (forall c :: c in s.conns ==> (c in s.idle) != (exists h :: Owner(s, h, c)))
    && (forall c, h :: Owner(s, h, c) ==> c in s.conns)
    && (forall c, h, g :: Owner(s, h, c) && Owner(s, g, c) ==> h == g)
    // each acquire is released once, unless it is still held
    && (forall l: nat :: l < s.leases ==> s.returned[l] == if exists h :: Leaseholder(s, h, l) then 0 else 1)
    && (forall l: nat :: l >= s.leases ==> s.returned[l] == 0)
    // the pool stays within its size, and open as long as anything may use it
    && |s.conns| + |s.dialing| <= s.max
    && s.refs == s.external + |s.handles| && (s.open <==> s.refs > 0)
    // nothing was released late, and nobody used a connection of someone else
    && s.late == 0 && s.strays == 0
  }

  /** After the last reference is gone nothing is left: no connection, no unreleased acquire. */
  ghost predicate Settled(s: State) {
    s.conns == map[] && s.handles == map[] && forall l: nat :: l < s.leases ==> s.returned[l] == 1
  }

  lemma {:induction false} InvMeansSafe(s: State)
    requires Inv(s)
    ensures Safe(s)
  {
    forall c | c in s.conns ensures (c in s.idle) != (exists h :: Owner(s, h, c)) {
      if c in s.out {
        assert Owner(s, s.out[c], c);
      }
    }
    forall l: nat | l < s.leases ensures s.returned[l] == if exists h :: Leaseholder(s, h, l) then 0 else 1 {
      if l in s.holder {
        assert Leaseholder(s, s.holder[l], l);
      }
    }
  }

  lemma {:induction false} ClosedMeansSettled(s: State)
    requires Inv(s) && s.refs == 0
    ensures Settled(s)
  {
    assert |s.handles| == |s.handles.Keys| == 0;
    assert s.handles == map[];
    assert s.conns == map[];
  }

  lemma {:induction false} InitialInv(max: nat)
    ensures Inv(Initial(max))
  {
  }

  /** Pool safety over all runs: any interleaving of calls, pulls, flushes and destructions, with
      arbitrary failures, from a new client on. */
  lemma {:induction false} EveryRunIsSafe(max: nat, es: seq<Event>)
    requires Run(Initial(max), es).Some?
    ensures Safe(Run(Initial(max), es).value)
    ensures Run(Initial(max), es).value.refs == 0 ==> Settled(Run(Initial(max), es).value)
  {
    InitialInv(max);
    RunKeeps(Initial(max), es);
    var s := Run(Initial(max), es).value;
    InvMeansSafe(s);
    if s.refs == 0 {
      ClosedMeansSettled(s);
    }
  }
}
