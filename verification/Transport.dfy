/** Bytes to and from a socket that takes them in pieces: what the retry loops deliver against
    any sequence of answers of the operating system. */
module Transport {
  import opened Arithmetic
  import opened Exceptions

  type Byte = b: int | 0 <= b < 256

  /** The system's answer to one send or recv. `Moved(n)` moves n + 1 bytes if there are as
      many; `WouldBlock(woken)` tells how the wait ends. */
  datatype Answer = Moved(n: nat) | Interrupted | WouldBlock(woken: bool) | Failed

  /** An answer that ends the operation. TLS streams have no retries: whatever moves nothing is
      final. */
  predicate Fatal(tls: bool, a: Answer) {
    if tls then !a.Moved? else a.Failed? || a == WouldBlock(false)
  }

  /** How many bytes the answers let through before the first fatal one. */
  function Capacity(tls: bool, answers: seq<Answer>): nat {
    if answers == [] || Fatal(tls, answers[0]) then 0
    else (if answers[0].Moved? then answers[0].n + 1 else 0) + Capacity(tls, answers[1..])
  }

  /** The answers that are left when n bytes went through. An answer serves one call: what it would
      have moved beyond the end of a buffer is no help to the next one. */
  function Left(answers: seq<Answer>, n: nat): seq<Answer> {
    if n == 0 || answers == [] then answers
    else
      var moved := if answers[0].Moved? then Min(answers[0].n + 1, n) else 0;
      Left(answers[1..], n - moved)
  }

  /** How many bytes of the packets get through one after another. */
  function Reach(answers: seq<Answer>, packets: seq<seq<Byte>>): nat
    decreases |packets|
  {
    if packets == [] then 0
    else
      var n, through := |packets[0]|, Capacity(false, answers);
      if through < n then through else n + Reach(Left(answers, n), packets[1..])
  }

  function Joined(packets: seq<seq<Byte>>): seq<Byte> {
    if packets == [] then [] else packets[0] + Joined(packets[1..])
  }

  lemma {:induction false} NothingJoined(packets: seq<seq<Byte>>)
    ensures Joined(packets[..0]) == [] && packets[0..] == packets
  {
  }

  lemma {:induction false} JoinedSplit(packets: seq<seq<Byte>>, i: nat)
    requires i < |packets|
    ensures Joined(packets[..i + 1]) == Joined(packets[..i]) + packets[i]
    ensures Joined(packets[..i]) + packets[i] <= Joined(packets)
  {
    if i == 0 {
      assert packets[..1] == [packets[0]] && packets[..0] == [];
      assert Joined([packets[0]]) == packets[0] + [];
    } else {
      var rest := packets[1..];
      JoinedSplit(rest, i - 1);
      assert packets[..i][1..] == rest[..i - 1] && packets[..i + 1][1..] == rest[..i];
      assert packets[0] + (Joined(rest[..i - 1]) + rest[i - 1]) == packets[0] + Joined(rest[..i - 1]) + rest[i - 1];
    }
  }

  lemma {:induction false} LeftCapacity(answers: seq<Answer>, n: nat)
    requires n <= Capacity(false, answers)
    ensures n + Capacity(false, Left(answers, n)) <= Capacity(false, answers)
    decreases |answers|
  {
    if n > 0 {
      var moved := if answers[0].Moved? then Min(answers[0].n + 1, n) else 0;
      if n - moved <= Capacity(false, answers[1..]) {
        LeftCapacity(answers[1..], n - moved);
      }
    }
  }

  /** What gets through is never more than the answers allow in all; all of it does iff every
      packet does in turn, and for several packets that needs more than the sum. */
  lemma {:induction false} ReachIsBounded(answers: seq<Answer>, packets: seq<seq<Byte>>)
    ensures Reach(answers, packets) <= Capacity(false, answers) && Reach(answers, packets) <= |Joined(packets)|
    decreases |packets|
  {
    if packets != [] && |packets[0]| <= Capacity(false, answers) {
      LeftCapacity(answers, |packets[0]|);
      ReachIsBounded(Left(answers, |packets[0]|), packets[1..]);
    }
  }

  /** One answer that would move 100 bytes carries the first of two small packets and no more. */
  lemma {:induction false} OneAnswerOnePacket(first: seq<Byte>, second: seq<Byte>)
    requires 0 < |first| <= 50 && 0 < |second| <= 50
    ensures var answers := [Moved(99)];
            && Capacity(false, answers) >= |Joined([first, second])|
            && Reach(answers, [first, second]) == |first|
  {
    var answers, packets := [Moved(99)], [first, second];
    assert packets[1..] == [second] && Joined([second]) == second + [];
    assert Left(answers[1..], 0) == [] && Left(answers, |first|) == [];
  }

  /** The contract of a write: it returns exactly when the system lets the whole buffer through
      before something fatal; the peer has then received the buffer, otherwise a proper prefix of
      it, and the exception is one that gives the connection up. */
  ghost predicate Written(r: Result<nat>, tls: bool, answers: seq<Answer>, before: seq<Byte>, data: seq<Byte>,
                          after: seq<Byte>) {
    var through := Min(Capacity(tls, answers), |data|);
    && (r.Ok? <==> through == |data|)
    && (r.Ok? ==> r.value == |data|)
    && (r.Err? ==> r.error == ConnectionError && Poisons(r.error))
    && after == before + data[..through]
  }

  /** The sending half of a connection. When the scripted answers run out the connection is
      reset, so every terminating behaviour is some script. */
  class OutSocket {
    var answers: seq<Answer>
    var peer: seq<Byte>   // what the other side's stream has received

    constructor (answers: seq<Answer>)
      ensures this.answers == answers && peer == []
    {
      this.answers, peer := answers, [];
    }

    /** ::send, php_stream_write: take some front part of the chunk. */
    method Send(chunk: seq<Byte>) returns (answer: Answer, n: nat)
      requires chunk != []
      modifies this
      ensures answer == if old(answers) == [] then Failed else old(answers)[0]
      ensures answers == if old(answers) == [] then [] else old(answers)[1..]
      ensures n == if answer.Moved? then Min(answer.n + 1, |chunk|) else 0
      ensures peer == old(peer) + chunk[..n]
    {
      answer, n := Failed, 0;
      if answers != [] {
        answer := answers[0];
        answers := answers[1..];
      }
      if answer.Moved? {
        n := Min(answer.n + 1, |chunk|);
      }
      peer := peer + chunk[..n];
    }

    /** AsyncOutput::DoWrite: send what is left, wait out interruptions and full buffers. */
    method DoWrite(data: seq<Byte>) returns (r: Result<nat>)
      modifies this
      ensures Written(r, false, old(answers), old(peer), data, peer)
      ensures r.Ok? ==> answers == Left(old(answers), |data|)
    {
      var sent := 0;
      while sent < |data|
        invariant sent <= |data| && peer == old(peer) + data[..sent]
        invariant Capacity(false, old(answers)) >= sent
        invariant sent < |data| ==> Capacity(false, old(answers)) == sent + Capacity(false, answers)
        invariant Left(answers, |data| - sent) == Left(old(answers), |data|)
        decreases |answers|, |data| - sent
      {
        ghost var before := sent;
        var answer, n := Send(data[sent..]);
        if n > 0 {
          sent := sent + n;
          assert data[..before] + data[before..][..n] == data[..sent];
          continue;
        }
        assert data[before..][..n] == [];
        if answer.Interrupted? {
          continue;
        }
        if answer.WouldBlock? {
          if !answer.woken {
            return Err(ConnectionError);
          }
          continue;
        }
        return Err(ConnectionError);
      }
      assert data[..sent] == data;
      r := Ok(|data|);
    }

    /** TlsOutput::DoWrite: no answer but progress is survived. */
    method TlsDoWrite(data: seq<Byte>) returns (r: Result<nat>)
      modifies this
      ensures Written(r, true, old(answers), old(peer), data, peer)
    {
      var sent := 0;
      while sent < |data|
        invariant sent <= |data| && peer == old(peer) + data[..sent]
        invariant Capacity(true, old(answers)) >= sent
        invariant sent < |data| ==> Capacity(true, old(answers)) == sent + Capacity(true, answers)
      {
        ghost var before := sent;
        var answer, n := Send(data[sent..]);
        if n == 0 {
          assert data[before..][..n] == [];
          return Err(ConnectionError);
        }
        sent := sent + n;
        assert data[..before] + data[before..][..n] == data[..sent];
      }
      assert data[..sent] == data;
      r := Ok(|data|);
    }

    /** What the library does with one packet after another: stop at the first exception. */
    method WriteAll(packets: seq<seq<Byte>>) returns (r: Result<nat>)
      modifies this
      ensures var through := Reach(old(answers), packets);
              && through <= |Joined(packets)| && peer == old(peer) + Joined(packets)[..through]
              && (r.Ok? <==> through == |Joined(packets)|)
      ensures r.Err? ==> r.error == ConnectionError && Poisons(r.error)
    {
      hide Capacity, Left, Joined;
      NothingJoined(packets);
      ReachIsBounded(answers, packets);
      var i := 0;
      r := Ok(0);
      while i < |packets|
        invariant i <= |packets| && r.Ok?
        invariant peer == old(peer) + Joined(packets[..i])
        invariant Reach(old(answers), packets) == |Joined(packets[..i])| + Reach(answers, packets[i..])
      {
        ghost var before, through := Joined(packets[..i]), Min(Capacity(false, answers), |packets[i]|);
        JoinedSplit(packets, i);
        assert packets[i..][0] == packets[i] && packets[i..][1..] == packets[i + 1..];
        r := DoWrite(packets[i]);
        if r.Err? {
          assert before + packets[i][..through] == Joined(packets)[..|before| + through];
          return;
        }
        i := i + 1;
      }
      assert packets[..i] == packets && Joined(packets)[..|Joined(packets)|] == Joined(packets);
    }
  }

  /** The first answer that decides a read. */
  function FirstFinal(tls: bool, answers: seq<Answer>): Answer {
    if answers == [] then Failed
    else if answers[0].Moved? || Fatal(tls, answers[0]) then answers[0]
    else FirstFinal(tls, answers[1..])
  }

  /** The contract of a read: the next bytes of the stream, as many as have come, and never more than
      asked for; an exception, one that poisons, iff the deciding answer moves nothing, and then
      nothing of the stream is consumed. */
  ghost predicate Received(r: Result<seq<Byte>>, tls: bool, answers: seq<Answer>, before: seq<Byte>, len: nat,
                           after: seq<Byte>) {
    match r
    case Ok(bytes) =>
      && 0 < |bytes| <= len && before == bytes + after
      && FirstFinal(tls, answers).Moved?
      && |bytes| == Min(FirstFinal(tls, answers).n + 1, Min(len, |before|))
    case Err(e) =>
      && e == ConnectionError && Poisons(e) && after == before
      && (FirstFinal(tls, answers).Moved? ==> len == 0 || before == [])
  }

  /** The receiving half: bytes that will arrive, and the system's answers. */
  class InSocket {
    var answers: seq<Answer>
    var incoming: seq<Byte>

    constructor (answers: seq<Answer>, incoming: seq<Byte>)
      ensures this.answers == answers && this.incoming == incoming
    {
      this.answers, this.incoming := answers, incoming;
    }

    /** ::recv, php_stream_read. Nothing to move, or no room for it, is a recv of 0 bytes. */
    method Receive(len: nat) returns (answer: Answer, bytes: seq<Byte>)
      modifies this
      ensures answer == if old(answers) == [] then Failed else old(answers)[0]
      ensures answers == if old(answers) == [] then [] else old(answers)[1..]
      ensures |bytes| == if answer.Moved? then Min(answer.n + 1, Min(len, |old(incoming)|)) else 0
      ensures old(incoming) == bytes + incoming
    {
      answer, bytes := Failed, [];
      if answers != [] {
        answer := answers[0];
        answers := answers[1..];
      }
      if answer.Moved? {
        var n := Min(answer.n + 1, Min(len, |incoming|));
        bytes, incoming := incoming[..n], incoming[n..];
      }
    }

    /** AsyncInput::DoRead: wait out interruptions, then one piece of what arrives. */
    method DoRead(len: nat) returns (r: Result<seq<Byte>>)
      modifies this
      ensures Received(r, false, old(answers), old(incoming), len, incoming)
    {
      while true
        invariant incoming == old(incoming) && FirstFinal(false, answers) == FirstFinal(false, old(answers))
        decreases |answers|
      {
        var answer, bytes := Receive(len);
        if |bytes| > 0 {
          return Ok(bytes);
        }
        if answer.Moved? {
          return Err(ConnectionError);
        }
        if answer.Interrupted? {
          continue;
        }
        if answer.WouldBlock? {
          if !answer.woken {
            return Err(ConnectionError);
          }
          continue;
        }
        return Err(ConnectionError);
      }
    }

    /** TlsInput::DoRead: one attempt. */
    method TlsDoRead(len: nat) returns (r: Result<seq<Byte>>)
      modifies this
      ensures Received(r, true, old(answers), old(incoming), len, incoming)
    {
      var answer, bytes := Receive(len);
      r := if |bytes| == 0 then Err(ConnectionError) else Ok(bytes);
    }
  }

  /* ---- what the loops survive ---- */

  /** An answer after which the loops of the plain socket ask again. */
  predicate AsksAgain(x: Answer) {
    x == Interrupted || x == WouldBlock(true)
  }

  /** Interruptions and waits that were answered change nothing, wherever they come: neither what a
      write gets through nor which answer decides a read. */
  lemma {:induction false} WaitsVanish(a: seq<Answer>, x: Answer, b: seq<Answer>)
    requires AsksAgain(x)
    ensures Capacity(false, a + [x] + b) == Capacity(false, a + b)
    ensures FirstFinal(false, a + [x] + b) == FirstFinal(false, a + b)
    decreases |a|
  {
    if a == [] {
      assert (a + [x] + b)[1..] == b && a + b == b;
    } else {
      WaitsVanish(a[1..], x, b);
      assert (a + [x] + b)[1..] == a[1..] + [x] + b && (a + b)[1..] == a[1..] + b;
    }
  }

  /** ... so a sequence of packets is not disturbed by them either. */
  lemma {:induction false} WaitsDisturbNoPacket(a: seq<Answer>, x: Answer, b: seq<Answer>, packets: seq<seq<Byte>>)
    requires AsksAgain(x)
    ensures Reach(a + [x] + b, packets) == Reach(a + b, packets)
    decreases |packets|
  {
    WaitsVanish(a, x, b);
    if packets != [] {
      var rest, past := LeftOverWait(a, x, b, |packets[0]|);
      if !past {
        WaitsDisturbNoPacket(rest, x, b, packets[1..]);
      }
    }
  }

  /** What n bytes leave of the answers: the same with and without the wait, unless it lies ahead. */
  lemma {:induction false} LeftOverWait(a: seq<Answer>, x: Answer, b: seq<Answer>, n: nat)
    returns (rest: seq<Answer>, past: bool)
    requires AsksAgain(x)
    ensures if past then Left(a + [x] + b, n) == Left(a + b, n)
            else Left(a + [x] + b, n) == rest + [x] + b && Left(a + b, n) == rest + b
    decreases |a|
  {
    rest, past := a, n > 0;
    if n > 0 {
      if a == [] {
        assert (a + [x] + b)[1..] == b && a + b == b;
      } else {
        assert (a + [x] + b)[1..] == a[1..] + [x] + b && (a + b)[1..] == a[1..] + b;
        rest, past := LeftOverWait(a[1..], x, b, n - if a[0].Moved? then Min(a[0].n + 1, n) else 0);
      }
    }
  }

  /** A failure, or on TLS anything that moves nothing, is the end: nothing behind it counts. */
  lemma {:induction false} FailureEnds(tls: bool, a: seq<Answer>, x: Answer, b: seq<Answer>)
    requires if tls then !x.Moved? else x == Failed || x == WouldBlock(false)
    ensures Capacity(tls, a + [x] + b) == Capacity(tls, a) && FirstFinal(tls, [x] + b) == x
    decreases |a|
  {
    if a == [] {
      assert (a + [x] + b)[0] == x;
    } else {
      FailureEnds(tls, a[1..], x, b);
      assert (a + [x] + b)[1..] == a[1..] + [x] + b;
    }
  }

  /** Progress counts for what it moves, and decides a read. */
  lemma {:induction false} ProgressCounts(tls: bool, n: nat, b: seq<Answer>)
    ensures Capacity(tls, [Moved(n)] + b) == n + 1 + Capacity(tls, b) && FirstFinal(tls, [Moved(n)] + b) == Moved(n)
  {
    assert ([Moved(n)] + b)[1..] == b;
  }

  /** A signal, then a full buffer, then room: the write returns with everything sent. */
  method WriteAfterWaits(data: seq<Byte>, n: nat) returns (r: Result<nat>, peer: seq<Byte>)
    requires n + 1 >= |data|
    ensures r == Ok(|data|) && peer == data
  {
    var answers := [Interrupted, WouldBlock(true), Moved(n)];
    var socket := new OutSocket(answers);
    assert answers[1..] == [WouldBlock(true), Moved(n)] && answers[1..][1..] == [Moved(n)] == [Moved(n)] + [];
    ProgressCounts(false, n, []);
    assert Capacity(false, [Moved(n)]) == Capacity(false, answers[1..]) == Capacity(false, answers) == n + 1;
    r := socket.DoWrite(data);
    peer := socket.peer;
    assert data[..|data|] == data && [] + data == data;
  }

  /** The same before a read: the next bytes come. */
  method ReadAfterWaits(incoming: seq<Byte>, n: nat, len: nat) returns (r: Result<seq<Byte>>)
    requires incoming != [] && len > 0
    ensures r == Ok(incoming[..Min(n + 1, Min(len, |incoming|))])
  {
    var answers := [Interrupted, WouldBlock(true), Moved(n)];
    var socket := new InSocket(answers, incoming);
    assert answers[1..] == [WouldBlock(true), Moved(n)] && answers[1..][1..] == [Moved(n)];
    assert FirstFinal(false, [Moved(n)]) == FirstFinal(false, answers[1..]) == FirstFinal(false, answers) == Moved(n);
    r := socket.DoRead(len);
    assert r.Ok? ==> r.value == incoming[..|r.value|];
  }
}
