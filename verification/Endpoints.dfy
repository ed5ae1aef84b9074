/** Which server a new connection tries first, and in which order the others follow. */
module Endpoints {
  import opened Arithmetic
  import opened HostList

  const SEQ_LIMIT: nat := 0x1_0000_0000   // conn_seq is 32 bits wide

  datatype Strategy = InOrder | RoundRobin | Random

  /** What the factory hands to connect: a host and its failover list. */
  datatype Config = Config(primary: Endpoint, failover: seq<Endpoint>)

  function Rotation<T>(s: seq<T>, k: nat): (r: seq<T>)
    requires k <= |s|
    ensures |r| == |s|
  {
    s[k..] + s[..k]
  }

  lemma {:induction false} ImageIs(list: seq<string>, clientPort: nat, first: Endpoint, others: seq<Endpoint>)
    requires list != [] && first == Parse(list[0], clientPort) && |others| == |list| - 1
    requires forall k :: 1 <= k < |list| ==> others[k - 1] == Parse(list[k], first.port)
    ensures [first] + others == HostImage(list, clientPort)
  {
    hide Parse;
  }

  class ClientObject {
    var host: string
    var port: nat
    var endpoints: seq<Endpoint>
    var openStrategy: Strategy
    var connSeq: nat

    constructor (host: string, port: nat, openStrategy: Strategy)
      ensures All() == [Endpoint(host, port)] && this.openStrategy == openStrategy && connSeq == 0
    {
      this.host, this.port, this.openStrategy := host, port, openStrategy;
      endpoints, connSeq := [], 0;
    }

    /** All servers: index 0 is the primary. */
    ghost function All(): seq<Endpoint>
      reads this
    {
      [Endpoint(host, port)] + endpoints
    }

    /** The 'hosts' option: the first entry replaces the primary, the others follow it. */
    method SetHosts(list: seq<string>)
      requires endpoints == []
      modifies `host, `port, `endpoints
      ensures list == [] ==> All() == old(All())
      ensures list != [] ==> All() == HostImage(list, old(port))
    {
      hide Parse, HostImage;
      var index := 0;
      while index < |list|
        invariant index <= |list|
        invariant index == 0 ==> host == old(host) && port == old(port) && endpoints == []
        invariant index > 0 ==> Endpoint(host, port) == Parse(list[0], old(port)) && |endpoints| == index - 1
        invariant forall k :: 1 <= k < index ==> endpoints[k - 1] == Parse(list[k], port)
      {
        var e := ParseHostPort(list[index], port);
        if index == 0 {
          host, port := e.host, e.port;
        } else {
          endpoints := endpoints + [e];
        }
        index := index + 1;
      }
      if list != [] {
        ImageIs(list, old(port), Endpoint(host, port), endpoints);
      }
    }

    /** Pool factory: choose a start, then list every other server cyclically behind it. The
        outcome of the connect that follows plays no part in the rotation. */
    method PoolFactory(random: nat) returns (cfg: Config, start: nat)
      requires connSeq < SEQ_LIMIT
      modifies `connSeq
      ensures connSeq < SEQ_LIMIT
      ensures start < |All()| && [cfg.primary] + cfg.failover == Rotation(All(), start)
      ensures openStrategy.InOrder? || endpoints == [] ==> start == 0
      ensures openStrategy.RoundRobin? && endpoints != [] ==>
                start == StartOf(old(connSeq), |All()|) && connSeq == Next(old(connSeq))
      ensures openStrategy.Random? && random < |All()| ==> start == random
      ensures !openStrategy.RoundRobin? || endpoints == [] ==> connSeq == old(connSeq)
    {
      var total := 1 + |endpoints|;
      start := 0;
      if total > 1 {
        if openStrategy.RoundRobin? {
          start := FloorMod(connSeq, total);
          connSeq := Next(connSeq);
        } else if openStrategy.Random? {
          start := FloorMod(random, total);
          DrawStands(random, total);
        }
      }
      var failover := Failover(start);
      cfg := Config(if start == 0 then Endpoint(host, port) else endpoints[start - 1], failover);
      assert [cfg.primary] + cfg.failover == Rotation(All(), start);
    }

    /** The other servers in ring order behind the start. */
    method Failover(start: nat) returns (failover: seq<Endpoint>)
      requires start < |All()|
      ensures failover == All()[start + 1..] + All()[..start]
    {
      var total := 1 + |endpoints|;
      failover := [];
      var k := 1;
      while k < total
        invariant 1 <= k <= total && |failover| == k - 1
        invariant forall j :: 1 <= j < k ==> failover[j - 1] == All()[Cyclic(start, j, total)]
      {
        var idx := FloorMod(start + k, total);
        CyclicIsMod(start, k, total);
        failover := failover + [if idx == 0 then Endpoint(host, port) else endpoints[idx - 1]];
        k := k + 1;
      }
      RingOrder(All(), start, failover);
    }
  }

  lemma {:induction false} RingOrder<T>(s: seq<T>, start: nat, others: seq<T>)
    requires start < |s| && |others| == |s| - 1
    requires forall j :: 1 <= j < |s| ==> others[j - 1] == s[Cyclic(start, j, |s|)]
    ensures others == s[start + 1..] + s[..start]
  {
    forall i | 0 <= i < |others| ensures others[i] == (s[start + 1..] + s[..start])[i] {
      assert others[i] == others[(i + 1) - 1] == s[Cyclic(start, i + 1, |s|)];
    }
  }

  lemma {:induction false} DrawStands(random: nat, total: nat)
    requires total > 0
    ensures random < total ==> FloorMod(random, total) == random
  {
    if random < total {
      FloorUnique(random, total, 0, random);
    }
  }

  /** conn_seq++ */
  function Next(connSeq: nat): nat {
    if connSeq + 1 < SEQ_LIMIT then connSeq + 1 else 0
  }

  function StartOf(connSeq: nat, total: nat): (start: nat)
    requires total > 0
    ensures start < total
  {
    FloorMod(connSeq, total)
  }

  /** k places after start, on a ring. */
  function Cyclic(start: nat, k: nat, total: nat): (i: nat)
    requires start < total && k <= total
    ensures i < total
  {
    if start + k < total then start + k else start + k - total
  }

  lemma {:induction false} CyclicIsMod(start: nat, k: nat, total: nat)
    requires start < total && k < total
    ensures FloorMod(start + k, total) == Cyclic(start, k, total)
  {
    if start + k < total {
      FloorUnique(start + k, total, 0, start + k);
    } else {
      FloorUnique(start + k, total, 1, start + k - total);
    }
  }

  /** Every server is tried, once, whichever comes first; and they come in ring order. */
  lemma {:induction false} RotationIsPermutation<T>(s: seq<T>, start: nat)
    requires start < |s|
    ensures multiset(Rotation(s, start)) == multiset(s)
    ensures forall k :: 0 <= k < |s| ==> Rotation(s, start)[k] == s[Cyclic(start, k, |s|)]
  {
    assert s[..start] + s[start..] == s;
  }

  /* ---- fairness ---- */

  /** How many of the calls from, ..., end - 1 start at server e. */
  function Firsts(from: nat, end: nat, e: nat, total: nat): nat
    requires total > 0
    decreases end
  {
    if end <= from then 0 else Firsts(from, end - 1, e, total) + if StartOf(end - 1, total) == e then 1 else 0
  }

  lemma {:induction false} FirstsSplit(from: nat, mid: nat, end: nat, e: nat, total: nat)
    requires total > 0 && from <= mid <= end
    ensures Firsts(from, end, e, total) == Firsts(from, mid, e, total) + Firsts(mid, end, e, total)
    decreases end
  {
    if mid < end {
      FirstsSplit(from, mid, end - 1, e, total);
    }
  }

  /** One round of `total` calls starts at each server exactly once. */
  lemma {:induction false} OncePerRound(from: nat, e: nat, total: nat)
    requires e < total
    ensures Firsts(from, from + total, e, total) == 1
    decreases from
  {
    if from == 0 {
      OncePerFirstRound(total, e, total);
    } else {
      OncePerRound(from - 1, e, total);
      FirstsSplit(from - 1, from, from + total, e, total);
      var q, r := FloorDiv(from - 1, total), FloorMod(from - 1, total);
      MulDistributes(q, 1, total);
      FloorUnique(from - 1 + total, total, q + 1, r);
      assert Firsts(from - 1, from, e, total) == if StartOf(from - 1, total) == e then 1 else 0;
    }
  }

  lemma {:induction false} OncePerFirstRound(n: nat, e: nat, total: nat)
    requires e < total && n <= total
    ensures Firsts(0, n, e, total) == if e < n then 1 else 0
    decreases n
  {
    if n > 0 {
      OncePerFirstRound(n - 1, e, total);
      FloorUnique(n - 1, total, 0, n - 1);
    }
  }

  lemma {:induction false} FirstsBound(from: nat, n: nat, e: nat, total: nat)
    requires e < total && n <= total
    ensures Firsts(from, from + n, e, total) <= 1
  {
    OncePerRound(from, e, total);
    FirstsSplit(from, from + n, from + total, e, total);
  }

  /** Round robin is fair: of N calls without a wrap of the 32-bit counter, every server is
      first N / total times, rounded down or up. */
  lemma {:induction false} RoundRobinIsFair(from: nat, n: nat, e: nat, total: nat)
    requires e < total && from + n <= SEQ_LIMIT
    ensures FloorDiv(n, total) <= Firsts(from, from + n, e, total) <= FloorDiv(n + total - 1, total)
    decreases n
  {
    if n < total {
      FirstsBound(from, n, e, total);
      FloorUnique(n, total, 0, n);
      if n == 0 {
        FloorUnique(total - 1, total, 0, total - 1);
      } else {
        FloorUnique(n + total - 1, total, 1, n - 1);
      }
    } else {
      RoundRobinIsFair(from + total, n - total, e, total);
      OncePerRound(from, e, total);
      FirstsSplit(from, from + total, from + n, e, total);
      OneRoundLess(n, total);
      OneRoundLess(n + total - 1, total);
    }
  }

  lemma {:induction false} OneRoundLess(n: nat, total: nat)
    requires 0 < total <= n
    ensures FloorDiv(n, total) == FloorDiv(n - total, total) + 1
  {
    var q, r := FloorDiv(n - total, total), FloorMod(n - total, total);
    MulDistributes(q, 1, total);
    FloorUnique(n, total, q + 1, r);
  }

  /** Where the counter wraps the ring is kept only if the number of servers divides 2^32;
      everywhere else the next connection starts one server further on. */
  lemma {:induction false} RingStepIff(connSeq: nat, total: nat)
    requires connSeq < SEQ_LIMIT && total > 0
    ensures StartOf(Next(connSeq), total) == Cyclic(StartOf(connSeq, total), 1, total)
            <==> connSeq + 1 < SEQ_LIMIT || FloorMod(SEQ_LIMIT, total) == 0
  {
    var q, r := FloorDiv(connSeq, total), FloorMod(connSeq, total);
    MulDistributes(q, 1, total);
    if r + 1 < total {
      FloorUnique(connSeq + 1, total, q, r + 1);
    } else {
      FloorUnique(connSeq + 1, total, q + 1, 0);
    }
    FloorUnique(0, total, 0, 0);
  }

  /** The failing case: three servers. The last connection before the wrap and the first behind
      it both start at server 0. */
  lemma {:induction false} RingBreaksForThree()
    ensures var last := SEQ_LIMIT - 1;
            && StartOf(last, 3) == 0 && StartOf(Next(last), 3) == 0
            && StartOf(Next(last), 3) != Cyclic(StartOf(last, 3), 1, 3)
  {
    FloorUnique(SEQ_LIMIT - 1, 3, 1_431_655_765, 0);
    FloorUnique(0, 3, 0, 0);
  }

  /* ---- whole runs of the factory ---- */

  function Count(starts: seq<nat>, e: nat): nat {
    if starts == [] then 0 else Count(starts[..|starts| - 1], e) + if starts[|starts| - 1] == e then 1 else 0
  }

  lemma {:induction false} CountIsFirsts(starts: seq<nat>, from: nat, e: nat, total: nat)
    requires total > 0 && forall i :: 0 <= i < |starts| ==> starts[i] == StartOf(from + i, total)
    ensures Count(starts, e) == Firsts(from, from + |starts|, e, total)
    decreases |starts|
  {
    if starts != [] {
      CountIsFirsts(starts[..|starts| - 1], from, e, total);
    }
  }

  /** N connections in a row, round robin, counter not wrapping: every server is first N / total
      times, rounded down or up. */
  method Dial(client: ClientObject, random: nat -> nat, n: nat) returns (starts: seq<nat>, cfgs: seq<Config>)
    requires client.openStrategy.RoundRobin? && client.endpoints != []
    requires client.connSeq < SEQ_LIMIT && client.connSeq + n <= SEQ_LIMIT
    modifies client`connSeq
    ensures |starts| == |cfgs| == n && client.All() == old(client.All())
    ensures forall i :: 0 <= i < n ==>
              starts[i] < |client.All()| && [cfgs[i].primary] + cfgs[i].failover == Rotation(client.All(), starts[i])
    ensures forall e :: 0 <= e < |client.All()| ==>
              FloorDiv(n, |client.All()|) <= Count(starts, e) <= FloorDiv(n + |client.All()| - 1, |client.All()|)
  {
    ghost var from, total := client.connSeq, |client.All()|;
    starts, cfgs := [], [];
    while |starts| < n
      invariant |starts| == |cfgs| <= n
      invariant client.connSeq == if from + |starts| < SEQ_LIMIT then from + |starts| else 0
      invariant forall i :: 0 <= i < |starts| ==> starts[i] == StartOf(from + i, total)
      invariant forall i :: 0 <= i < |starts| ==>
                  [cfgs[i].primary] + cfgs[i].failover == Rotation(client.All(), starts[i])
    {
      var cfg, start := client.PoolFactory(random(|starts|));
      starts, cfgs := starts + [start], cfgs + [cfg];
    }
    forall e | 0 <= e < total
      ensures FloorDiv(n, total) <= Count(starts, e) <= FloorDiv(n + total - 1, total)
    {
      CountIsFirsts(starts, from, e, total);
      RoundRobinIsFair(from, n, e, total);
    }
  }
}
